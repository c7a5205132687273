/** The replicated content-addressed store (core/cas/cas.go) over backends that keep each block in
    one file (core/cas/fsbackend.go). The address function is a parameter. */
module CAS {
  import opened Wrappers

  type Bytes = seq<bv8>
  type Addr = string
  type Files = map<Addr, Bytes>

  /** What every backend holds, by the identity of the backend. */
  type Disks = map<nat, Files>

  ghost predicate CollisionFree(address: Bytes -> Addr) {
    forall a, b :: address(a) == address(b) ==> a == b
  }

  /** What a backend answers to Get: an error, a nil slice or a slice that is not nil. */
  datatype Answer = Failed | Nil | Data(bytes: Bytes)

  function BytesOf(a: Answer): Bytes {
    if a.Data? then a.bytes else []
  }

  /** What a backend answers to Has: whether it holds the block, or an error. */
  datatype HasAnswer = Says(present: bool) | HasFailed

  /** How a backend behaves during one call: whether Put takes effect, whether it reports success,
      and what Get and Has answer when that is not what the files say. */
  datatype Conduct = Conduct(writes: bool, reports: bool, get: Option<Answer>, has: Option<HasAnswer>)

  const UP := Conduct(true, true, None, None)

  datatype CasError = TooFewCopies(copies: nat) | NotFound | NeedTwoBackends

  function FilesOf(disks: Disks, id: nat): Files {
    if id in disks then disks[id] else map[]
  }

  // ---- one backend -------------------------------------------------------------------------

  /** A block already present is not rewritten. */
  function PutAt(disks: Disks, id: nat, addr: Addr, data: Bytes, c: Conduct): Disks {
    if c.writes && addr !in FilesOf(disks, id) then disks[id := FilesOf(disks, id)[addr := data]] else disks
  }

  function AnswerAt(disks: Disks, id: nat, addr: Addr, c: Conduct): Answer {
    if c.get.Some? then c.get.value
    else if addr in FilesOf(disks, id) then Data(FilesOf(disks, id)[addr]) else Failed
  }

  /** Whether the backend claims the block; an error is no claim. */
  function HasAt(disks: Disks, id: nat, addr: Addr, c: Conduct): bool {
    match c.has
    case None => addr in FilesOf(disks, id)
    case Some(HasFailed) => false
    case Some(Says(present)) => present
  }

  // ---- the store ---------------------------------------------------------------------------

  function PutUpTo(disks: Disks, backends: seq<nat>, n: nat, addr: Addr, data: Bytes, cs: nat -> Conduct): Disks
    requires n <= |backends|
  {
    if n == 0 then disks
    else PutAt(PutUpTo(disks, backends, n - 1, addr, data, cs), backends[n - 1], addr, data, cs(n - 1))
  }

  function Accepted(n: nat, cs: nat -> Conduct): nat {
    if n == 0 then 0 else Accepted(n - 1, cs) + if cs(n - 1).reports then 1 else 0
  }

  predicate Verified(address: Bytes -> Addr, addr: Addr, a: Answer) {
    !a.Failed? && address(BytesOf(a)) == addr
  }

  /** The first backend from i on whose answer hashes to the address. */
  function FirstGood(address: Bytes -> Addr, disks: Disks, backends: seq<nat>, addr: Addr, cs: nat -> Conduct,
                     i: nat): nat
    decreases |backends| - i
  {
    if i >= |backends| || Verified(address, addr, AnswerAt(disks, backends[i], addr, cs(i))) then i
    else FirstGood(address, disks, backends, addr, cs, i + 1)
  }

  function HealUpTo(disks: Disks, backends: seq<nat>, n: nat, addr: Addr, data: Bytes, cs: nat -> Conduct): Disks
    requires n <= |backends|
  {
    if n == 0 then disks
    else
      var d := HealUpTo(disks, backends, n - 1, addr, data, cs);
      if HasAt(d, backends[n - 1], addr, cs(n - 1)) then d else PutAt(d, backends[n - 1], addr, data, cs(n - 1))
  }

  function Stored(address: Bytes -> Addr, disks: Disks, backends: seq<nat>, data: Bytes, cs: nat -> Conduct)
    : (Disks, Result<Addr, CasError>)
  {
    (PutUpTo(disks, backends, |backends|, address(data), data, cs),
     if Accepted(|backends|, cs) < 2 then Err(TooFewCopies(Accepted(|backends|, cs))) else Ok(address(data)))
  }

  function Fetched(address: Bytes -> Addr, disks: Disks, backends: seq<nat>, addr: Addr, cs: nat -> Conduct)
    : (Disks, Result<Bytes, CasError>)
  {
    var i := FirstGood(address, disks, backends, addr, cs, 0);
    if i >= |backends| || AnswerAt(disks, backends[i], addr, cs(i)).Nil? then (disks, Err(NotFound))
    else
      var data := BytesOf(AnswerAt(disks, backends[i], addr, cs(i)));
      (HealUpTo(disks, backends, |backends|, addr, data, cs), Ok(data))
  }

  class Store {
    const address: Bytes -> Addr
    const backends: seq<nat>
    var disks: Disks

    constructor (address: Bytes -> Addr, backends: seq<nat>, disks: Disks)
      ensures this.address == address && this.backends == backends && this.disks == disks
    {
      this.address, this.backends, this.disks := address, backends, disks;
    }

    method Put(data: Bytes, cs: nat -> Conduct) returns (r: Result<Addr, CasError>)
      modifies this`disks
      ensures (disks, r) == Stored(address, old(disks), backends, data, cs)
    {
      var addr := address(data);
      var ok := 0;
      for i := 0 to |backends|
        invariant disks == PutUpTo(old(disks), backends, i, addr, data, cs)
        invariant ok == Accepted(i, cs)
      {
        disks := PutAt(disks, backends[i], addr, data, cs(i));
        if !cs(i).reports {
          continue;
        }
        ok := ok + 1;
      }
      if ok < 2 {
        return Err(TooFewCopies(ok));
      }
      return Ok(addr);
    }

    method Get(addr: Addr, cs: nat -> Conduct) returns (r: Result<Bytes, CasError>)
      modifies this`disks
      ensures (disks, r) == Fetched(address, old(disks), backends, addr, cs)
    {
      var data := Nil;
      var i := 0;
      while i < |backends|
        invariant i <= |backends| && data == Nil
        invariant FirstGood(address, disks, backends, addr, cs, 0) == FirstGood(address, disks, backends, addr, cs, i)
      {
        var got := AnswerAt(disks, backends[i], addr, cs(i));
        if !got.Failed? && address(BytesOf(got)) == addr {
          data := got;
          break;
        }
        i := i + 1;
      }
      if data.Nil? {
        return Err(NotFound);
      }
      for k := 0 to |backends|
        invariant disks == HealUpTo(old(disks), backends, k, addr, data.bytes, cs)
      {
        if HasAt(disks, backends[k], addr, cs(k)) {
          continue;
        }
        disks := PutAt(disks, backends[k], addr, data.bytes, cs(k));
      }
      return Ok(data.bytes);
    }
  }

  /** NewStore counts backends; it does not ask whether they are different. */
  method NewStore(address: Bytes -> Addr, backends: seq<nat>, disks: Disks) returns (r: Result<Store, CasError>)
    ensures r.Ok? <==> |backends| >= 2
    ensures r.Ok? ==>
              fresh(r.value) && r.value.address == address && r.value.backends == backends && r.value.disks == disks
  {
    if |backends| < 2 {
      return Err(NeedTwoBackends);
    }
    var s := new Store(address, backends, disks);
    return Ok(s);
  }
}
