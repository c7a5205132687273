/** What the replicated store guarantees: it refines a plain map whatever the backends answer, it
    heals missing replicas, and it survives any spaced-out losses. */
module CASTheorems {
  import opened Wrappers
  import opened Collections
  import opened CAS

  // ---- reading -----------------------------------------------------------------------------

  lemma {:induction false} FirstGoodIsFirst(address: Bytes -> Addr, disks: Disks, backends: seq<nat>, addr: Addr,
                                            cs: nat -> Conduct, i: nat)
    requires i <= |backends|
    ensures var f := FirstGood(address, disks, backends, addr, cs, i);
            && i <= f <= |backends|
            && (f < |backends| ==> Verified(address, addr, AnswerAt(disks, backends[f], addr, cs(f))))
            && forall k :: i <= k < f ==> !Verified(address, addr, AnswerAt(disks, backends[k], addr, cs(k)))
    decreases |backends| - i
  {
    hide Verified, AnswerAt;
    if i < |backends| && !Verified(address, addr, AnswerAt(disks, backends[i], addr, cs(i))) {
      FirstGoodIsFirst(address, disks, backends, addr, cs, i + 1);
    }
  }

  /** Some backend answers with the block; a nil slice counts for the empty block. */
  ghost predicate Offered(disks: Disks, backends: seq<nat>, addr: Addr, data: Bytes, cs: nat -> Conduct) {
    exists i :: 0 <= i < |backends| && !AnswerAt(disks, backends[i], addr, cs(i)).Failed?
      && BytesOf(AnswerAt(disks, backends[i], addr, cs(i))) == data
  }

  /** Whatever the backends answer and in whatever order, a Get of the address of data returns
      exactly data or ErrNotFound. A block that is not empty is returned if and only if some backend
      answers with it. The empty block is returned if and only if the first backend that answers
      with it does so with a slice that is not nil. */
  lemma GetRefinesMap(address: Bytes -> Addr, disks: Disks, backends: seq<nat>, data: Bytes, cs: nat -> Conduct)
    requires CollisionFree(address)
    ensures var addr := address(data);
            var r := Fetched(address, disks, backends, addr, cs).1;
            && (r == Ok(data) || r == Err(NotFound))
            && (data != [] ==> (r == Ok(data) <==> Offered(disks, backends, addr, data, cs)))
            && (r == Ok(data) ==> Offered(disks, backends, addr, data, cs))
            && (Offered(disks, backends, addr, data, cs) ==>
                  var f := FirstGood(address, disks, backends, addr, cs, 0);
                  f < |backends| && (r == Ok(data) <==> AnswerAt(disks, backends[f], addr, cs(f)) == Data(data)))
  {
    var addr := address(data);
    hide AnswerAt, HealUpTo;
    FirstGoodIsFirst(address, disks, backends, addr, cs, 0);
    var f := FirstGood(address, disks, backends, addr, cs, 0);
    if f < |backends| {
      assert BytesOf(AnswerAt(disks, backends[f], addr, cs(f))) == data;
    }
  }

  // ---- what Put and Get leave on the backends ----------------------------------------------

  /** A backend gains the block if it is among the first n, and loses nothing. */
  ghost predicate Gains(before: Files, after: Files, addr: Addr, data: Bytes, told: bool) {
    && (forall a :: a in before ==> a in after && after[a] == before[a])
    && (forall a :: a in after && a !in before ==> a == addr && after[a] == data)
    && (told ==> addr in after)
    && (!told ==> after == before)
  }

  ghost predicate ToldToWrite(backends: seq<nat>, n: nat, cs: nat -> Conduct, id: nat)
    requires n <= |backends|
  {
    exists i :: 0 <= i < n && backends[i] == id && cs(i).writes
  }

  lemma {:induction false} PutEffect(disks: Disks, backends: seq<nat>, n: nat, addr: Addr, data: Bytes,
                                     cs: nat -> Conduct, id: nat)
    requires n <= |backends|
    ensures Gains(FilesOf(disks, id), FilesOf(PutUpTo(disks, backends, n, addr, data, cs), id), addr, data,
                  ToldToWrite(backends, n, cs, id))
  {
    if n > 0 {
      PutEffect(disks, backends, n - 1, addr, data, cs, id);
      assert ToldToWrite(backends, n, cs, id) <==>
             ToldToWrite(backends, n - 1, cs, id) || (backends[n - 1] == id && cs(n - 1).writes);
    }
  }

  /** Healing loses nothing, and writes only the block it read. */
  lemma {:induction false} HealGains(disks: Disks, backends: seq<nat>, n: nat, addr: Addr, data: Bytes,
                                     cs: nat -> Conduct, id: nat)
    requires n <= |backends|
    ensures var before, after := FilesOf(disks, id), FilesOf(HealUpTo(disks, backends, n, addr, data, cs), id);
            && (forall a :: a in before ==> a in after && after[a] == before[a])
            && (forall a :: a in after && a !in before ==> a == addr && after[a] == data)
  {
    if n > 0 {
      HealGains(disks, backends, n - 1, addr, data, cs, id);
    }
  }

  /** With every backend up, healing gives each of them a copy. */
  lemma {:induction false} HealAllUp(disks: Disks, backends: seq<nat>, n: nat, addr: Addr, data: Bytes,
                                     cs: nat -> Conduct, id: nat)
    requires n <= |backends| && (forall i :: 0 <= i < n ==> cs(i) == UP) && id in backends[..n]
    ensures addr in FilesOf(HealUpTo(disks, backends, n, addr, data, cs), id)
  {
    var d := HealUpTo(disks, backends, n - 1, addr, data, cs);
    assert cs(n - 1) == UP;
    if backends[n - 1] != id {
      assert backends[..n] == backends[..n - 1] + [backends[n - 1]];
      HealAllUp(disks, backends, n - 1, addr, data, cs, id);
    }
  }

  /** The backends that report success, by position. */
  function Reporters(n: nat, cs: nat -> Conduct): set<nat> {
    set i: nat | i < n && cs(i).reports
  }

  lemma {:induction false} AcceptedIsCount(n: nat, cs: nat -> Conduct)
    ensures Accepted(n, cs) == |Reporters(n, cs)|
  {
    if n > 0 {
      AcceptedIsCount(n - 1, cs);
      if cs(n - 1).reports {
        assert Reporters(n, cs) == Reporters(n - 1, cs) + {n - 1};
      } else {
        assert Reporters(n, cs) == Reporters(n - 1, cs);
      }
    } else {
      assert Reporters(0, cs) == {};
    }
  }

  /** Two different positions report success. */
  ghost predicate TwoAccept(backends: seq<nat>, cs: nat -> Conduct) {
    exists i, j :: 0 <= i < j < |backends| && cs(i).reports && cs(j).reports
  }

  /** A Put succeeds, with the address of the data, exactly when at least two of the listed backends
      report success, however many others fail; otherwise the error says how many did. Each backend
      that takes the write gains the block, and nothing else moves. */
  lemma PutAnswers(address: Bytes -> Addr, disks: Disks, backends: seq<nat>, data: Bytes, cs: nat -> Conduct)
    ensures var (d, r) := Stored(address, disks, backends, data, cs);
            && (r.Ok? <==> TwoAccept(backends, cs))
            && (r.Ok? ==> r.value == address(data))
            && (r.Err? ==> r.error == TooFewCopies(|Reporters(|backends|, cs)|))
            && forall id :: Gains(FilesOf(disks, id), FilesOf(d, id), address(data), data,
                                  exists i :: 0 <= i < |backends| && backends[i] == id && cs(i).writes)
  {
    var (d, r) := Stored(address, disks, backends, data, cs);
    AcceptedIsCount(|backends|, cs);
    PairIffTwo(Reporters(|backends|, cs));
    hide PutUpTo, Accepted, FilesOf;
    if TwoAccept(backends, cs) {
      var i, j :| 0 <= i < j < |backends| && cs(i).reports && cs(j).reports;
      assert i in Reporters(|backends|, cs) && j in Reporters(|backends|, cs);
    }
    forall id ensures Gains(FilesOf(disks, id), FilesOf(d, id), address(data), data,
                            exists i :: 0 <= i < |backends| && backends[i] == id && cs(i).writes)
    {
      PutEffect(disks, backends, |backends|, address(data), data, cs, id);
    }
  }

  lemma PairIffTwo(s: set<nat>)
    ensures |s| >= 2 <==> exists i, j :: i in s && j in s && i < j
  {
    if i, j :| i in s && j in s && i < j {
      SubsetSize({i, j}, s);
    }
    if |s| >= 2 {
      var i :| i in s;
      SubsetSize(s, {i} + (s - {i}));
      assert |s - {i}| >= 1;
      var j :| j in s - {i};
      assert i < j || j < i;
    }
  }

  /** What a Get leaves on the backends: nothing new when it finds nothing, and otherwise a copy on
      exactly those that had one or that take the write without claiming to have the block - an error
      of Has is no such claim. */
  lemma GetHeals(address: Bytes -> Addr, disks: Disks, backends: seq<nat>, addr: Addr, cs: nat -> Conduct, id: nat)
    ensures var (d, r) := Fetched(address, disks, backends, addr, cs);
            && (r.Err? ==> d == disks)
            && (r.Ok? ==>
                  && (addr in FilesOf(d, id) <==>
                        || addr in FilesOf(disks, id)
                        || (exists i :: 0 <= i < |backends| && backends[i] == id && cs(i).writes
                              && cs(i).has != Some(Says(true))))
                  && (addr in FilesOf(d, id) && addr !in FilesOf(disks, id) ==> FilesOf(d, id)[addr] == r.value))
  {
    var (d, r) := Fetched(address, disks, backends, addr, cs);
    if r.Ok? {
      HealExact(disks, backends, |backends|, addr, r.value, cs, id);
    }
  }

  lemma {:induction false} HealExact(disks: Disks, backends: seq<nat>, n: nat, addr: Addr, data: Bytes,
                                     cs: nat -> Conduct, id: nat)
    requires n <= |backends|
    ensures var before, after := FilesOf(disks, id), FilesOf(HealUpTo(disks, backends, n, addr, data, cs), id);
            && (addr in after <==> addr in before || ToldToHeal(backends, n, cs, id))
            && (addr in after && addr !in before ==> after[addr] == data)
            && (addr in before ==> addr in after && after[addr] == before[addr])
  {
    if n > 0 {
      HealExact(disks, backends, n - 1, addr, data, cs, id);
      assert ToldToHeal(backends, n, cs, id) <==>
             ToldToHeal(backends, n - 1, cs, id)
             || (backends[n - 1] == id && cs(n - 1).writes && cs(n - 1).has != Some(Says(true)));
    }
  }

  ghost predicate ToldToHeal(backends: seq<nat>, n: nat, cs: nat -> Conduct, id: nat)
    requires n <= |backends|
  {
    exists i :: 0 <= i < n && backends[i] == id && cs(i).writes && cs(i).has != Some(Says(true))
  }

  ghost predicate AllUp(backends: seq<nat>, cs: nat -> Conduct) {
    forall i :: 0 <= i < |backends| ==> cs(i) == UP
  }

  /** The backend holds bytes under the address that do not hash to it. */
  predicate Corrupted(address: Bytes -> Addr, disks: Disks, id: nat, addr: Addr) {
    addr in FilesOf(disks, id) && address(FilesOf(disks, id)[addr]) != addr
  }

  predicate Holds(disks: Disks, id: nat, addr: Addr, data: Bytes) {
    addr in FilesOf(disks, id) && FilesOf(disks, id)[addr] == data
  }

  /** With every backend up, a Get succeeds if and only if one of them holds a good copy. */
  lemma GetSucceedsIff(address: Bytes -> Addr, disks: Disks, backends: seq<nat>, data: Bytes, cs: nat -> Conduct)
    requires CollisionFree(address) && AllUp(backends, cs)
    ensures Fetched(address, disks, backends, address(data), cs).1 == Ok(data) <==>
            exists i :: 0 <= i < |backends| && Holds(disks, backends[i], address(data), data)
  {
    GetRefinesMap(address, disks, backends, data, cs);
    var addr := address(data);
    hide Fetched, FirstGood;
    forall i | 0 <= i < |backends|
      ensures AnswerAt(disks, backends[i], addr, cs(i)) ==
              if addr in FilesOf(disks, backends[i]) then Data(FilesOf(disks, backends[i])[addr]) else Failed
    {
      assert cs(i) == UP;
    }
    FirstGoodIsFirst(address, disks, backends, addr, cs, 0);
    if i :| 0 <= i < |backends| && Holds(disks, backends[i], addr, data) {
      assert Offered(disks, backends, addr, data, cs);
    }
  }

  /** After a successful Get with every backend up, a backend holds the good copy if and only if it
      did not hold a corrupted one before: missing copies are restored, corrupted ones stay. */
  lemma HealsUnlessCorrupted(address: Bytes -> Addr, disks: Disks, backends: seq<nat>, data: Bytes, cs: nat -> Conduct,
                             id: nat)
    requires CollisionFree(address) && AllUp(backends, cs) && id in backends
    requires Fetched(address, disks, backends, address(data), cs).1 == Ok(data)
    ensures Holds(Fetched(address, disks, backends, address(data), cs).0, id, address(data), data) <==>
            !Corrupted(address, disks, id, address(data))
  {
    var addr := address(data);
    assert backends[..|backends|] == backends;
    HealAllUp(disks, backends, |backends|, addr, data, cs, id);
    HealGains(disks, backends, |backends|, addr, data, cs, id);
    hide FirstGood, HealUpTo, AnswerAt;
    assert Fetched(address, disks, backends, addr, cs).0 == HealUpTo(disks, backends, |backends|, addr, data, cs);
  }

  /** The number of distinct backends among those listed that hold the block. */
  ghost function Copies(disks: Disks, backends: seq<nat>, addr: Addr, data: Bytes): set<nat> {
    set id | id in backends && Holds(disks, id, addr, data)
  }

  /** Every file hashes to its name. */
  ghost predicate Clean(address: Bytes -> Addr, disks: Disks) {
    forall id, a :: a in FilesOf(disks, id) ==> address(FilesOf(disks, id)[a]) == a
  }

  /** A success report means the block is there. */
  ghost predicate Truthful(disks: Disks, backends: seq<nat>, addr: Addr, cs: nat -> Conduct) {
    forall i :: 0 <= i < |backends| && cs(i).reports ==> cs(i).writes || addr in FilesOf(disks, backends[i])
  }

  /** The first n backends that reported success hold the block. */
  lemma {:induction false} ReportersHold(backends: seq<nat>, n: nat, cs: nat -> Conduct, holders: set<nat>)
    requires n <= |backends| && Distinct(backends)
    requires forall i :: 0 <= i < n && cs(i).reports ==> backends[i] in holders
    requires forall id :: id in holders ==> id in backends[..n]
    ensures Accepted(n, cs) <= |holders|
  {
    if n > 0 {
      var rest := holders - {backends[n - 1]};
      assert backends[..n] == backends[..n - 1] + [backends[n - 1]];
      ReportersHold(backends, n - 1, cs, rest);
    }
  }

  /** Over different backends a successful Put leaves at least two good copies. */
  lemma PutMakesTwoCopies(address: Bytes -> Addr, disks: Disks, backends: seq<nat>, data: Bytes, cs: nat -> Conduct)
    requires Clean(address, disks) && CollisionFree(address) && Distinct(backends)
    requires Truthful(disks, backends, address(data), cs) && Stored(address, disks, backends, data, cs).1.Ok?
    ensures Stored(address, disks, backends, data, cs).1 == Ok(address(data))
    ensures |Copies(Stored(address, disks, backends, data, cs).0, backends, address(data), data)| >= 2
  {
    var addr, d := address(data), Stored(address, disks, backends, data, cs).0;
    var copies := Copies(d, backends, addr, data);
    assert backends[..|backends|] == backends;
    hide PutUpTo;
    forall i | 0 <= i < |backends| && cs(i).reports ensures backends[i] in copies {
      var id := backends[i];
      PutEffect(disks, backends, |backends|, addr, data, cs, id);
      assert addr in FilesOf(disks, id) ==> FilesOf(disks, id)[addr] == data;
    }
    ReportersHold(backends, |backends|, cs, copies);
  }

  // ---- runs with losses --------------------------------------------------------------------

  datatype Op = OpPut(data: Bytes, cs: nat -> Conduct) | OpGet(addr: Addr, cs: nat -> Conduct)
    | OpLose(id: nat, addr: Addr)

  function Lose(disks: Disks, id: nat, addr: Addr): Disks {
    disks[id := FilesOf(disks, id) - {addr}]
  }

  function StepOp(address: Bytes -> Addr, disks: Disks, backends: seq<nat>, op: Op): Disks {
    match op
    case OpPut(data, cs) => Stored(address, disks, backends, data, cs).0
    case OpGet(addr, cs) => Fetched(address, disks, backends, addr, cs).0
    case OpLose(id, addr) => Lose(disks, id, addr)
  }

  function RunOps(address: Bytes -> Addr, disks: Disks, backends: seq<nat>, ops: seq<Op>): Disks
    decreases |ops|
  {
    if ops == [] then disks else RunOps(address, StepOp(address, disks, backends, ops[0]), backends, ops[1..])
  }

  /** A Get of the address with every backend up. */
  ghost predicate Restores(backends: seq<nat>, op: Op, addr: Addr) {
    op.OpGet? && op.addr == addr && AllUp(backends, op.cs)
  }

  predicate Loses(op: Op, addr: Addr) {
    op.OpLose? && op.addr == addr
  }

  /** Losses of the block are at single backends, and between any two of them it is read once with
      every backend up. Anything else may happen in between, with backends behaving in any way. */
  ghost predicate SpacedLosses(backends: seq<nat>, ops: seq<Op>, addr: Addr, healed: bool)
    decreases |ops|
  {
    ops == [] ||
    (&& (Loses(ops[0], addr) ==> healed)
     && SpacedLosses(backends, ops[1..], addr, (healed && !Loses(ops[0], addr)) || Restores(backends, ops[0], addr)))
  }

  /** Nothing but a loss removes or changes a copy, and everything written hashes to its name. */
  lemma StepKeepsCopies(address: Bytes -> Addr, disks: Disks, backends: seq<nat>, op: Op)
    requires Clean(address, disks)
    ensures Clean(address, StepOp(address, disks, backends, op))
    ensures !op.OpLose? ==> forall id, a :: a in FilesOf(disks, id) ==>
              a in FilesOf(StepOp(address, disks, backends, op), id)
              && FilesOf(StepOp(address, disks, backends, op), id)[a] == FilesOf(disks, id)[a]
  {
    var d := StepOp(address, disks, backends, op);
    match op
    case OpPut(data, cs) =>
      hide PutUpTo, FilesOf;
      forall id ensures Gains(FilesOf(disks, id), FilesOf(d, id), address(data), data,
                              ToldToWrite(backends, |backends|, cs, id)) {
        PutEffect(disks, backends, |backends|, address(data), data, cs, id);
      }
    case OpGet(addr, cs) =>
      GetStepClean(address, disks, backends, addr, cs);
    case OpLose(id, addr) =>
      forall i, a | a in FilesOf(d, i) ensures address(FilesOf(d, i)[a]) == a {
        assert a in FilesOf(disks, i);
      }
  }

  lemma GetStepClean(address: Bytes -> Addr, disks: Disks, backends: seq<nat>, addr: Addr, cs: nat -> Conduct)
    requires Clean(address, disks)
    ensures var d := Fetched(address, disks, backends, addr, cs).0;
            && Clean(address, d)
            && forall id, a :: a in FilesOf(disks, id) ==>
                 a in FilesOf(d, id) && FilesOf(d, id)[a] == FilesOf(disks, id)[a]
  {
    FirstGoodIsFirst(address, disks, backends, addr, cs, 0);
    var f, d := FirstGood(address, disks, backends, addr, cs, 0), Fetched(address, disks, backends, addr, cs).0;
    hide HealUpTo, FilesOf, FirstGood, AnswerAt;
    if d != disks {
      var data := BytesOf(AnswerAt(disks, backends[f], addr, cs(f)));
      assert address(data) == addr;
      forall id ensures
        && (forall a :: a in FilesOf(disks, id) ==> a in FilesOf(d, id) && FilesOf(d, id)[a] == FilesOf(disks, id)[a])
        && (forall a :: a in FilesOf(d, id) && a !in FilesOf(disks, id) ==> a == addr && FilesOf(d, id)[a] == data)
      {
        HealGains(disks, backends, |backends|, addr, data, cs, id);
      }
    }
  }

  function DistinctIds(backends: seq<nat>): set<nat> {
    set id | id in backends
  }

  /** A restoring Get of a block that has a copy gives one to every backend. */
  lemma RestoreIsFull(address: Bytes -> Addr, disks: Disks, backends: seq<nat>, data: Bytes, cs: nat -> Conduct)
    requires CollisionFree(address) && Clean(address, disks) && AllUp(backends, cs)
    requires Copies(disks, backends, address(data), data) != {}
    ensures var g := Fetched(address, disks, backends, address(data), cs);
            g.1 == Ok(data) && Copies(g.0, backends, address(data), data) == DistinctIds(backends)
  {
    var id :| id in Copies(disks, backends, address(data), data);
    var i :| 0 <= i < |backends| && backends[i] == id;
    assert Holds(disks, backends[i], address(data), data);
    GetSucceedsIff(address, disks, backends, data, cs);
    hide Fetched, Holds;
    var d := Fetched(address, disks, backends, address(data), cs).0;
    forall id | id in backends ensures Holds(d, id, address(data), data) {
      HealsUnlessCorrupted(address, disks, backends, data, cs, id);
    }
  }

  lemma LossTakesOne(disks: Disks, backends: seq<nat>, id: nat, addr: Addr, data: Bytes)
    ensures |Copies(Lose(disks, id, addr), backends, addr, data)| >= |Copies(disks, backends, addr, data)| - 1
  {
    LossRemoves(disks, backends, id, addr, data);
    hide Copies;
  }

  lemma LossOfAnother(disks: Disks, backends: seq<nat>, id: nat, other: Addr, addr: Addr, data: Bytes)
    requires other != addr
    ensures Copies(Lose(disks, id, other), backends, addr, data) == Copies(disks, backends, addr, data)
  {}

  lemma MoreCopies(disks: Disks, d: Disks, backends: seq<nat>, addr: Addr, data: Bytes)
    requires forall id, a :: a in FilesOf(disks, id) ==>
               a in FilesOf(d, id) && FilesOf(d, id)[a] == FilesOf(disks, id)[a]
    ensures |Copies(d, backends, addr, data)| >= |Copies(disks, backends, addr, data)|
  {
    SubsetSize(Copies(disks, backends, addr, data), Copies(d, backends, addr, data));
  }

  /** Enough copies to survive what may come next. */
  ghost predicate Survives(disks: Disks, backends: seq<nat>, addr: Addr, data: Bytes, healed: bool) {
    |Copies(disks, backends, addr, data)| >= if healed then 2 else 1
  }

  lemma StepSurvives(address: Bytes -> Addr, disks: Disks, backends: seq<nat>, op: Op, data: Bytes, healed: bool)
    requires CollisionFree(address) && Clean(address, disks) && |DistinctIds(backends)| >= 2
    requires Loses(op, address(data)) ==> healed
    requires Survives(disks, backends, address(data), data, healed)
    ensures Clean(address, StepOp(address, disks, backends, op))
    ensures Survives(StepOp(address, disks, backends, op), backends, address(data), data,
                     (healed && !Loses(op, address(data))) || Restores(backends, op, address(data)))
    ensures Restores(backends, op, address(data)) ==>
              Copies(StepOp(address, disks, backends, op), backends, address(data), data) == DistinctIds(backends)
  {
    var d := StepOp(address, disks, backends, op);
    StepKeepsCopies(address, disks, backends, op);
    hide Stored, Fetched, Clean, Copies;
    match op
    case OpLose(id, a) =>
      if a == address(data) {
        LossTakesOne(disks, backends, id, a, data);
      } else {
        LossOfAnother(disks, backends, id, a, address(data), data);
      }
    case OpPut(_, _) =>
      MoreCopies(disks, d, backends, address(data), data);
    case OpGet(a, cs) =>
      MoreCopies(disks, d, backends, address(data), data);
      if Restores(backends, op, address(data)) {
        RestoreIsFull(address, disks, backends, data, cs);
      }
  }

  /** Over at least two different backends, a block with two copies is never lost in a run whose
      losses are spaced out by reads with every backend up. */
  lemma {:induction false} BlockSurvives(address: Bytes -> Addr, disks: Disks, backends: seq<nat>, ops: seq<Op>,
                                         data: Bytes, healed: bool)
    requires CollisionFree(address) && Clean(address, disks) && |DistinctIds(backends)| >= 2
    requires SpacedLosses(backends, ops, address(data), healed)
    requires Survives(disks, backends, address(data), data, healed)
    ensures var d := RunOps(address, disks, backends, ops);
            Clean(address, d) && Copies(d, backends, address(data), data) != {}
    decreases |ops|
  {
    if ops == [] {
      hide Copies;
    } else {
      hide Clean, StepOp, Loses, Restores, Survives, Copies;
      StepSurvives(address, disks, backends, ops[0], data, healed);
      BlockSurvives(address, StepOp(address, disks, backends, ops[0]), backends, ops[1..], data,
                    (healed && !Loses(ops[0], address(data))) || Restores(backends, ops[0], address(data)));
    }
  }

  /** Right after each such read the block is on every backend again. */
  lemma FullAfterRestore(address: Bytes -> Addr, disks: Disks, backends: seq<nat>, ops: seq<Op>, data: Bytes,
                         healed: bool, cs: nat -> Conduct)
    requires CollisionFree(address) && Clean(address, disks) && |DistinctIds(backends)| >= 2
    requires SpacedLosses(backends, ops, address(data), healed) && AllUp(backends, cs)
    requires Survives(disks, backends, address(data), data, healed)
    ensures var g := Fetched(address, RunOps(address, disks, backends, ops), backends, address(data), cs);
            g.1 == Ok(data) && Copies(g.0, backends, address(data), data) == DistinctIds(backends)
  {
    BlockSurvives(address, disks, backends, ops, data, healed);
    hide *;
    RestoreIsFull(address, RunOps(address, disks, backends, ops), backends, data, cs);
  }

  /** A list that names one backend twice passes NewStore's count and Put's, and one loss takes the
      block with it: surviving every single loss needs two different backends. */
  lemma SurvivesAnyLossIff(address: Bytes -> Addr, backends: seq<nat>, data: Bytes, cs: nat -> Conduct)
    requires CollisionFree(address) && AllUp(backends, cs) && |backends| >= 2
    ensures Stored(address, map[], backends, data, cs).1 == Ok(address(data))
    ensures (forall id :: Copies(Lose(Stored(address, map[], backends, data, cs).0, id, address(data)), backends,
                                 address(data), data) != {})
       <==> |DistinctIds(backends)| >= 2
  {
    var addr, d := address(data), Stored(address, map[], backends, data, cs).0;
    AllAccepted(|backends|, backends, cs);
    hide PutUpTo, Accepted, FilesOf;
    var ids := DistinctIds(backends);
    forall id | id in backends ensures Holds(d, id, addr, data) {
      PutEffect(map[], backends, |backends|, addr, data, cs, id);
      var i :| 0 <= i < |backends| && backends[i] == id;
      assert cs(i).writes;
      assert ToldToWrite(backends, |backends|, cs, id);
      EmptyFiles(id);
    }
    assert Copies(d, backends, addr, data) == ids;
    forall id ensures Copies(Lose(d, id, addr), backends, addr, data) == ids - {id} {
      LossRemoves(d, backends, id, addr, data);
    }
    assert backends[0] in ids;
    if |ids| >= 2 {
      forall id ensures ids - {id} != {} {}
    } else {
      assert |ids - {backends[0]}| == 0;
    }
  }

  lemma EmptyFiles(id: nat)
    ensures FilesOf(map[], id) == map[]
  {}

  lemma LossRemoves(disks: Disks, backends: seq<nat>, id: nat, addr: Addr, data: Bytes)
    ensures Copies(Lose(disks, id, addr), backends, addr, data) == Copies(disks, backends, addr, data) - {id}
  {}

  lemma {:induction false} AllAccepted(n: nat, backends: seq<nat>, cs: nat -> Conduct)
    requires n <= |backends| && AllUp(backends, cs)
    ensures Accepted(n, cs) == n
  {
    if n > 0 {
      AllAccepted(n - 1, backends, cs);
      assert cs(n - 1) == UP;
    }
  }

  // ---- refinement over runs ----------------------------------------------------------------

  /** The plain map a run stands for: every successful Put binds the returned address. */
  function PlainMap(address: Bytes -> Addr, disks: Disks, backends: seq<nat>, ops: seq<Op>, bound: Files): Files
    decreases |ops|
  {
    if ops == [] then bound
    else
      var op := ops[0];
      var r := if op.OpPut? then Stored(address, disks, backends, op.data, op.cs).1 else Err(NotFound);
      PlainMap(address, StepOp(address, disks, backends, op), backends, ops[1..],
               if op.OpPut? && r.Ok? then bound[r.value := op.data] else bound)
  }

  lemma {:induction false} BindingsHash(address: Bytes -> Addr, disks: Disks, backends: seq<nat>, ops: seq<Op>,
                                        bound: Files)
    requires forall a :: a in bound ==> address(bound[a]) == a
    ensures forall a :: a in PlainMap(address, disks, backends, ops, bound) ==>
              address(PlainMap(address, disks, backends, ops, bound)[a]) == a
    decreases |ops|
  {
    if ops != [] {
      hide StepOp, Accepted, PutUpTo;
      var op := ops[0];
      var r := if op.OpPut? then Stored(address, disks, backends, op.data, op.cs).1 else Err(NotFound);
      BindingsHash(address, StepOp(address, disks, backends, op), backends, ops[1..],
                   if op.OpPut? && r.Ok? then bound[r.value := op.data] else bound);
    }
  }

  /** After any run, with backends that answer, lie, fail or lose blocks in any way, a Get of an
      address some Put returned gives what the plain map holds there, or ErrNotFound. */
  lemma RunRefinesPlainMap(address: Bytes -> Addr, disks: Disks, backends: seq<nat>, ops: seq<Op>, addr: Addr,
                           cs: nat -> Conduct)
    requires CollisionFree(address) && addr in PlainMap(address, disks, backends, ops, map[])
    ensures var r := Fetched(address, RunOps(address, disks, backends, ops), backends, addr, cs).1;
            r == Ok(PlainMap(address, disks, backends, ops, map[])[addr]) || r == Err(NotFound)
  {
    BindingsHash(address, disks, backends, ops, map[]);
    GetRefinesMap(address, RunOps(address, disks, backends, ops), backends,
                  PlainMap(address, disks, backends, ops, map[])[addr], cs);
  }
}
