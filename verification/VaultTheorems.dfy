/** The vault round trip, whatever the backends do, and end to end over runs with losses. */
module VaultTheorems {
  import opened Wrappers
  import opened Collections
  import opened CAS
  import opened CASTheorems
  import opened AEAD
  import opened Vault

  ghost predicate Sound(v: Config) {
    CollisionFree(v.address) && Inverts(v.cipher) && Decodes(v.codec)
  }

  /** The address names some sealing of the plain bytes for this purpose. */
  ghost predicate Seals(v: Config, addr: Addr, plain: Bytes, kind: Kind) {
    && |v.key| == KEY_SIZE
    && exists nonce: Nonce :: addr == v.address(Envelope(v.cipher, v.key, plain, AAD(v.fingerprint, kind), nonce))
  }

  /** The chunks cut the data from left to right, all but the last full and none empty. */
  ghost predicate Cuts(v: Config, chunks: seq<Addr>, data: Bytes)
    decreases |data|
  {
    if data == [] then chunks == []
    else
      var n := Min(|data|, CHUNK);
      chunks != [] && Seals(v, chunks[0], data[..n], KIND_CHUNK) && Cuts(v, chunks[1..], data[n..])
  }

  /** root is the address of a manifest that describes exactly this file. */
  ghost predicate Describes(v: Config, root: Addr, m: Manifest, name: string, data: Bytes) {
    && m.Name == name && m.Size == |data| && Cuts(v, m.Chunks, data)
    && Seals(v, root, v.codec.encode(m), KIND_MANIFEST)
  }

  function Ceiling(n: nat): nat {
    (n + 1_048_575) / 1_048_576
  }

  /** ceil(length / 1 MiB) chunks; chunk i seals bytes i * 1 MiB up to the next multiple or the end. */
  lemma {:induction false} CutsCount(v: Config, chunks: seq<Addr>, data: Bytes)
    requires Cuts(v, chunks, data)
    ensures |chunks| == Ceiling(|data|)
    ensures forall i :: 0 <= i < |chunks| ==>
              && i * 1_048_576 < |data|
              && Seals(v, chunks[i], data[i * 1_048_576..Min(|data|, (i + 1) * 1_048_576)], KIND_CHUNK)
    decreases |data|
  {
    hide Seals;
    if data != [] {
      var n := Min(|data|, CHUNK);
      CutsCount(v, chunks[1..], data[n..]);
      if |data| <= CHUNK {
        assert data[n..] == [];
      }
      forall i | 0 <= i < |chunks|
        ensures i * CHUNK < |data| && Seals(v, chunks[i], data[i * CHUNK..Min(|data|, (i + 1) * CHUNK)], KIND_CHUNK)
      {
        if i > 0 {
          var rest := data[n..];
          assert n == CHUNK && chunks[i] == chunks[1..][i - 1];
          assert rest[(i - 1) * CHUNK..Min(|rest|, i * CHUNK)] == data[i * CHUNK..Min(|data|, (i + 1) * CHUNK)];
        }
      }
    }
  }

  // ---- writing -----------------------------------------------------------------------------

  lemma BlockPutSeals(v: Config, disks: Disks, plain: Bytes, kind: Kind, k: nat, w: Weather)
    ensures var r := BlockPut(v, disks, plain, kind, k, w).1; r.Ok? ==> Seals(v, r.value, plain, kind)
  {
    hide PutUpTo, Accepted, AAD, Envelope;
  }

  lemma {:induction false} ChunksPutCuts(v: Config, disks: Disks, rest: Bytes, broken: bool, m: Manifest, w: Weather)
    ensures var r := ChunksPut(v, disks, rest, broken, m, w).1;
            r.Ok? ==>
              && !broken && r.value.Name == m.Name && r.value.Size == m.Size + |rest|
              && |m.Chunks| <= |r.value.Chunks| && r.value.Chunks[..|m.Chunks|] == m.Chunks
              && Cuts(v, r.value.Chunks[|m.Chunks|..], rest)
    decreases |rest|
  {
    hide BlockPut, Seals;
    var n, k := Min(|rest|, CHUNK), |m.Chunks|;
    if n > 0 {
      BlockPutSeals(v, disks, rest[..n], KIND_CHUNK, k, w);
      var (d, r) := BlockPut(v, disks, rest[..n], KIND_CHUNK, k, w);
      if r.Ok? {
        var m' := m.(Chunks := m.Chunks + [r.value], Size := m.Size + n);
        if n < CHUNK {
          assert m'.Chunks[k..] == [r.value] && rest[n..] == [] && [r.value][1..] == [];
        } else {
          ChunksPutCuts(v, d, rest[n..], broken, m', w);
          var end := ChunksPut(v, d, rest[n..], broken, m', w).1;
          if end.Ok? {
            assert end.value.Chunks[..k] == end.value.Chunks[..k + 1][..k];
            assert end.value.Chunks[k..][1..] == end.value.Chunks[k + 1..];
            assert end.value.Chunks[k] == end.value.Chunks[..k + 1][k];
          }
        }
      }
    }
  }

  /** Every successful PutFile leaves the address of a manifest that describes the file. */
  lemma PutFileDescribes(v: Config, disks: Disks, name: string, data: Bytes, broken: bool, w: Weather)
    ensures var r := FilePut(v, disks, name, data, broken, w).1;
            r.Ok? ==> !broken && exists m :: Describes(v, r.value, m, name, data)
  {
    hide ChunksPut, BlockPut, Seals, Cuts;
    ChunksPutCuts(v, disks, data, broken, Manifest(name, 0, []), w);
    var (d, r) := ChunksPut(v, disks, data, broken, Manifest(name, 0, []), w);
    if r.Ok? {
      BlockPutSeals(v, d, v.codec.encode(r.value), KIND_MANIFEST, |r.value.Chunks|, w);
      assert r.value.Chunks[0..] == r.value.Chunks;
      var root := FilePut(v, disks, name, data, broken, w).1;
      assert root.Ok? ==> Describes(v, root.value, r.value, name, data);
    }
  }

  // ---- reading, whatever the backends answer -----------------------------------------------

  /** Fetching a sealed block and opening it gives the plain bytes, or the block is not found. */
  lemma FetchOpens(v: Config, disks: Disks, addr: Addr, plain: Bytes, kind: Kind, cs: nat -> Conduct)
    requires Sound(v) && Seals(v, addr, plain, kind)
    ensures var r := Fetched(v.address, disks, v.backends, addr, cs).1;
            r.Ok? ==> Open(v.cipher, v.key, r.value, AAD(v.fingerprint, kind)) == Ok(plain)
  {
    var nonce: Nonce :| addr == v.address(Envelope(v.cipher, v.key, plain, AAD(v.fingerprint, kind), nonce));
    var env := Envelope(v.cipher, v.key, plain, AAD(v.fingerprint, kind), nonce);
    GetRefinesMap(v.address, disks, v.backends, env, cs);
    OpenUndoesSeal(v.cipher, v.key, plain, AAD(v.fingerprint, kind), Some(nonce));
  }

  /** How far a read got: everything, or a whole number of chunks before one that is missing, or
      some prefix when the writer failed. Nothing else can happen. */
  ghost predicate ReadOutcome(data: Bytes, got: Bytes, at: nat, r: Result<(), VaultError>) {
    match r
    case Ok(_) => got == data
    case Err(ChunkMissing(i)) => at <= i && (i - at) * CHUNK < |data| && got == data[..(i - at) * CHUNK]
    case Err(WriteFailed(i)) => |got| <= |data| && got == data[..|got|]
    case _ => false
  }

  lemma {:induction false} ChunksGotOutcome(v: Config, disks: Disks, chunks: seq<Addr>, i: nat, out: Bytes,
                                            data: Bytes, w: Weather)
    requires Sound(v) && i <= |chunks| && Cuts(v, chunks[i..], data)
    ensures var (d, out', r) := ChunksGot(v, disks, chunks, i, out, w);
            |out| <= |out'| && out'[..|out|] == out && ReadOutcome(data, out'[|out|..], i, r)
    decreases |chunks| - i
  {
    hide Fetched, Open, Seals, Sound;
    var (_, out', r) := ChunksGot(v, disks, chunks, i, out, w);
    if i == |chunks| {
      assert data == [] && out'[|out|..] == [];
    } else {
      var n := Min(|data|, CHUNK);
      var plain, rest := data[..n], data[n..];
      FetchOpens(v, disks, chunks[i], plain, KIND_CHUNK, w.backends(i + 1));
      var (d, f) := Fetched(v.address, disks, v.backends, chunks[i], w.backends(i + 1));
      if f.Err? {
        assert out'[|out|..] == [] == data[..0];
      } else if w.write(i).Some? {
        var k := Min(|plain|, w.write(i).value);
        assert out' == out + plain[..k] && out'[|out|..] == plain[..k] == data[..k];
      } else {
        assert chunks[i..][1..] == chunks[i + 1..];
        ChunksGotOutcome(v, d, chunks, i + 1, out + plain, rest, w);
        OutcomeStep(data, n, out, plain, out', i, r);
      }
    }
  }

  lemma OutcomeStep(data: Bytes, n: nat, out: Bytes, plain: Bytes, out': Bytes, i: nat, r: Result<(), VaultError>)
    requires n == Min(|data|, CHUNK) && plain == data[..n]
    requires |out + plain| <= |out'| && out'[..|out + plain|] == out + plain
    requires ReadOutcome(data[n..], out'[|out + plain|..], i + 1, r)
    ensures |out| <= |out'| && out'[..|out|] == out && ReadOutcome(data, out'[|out|..], i, r)
  {
    var got, rest := out'[|out|..], out'[|out + plain|..];
    assert out'[..|out|] == out'[..|out + plain|][..|out|];
    assert got == plain + rest by {
      assert got[..n] == out'[..|out + plain|][|out|..];
    }
    assert data == plain + data[n..];
    match r
    case Err(ChunkMissing(k)) =>
      assert n == CHUNK;
      assert data[..(k - i) * CHUNK] == plain + data[n..][..(k - i - 1) * CHUNK];
    case Err(WriteFailed(_)) =>
      assert data[..|got|] == plain + data[n..][..|rest|];
    case _ =>
  }

  /** Reading a described file, from any backends in any state that answer anything: a success
      writes exactly the file and returns its manifest; if a chunk is unavailable, what was written
      is a prefix of the file that ends on a chunk boundary; if the manifest is, nothing was. No
      decryption or parse error can occur. */
  lemma GetFileIsExact(v: Config, disks: Disks, root: Addr, m: Manifest, name: string, data: Bytes, w: Weather)
    requires Sound(v) && Describes(v, root, m, name, data)
    ensures var (d, out, r) := FileGot(v, disks, root, w);
            match r
            case Ok(got) => got == m && out == data
            case Err(ManifestMissing) => out == []
            case Err(ChunkMissing(i)) => i * CHUNK < |data| && out == data[..i * CHUNK]
            case Err(WriteFailed(_)) => |out| <= |data| && out == data[..|out|]
            case _ => false
  {
    var raw := v.codec.encode(m);
    assert v.codec.decode(raw) == Some(m);
    hide Fetched, Open, Seals, Cuts, ChunksGot, Sound, ReadOutcome, Inverts, CollisionFree;
    FetchOpens(v, disks, root, raw, KIND_MANIFEST, w.backends(0));
    var (d, r) := ManifestGot(v, disks, root, w);
    if r.Ok? {
      assert r.value == m;
      assert m.Chunks[0..] == m.Chunks;
      ChunksGotOutcome(v, d, m.Chunks, 0, [], data, w);
      var (_, out, e) := ChunksGot(v, d, m.Chunks, 0, [], w);
      assert out[0..] == out;
      Unfold(data, out, e);
    }
  }

  lemma Unfold(data: Bytes, got: Bytes, r: Result<(), VaultError>)
    requires ReadOutcome(data, got, 0, r)
    ensures match r
            case Ok(_) => got == data
            case Err(ChunkMissing(i)) => i * CHUNK < |data| && got == data[..i * CHUNK]
            case Err(WriteFailed(_)) => |got| <= |data| && got == data[..|got|]
            case _ => false
  {}

  /** For every file: what PutFile returned, GetFile reads back, if it succeeds, exactly, with the
      right size and ceil(length / 1 MiB) chunks - at any later time and under any weather. */
  lemma RoundTrip(v: Config, before: Disks, later: Disks, name: string, data: Bytes, broken: bool, w: Weather,
                  w': Weather)
    requires Sound(v) && FilePut(v, before, name, data, broken, w).1.Ok?
    ensures var (d, out, r) := FileGot(v, later, FilePut(v, before, name, data, broken, w).1.value, w');
            && (r.Ok? ==>
                  && out == data && r.value.Name == name && r.value.Size == |data|
                  && |r.value.Chunks| == Ceiling(|data|))
            && |out| <= |data| && out == data[..|out|]
  {
    var root := FilePut(v, before, name, data, broken, w).1.value;
    PutFileDescribes(v, before, name, data, broken, w);
    var m :| Describes(v, root, m, name, data);
    CutsCount(v, m.Chunks, data);
    GetFileIsExact(v, later, root, m, name, data, w');
    hide FilePut, FileGot, Cuts, Seals;
  }

  // ---- when reading succeeds ---------------------------------------------------------------

  /** Some backend has a file under the address. */
  ghost predicate Available(v: Config, disks: Disks, addr: Addr) {
    exists id :: id in v.backends && addr in FilesOf(disks, id)
  }

  ghost predicate CallsUp(v: Config, w: Weather) {
    forall k :: AllUp(v.backends, w.backends(k))
  }

  ghost predicate WritesWork(w: Weather) {
    forall k: nat :: w.write(k).None?
  }

  /** Among clean backends that are all up, a sealed block is fetched exactly when one has it. */
  lemma FetchSucceedsIff(v: Config, disks: Disks, addr: Addr, plain: Bytes, kind: Kind, cs: nat -> Conduct)
    requires Sound(v) && Seals(v, addr, plain, kind) && Clean(v.address, disks) && AllUp(v.backends, cs)
    ensures Fetched(v.address, disks, v.backends, addr, cs).1.Ok? <==> Available(v, disks, addr)
    ensures Clean(v.address, Fetched(v.address, disks, v.backends, addr, cs).0)
    ensures forall a :: Available(v, disks, a) ==> Available(v, Fetched(v.address, disks, v.backends, addr, cs).0, a)
    ensures forall a :: a != addr && Available(v, Fetched(v.address, disks, v.backends, addr, cs).0, a) ==>
      Available(v, disks, a)
  {
    var nonce: Nonce :| addr == v.address(Envelope(v.cipher, v.key, plain, AAD(v.fingerprint, kind), nonce));
    var env := Envelope(v.cipher, v.key, plain, AAD(v.fingerprint, kind), nonce);
    hide Inverts, Decodes, Envelope, AAD;
    GetSucceedsIff(v.address, disks, v.backends, env, cs);
    GetRefinesMap(v.address, disks, v.backends, env, cs);
    GetStepClean(v.address, disks, v.backends, addr, cs);
    FetchAddsOnly(v, disks, addr, cs);
    hide Fetched, AllUp;
    if id :| id in v.backends && addr in FilesOf(disks, id) {
      var i :| 0 <= i < |v.backends| && v.backends[i] == id;
      assert Holds(disks, v.backends[i], addr, env);
    }
  }

  lemma FetchAddsOnly(v: Config, disks: Disks, addr: Addr, cs: nat -> Conduct)
    ensures forall id, a :: a in FilesOf(Fetched(v.address, disks, v.backends, addr, cs).0, id) && a != addr ==>
      a in FilesOf(disks, id)
  {
    var d := Fetched(v.address, disks, v.backends, addr, cs).0;
    if d != disks {
      var f := FirstGood(v.address, disks, v.backends, addr, cs, 0);
      var data := BytesOf(AnswerAt(disks, v.backends[f], addr, cs(f)));
      hide HealUpTo, FirstGood, AnswerAt, FilesOf;
      forall id, a | a in FilesOf(d, id) && a != addr ensures a in FilesOf(disks, id) {
        HealGains(disks, v.backends, |v.backends|, addr, data, cs, id);
      }
    }
  }

  lemma {:induction false} ChunksGotSucceed(v: Config, disks: Disks, chunks: seq<Addr>, i: nat, out: Bytes,
                                            data: Bytes, w: Weather)
    requires Sound(v) && Clean(v.address, disks) && CallsUp(v, w) && WritesWork(w)
    requires i <= |chunks| && Cuts(v, chunks[i..], data)
    requires forall k :: i <= k < |chunks| ==> Available(v, disks, chunks[k])
    ensures ChunksGot(v, disks, chunks, i, out, w).2.Ok?
    decreases |chunks| - i
  {
    hide Fetched, Open, Seals, Sound, Clean, Available, AllUp;
    if i < |chunks| {
      var n := Min(|data|, CHUNK);
      FetchSucceedsIff(v, disks, chunks[i], data[..n], KIND_CHUNK, w.backends(i + 1));
      FetchOpens(v, disks, chunks[i], data[..n], KIND_CHUNK, w.backends(i + 1));
      assert chunks[i..][1..] == chunks[i + 1..];
      var d := Fetched(v.address, disks, v.backends, chunks[i], w.backends(i + 1)).0;
      ChunksGotSucceed(v, d, chunks, i + 1, out + data[..n], data[n..], w);
    }
  }

  /** With every backend up, a file is read back if its manifest and all its chunks are still
      somewhere. */
  lemma GetFileSucceeds(v: Config, disks: Disks, root: Addr, m: Manifest, name: string, data: Bytes, w: Weather)
    requires Sound(v) && Describes(v, root, m, name, data)
    requires Clean(v.address, disks) && CallsUp(v, w) && WritesWork(w)
    requires Available(v, disks, root) && forall k :: 0 <= k < |m.Chunks| ==> Available(v, disks, m.Chunks[k])
    ensures var (d, out, r) := FileGot(v, disks, root, w); r == Ok(m) && out == data
  {
    GetFileIsExact(v, disks, root, m, name, data, w);
    var raw := v.codec.encode(m);
    assert v.codec.decode(raw) == Some(m);
    hide Fetched, Open, Seals, Cuts, ChunksGot, Sound, Inverts, CollisionFree, Clean, Available, AllUp;
    FetchOpens(v, disks, root, raw, KIND_MANIFEST, w.backends(0));
    FetchSucceedsIff(v, disks, root, raw, KIND_MANIFEST, w.backends(0));
    var d := ManifestGot(v, disks, root, w).0;
    assert m.Chunks[0..] == m.Chunks;
    ChunksGotSucceed(v, d, m.Chunks, 0, [], data, w);
  }

  // ---- end to end --------------------------------------------------------------------------

  /** Every listed backend has the file. */
  ghost predicate Full(v: Config, disks: Disks, addr: Addr) {
    forall id :: id in v.backends ==> addr in FilesOf(disks, id)
  }

  ghost predicate NoncesWork(w: Weather) {
    forall k: nat :: w.nonce(k).Some?
  }

  /** With every backend up, a block is stored on all of them and nothing is lost. */
  lemma BlockPutFull(v: Config, disks: Disks, plain: Bytes, kind: Kind, k: nat, w: Weather)
    requires Clean(v.address, disks) && CallsUp(v, w) && NoncesWork(w) && |v.key| == KEY_SIZE && |v.backends| >= 2
    ensures var (d, r) := BlockPut(v, disks, plain, kind, k, w);
            && r.Ok? && Clean(v.address, d) && Full(v, d, r.value)
            && forall a :: Full(v, disks, a) ==> Full(v, d, a)
  {
    var env := Envelope(v.cipher, v.key, plain, AAD(v.fingerprint, kind), w.nonce(k).value);
    var cs, n := w.backends(k), |v.backends|;
    assert AllUp(v.backends, cs);
    hide Envelope, AAD, CallsUp;
    AllAccepted(n, v.backends, cs);
    StepKeepsCopies(v.address, disks, v.backends, OpPut(env, cs));
    var d := Stored(v.address, disks, v.backends, env, cs).0;
    hide PutUpTo, Accepted, FilesOf, Clean;
    forall id | id in v.backends ensures v.address(env) in FilesOf(d, id) {
      PutEffect(disks, v.backends, n, v.address(env), env, cs, id);
      var i :| 0 <= i < n && v.backends[i] == id;
      assert cs(i) == UP;
    }
  }

  lemma {:induction false} ChunksPutFull(v: Config, disks: Disks, rest: Bytes, m: Manifest, w: Weather)
    requires Clean(v.address, disks) && CallsUp(v, w) && NoncesWork(w) && |v.key| == KEY_SIZE && |v.backends| >= 2
    requires forall k :: 0 <= k < |m.Chunks| ==> Full(v, disks, m.Chunks[k])
    ensures var (d, r) := ChunksPut(v, disks, rest, false, m, w);
            && r.Ok? && Clean(v.address, d) && forall k :: 0 <= k < |r.value.Chunks| ==> Full(v, d, r.value.Chunks[k])
    decreases |rest|
  {
    hide BlockPut, Full, Clean, CallsUp, NoncesWork;
    var n := Min(|rest|, CHUNK);
    if n > 0 {
      BlockPutFull(v, disks, rest[..n], KIND_CHUNK, |m.Chunks|, w);
      var (d, r) := BlockPut(v, disks, rest[..n], KIND_CHUNK, |m.Chunks|, w);
      var m' := m.(Chunks := m.Chunks + [r.value], Size := m.Size + n);
      forall k | 0 <= k < |m'.Chunks| ensures Full(v, d, m'.Chunks[k]) {
        if k < |m.Chunks| {
          assert m'.Chunks[k] == m.Chunks[k];
        }
      }
      if n == CHUNK {
        ChunksPutFull(v, d, rest[n..], m', w);
      }
    }
  }

  /** What a run must grant one block: its losses are spaced out by reads with every backend up. */
  ghost predicate Spaced(v: Config, ops: seq<Op>, addr: Addr) {
    SpacedLosses(v.backends, ops, addr, true)
  }

  /** The addresses PutFile stored: the chunks and the manifest. */
  function FileBlocks(v: Config, disks: Disks, name: string, data: Bytes, w: Weather): seq<Addr> {
    var (_, m) := ChunksPut(v, disks, data, false, Manifest(name, 0, []), w);
    var (_, root) := FilePut(v, disks, name, data, false, w);
    (if m.Ok? then m.value.Chunks else []) + (if root.Ok? then [root.value] else [])
  }

  /** A block on every backend survives such a run. */
  lemma FullSurvives(v: Config, disks: Disks, ops: seq<Op>, addr: Addr, plain: Bytes, kind: Kind)
    requires Sound(v) && Seals(v, addr, plain, kind) && Clean(v.address, disks) && Full(v, disks, addr)
    requires |DistinctIds(v.backends)| >= 2 && Spaced(v, ops, addr)
    ensures Available(v, RunOps(v.address, disks, v.backends, ops), addr)
    ensures Clean(v.address, RunOps(v.address, disks, v.backends, ops))
  {
    var nonce: Nonce :| addr == v.address(Envelope(v.cipher, v.key, plain, AAD(v.fingerprint, kind), nonce));
    var env := Envelope(v.cipher, v.key, plain, AAD(v.fingerprint, kind), nonce);
    hide Inverts, Decodes, Envelope, AAD, RunOps, SpacedLosses;
    assert Copies(disks, v.backends, addr, env) == DistinctIds(v.backends);
    BlockSurvives(v.address, disks, v.backends, ops, env, true);
    var id :| id in Copies(RunOps(v.address, disks, v.backends, ops), v.backends, addr, env);
  }

  /** End to end: a file put with every backend up, followed by any run of the store in which the
      losses of each of its blocks are spaced out by reads, is read back exactly. */
  lemma FileSurvives(v: Config, disks: Disks, name: string, data: Bytes, ops: seq<Op>, w: Weather, w': Weather)
    requires Sound(v) && |v.key| == KEY_SIZE && Clean(v.address, disks) && |DistinctIds(v.backends)| >= 2
      && |v.backends| >= 2
    requires CallsUp(v, w) && NoncesWork(w) && CallsUp(v, w') && WritesWork(w')
    requires forall addr :: addr in FileBlocks(v, disks, name, data, w) ==> Spaced(v, ops, addr)
    ensures var (d, root) := FilePut(v, disks, name, data, false, w);
            && root.Ok?
            && var (_, out, r) := FileGot(v, RunOps(v.address, d, v.backends, ops), root.value, w');
               r.Ok? && out == data && r.value.Name == name && r.value.Size == |data|
  {
    hide Sound, Clean, Full, CallsUp, NoncesWork, WritesWork, BlockPut, ChunksPut, Seals, Cuts, FileGot, RunOps,
         DistinctIds, Spaced;
    var m0 := Manifest(name, 0, []);
    ChunksPutFull(v, disks, data, m0, w);
    ChunksPutCuts(v, disks, data, false, m0, w);
    var (d1, r1) := ChunksPut(v, disks, data, false, m0, w);
    var m := r1.value;
    BlockPutFull(v, d1, v.codec.encode(m), KIND_MANIFEST, |m.Chunks|, w);
    BlockPutSeals(v, d1, v.codec.encode(m), KIND_MANIFEST, |m.Chunks|, w);
    var (d, root) := FilePut(v, disks, name, data, false, w);
    assert m.Chunks[0..] == m.Chunks;
    assert Describes(v, root.value, m, name, data);
    assert FileBlocks(v, disks, name, data, w) == m.Chunks + [root.value];
    var later := RunOps(v.address, d, v.backends, ops);
    FullSurvives(v, d, ops, root.value, v.codec.encode(m), KIND_MANIFEST);
    forall k | 0 <= k < |m.Chunks| ensures Available(v, later, m.Chunks[k]) {
      CutsCount(v, m.Chunks, data);
      FullSurvives(v, d, ops, m.Chunks[k], data[k * CHUNK..Min(|data|, (k + 1) * CHUNK)], KIND_CHUNK);
    }
    hide Available;
    GetFileSucceeds(v, later, root.value, m, name, data, w');
  }

  // ---- exactly when writing succeeds -------------------------------------------------------

  /** The k-th block can be sealed. */
  ghost predicate SealWorks(v: Config, w: Weather, k: nat) {
    |v.key| == 32 && w.nonce(k).Some?
  }

  /** The k-th block can be sealed, and two backends take it. */
  ghost predicate CallWorks(v: Config, w: Weather, k: nat) {
    SealWorks(v, w, k) && TwoAccept(v.backends, w.backends(k))
  }

  lemma BlockPutAnswers(v: Config, disks: Disks, plain: Bytes, kind: Kind, k: nat, w: Weather)
    ensures var r := BlockPut(v, disks, plain, kind, k, w).1;
            && (r.Ok? <==> CallWorks(v, w, k))
            && (r.Err? ==> r.error == if SealWorks(v, w, k) then StoreFailed else SealFailed)
  {
    hide Stored, AAD, Sealed;
    SealAnswers(v.cipher, v.key, plain, AAD(v.fingerprint, kind), w.nonce(k));
    var s := Sealed(v.cipher, v.key, plain, AAD(v.fingerprint, kind), w.nonce(k));
    if s.Ok? {
      PutAnswers(v.address, disks, v.backends, s.value, w.backends(k));
    }
  }

  lemma CeilingStep(n: nat)
    ensures Ceiling(0) == 0
    ensures 0 < n < CHUNK ==> Ceiling(n) == 1
    ensures n >= CHUNK ==> Ceiling(n) == 1 + Ceiling(n - CHUNK)
  {}

  /** The first call among k..end-1 that does not work. */
  ghost predicate FirstFailure(v: Config, w: Weather, lo: nat, hi: nat, k: nat) {
    lo <= k < hi && !CallWorks(v, w, k) && forall j :: lo <= j < k ==> CallWorks(v, w, j)
  }

  /** The error of a failing call. */
  ghost predicate FailsFor(v: Config, w: Weather, e: VaultError, k: nat) {
    e == if SealWorks(v, w, k) then StoreFailed else SealFailed
  }

  lemma {:induction false} ChunksPutAnswers(v: Config, disks: Disks, rest: Bytes, broken: bool, m: Manifest, w: Weather)
    returns (k: nat)
    ensures var r, lo := ChunksPut(v, disks, rest, broken, m, w).1, |m.Chunks|;
            var hi := lo + Ceiling(|rest|);
            && (r.Ok? <==> !broken && forall j :: lo <= j < hi ==> CallWorks(v, w, j))
            && (r.Ok? ==> |r.value.Chunks| == hi)
            && (r.Err? ==>
                  || (FirstFailure(v, w, lo, hi, k) && FailsFor(v, w, r.error, k))
                  || (broken && r.error == ReadFailed && forall j :: lo <= j < hi ==> CallWorks(v, w, j)))
    decreases |rest|
  {
    hide BlockPut, CallWorks, SealWorks, Ceiling;
    var n, lo := Min(|rest|, CHUNK), |m.Chunks|;
    k := lo;
    CeilingStep(|rest|);
    if n > 0 {
      BlockPutAnswers(v, disks, rest[..n], KIND_CHUNK, lo, w);
      var (d, r) := BlockPut(v, disks, rest[..n], KIND_CHUNK, lo, w);
      if r.Ok? && n == CHUNK {
        var m' := m.(Chunks := m.Chunks + [r.value], Size := m.Size + n);
        k := ChunksPutAnswers(v, d, rest[n..], broken, m', w);
      } else {
        FullChunk(|rest|);
      }
    }
  }

  lemma FullChunk(n: nat)
    ensures n > 0 ==> Ceiling(n) >= 1
  {}

  /** PutFile succeeds exactly when the input can be read to its end and every block - each chunk and
      the manifest - can be sealed and is taken by two backends, whatever the other backends do.
      Otherwise the first block that fails gives the error, or the reader does. */
  lemma PutFileAnswers(v: Config, disks: Disks, name: string, data: Bytes, broken: bool, w: Weather) returns (k: nat)
    ensures var r, n := FilePut(v, disks, name, data, broken, w).1, Ceiling(|data|);
            && (r.Ok? <==> !broken && forall j :: 0 <= j <= n ==> CallWorks(v, w, j))
            && (r.Err? ==>
                  || (FirstFailure(v, w, 0, n + 1, k) && FailsFor(v, w, r.error, k))
                  || (broken && r.error == ReadFailed && forall j :: 0 <= j < n ==> CallWorks(v, w, j)))
  {
    hide BlockPut, ChunksPut, CallWorks, SealWorks, Ceiling;
    k := ChunksPutAnswers(v, disks, data, broken, Manifest(name, 0, []), w);
    var (d, r) := ChunksPut(v, disks, data, broken, Manifest(name, 0, []), w);
    if r.Ok? {
      BlockPutAnswers(v, d, v.codec.encode(r.value), KIND_MANIFEST, |r.value.Chunks|, w);
      k := Ceiling(|data|);
    }
  }

  // ---- reading anything --------------------------------------------------------------------

  lemma GetManifestAnswers(v: Config, disks: Disks, root: Addr, w: Weather)
    ensures var r, f := ManifestGot(v, disks, root, w).1, Fetched(v.address, disks, v.backends, root, w.backends(0)).1;
            && (r == Err(ManifestMissing) <==> f.Err?)
            && (f.Ok? ==>
                  var raw := Open(v.cipher, v.key, f.value, AAD(v.fingerprint, 2));
                  && (r.Ok? <==> raw.Ok? && v.codec.decode(raw.value).Some?)
                  && (r.Ok? ==> v.codec.decode(raw.value) == Some(r.value))
                  && (r.Err? ==> r.error == BadManifest))
  {
    hide Fetched, Open, AAD;
  }

  /** The bytes are a chunk of this vault under the address. */
  ghost predicate Authentic(v: Config, addr: Addr, plain: Bytes) {
    exists env :: v.address(env) == addr && Open(v.cipher, v.key, env, AAD(v.fingerprint, 1)) == Ok(plain)
  }

  function Concat(plains: seq<Bytes>): Bytes {
    if plains == [] then [] else plains[0] + Concat(plains[1..])
  }

  /** Reading from any list of chunk addresses: a success has written the authentic content of every
      one of them, in order, and no write failed; each failure names the chunk and has its cause. */
  lemma {:induction false} ChunksGotAnswers(v: Config, disks: Disks, chunks: seq<Addr>, i: nat, out: Bytes, w: Weather)
    returns (plains: seq<Bytes>)
    requires i <= |chunks|
    ensures var (_, out', r) := ChunksGot(v, disks, chunks, i, out, w);
            && i + |plains| <= |chunks|
            && (forall j :: 0 <= j < |plains| ==> Authentic(v, chunks[i + j], plains[j]))
            && (forall j :: i <= j < i + |plains| ==> w.write(j).None?)
            && (r.Ok? <==> i + |plains| == |chunks|)
            && (r.Ok? ==> out' == out + Concat(plains))
            && (r.Err? ==>
                  var k := i + |plains|;
                  && (r.error == ChunkMissing(k) || r.error == DecryptFailed(k) || r.error == WriteFailed(k))
                  && (r.error == WriteFailed(k) ==> w.write(k).Some?)
                  && (r.error != WriteFailed(k) ==> out' == out + Concat(plains)))
    decreases |chunks| - i
  {
    hide Fetched, Open, AAD, Authentic;
    plains := [];
    assert out + [] == out;
    if i < |chunks| {
      var (d, f) := Fetched(v.address, disks, v.backends, chunks[i], w.backends(i + 1));
      if f.Ok? {
        var plain := Open(v.cipher, v.key, f.value, AAD(v.fingerprint, KIND_CHUNK));
        if plain.Ok? && w.write(i).None? {
          var rest := ChunksGotAnswers(v, d, chunks, i + 1, out + plain.value, w);
          plains := [plain.value] + rest;
          FetchedAuthentic(v, disks, chunks[i], w.backends(i + 1), plain.value);
          forall j | 0 <= j < |plains| ensures Authentic(v, chunks[i + j], plains[j]) {
            if j > 0 {
              assert chunks[i + j] == chunks[i + 1 + (j - 1)] && plains[j] == rest[j - 1];
            }
          }
          assert plains[1..] == rest;
          assert out + plain.value + Concat(rest) == out + Concat(plains);
        }
      }
    }
  }

  lemma FetchedAuthentic(v: Config, disks: Disks, addr: Addr, cs: nat -> Conduct, plain: Bytes)
    requires Fetched(v.address, disks, v.backends, addr, cs).1.Ok?
    requires Open(v.cipher, v.key, Fetched(v.address, disks, v.backends, addr, cs).1.value, AAD(v.fingerprint, 1)) ==
      Ok(plain)
    ensures Authentic(v, addr, plain)
  {
    FirstGoodIsFirst(v.address, disks, v.backends, addr, cs, 0);
    hide Open, AAD, HealUpTo, FirstGood, AnswerAt;
  }
}
