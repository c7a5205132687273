/** The file vault (core/vault/vault.go): files are cut into chunks, each sealed and put into the
    replicated store, and a sealed manifest lists their addresses. */
module Vault {
  import opened Wrappers
  import opened Collections
  import opened CAS
  import opened AEAD

  const CHUNK := 0x10_0000

  const KIND_CHUNK: Kind := 1
  const KIND_MANIFEST: Kind := 2

  datatype Manifest = Manifest(Name: string, Size: nat, Chunks: seq<Addr>)

  /** The manifest's text form. */
  datatype Codec = Codec(encode: Manifest -> Bytes, decode: Bytes -> Option<Manifest>)

  ghost predicate Decodes(codec: Codec) {
    forall m :: codec.decode(codec.encode(m)) == Some(m)
  }

  datatype Config = Config(key: Bytes, fingerprint: Bytes, cipher: Cipher, codec: Codec, address: Bytes -> Addr,
                           backends: seq<nat>)

  /** What the environment does: the k-th nonce, the backends during the k-th call of the store, and
      how much of the k-th write gets through when it fails. */
  datatype Weather = Weather(nonce: nat -> Option<Nonce>, backends: nat -> nat -> Conduct, write: nat -> Option<nat>)

  datatype VaultError = SealFailed | StoreFailed | ReadFailed | ManifestMissing | BadManifest | ChunkMissing(i: nat)
                      | DecryptFailed(i: nat) | WriteFailed(i: nat)

  /** Seals a block and stores it. */
  function BlockPut(v: Config, disks: Disks, plain: Bytes, kind: Kind, k: nat, w: Weather)
    : (Disks, Result<Addr, VaultError>)
  {
    match Sealed(v.cipher, v.key, plain, AAD(v.fingerprint, kind), w.nonce(k))
    case Err(_) => (disks, Err(SealFailed))
    case Ok(env) =>
      var (d, r) := Stored(v.address, disks, v.backends, env, w.backends(k));
      (d, if r.Ok? then Ok(r.value) else Err(StoreFailed))
  }

  /** The reading loop on what is left of the input, which ends or breaks off. */
  function ChunksPut(v: Config, disks: Disks, rest: Bytes, broken: bool, m: Manifest, w: Weather)
    : (Disks, Result<Manifest, VaultError>)
    decreases |rest|
  {
    var n := Min(|rest|, CHUNK);
    var end := if broken then Err(ReadFailed) else Ok(m);
    if n == 0 then (disks, end)
    else
      var (d, r) := BlockPut(v, disks, rest[..n], KIND_CHUNK, |m.Chunks|, w);
      if r.Err? then (d, Err(r.error))
      else
        var m' := m.(Chunks := m.Chunks + [r.value], Size := m.Size + n);
        if n < CHUNK then (d, if broken then Err(ReadFailed) else Ok(m')) else ChunksPut(v, d, rest[n..], broken, m', w)
  }

  function FilePut(v: Config, disks: Disks, name: string, data: Bytes, broken: bool, w: Weather)
    : (Disks, Result<Addr, VaultError>)
  {
    var (d, r) := ChunksPut(v, disks, data, broken, Manifest(name, 0, []), w);
    if r.Err? then (d, Err(r.error)) else BlockPut(v, d, v.codec.encode(r.value), KIND_MANIFEST, |r.value.Chunks|, w)
  }

  function ManifestGot(v: Config, disks: Disks, root: Addr, w: Weather): (Disks, Result<Manifest, VaultError>) {
    var (d, r) := Fetched(v.address, disks, v.backends, root, w.backends(0));
    if r.Err? then (d, Err(ManifestMissing))
    else
      match Open(v.cipher, v.key, r.value, AAD(v.fingerprint, KIND_MANIFEST))
      case Err(_) => (d, Err(BadManifest))
      case Ok(raw) => (d, if v.codec.decode(raw).None? then Err(BadManifest) else Ok(v.codec.decode(raw).value))
  }

  /** The writing loop from chunk i on, with what has been written so far. */
  function ChunksGot(v: Config, disks: Disks, chunks: seq<Addr>, i: nat, out: Bytes, w: Weather)
    : (Disks, Bytes, Result<(), VaultError>)
    decreases |chunks| - i
  {
    if i >= |chunks| then (disks, out, Ok(()))
    else
      var (d, r) := Fetched(v.address, disks, v.backends, chunks[i], w.backends(i + 1));
      if r.Err? then (d, out, Err(ChunkMissing(i)))
      else
        match Open(v.cipher, v.key, r.value, AAD(v.fingerprint, KIND_CHUNK))
        case Err(_) => (d, out, Err(DecryptFailed(i)))
        case Ok(plain) =>
          if w.write(i).Some? then (d, out + plain[..Min(|plain|, w.write(i).value)], Err(WriteFailed(i)))
          else ChunksGot(v, d, chunks, i + 1, out + plain, w)
  }

  function FileGot(v: Config, disks: Disks, root: Addr, w: Weather): (Disks, Bytes, Result<Manifest, VaultError>) {
    var (d, r) := ManifestGot(v, disks, root, w);
    if r.Err? then (d, [], Err(r.error))
    else
      var (d', out, e) := ChunksGot(v, d, r.value.Chunks, 0, [], w);
      (d', out, if e.Ok? then Ok(r.value) else Err(e.error))
  }

  /** Fills the buffer from the input as far as it goes. */
  method ReadFull(rest: Bytes, buf: array<bv8>) returns (n: nat)
    modifies buf
    ensures n == Min(|rest|, buf.Length) && buf[..n] == rest[..n]
  {
    n := 0;
    while n < buf.Length && n < |rest|
      invariant n <= Min(|rest|, buf.Length) && buf[..n] == rest[..n]
    {
      buf[n] := rest[n];
      n := n + 1;
    }
  }

  class FileVault {
    const v: Config
    const store: Store

    constructor (v: Config, store: Store)
      requires store.address == v.address && store.backends == v.backends
      ensures this.v == v && this.store == store
    {
      this.v, this.store := v, store;
    }

    ghost predicate Valid() {
      store.address == v.address && store.backends == v.backends
    }

    method PutFile(name: string, data: Bytes, broken: bool, w: Weather) returns (r: Result<Addr, VaultError>)
      requires Valid()
      modifies store
      ensures (store.disks, r) == FilePut(v, old(store.disks), name, data, broken, w)
    {
      hide Stored, Sealed, AAD;
      var m := Manifest(name, 0, []);
      var buf := new bv8[CHUNK];
      var rest := data;
      while true
        invariant ChunksPut(v, old(store.disks), data, broken, Manifest(name, 0, []), w) ==
                  ChunksPut(v, store.disks, rest, broken, m, w)
        decreases |rest|
      {
        var n := ReadFull(rest, buf);
        if n > 0 {
          var env := Seal(v.cipher, v.key, buf[..n], AAD(v.fingerprint, KIND_CHUNK), w.nonce(|m.Chunks|));
          if env.Err? {
            return Err(SealFailed);
          }
          var addr := store.Put(env.value, w.backends(|m.Chunks|));
          if addr.Err? {
            return Err(StoreFailed);
          }
          m := m.(Chunks := m.Chunks + [addr.value], Size := m.Size + n);
        }
        if n < CHUNK {
          if broken {
            return Err(ReadFailed);
          }
          break;
        }
        rest := rest[n..];
      }
      var env := Seal(v.cipher, v.key, v.codec.encode(m), AAD(v.fingerprint, KIND_MANIFEST), w.nonce(|m.Chunks|));
      if env.Err? {
        return Err(SealFailed);
      }
      var root := store.Put(env.value, w.backends(|m.Chunks|));
      return if root.Ok? then Ok(root.value) else Err(StoreFailed);
    }

    method GetManifest(root: Addr, w: Weather) returns (r: Result<Manifest, VaultError>)
      requires Valid()
      modifies store
      ensures (store.disks, r) == ManifestGot(v, old(store.disks), root, w)
    {
      var env := store.Get(root, w.backends(0));
      if env.Err? {
        return Err(ManifestMissing);
      }
      var raw := Open(v.cipher, v.key, env.value, AAD(v.fingerprint, KIND_MANIFEST));
      if raw.Err? {
        return Err(BadManifest);
      }
      var m := v.codec.decode(raw.value);
      return if m.None? then Err(BadManifest) else Ok(m.value);
    }

    /** Returns what was written next to the result. */
    method GetFile(root: Addr, w: Weather) returns (out: Bytes, r: Result<Manifest, VaultError>)
      requires Valid()
      modifies store
      ensures (store.disks, out, r) == FileGot(v, old(store.disks), root, w)
    {
      out := [];
      var m := GetManifest(root, w);
      if m.Err? {
        return out, Err(m.error);
      }
      ghost var d := store.disks;
      for i := 0 to |m.value.Chunks|
        invariant ChunksGot(v, d, m.value.Chunks, 0, [], w) == ChunksGot(v, store.disks, m.value.Chunks, i, out, w)
      {
        var env := store.Get(m.value.Chunks[i], w.backends(i + 1));
        if env.Err? {
          return out, Err(ChunkMissing(i));
        }
        var plain := Open(v.cipher, v.key, env.value, AAD(v.fingerprint, KIND_CHUNK));
        if plain.Err? {
          return out, Err(DecryptFailed(i));
        }
        if w.write(i).Some? {
          out := out + plain.value[..Min(|plain.value|, w.write(i).value)];
          return out, Err(WriteFailed(i));
        }
        out := out + plain.value;
      }
      return out, m;
    }
  }
}
