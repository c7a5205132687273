/** The Save calls of an operation as a log: the states they leave in memory, and what the file
    holds after any of them. */
module SaveLog {
  import opened Wrappers
  import opened ControlModel

  /** The content of the file after the Save calls numbered lo..hi-1. */
  function FileAfter(env: Env, file: Snapshot, log: seq<Snapshot>, lo: nat, hi: nat): Snapshot
    requires lo <= hi <= |log|
    decreases hi
  {
    if hi == lo then file else if env.saved(hi - 1) then log[hi - 1] else FileAfter(env, file, log, lo, hi - 1)
  }

  /** The number of the last Save among lo..hi-1 that replaced the file. */
  function LastWrite(env: Env, lo: nat, hi: nat): Option<nat>
    decreases hi
  {
    if hi <= lo then None else if env.saved(hi - 1) then Some(hi - 1) else LastWrite(env, lo, hi - 1)
  }

  /** It determines the content of the file. */
  lemma {:induction false} FileIsLastWrite(env: Env, file: Snapshot, log: seq<Snapshot>, lo: nat, hi: nat)
    requires lo <= hi <= |log|
    ensures match LastWrite(env, lo, hi)
            case None => FileAfter(env, file, log, lo, hi) == file && forall j :: lo <= j < hi ==> !env.saved(j)
            case Some(i) =>
              && lo <= i < hi && env.saved(i) && FileAfter(env, file, log, lo, hi) == log[i]
              && forall j :: i < j < hi ==> !env.saved(j)
    decreases hi
  {
    if hi > lo {
      FileIsLastWrite(env, file, log, lo, hi - 1);
    }
  }

  lemma {:induction false} FileAfterPrefix(env: Env, file: Snapshot, log: seq<Snapshot>, log': seq<Snapshot>, lo: nat,
                                           hi: nat)
    requires lo <= hi <= |log| <= |log'| && log'[..|log|] == log
    ensures FileAfter(env, file, log', lo, hi) == FileAfter(env, file, log, lo, hi)
    decreases hi
  {
    if hi > lo {
      FileAfterPrefix(env, file, log, log', lo, hi - 1);
      assert log'[hi - 1] == log'[..|log|][hi - 1];
    }
  }

  lemma {:induction false} FileAfterSplit(env: Env, file: Snapshot, log: seq<Snapshot>, lo: nat, mid: nat, hi: nat)
    requires lo <= mid <= hi <= |log|
    ensures FileAfter(env, file, log, lo, hi) == FileAfter(env, FileAfter(env, file, log, lo, mid), log, mid, hi)
    decreases hi
  {
    if hi > mid {
      FileAfterSplit(env, file, log, lo, mid, hi - 1);
    }
  }

  /** The file always holds a state memory was in: its content before, or one of the logged ones. */
  lemma {:induction false} FileIsSomeState(env: Env, file: Snapshot, log: seq<Snapshot>, lo: nat, hi: nat)
    requires lo <= hi <= |log|
    ensures var f := FileAfter(env, file, log, lo, hi);
            f == file || (exists i :: lo <= i < hi && env.saved(i) && f == log[i])
    decreases hi
  {
    if hi > lo {
      FileIsSomeState(env, file, log, lo, hi - 1);
    }
  }

  /** From st to t only Save calls happened. */
  ghost predicate Chain(env: Env, st: StoreState, t: StoreState) {
    && |st.log| <= |t.log| && t.log[..|st.log|] == st.log
    && t.mem == (if |t.log| == |st.log| then st.mem else t.log[|t.log| - 1])
    && t.disk == FileAfter(env, st.disk, t.log, |st.log|, |t.log|)
  }

  lemma ChainReflexive(env: Env, st: StoreState)
    ensures Chain(env, st, st)
  {}

  lemma CommitChain(env: Env, st: StoreState, mem: Snapshot)
    ensures Chain(env, st, Commit(env, st, mem))
  {
    var n, t := |st.log|, Commit(env, st, mem);
    assert t.log[..n] == st.log;
    assert FileAfter(env, st.disk, t.log, n, n) == st.disk;
  }

  lemma ChainTransitive(env: Env, st: StoreState, t: StoreState, u: StoreState)
    requires Chain(env, st, t) && Chain(env, t, u)
    ensures Chain(env, st, u)
    ensures forall i :: |st.log| <= i < |t.log| ==> u.log[i] == t.log[i]
  {
    hide FileAfter;
    assert u.log[..|st.log|] == u.log[..|t.log|][..|st.log|];
    FileAfterPrefix(env, st.disk, t.log, u.log, |st.log|, |t.log|);
    FileAfterSplit(env, st.disk, u.log, |st.log|, |t.log|, |u.log|);
    forall i | |st.log| <= i < |t.log| ensures u.log[i] == t.log[i] {
      assert u.log[i] == u.log[..|t.log|][i];
    }
  }
}
