/** Writes never outrun charging, over every interleaving of the node write protocol in which the
    control server may also stop at any Save call and start again from its file. */
module NodeTheorems {
  import opened Wrappers
  import opened ControlModel
  import ControlSpec
  import opened ControlRuns
  import Billing
  import Ledger
  import opened SaveLog
  import opened Crash
  import opened SaveTrace
  import opened Quota
  import opened CAS
  import opened ControlAnswers
  import opened Node

  // ---- memory and file ---------------------------------------------------------------------

  /** The nodes next to a control server that holds the snapshot. */
  function View(ns: Nodes, s: Snapshot): Nodes {
    ns.(control := Machine(StoreState(s, s, []), map[]))
  }

  ghost predicate Good(address: Bytes -> Addr, ns: Nodes, y: Id) {
    NodesSound(address, ns) && Covered(ns, {y})
  }

  /** What is stored and in flight is covered by the usage in memory and by the usage on file. */
  ghost predicate BothGood(address: Bytes -> Addr, ns: Nodes, y: Id) {
    Good(address, View(ns, ns.control.st.mem), y) && Good(address, View(ns, ns.control.st.disk), y)
  }

  /** Only the snapshot matters. */
  lemma GoodBySnapshot(address: Bytes -> Addr, ns: Nodes, t: Nodes, y: Id)
    requires ns.blocks == t.blocks && ns.requests == t.requests && ns.control.st.mem == t.control.st.mem
    requires Good(address, ns, y)
    ensures Good(address, t, y)
  {
    hide SpaceSound, QuotasFit, BodyAccepted, PaidBytes, InFlight, Node.Usage;
  }

  /** A state that differs quietly is as good. */
  lemma QuietGood(address: Bytes -> Addr, ns: Nodes, s: Snapshot, u: Snapshot, y: Id)
    requires Good(address, View(ns, s), y) && Quiet(s, u)
    ensures Good(address, View(ns, u), y)
  {
    hide *;
    GoodParts(address, View(ns, s), y);
    ViewSpace(address, ns, s);
    QuietSpace(s, u);
    QuietUse(s, u, y);
    OneUser(s, y);
    OneUser(u, y);
    var m := Machine(StoreState(u, u, []), map[]);
    ViewControl(ns, s, u);
    SoundControl(address, View(ns, s), m);
    MoreUsage(View(ns, s), m, {y});
    GoodFrom(address, View(ns, u), y);
  }

  lemma GoodParts(address: Bytes -> Addr, ns: Nodes, y: Id)
    requires Good(address, ns, y)
    ensures NodesSound(address, ns) && Covered(ns, {y})
  {}

  lemma GoodFrom(address: Bytes -> Addr, ns: Nodes, y: Id)
    requires NodesSound(address, ns) && Covered(ns, {y})
    ensures Good(address, ns, y)
  {}

  lemma ViewSpace(address: Bytes -> Addr, ns: Nodes, s: Snapshot)
    requires NodesSound(address, View(ns, s))
    ensures SpaceSound(s) && QuotasFit(s)
  {}

  lemma ViewControl(ns: Nodes, s: Snapshot, u: Snapshot)
    ensures View(ns, s).control.st.mem == s
    ensures View(ns, s).(control := Machine(StoreState(u, u, []), map[])) == View(ns, u)
  {}

  lemma QuietUse(s: Snapshot, u: Snapshot, y: Id)
    requires Quiet(s, u)
    ensures Used(u, y) == Used(s, y)
  {
    hide Billing.PeriodsSound, Ledger.InvoicesSound;
  }

  lemma QuietSpace(s: Snapshot, u: Snapshot)
    requires SpaceSound(s) && QuotasFit(s) && Quiet(s, u)
    ensures SpaceSound(u) && QuotasFit(u) && u.accounts.Keys == s.accounts.Keys
  {
    hide Billing.PeriodsSound, Ledger.InvoicesSound;
    forall x ensures 0 <= Used(u, x)
      && (x !in u.accounts ==> Used(u, x) == 0)
      && (x in u.accounts ==> u.accounts[x].PlanID in u.plans && Used(u, x) <= QuotaOf(u, x))
    {
      assert Used(u, x) == Used(s, x);
    }
  }

  // ---- the file after each action ----------------------------------------------------------

  /** After any part of a granted event the file is good. */
  lemma FileGood(address: Bytes -> Addr, env: Env, ns: Nodes, ev: Event, hi: nat, y: Id)
    requires EventGranted(ns, ev) && BothGood(address, ns, y)
    requires |ns.control.st.log| <= hi <= |StepStore(env, ns.control, ev).log|
    ensures var file := FileAfter(env, ns.control.st.disk, StepStore(env, ns.control, ev).log, |ns.control.st.log|, hi);
            Good(address, View(ns, file), y)
  {
    hide StepStore, EventGranted, FileAfter, Good, Quiet;
    var t := StepStore(env, ns.control, ev);
    var file := FileAfter(env, ns.control.st.disk, t.log, |ns.control.st.log|, hi);
    FileOfStep(env, ns.control, ev, hi);
    if Quiet(ns.control.st.mem, file) {
      QuietGood(address, ns, ns.control.st.mem, file, y);
    } else if file == t.mem {
      ControlGood(address, env, ns, ev, y);
    }
  }

  /** After a whole granted event memory is good. */
  lemma ControlGood(address: Bytes -> Addr, env: Env, ns: Nodes, ev: Event, y: Id)
    requires EventGranted(ns, ev) && BothGood(address, ns, y)
    ensures Good(address, View(ns, StepStore(env, ns.control, ev).mem), y)
  {
    hide *;
    BothParts(address, ns, y);
    ViewControl(ns, ns.control.st.mem, ns.control.st.mem);
    ViewNodes(ns, ns.control.st.mem);
    GoodBySnapshot(address, View(ns, ns.control.st.mem), ns, y);
    ControlEffect(address, env, ns, ev);
    ActGood(address, env, ns, Control(ev), y);
    ViewControl(ns, StepStore(env, ns.control, ev).mem, ns.control.st.mem);
    ViewNodes(ns, StepStore(env, ns.control, ev).mem);
    GoodBySnapshot(address, Node.Act(address, env, ns, Control(ev)), View(ns, StepStore(env, ns.control, ev).mem), y);
  }

  lemma BothParts(address: Bytes -> Addr, ns: Nodes, y: Id)
    requires BothGood(address, ns, y)
    ensures Good(address, View(ns, ns.control.st.mem), y) && Good(address, View(ns, ns.control.st.disk), y)
  {}

  lemma ViewNodes(ns: Nodes, s: Snapshot)
    ensures View(ns, s).blocks == ns.blocks && View(ns, s).requests == ns.requests
  {}

  lemma ActGood(address: Bytes -> Addr, env: Env, ns: Nodes, a: Action, y: Id)
    requires !a.Restart? && Granted(ns, a) && Good(address, ns, y)
    ensures Good(address, Node.Act(address, env, ns, a), y)
  {
    hide NodesSound, Covered, Granted, Node.Act;
    ActKeeps(address, env, ns, a, y);
  }

  lemma ControlEffect(address: Bytes -> Addr, env: Env, ns: Nodes, ev: Event)
    ensures var t := Node.Act(address, env, ns, Control(ev));
            && t.blocks == ns.blocks && t.requests == ns.requests
            && t.control.st.mem == StepStore(env, ns.control, ev).mem
    ensures EventGranted(ns, ev) ==> Granted(ns, Control(ev))
  {
    hide StepStore, EventGranted;
  }

  lemma ControlKeeps(address: Bytes -> Addr, env: Env, ns: Nodes, ev: Event, y: Id)
    requires EventGranted(ns, ev) && BothGood(address, ns, y)
    ensures BothGood(address, Node.Act(address, env, ns, Control(ev)), y)
  {
    hide StepStore, EventGranted, FileAfter, Good, Quiet;
    var t := StepStore(env, ns.control, ev);
    StepFile(env, ns.control, ev);
    ControlGood(address, env, ns, ev, y);
    FileGood(address, env, ns, ev, |t.log|, y);
  }

  /** The restarted server holds what was on file. */
  lemma RestartKeeps(address: Bytes -> Addr, env: Env, ns: Nodes, ev: Event, saves: nat, y: Id)
    requires EventGranted(ns, ev) && BothGood(address, ns, y)
    ensures BothGood(address, Node.Act(address, env, ns, Restart(ev, saves)), y)
  {
    hide StepStore, EventGranted, FileAfter, Good;
    if |ns.control.st.log| + saves <= |StepStore(env, ns.control, ev).log| {
      FileGood(address, env, ns, ev, |ns.control.st.log| + saves, y);
    }
  }

  /** A reservation that is answered with success has reached the file. */
  lemma ReserveFile(env: Env, m: Machine, id: Id, bytes: int, now: Time)
    ensures var t := StepStore(env, m, EvReserve(id, bytes, now));
            && (t.disk == m.st.disk || t.disk == t.mem)
            && (ControlSpec.Reserve(env, m.st, id, bytes, now).1.Ok? ==> t.disk == t.mem)
  {
    hide Wrap64;
  }

  /** A request that gives up frees what it held. */
  lemma DroppedGood(address: Bytes -> Addr, ns: Nodes, c: nat, y: Id)
    requires Good(address, ns, y)
    ensures Good(address, ns.(requests := ns.requests - {c}), y)
  {
    hide NodesSound, Covered;
    SoundRemove(address, ns, c);
    RemovedCovered(ns, c, {y});
  }

  lemma AskKeeps(address: Bytes -> Addr, env: Env, ns: Nodes, a: Action, y: Id)
    requires a.AskReserve? && BothGood(address, ns, y)
    ensures BothGood(address, Node.Act(address, env, ns, a), y)
  {
    hide *;
    var t := Node.Act(address, env, ns, a);
    var mem, file := ns.control.st.mem, ns.control.st.disk;
    BothParts(address, ns, y);
    ViewControl(ns, mem, mem);
    ViewNodes(ns, mem);
    GoodBySnapshot(address, View(ns, mem), ns, y);
    AskGood(address, env, ns, a, y);
    ViewControl(t, t.control.st.mem, mem);
    ViewNodes(t, t.control.st.mem);
    GoodBySnapshot(address, t, View(t, t.control.st.mem), y);
    DroppedGood(address, View(ns, file), a.c, y);
    AskEffect(address, env, ns, a);
    BothFrom(address, t, y);
  }

  lemma AskGood(address: Bytes -> Addr, env: Env, ns: Nodes, a: Action, y: Id)
    requires a.AskReserve? && Good(address, ns, y)
    ensures Good(address, Node.Act(address, env, ns, a), y)
  {
    hide NodesSound, Covered, Node.Act;
    AskReserveKeeps(address, env, ns, a.c, a.account, a.now, a.delivered, a.replied, {y});
  }

  /** Either memory has reached the file, or the file is the old one and at most the request is gone. */
  lemma AskEffect(address: Bytes -> Addr, env: Env, ns: Nodes, a: Action)
    requires a.AskReserve?
    ensures var t := Node.Act(address, env, ns, a);
            || t.control.st.disk == t.control.st.mem
            || View(t, t.control.st.disk) == View(ns, ns.control.st.disk)
            || View(t, t.control.st.disk) ==
               var v := View(ns, ns.control.st.disk); v.(requests := v.requests - {a.c})
  {
    hide StepStore, ControlSpec.Reserve;
    if a.account.Some? && a.c in ns.requests {
      ReserveFile(env, ns.control, a.account.value, |ns.requests[a.c].data|, a.now);
    }
  }

  /** Actions of requests alone do the same next to the file. */
  lemma RequestKeepsBoth(address: Bytes -> Addr, env: Env, ns: Nodes, a: Action, y: Id)
    requires a.Arrive? || a.CheckHas? || a.Finish? || a.Drop?
    requires Granted(ns, a) && BothGood(address, ns, y)
    ensures BothGood(address, Node.Act(address, env, ns, a), y)
  {
    hide *;
    BothParts(address, ns, y);
    RequestView(address, env, ns, a, ns.control.st.mem);
    RequestView(address, env, ns, a, ns.control.st.disk);
    ActGood(address, env, View(ns, ns.control.st.mem), a, y);
    ActGood(address, env, View(ns, ns.control.st.disk), a, y);
    BothFrom(address, Node.Act(address, env, ns, a), y);
  }

  lemma RequestView(address: Bytes -> Addr, env: Env, ns: Nodes, a: Action, s: Snapshot)
    requires a.Arrive? || a.CheckHas? || a.Finish? || a.Drop?
    ensures Node.Act(address, env, View(ns, s), a) == View(Node.Act(address, env, ns, a), s)
    ensures Node.Act(address, env, ns, a).control == ns.control
    ensures Granted(ns, a) ==> Granted(View(ns, s), a)
  {}

  lemma ActKeepsBoth(address: Bytes -> Addr, env: Env, ns: Nodes, a: Action, y: Id)
    requires Granted(ns, a) && BothGood(address, ns, y)
    ensures BothGood(address, Node.Act(address, env, ns, a), y)
  {
    hide BothGood, Node.Act, EventGranted;
    match a
    case Control(ev) => ControlKeeps(address, env, ns, ev, y);
    case Restart(ev, saves) => RestartKeeps(address, env, ns, ev, saves, y);
    case AskReserve(_, _, _, _, _) => AskKeeps(address, env, ns, a, y);
    case _ => RequestKeepsBoth(address, env, ns, a, y);
  }

  lemma {:induction false} RunKeepsBoth(address: Bytes -> Addr, env: Env, ns: Nodes, acts: seq<Action>, y: Id)
    requires IsNodeRun(address, env, ns, acts) && BothGood(address, ns, y)
    ensures BothGood(address, NodeRun(address, env, ns, acts), y)
    decreases |acts|
  {
    if acts != [] {
      hide BothGood, Node.Act, Granted;
      ActKeepsBoth(address, env, ns, acts[0], y);
      RunKeepsBoth(address, env, Node.Act(address, env, ns, acts[0]), acts[1..], y);
    }
  }

  // ---- the main theorem --------------------------------------------------------------------

  ghost function StoredBytes(blocks: map<Place, Block>): int {
    SumOver(blocks.Keys, (p: Place) => if p in blocks then |blocks[p].data| else 0)
  }

  ghost function QuotaFor(s: Snapshot): Id -> int {
    (x: Id) => if x in s.accounts && s.accounts[x].PlanID in s.plans then QuotaOf(s, x) else 0
  }

  /** Nodes that hold nothing yet, next to any state of the control server and its file. */
  ghost predicate Empty(ns: Nodes) {
    ns.blocks == map[] && ns.requests == map[] && SpaceReady(ns.control.st.mem) && SpaceReady(ns.control.st.disk)
  }

  ghost predicate SpaceReady(s: Snapshot) {
    SpaceSound(s) && QuotasFit(s)
  }

  lemma EmptyGood(address: Bytes -> Addr, ns: Nodes, s: Snapshot, y: Id)
    requires ns.blocks == map[] && ns.requests == map[] && SpaceReady(s)
    ensures Good(address, View(ns, s), y)
  {
    assert 0 <= Used(s, y) by { hide Billing.PeriodsSound; }
    hide SpaceSound, QuotasFit, Used;
    OneUser(s, y);
  }

  /** In every interleaving, with control server restarts: bytes stored on all nodes <= usage of all
      accounts <= quota of all accounts, in memory and on file; the same for the blocks each group of
      accounts paid for; every stored block hashes to its address. */
  lemma WritesNeverOutrunCharging(address: Bytes -> Addr, env: Env, ns: Nodes, acts: seq<Action>, payers: set<Id>)
    requires IsNodeRun(address, env, ns, acts) && Empty(ns)
    ensures var t := NodeRun(address, env, ns, acts);
            && Bounded(t, t.control.st.mem, payers) && Bounded(t, t.control.st.disk, payers)
            && forall p :: p in t.blocks ==> address(t.blocks[p].data) == p.addr
  {
    var t := NodeRun(address, env, ns, acts);
    hide BothGood, SpaceReady, NodeRun, IsNodeRun, Bounded;
    forall y ensures BothGood(address, t, y) {
      EmptyGood(address, ns, ns.control.st.mem, y);
      EmptyGood(address, ns, ns.control.st.disk, y);
      assert BothGood(address, ns, y) by { BothFrom(address, ns, y); }
      RunKeepsBoth(address, env, ns, acts, y);
    }
    ViewsBounded(address, t, payers);
  }

  lemma BothFrom(address: Bytes -> Addr, ns: Nodes, y: Id)
    requires Good(address, View(ns, ns.control.st.mem), y) && Good(address, View(ns, ns.control.st.disk), y)
    ensures BothGood(address, ns, y)
  {}

  lemma ViewsBounded(address: Bytes -> Addr, t: Nodes, payers: set<Id>)
    requires forall y :: BothGood(address, t, y)
    ensures Bounded(t, t.control.st.mem, payers) && Bounded(t, t.control.st.disk, payers)
    ensures forall p :: p in t.blocks ==> address(t.blocks[p].data) == p.addr
  {
    hide Good, View, Bounded;
    forall y ensures Good(address, View(t, t.control.st.mem), y) && Good(address, View(t, t.control.st.disk), y) {
      assert BothGood(address, t, y);
    }
    ViewBounded(address, t, t.control.st.mem, payers);
    ViewBounded(address, t, t.control.st.disk, payers);
  }

  /** The chain of inequalities for the usage in one snapshot. */
  ghost predicate Bounded(t: Nodes, s: Snapshot, payers: set<Id>) {
    && PaidBytes(t.blocks, payers) <= Node.Usage(s, payers)
    && StoredBytes(t.blocks) <= Node.Usage(s, s.accounts.Keys) <= SumOver(s.accounts.Keys, QuotaFor(s))
  }

  lemma ViewBounded(address: Bytes -> Addr, t: Nodes, s: Snapshot, payers: set<Id>)
    requires forall y :: Good(address, View(t, s), y)
    ensures Bounded(t, s, payers) && forall p :: p in t.blocks ==> address(t.blocks[p].data) == p.addr
  {
    hide *;
    var v := View(t, s);
    forall y ensures NodesSound(address, v) && Covered(v, {y}) {
      GoodParts(address, v, y);
    }
    assert Covered(v, {""});
    GroupCovered(v, payers);
    GroupCovered(v, s.accounts.Keys);
    Totals(address, v, payers);
    Totals(address, v, s.accounts.Keys);
    ViewControl(t, s, s);
    ViewNodes(t, s);
    BoundedFrom(t, s, payers);
  }

  lemma BoundedFrom(t: Nodes, s: Snapshot, payers: set<Id>)
    requires PaidBytes(t.blocks, payers) <= Node.Usage(s, payers)
    requires StoredBytes(t.blocks) <= Node.Usage(s, s.accounts.Keys) <= SumOver(s.accounts.Keys, QuotaFor(s))
    ensures Bounded(t, s, payers)
  {}

  lemma Totals(address: Bytes -> Addr, t: Nodes, payers: set<Id>)
    requires NodesSound(address, t) && Covered(t, payers)
    ensures var s := t.control.st.mem;
            && PaidBytes(t.blocks, payers) <= Node.Usage(s, payers)
            && Node.Usage(s, s.accounts.Keys) <= SumOver(s.accounts.Keys, QuotaFor(s))
            && (forall p :: p in t.blocks ==> address(t.blocks[p].data) == p.addr)
            && (payers == s.accounts.Keys ==> StoredBytes(t.blocks) == PaidBytes(t.blocks, payers))
  {
    var s := t.control.st.mem;
    SumNonNegative(t.requests.Keys, RequestSize(t.requests, payers));
    forall x | x in s.accounts ensures UsedBy(s)(x) <= QuotaFor(s)(x) {
      assert Used(s, x) <= QuotaOf(s, x);
    }
    SumBounds(s.accounts.Keys, UsedBy(s), QuotaFor(s));
    forall p | p in t.blocks
      ensures address(t.blocks[p].data) == p.addr && PaidFrom(t.blocks[p].payer, s.accounts.Keys)
    {
      assert BlockSound(address, t, p, t.blocks[p]);
    }
    if payers == s.accounts.Keys {
      SumSame(t.blocks.Keys, (p: Place) => if p in t.blocks then |t.blocks[p].data| else 0,
              BlockSize(t.blocks, payers));
    }
  }

  // ---- one request, in either mode ---------------------------------------------------------

  /** A request by itself: it is answered Created exactly when the body fits and hashes to its address,
      the backend works and, in per-account mode, a block not known to be there was granted; the block
      is then on the node, as sent if it was not there before. Every other reply has its own cause and
      leaves the blocks alone. Only a reservation that arrives touches the control store. */
  lemma PutBlockAnswers(address: Bytes -> Addr, env: Env, perAccount: bool, st: StoreState, blocks: Files, addr: Addr,
                        data: Bytes, w: Surroundings)
    ensures var (t, after, reply) := PutAlone(address, env, perAccount, st, blocks, addr, data, w);
            var fits := |data| <= 67_108_864;
            var sound := fits && address(data) == addr;
            var asks := sound && perAccount && (w.hasFails || addr !in blocks);
            var arrives := asks && w.delivered && w.account.Some?;
            var answer := if arrives then ControlSpec.Reserve(env, st, w.account.value, |data|, w.now).1 else Ok(());
            var granted := asks ==> arrives && w.replied && answer.Ok?;
            && (reply == Created <==> sound && granted && w.works)
            && (reply == Created ==>
                  && addr in after && (addr in blocks ==> after == blocks)
                  && (addr !in blocks ==> after == blocks[addr := data]))
            && (reply != Created ==> after == blocks)
            && (reply == ReadError <==> !fits)
            && (reply == WrongAddress <==> fits && address(data) != addr)
            && (reply == StoreError <==> sound && granted && !w.works)
            && (reply == QuotaFull <==> arrives && w.replied && answer == Err(QuotaExceeded))
            && (reply == AccountNotActive <==> arrives && w.replied && answer == Err(NotActive))
            && (reply == QuotaCheckFailed <==>
                  asks && !granted && !(arrives && w.replied
                                        && (answer == Err(QuotaExceeded) || answer == Err(NotActive))))
            && (!arrives ==> t == st)
            && (arrives ==> t == ControlSpec.Reserve(env, st, w.account.value, |data|, w.now).0)
  {
    hide ControlSpec.Reserve;
  }

  /** The request of an account that is not active never adds a block: one the node does not hold is
      refused, for that reason when the reply gets through. */
  lemma InactiveIsRefused(address: Bytes -> Addr, env: Env, st: StoreState, blocks: Files, addr: Addr, data: Bytes,
                          w: Surroundings, x: Id)
    requires w.account == Some(x) && x in st.mem.accounts && st.mem.accounts[x].Status != Active
    ensures var (t, after, reply) := PutAlone(address, env, true, st, blocks, addr, data, w);
            && t == st && after == blocks
            && (addr !in blocks ==> reply != Created)
            && (addr !in blocks && |data| <= 67_108_864 && address(data) == addr && w.delivered && w.replied ==>
                  reply == AccountNotActive)
  {
    PutBlockAnswers(address, env, true, st, blocks, addr, data, w);
    ReserveAnswers(env, st, x, |data|, w.now);
    hide PutAlone, ControlSpec.Reserve, Wrap64;
  }

  // ---- accounts that may not reserve -------------------------------------------------------

  /** No block and no request that may store one is charged to the account. */
  ghost predicate Untainted(ns: Nodes, x: Id) {
    && (forall p :: p in ns.blocks ==> ns.blocks[p].payer != Some(x))
    && (forall c :: c in ns.requests ==> ns.requests[c].stage != Allowed(Some(x)))
  }

  /** At no point of the run is the account active. */
  ghost predicate NeverActive(address: Bytes -> Addr, env: Env, ns: Nodes, acts: seq<Action>, x: Id)
    decreases |acts|
  {
    && (x in ns.control.st.mem.accounts ==> ns.control.st.mem.accounts[x].Status != Active)
    && (acts == [] || NeverActive(address, env, Node.Act(address, env, ns, acts[0]), acts[1..], x))
  }

  lemma ActUntainted(address: Bytes -> Addr, env: Env, ns: Nodes, a: Action, x: Id)
    requires Untainted(ns, x) && (x in ns.control.st.mem.accounts ==> ns.control.st.mem.accounts[x].Status != Active)
    ensures Untainted(Node.Act(address, env, ns, a), x)
  {
    hide StepStore, ControlSpec.Reserve, Wrap64;
    if a.AskReserve? && a.c in ns.requests {
      ReserveAnswers(env, ns.control.st, x, |ns.requests[a.c].data|, a.now);
    }
  }

  /** In every interleaving, an account that is never active pays for no block: all its requests for
      blocks the nodes do not hold are refused. */
  lemma {:induction false} InactiveStoresNothing(address: Bytes -> Addr, env: Env, ns: Nodes, acts: seq<Action>, x: Id)
    requires NeverActive(address, env, ns, acts, x) && Untainted(ns, x)
    ensures Untainted(NodeRun(address, env, ns, acts), x)
    decreases |acts|
  {
    if acts != [] {
      hide Untainted, Node.Act;
      ActUntainted(address, env, ns, acts[0], x);
      InactiveStoresNothing(address, env, Node.Act(address, env, ns, acts[0]), acts[1..], x);
    }
  }
}
