/** The node write protocol with per-account quota (core/node/server.go). Has, Reserve and Put are
    separate steps of each request, run by many clients on several nodes against one control server
    whose replies may be lost, with the control server's other events in between. */
module Node {
  import opened Wrappers
  import opened ControlModel
  import ControlSpec
  import opened ControlRuns
  import opened ControlService
  import opened Crash
  import Billing
  import opened Quota
  import opened CAS

  const MAX_BODY: int := 64 * 0x10_0000

  /** A block on a node: which node, and the file it is in. */
  datatype Place = Place(node: nat, addr: Addr)

  /** A stored block, with the account that was charged for it as bookkeeping. */
  datatype Block = Block(data: Bytes, payer: Option<Id>)

  /** Where a request is: body accepted; found absent, so to be charged; allowed to store. */
  datatype Stage = Accepted | Absent | Allowed(payer: Option<Id>)

  datatype Request = Request(place: Place, data: Bytes, stage: Stage)

  datatype Nodes = Nodes(control: Machine, blocks: map<Place, Block>, requests: map<nat, Request>)

  datatype Action =
      /** The body has been read. */
    | Arrive(c: nat, place: Place, data: Bytes)
      /** The backend answered Has, or failed to. */
    | CheckHas(c: nat, answer: Option<bool>)
      /** Reserve reached the control server, or not; the token belongs to an account, or not; its
          reply reached the node, or not. */
    | AskReserve(c: nat, account: Option<Id>, now: Time, delivered: bool, replied: bool)
      /** The backend stored the block, or failed to. */
    | Finish(c: nat, works: bool)
      /** The node gives the request up. */
    | Drop(c: nat)
      /** Anything else the control server does. */
    | Control(ev: Event)
      /** The control server stops after some of the Save calls of an event and starts again from its
          file. */
    | Restart(ev: Event, saves: nat)

  predicate BodyAccepted(address: Bytes -> Addr, addr: Addr, data: Bytes) {
    |data| <= MAX_BODY && address(data) == addr
  }

  ghost function Act(address: Bytes -> Addr, env: Env, ns: Nodes, a: Action): Nodes {
    match a
    case Arrive(c, place, data) =>
      if BodyAccepted(address, place.addr, data) then
        ns.(requests := ns.requests[c := Request(place, data, Accepted)])
      else ns
    case CheckHas(c, answer) =>
      if c in ns.requests && ns.requests[c].stage.Accepted?
      then
        var stage := if answer == Some(true) then Allowed(None) else Absent;
        ns.(requests := ns.requests[c := ns.requests[c].(stage := stage)])
      else ns
    case AskReserve(c, account, now, delivered, replied) =>
      if c in ns.requests && ns.requests[c].stage.Absent? then
        if delivered && account.Some? then
          var bytes := |ns.requests[c].data|;
          var ok := ControlSpec.Reserve(env, ns.control.st, account.value, bytes, now).1.Ok? && replied;
          Nodes(Step(env, ns.control, EvReserve(account.value, bytes, now)), ns.blocks,
                if ok then ns.requests[c := ns.requests[c].(stage := Allowed(account))] else ns.requests - {c})
        else ns.(requests := ns.requests - {c})
      else ns
    case Finish(c, works) =>
      if c in ns.requests && ns.requests[c].stage.Allowed? then
        var r := ns.requests[c];
        ns.(requests := ns.requests - {c},
            blocks := if works && r.place !in ns.blocks then ns.blocks[r.place := Block(r.data, r.stage.payer)]
              else ns.blocks)
      else ns
    case Drop(c) => ns.(requests := ns.requests - {c})
    case Control(ev) => ns.(control := Step(env, ns.control, ev))
    case Restart(ev, saves) =>
      var t := StepStore(env, ns.control, ev);
      if |ns.control.st.log| + saves <= |t.log| then ns.(control := Reload(env, ns.control.st, t, saves)) else ns
  }

  const MAX_QUOTA: int := MAX_INT64 - MAX_BODY

  /** A Release leaves the account enough usage for what it has stored or may still store. */
  ghost predicate ReleaseFits(ns: Nodes, x: Id, bytes: int) {
    var left := Used(ns.control.st.mem, x) - bytes;
    bytes < 0 || PaidBytes(ns.blocks, {x}) + InFlight(ns.requests, {x}) <= if left < 0 then 0 else left
  }

  ghost predicate EventGranted(ns: Nodes, ev: Event) {
    && ControlRuns.Allowed(ns.control, ev) && Typed(ev) && FitsInt64(ns.control.st.mem, ev)
    && (ev.EvRelease? ==> ReleaseFits(ns, ev.id, ev.bytes))
    && (ev.EvCreatePlan? ==> ev.quota <= MAX_QUOTA)
  }

  /** What the environment grants: a request id is new, Has tells the truth when it answers, plans
      stay below the quota where int64 could overflow, and nobody releases bytes still stored. */
  ghost predicate Granted(ns: Nodes, a: Action) {
    match a
    case Arrive(c, _, _) => c !in ns.requests
    case CheckHas(c, answer) => c in ns.requests && answer.Some? ==>
      (answer.value <==> ns.requests[c].place in ns.blocks)
    case Control(ev) => EventGranted(ns, ev)
    case Restart(ev, _) => EventGranted(ns, ev)
    case _ => true
  }

  // ---- sums --------------------------------------------------------------------------------

  predicate PaidFrom(payer: Option<Id>, payers: set<Id>) {
    payer.Some? && payer.value in payers
  }

  /** The bytes of the block at a place, if one of these accounts paid for it. */
  ghost function BlockSize(blocks: map<Place, Block>, payers: set<Id>): Place -> int {
    (p: Place) => if p in blocks && PaidFrom(blocks[p].payer, payers) then |blocks[p].data| else 0
  }

  /** The bytes of a request that one of these accounts has paid and that is not stored yet. */
  function Weight(r: Request, payers: set<Id>): nat {
    if r.stage.Allowed? && PaidFrom(r.stage.payer, payers) then |r.data| else 0
  }

  ghost function RequestSize(requests: map<nat, Request>, payers: set<Id>): nat -> int {
    (c: nat) => if c in requests then Weight(requests[c], payers) else 0
  }

  ghost function UsedBy(s: Snapshot): Id -> int {
    (x: Id) => Used(s, x)
  }

  ghost function PaidBytes(blocks: map<Place, Block>, payers: set<Id>): int {
    SumOver(blocks.Keys, BlockSize(blocks, payers))
  }

  ghost function InFlight(requests: map<nat, Request>, payers: set<Id>): int {
    SumOver(requests.Keys, RequestSize(requests, payers))
  }

  ghost function Usage(s: Snapshot, payers: set<Id>): int {
    SumOver(payers, UsedBy(s))
  }

  /** Whatever a group of accounts has stored or may still store without asking again is covered by
      the usage of that group. */
  ghost predicate Covered(ns: Nodes, payers: set<Id>) {
    PaidBytes(ns.blocks, payers) + InFlight(ns.requests, payers) <= Usage(ns.control.st.mem, payers)
  }

  predicate RequestSound(address: Bytes -> Addr, ns: Nodes, r: Request) {
    && BodyAccepted(address, r.place.addr, r.data)
    && (r.stage == Allowed(None) ==> r.place in ns.blocks)
    && (r.stage.Allowed? && r.stage.payer.Some? ==> r.stage.payer.value in ns.control.st.mem.accounts)
  }

  predicate BlockSound(address: Bytes -> Addr, ns: Nodes, p: Place, b: Block) {
    address(b.data) == p.addr && b.payer.Some? && b.payer.value in ns.control.st.mem.accounts
  }

  ghost predicate QuotasFit(s: Snapshot) {
    forall p :: p in s.plans ==> s.plans[p].QuotaBytes <= MAX_QUOTA
  }

  ghost predicate NodesSound(address: Bytes -> Addr, ns: Nodes) {
    && SpaceSound(ns.control.st.mem) && QuotasFit(ns.control.st.mem)
    && (forall c :: c in ns.requests ==> RequestSound(address, ns, ns.requests[c]))
    && (forall p :: p in ns.blocks ==> BlockSound(address, ns, p, ns.blocks[p]))
  }

  // ---- what each step does to the sums -----------------------------------------------------

  /** Removing a request, whatever its stage, frees what it held. */
  lemma RemoveRequest(requests: map<nat, Request>, c: nat, payers: set<Id>)
    requires c in requests
    ensures InFlight(requests - {c}, payers) == InFlight(requests, payers) - Weight(requests[c], payers)
  {
    hide Weight;
    SumRemove(requests.Keys, RequestSize(requests, payers), c);
    assert (requests - {c}).Keys == requests.Keys - {c};
    SumSame(requests.Keys - {c}, RequestSize(requests - {c}, payers), RequestSize(requests, payers));
  }

  lemma SetRequest(requests: map<nat, Request>, c: nat, r: Request, payers: set<Id>)
    ensures var was := if c in requests then Weight(requests[c], payers) else 0;
            InFlight(requests[c := r], payers) == InFlight(requests, payers) - was + Weight(r, payers)
  {
    hide Weight;
    var next := requests[c := r];
    if c in requests {
      assert next.Keys == requests.Keys;
      SumChange(requests.Keys, RequestSize(requests, payers), RequestSize(next, payers), c);
    } else {
      assert next.Keys == requests.Keys + {c};
      SumExtend(requests.Keys, RequestSize(requests, payers), RequestSize(next, payers), c);
    }
  }

  lemma AddBlock(blocks: map<Place, Block>, p: Place, b: Block, payers: set<Id>)
    requires p !in blocks
    ensures PaidBytes(blocks[p := b], payers) ==
            PaidBytes(blocks, payers) + if PaidFrom(b.payer, payers) then |b.data| else 0
  {
    var next := blocks[p := b];
    assert next.Keys == blocks.Keys + {p};
    SumExtend(blocks.Keys, BlockSize(blocks, payers), BlockSize(next, payers), p);
  }

  /** A reservation charges exactly its bytes to exactly its account, even when its save or its
      reply fails; nobody else's usage moves. */
  lemma ReserveCharges(env: Env, m: Machine, id: Id, bytes: int, now: Time, payers: set<Id>)
    requires 0 <= bytes && SpaceSound(m.st.mem) && bytes <= MAX_INT64 - Used(m.st.mem, id)
    ensures var t := StepStore(env, m, EvReserve(id, bytes, now)).mem;
            && SpaceSound(t) && t.accounts == m.st.mem.accounts && t.plans == m.st.mem.plans
            && Usage(t, payers) == Usage(m.st.mem, payers)
                 + (if id in payers && Counted(env, m.st, id, bytes, now) then bytes else 0)
            && (ControlSpec.Reserve(env, m.st, id, bytes, now).1.Ok? ==>
                  id in t.accounts && Counted(env, m.st, id, bytes, now))
  {
    hide *;
    var s, t := m.st.mem, StepStore(env, m, EvReserve(id, bytes, now)).mem;
    StepIsReserve(env, m, id, bytes, now);
    ReserveSound(env, m.st, id, bytes, now);
    Billing.UsageOnly(env, m.st, id, bytes, now);
    forall x ensures Used(t, x) == Used(s, x) + if id == x && Counted(env, m.st, id, bytes, now) then bytes else 0 {
      UsedInRange(s, x);
      ReserveClamps(env, m.st, id, bytes, now, x);
    }
    UsageChange(s, t, id, if Counted(env, m.st, id, bytes, now) then bytes else 0, payers);
  }

  lemma StepIsReserve(env: Env, m: Machine, id: Id, bytes: int, now: Time)
    ensures StepStore(env, m, EvReserve(id, bytes, now)) == ControlSpec.Reserve(env, m.st, id, bytes, now).0
    ensures ControlSpec.Reserve(env, m.st, id, bytes, now).1.Ok? ==>
              id in m.st.mem.accounts && Counted(env, m.st, id, bytes, now)
  {
    hide Wrap64;
  }

  lemma UsageChange(s: Snapshot, t: Snapshot, id: Id, change: int, payers: set<Id>)
    requires forall x :: Used(t, x) == Used(s, x) + if id == x then change else 0
    ensures Usage(t, payers) == Usage(s, payers) + if id in payers then change else 0
  {
    hide Used;
    if id in payers {
      SumChange(payers, UsedBy(s), UsedBy(t), id);
    } else {
      SumSame(payers, UsedBy(s), UsedBy(t));
    }
  }

  /** Every other event but Release leaves each group's usage alone or raises it. */
  lemma ControlKeepsUsage(env: Env, m: Machine, ev: Event, payers: set<Id>)
    requires ControlRuns.Allowed(m, ev) && Typed(ev) && !ev.EvRelease? && FitsInt64(m.st.mem, ev)
    requires SpaceSound(m.st.mem) && QuotasFit(m.st.mem) && (ev.EvCreatePlan? ==> ev.quota <= MAX_QUOTA)
    ensures var t := StepStore(env, m, ev).mem;
            && SpaceSound(t) && QuotasFit(t) && m.st.mem.accounts.Keys <= t.accounts.Keys
            && Usage(m.st.mem, payers) <= Usage(t, payers)
  {
    var s, t := m.st.mem, StepStore(env, m, ev).mem;
    if ev.EvReserve? && 0 <= ev.bytes {
      ReserveCharges(env, m, ev.id, ev.bytes, ev.now, payers);
    } else {
      StepSpace(env, m, ev);
      OnlySpaceEvents(env, m, ev);
      Billing.StepPeriods(env, m, ev);
      if ev.EvReserve? {
        assert t == s;
      }
      hide StepStore, SpaceSound, ControlRuns.Allowed;
      assert forall x :: Used(s, x) == Used(t, x);
      SumSame(payers, UsedBy(s), UsedBy(t));
    }
  }

  // ---- soundness of each change ------------------------------------------------------------

  lemma SoundSet(address: Bytes -> Addr, ns: Nodes, c: nat, r: Request)
    requires NodesSound(address, ns) && RequestSound(address, ns, r)
    ensures NodesSound(address, ns.(requests := ns.requests[c := r]))
  {
    hide SpaceSound, QuotasFit, BodyAccepted;
  }

  lemma SoundRemove(address: Bytes -> Addr, ns: Nodes, c: nat)
    requires NodesSound(address, ns)
    ensures NodesSound(address, ns.(requests := ns.requests - {c}))
  {
    hide SpaceSound, QuotasFit, BodyAccepted;
  }

  lemma SoundControl(address: Bytes -> Addr, ns: Nodes, m: Machine)
    requires NodesSound(address, ns) && SpaceSound(m.st.mem) && QuotasFit(m.st.mem)
    requires ns.control.st.mem.accounts.Keys <= m.st.mem.accounts.Keys
    ensures NodesSound(address, ns.(control := m))
  {
    hide SpaceSound, QuotasFit, BodyAccepted;
  }

  lemma SoundBlock(address: Bytes -> Addr, ns: Nodes, p: Place, b: Block)
    requires NodesSound(address, ns) && BlockSound(address, ns, p, b) && p !in ns.blocks
    ensures NodesSound(address, ns.(blocks := ns.blocks[p := b]))
  {
    hide SpaceSound, QuotasFit, BodyAccepted;
  }

  // ---- the invariant -----------------------------------------------------------------------

  lemma AskReserveKeeps(address: Bytes -> Addr, env: Env, ns: Nodes, c: nat, account: Option<Id>, now: Time,
                        delivered: bool, replied: bool, payers: set<Id>)
    requires NodesSound(address, ns) && Covered(ns, payers)
    ensures var t := Act(address, env, ns, AskReserve(c, account, now, delivered, replied));
            NodesSound(address, t) && Covered(t, payers)
  {
    if c in ns.requests && ns.requests[c].stage.Absent? {
      var r := ns.requests[c];
      assert RequestSound(address, ns, r);
      if delivered && account.Some? {
        RoomLeft(ns.control.st.mem, account.value);
        hide NodesSound, Covered;
        ChargedKeeps(address, env, ns, c, account.value, now, replied, payers);
      } else {
        hide NodesSound, Covered;
        SoundRemove(address, ns, c);
        RemovedCovered(ns, c, payers);
      }
    }
  }

  lemma ChargedKeeps(address: Bytes -> Addr, env: Env, ns: Nodes, c: nat, id: Id, now: Time, replied: bool,
                     payers: set<Id>)
    requires NodesSound(address, ns) && Covered(ns, payers)
    requires c in ns.requests && ns.requests[c].stage.Absent? && RequestSound(address, ns, ns.requests[c])
    requires MAX_BODY <= MAX_INT64 - Used(ns.control.st.mem, id)
    ensures var t := Act(address, env, ns, AskReserve(c, Some(id), now, true, replied));
            NodesSound(address, t) && Covered(t, payers)
  {
    hide StepStore, Counted, ControlSpec.Reserve, Covered, Usage;
    assert SpaceSound(ns.control.st.mem);
    var r, bytes := ns.requests[c], |ns.requests[c].data|;
    var m' := Step(env, ns.control, EvReserve(id, bytes, now));
    hide SpaceSound, NodesSound;
    ReserveCharges(env, ns.control, id, bytes, now, payers);
    var paid := r.(stage := Allowed(Some(id)));
    ChargedSound(address, ns, m');
    if ControlSpec.Reserve(env, ns.control.st, id, bytes, now).1.Ok? && replied {
      SoundSet(address, ns.(control := m'), c, paid);
      PaidCovered(ns, m', c, id, payers);
    } else {
      SoundRemove(address, ns.(control := m'), c);
      RemovedCovered(ns, c, payers);
      MoreUsage(ns.(requests := ns.requests - {c}), m', payers);
    }
  }

  lemma ChargedSound(address: Bytes -> Addr, ns: Nodes, m: Machine)
    requires NodesSound(address, ns) && SpaceSound(m.st.mem)
    requires m.st.mem.accounts == ns.control.st.mem.accounts && m.st.mem.plans == ns.control.st.mem.plans
    ensures NodesSound(address, ns.(control := m))
  {
    assert QuotasFit(m.st.mem) by { hide SpaceSound; }
    hide SpaceSound, QuotasFit;
    SoundControl(address, ns, m);
  }

  lemma MoreUsage(ns: Nodes, m: Machine, payers: set<Id>)
    requires Covered(ns, payers) && Usage(ns.control.st.mem, payers) <= Usage(m.st.mem, payers)
    ensures Covered(ns.(control := m), payers)
  {
    hide InFlight, PaidBytes, Usage;
  }

  /** A request that has been charged is covered by the charge. */
  lemma PaidCovered(ns: Nodes, m: Machine, c: nat, id: Id, payers: set<Id>)
    requires Covered(ns, payers) && c in ns.requests && ns.requests[c].stage.Absent?
    requires Usage(m.st.mem, payers) ==
             Usage(ns.control.st.mem, payers) + if id in payers then |ns.requests[c].data| else 0
    ensures Covered(ns.(control := m, requests := ns.requests[c := ns.requests[c].(stage := Allowed(Some(id)))]),
                    payers)
  {
    SetRequest(ns.requests, c, ns.requests[c].(stage := Allowed(Some(id))), payers);
    hide InFlight, PaidBytes, Usage;
  }

  lemma RoomLeft(s: Snapshot, id: Id)
    requires SpaceSound(s) && QuotasFit(s)
    ensures MAX_BODY <= MAX_INT64 - Used(s, id)
  {
    hide Billing.PeriodsSound;
    assert id !in s.accounts ==> Used(s, id) == 0;
  }

  lemma FinishKeeps(address: Bytes -> Addr, env: Env, ns: Nodes, c: nat, works: bool, payers: set<Id>)
    requires NodesSound(address, ns) && Covered(ns, payers)
    ensures var t := Act(address, env, ns, Finish(c, works)); NodesSound(address, t) && Covered(t, payers)
  {
    hide NodesSound, Covered;
    if c in ns.requests && ns.requests[c].stage.Allowed? {
      var r := ns.requests[c];
      SoundRemove(address, ns, c);
      if works && r.place !in ns.blocks {
        PaidBlockSound(address, ns, c);
        StoredCovered(ns, c, payers);
        SoundBlock(address, ns.(requests := ns.requests - {c}), r.place, Block(r.data, r.stage.payer));
      } else {
        RemovedCovered(ns, c, payers);
      }
    }
  }

  /** A request that may store a new block has been paid for. */
  lemma PaidBlockSound(address: Bytes -> Addr, ns: Nodes, c: nat)
    requires NodesSound(address, ns) && c in ns.requests && ns.requests[c].stage.Allowed?
      && ns.requests[c].place !in ns.blocks
    ensures var r := ns.requests[c];
            BlockSound(address, ns.(requests := ns.requests - {c}), r.place, Block(r.data, r.stage.payer))
  {
    hide SpaceSound, QuotasFit;
    assert RequestSound(address, ns, ns.requests[c]);
  }

  lemma RemovedCovered(ns: Nodes, c: nat, payers: set<Id>)
    requires Covered(ns, payers)
    ensures Covered(ns.(requests := ns.requests - {c}), payers)
  {
    if c in ns.requests {
      RemoveRequest(ns.requests, c, payers);
    } else {
      assert ns.requests - {c} == ns.requests;
    }
    hide InFlight, PaidBytes, Usage;
  }

  /** Storing turns a paid request into a paid block of the same size. */
  lemma StoredCovered(ns: Nodes, c: nat, payers: set<Id>)
    requires Covered(ns, payers) && c in ns.requests && ns.requests[c].stage.Allowed?
      && ns.requests[c].place !in ns.blocks
    ensures var r := ns.requests[c];
            Covered(ns.(requests := ns.requests - {c}, blocks := ns.blocks[r.place := Block(r.data, r.stage.payer)]),
                    payers)
  {
    var r := ns.requests[c];
    RemoveRequest(ns.requests, c, payers);
    AddBlock(ns.blocks, r.place, Block(r.data, r.stage.payer), payers);
    hide InFlight, PaidBytes, Usage, PaidFrom;
  }

  /** A request that has not been charged counts nothing. */
  lemma FreeRequest(ns: Nodes, c: nat, r: Request, payers: set<Id>)
    requires Covered(ns, payers) && Weight(r, payers) == 0
    ensures Covered(ns.(requests := ns.requests[c := r]), payers)
  {
    SetRequest(ns.requests, c, r, payers);
    hide InFlight, PaidBytes, Usage, Weight;
  }

  lemma RequestKeeps(address: Bytes -> Addr, env: Env, ns: Nodes, a: Action, payers: set<Id>)
    requires a.Arrive? || a.CheckHas? || a.Drop?
    requires Granted(ns, a) && NodesSound(address, ns) && Covered(ns, payers)
    ensures NodesSound(address, Act(address, env, ns, a)) && Covered(Act(address, env, ns, a), payers)
  {
    assert forall c :: c in ns.requests ==> RequestSound(address, ns, ns.requests[c]);
    hide NodesSound, Covered;
    match a
    case Arrive(c, place, data) =>
      if BodyAccepted(address, place.addr, data) {
        FreeRequest(ns, c, Request(place, data, Accepted), payers);
        SoundSet(address, ns, c, Request(place, data, Accepted));
      }
    case CheckHas(c, answer) =>
      if c in ns.requests && ns.requests[c].stage.Accepted? {
        var r := ns.requests[c].(stage := if answer == Some(true) then Allowed(None) else Absent);
        FreeRequest(ns, c, r, payers);
        SoundSet(address, ns, c, r);
      }
    case Drop(c) =>
      SoundRemove(address, ns, c);
      RemovedCovered(ns, c, payers);
  }

  /** After a Release the account's blocks and requests are covered if and only if it fits. */
  lemma ReleaseCoveredIff(address: Bytes -> Addr, env: Env, ns: Nodes, x: Id, bytes: int, now: Time)
    requires SpaceSound(ns.control.st.mem) && bytes <= MAX_INT64 && Covered(ns, {x})
    ensures Covered(Act(address, env, ns, Control(EvRelease(x, bytes, now))), {x}) <==> ReleaseFits(ns, x, bytes)
  {
    var t := StepStore(env, ns.control, EvRelease(x, bytes, now)).mem;
    hide PaidBytes, InFlight, ControlSpec.Release, SpaceSound, Used, Usage;
    UsedInRange(ns.control.st.mem, x);
    ReleaseClamps(env, ns.control.st, x, bytes, now, x);
    assert t == ControlSpec.Release(env, ns.control.st, x, bytes, now).0.mem;
    hide StepStore;
    OneUser(t, x);
    OneUser(ns.control.st.mem, x);
  }

  /** A Release that fits keeps every account covered. */
  lemma ReleaseKeeps(address: Bytes -> Addr, env: Env, ns: Nodes, x: Id, bytes: int, now: Time, y: Id)
    requires NodesSound(address, ns) && Covered(ns, {y}) && bytes <= MAX_INT64 && ReleaseFits(ns, x, bytes)
    ensures var t := Act(address, env, ns, Control(EvRelease(x, bytes, now)));
            NodesSound(address, t) && Covered(t, {y})
  {
    var s, m := ns.control.st.mem, Step(env, ns.control, EvRelease(x, bytes, now));
    assert SpaceSound(s) && QuotasFit(s);
    assert m.st == ControlSpec.Release(env, ns.control.st, x, bytes, now).0;
    hide SpaceSound, NodesSound, PaidBytes, InFlight, ControlSpec.Release, StepStore, Used, Usage;
    if x == y {
      ReleaseCoveredIff(address, env, ns, x, bytes, now);
    } else {
      UsedInRange(s, x);
      ReleaseClamps(env, ns.control.st, x, bytes, now, y);
      OneUser(m.st.mem, y);
      OneUser(s, y);
    }
    ReleaseSound(env, ns.control.st, x, bytes, now);
    Billing.UsageOnly(env, ns.control.st, x, bytes, now);
    SoundControl(address, ns, m);
  }

  lemma ActKeeps(address: Bytes -> Addr, env: Env, ns: Nodes, a: Action, y: Id)
    requires !a.Restart? && Granted(ns, a) && NodesSound(address, ns) && Covered(ns, {y})
    ensures NodesSound(address, Act(address, env, ns, a)) && Covered(Act(address, env, ns, a), {y})
  {
    hide ReleaseFits;
    match a
    case AskReserve(c, account, now, delivered, replied) =>
      AskReserveKeeps(address, env, ns, c, account, now, delivered, replied, {y});
    case Finish(c, works) => FinishKeeps(address, env, ns, c, works, {y});
    case Control(ev) =>
      if ev.EvRelease? {
        ReleaseKeeps(address, env, ns, ev.id, ev.bytes, ev.now, y);
      } else {
        ControlKeepsUsage(env, ns.control, ev, {y});
        hide SpaceSound, QuotasFit, StepStore, InFlight, PaidBytes, Usage, RequestSound, BlockSound,
             ControlRuns.Allowed;
        SoundControl(address, ns, Step(env, ns.control, ev));
      }
    case _ =>
      RequestKeeps(address, env, ns, a, {y});
  }

  /** Groups are covered when their members are. */
  lemma {:induction false} GroupCovered(ns: Nodes, payers: set<Id>)
    requires forall y :: Covered(ns, {y})
    ensures Covered(ns, payers)
  {
    if payers == {} {
      SumOutside(ns.blocks.Keys, {}, BlockSize(ns.blocks, {}));
      SumOutside(ns.requests.Keys, {}, RequestSize(ns.requests, {}));
    } else {
      var y :| y in payers;
      var rest := payers - {y};
      GroupCovered(ns, rest);
      assert Covered(ns, {y});
      SumSplit(ns.blocks.Keys, BlockSize(ns.blocks, {y}), BlockSize(ns.blocks, rest), BlockSize(ns.blocks, payers));
      SumSplit(ns.requests.Keys, RequestSize(ns.requests, {y}), RequestSize(ns.requests, rest),
               RequestSize(ns.requests, payers));
      SumRemove(payers, UsedBy(ns.control.st.mem), y);
      OneUser(ns.control.st.mem, y);
    }
  }

  ghost predicate IsNodeRun(address: Bytes -> Addr, env: Env, ns: Nodes, acts: seq<Action>)
    decreases |acts|
  {
    acts == [] || (Granted(ns, acts[0]) && IsNodeRun(address, env, Act(address, env, ns, acts[0]), acts[1..]))
  }

  ghost function NodeRun(address: Bytes -> Addr, env: Env, ns: Nodes, acts: seq<Action>): Nodes
    decreases |acts|
  {
    if acts == [] then ns else NodeRun(address, env, Act(address, env, ns, acts[0]), acts[1..])
  }

  lemma OneUser(s: Snapshot, x: Id)
    ensures Usage(s, {x}) == Used(s, x)
  {
    SumRemove({x}, UsedBy(s), x);
    assert {x} - {x} == {};
  }

  // ---- one request by itself ---------------------------------------------------------------

  datatype Reply = Created | ReadError | WrongAddress | QuotaFull | AccountNotActive | QuotaCheckFailed | StoreError

  /** What happens around one request: whether Has fails, which account the token belongs to,
      whether Reserve arrives and its reply returns, and whether the backend can store. */
  datatype Surroundings = Surroundings(hasFails: bool, account: Option<Id>, now: Time, delivered: bool, replied: bool,
                                       works: bool)

  function Refusal(e: Error): Reply {
    match e
    case QuotaExceeded => QuotaFull
    case NotActive => AccountNotActive
    case _ => QuotaCheckFailed
  }

  /** One request with nothing in between: the control store, the blocks and the reply. */
  function PutAlone(address: Bytes -> Addr, env: Env, perAccount: bool, st: StoreState, blocks: Files, addr: Addr,
                    data: Bytes, w: Surroundings)
    : (StoreState, Files, Reply)
  {
    if |data| > MAX_BODY then (st, blocks, ReadError)
    else if address(data) != addr then (st, blocks, WrongAddress)
    else
      var ask := perAccount && (w.hasFails || addr !in blocks);
      var arrives := w.delivered && w.account.Some?;
      var (st', r) := if ask && arrives then ControlSpec.Reserve(env, st, w.account.value, |data|, w.now)
        else (st, Ok(()));
      if ask && !(arrives && w.replied) then (st', blocks, QuotaCheckFailed)
      else if r.Err? then (st', blocks, Refusal(r.error))
      else if !w.works then (st', blocks, StoreError)
      else (st', if addr in blocks then blocks else blocks[addr := data], Created)
  }

  class Server {
    const address: Bytes -> Addr
    const perAccount: bool
    const quota: Service
    var blocks: Files

    constructor (address: Bytes -> Addr, perAccount: bool, quota: Service)
      ensures this.address == address && this.perAccount == perAccount && this.quota == quota && blocks == map[]
    {
      this.address, this.perAccount, this.quota, blocks := address, perAccount, quota, map[];
    }

    method PutBlock(addr: Addr, data: Bytes, w: Surroundings) returns (reply: Reply)
      requires quota.store.Valid()
      modifies this`blocks, quota.store
      ensures quota.store.Valid()
      ensures (quota.store.View(), blocks, reply) ==
              PutAlone(address, quota.TheEnv(), perAccount, old(quota.store.View()), old(blocks), addr, data, w)
    {
      hide Wrap64;
      if |data| > MAX_BODY {
        return ReadError;
      }
      if address(data) != addr {
        return WrongAddress;
      }
      if perAccount {
        var has := !w.hasFails && addr in blocks;
        if !has {
          if !w.delivered || w.account.None? {
            return QuotaCheckFailed;
          }
          var r := quota.Reserve(w.account.value, |data|, w.now);
          if !w.replied {
            return QuotaCheckFailed;
          }
          if r.Err? {
            match r.error {
              case QuotaExceeded => return QuotaFull;
              case NotActive => return AccountNotActive;
              case _ => return QuotaCheckFailed;
            }
          }
        }
      }
      if !w.works {
        return StoreError;
      }
      if addr !in blocks {
        blocks := blocks[addr := data];
      }
      return Created;
    }
  }

  /** The machine state t is what PutAlone says. */
  ghost predicate AsAlone(ns: Nodes, t: Nodes, place: Place, data: Bytes, blocks: Files,
                          alone: (StoreState, Files, Reply))
  {
    && t.control.st == alone.0 && t.requests == ns.requests
    && (place in t.blocks <==> place.addr in alone.1)
    && (alone.2 == Created ==> place in t.blocks)
    && (place !in ns.blocks && place in t.blocks ==>
          place.addr in alone.1 && t.blocks[place].data == data == alone.1[place.addr])
  }

  /** A request by itself is one of the interleavings: its steps in a row have the same effect on
      the control store and on the node. */
  lemma AloneIsARun(address: Bytes -> Addr, env: Env, ns: Nodes, c: nat, place: Place, data: Bytes, w: Surroundings,
                    blocks: Files)
    requires c !in ns.requests && (place.addr in blocks <==> place in ns.blocks)
    ensures var has := if w.hasFails then None else Some(place in ns.blocks);
            var acts := [Arrive(c, place, data), CheckHas(c, has),
                         AskReserve(c, w.account, w.now, w.delivered, w.replied), Finish(c, w.works), Drop(c)];
            AsAlone(ns, NodeRun(address, env, ns, acts), place, data, blocks,
                    PutAlone(address, env, true, ns.control.st, blocks, place.addr, data, w))
  {
    var has := if w.hasFails then None else Some(place in ns.blocks);
    FiveActs(address, env, ns, Arrive(c, place, data), CheckHas(c, has),
             AskReserve(c, w.account, w.now, w.delivered, w.replied), Finish(c, w.works), Drop(c));
    var r := Request(place, data, Accepted);
    if !BodyAccepted(address, place.addr, data) {
      Gone(address, env, ns, c, has, w);
      hide Act, NodeRun, ControlSpec.Reserve;
    } else {
      CheckStep(address, env, ns, c, r, has);
      assert Act(address, env, ns, Arrive(c, place, data)) == With(ns, c, r);
      hide Act, NodeRun, PutAlone, AsAlone, With;
      if has == Some(true) {
        AlonePresent(address, env, ns, c, r.(stage := Allowed(None)), w, blocks);
      } else {
        AloneAsked(address, env, ns, c, r.(stage := Absent), w, blocks);
      }
    }
  }

  /** The last three steps of a request. */
  ghost function LastActs(address: Bytes -> Addr, env: Env, ns: Nodes, c: nat, w: Surroundings): Nodes {
    Act(address, env, Act(address, env, Act(address, env, ns,
      AskReserve(c, w.account, w.now, w.delivered, w.replied)), Finish(c, w.works)), Drop(c))
  }

  lemma AlonePresent(address: Bytes -> Addr, env: Env, ns: Nodes, c: nat, r: Request, w: Surroundings, blocks: Files)
    requires c !in ns.requests && (r.place.addr in blocks <==> r.place in ns.blocks)
    requires BodyAccepted(address, r.place.addr, r.data)
    requires r.stage == Allowed(None) && !w.hasFails && r.place in ns.blocks
    ensures AsAlone(ns, LastActs(address, env, With(ns, c, r), c, w), r.place, r.data, blocks,
                    PutAlone(address, env, true, ns.control.st, blocks, r.place.addr, r.data, w))
  {
    AskStep(address, env, ns, c, r, w);
    FinishStep(address, env, ns, c, r, w);
    Gone(address, env, ns, c, None, w);
    hide Act, With, ControlSpec.Reserve;
  }

  lemma AloneAsked(address: Bytes -> Addr, env: Env, ns: Nodes, c: nat, r: Request, w: Surroundings, blocks: Files)
    requires c !in ns.requests && (r.place.addr in blocks <==> r.place in ns.blocks)
    requires BodyAccepted(address, r.place.addr, r.data)
    requires r.stage == Absent && (w.hasFails || r.place !in ns.blocks)
    ensures AsAlone(ns, LastActs(address, env, With(ns, c, r), c, w), r.place, r.data, blocks,
                    PutAlone(address, env, true, ns.control.st, blocks, r.place.addr, r.data, w))
  {
    hide Act, With, LastActs, StepStore, ControlSpec.Reserve;
    AskedEnd(address, env, ns, c, r, w);
    assert w.account.Some? ==>
      Step(env, ns.control, EvReserve(w.account.value, |r.data|, w.now)).st ==
      ControlSpec.Reserve(env, ns.control.st, w.account.value, |r.data|, w.now).0 by
    {
      if w.account.Some? {
        StepIsReserve(env, ns.control, w.account.value, |r.data|, w.now);
      }
    }
  }

  /** Where the last three steps of a request that must be charged lead. */
  lemma AskedEnd(address: Bytes -> Addr, env: Env, ns: Nodes, c: nat, r: Request, w: Surroundings)
    requires c !in ns.requests && r.stage == Absent
    ensures var t := LastActs(address, env, With(ns, c, r), c, w);
            if !w.delivered || w.account.None? then t == ns
            else
              var n' := ns.(control := Step(env, ns.control, EvReserve(w.account.value, |r.data|, w.now)));
              var ok := ControlSpec.Reserve(env, ns.control.st, w.account.value, |r.data|, w.now).1.Ok? && w.replied;
              t == if ok && w.works && r.place !in ns.blocks
                   then n'.(blocks := ns.blocks[r.place := Block(r.data, w.account)]) else n'
  {
    hide Act, With, Step, ControlSpec.Reserve;
    AskStep(address, env, ns, c, r, w);
    Gone(address, env, ns, c, None, w);
    if w.delivered && w.account.Some? {
      var n' := ns.(control := Step(env, ns.control, EvReserve(w.account.value, |r.data|, w.now)));
      FinishStep(address, env, n', c, r.(stage := Allowed(w.account)), w);
      Gone(address, env, n', c, None, w);
      Gone(address, env, n'.(blocks := ns.blocks[r.place := Block(r.data, w.account)]), c, None, w);
    }
  }

  function With(ns: Nodes, c: nat, r: Request): Nodes {
    ns.(requests := ns.requests[c := r])
  }

  /** Once the request is gone, its remaining steps do nothing. */
  lemma Gone(address: Bytes -> Addr, env: Env, ns: Nodes, c: nat, has: Option<bool>, w: Surroundings)
    requires c !in ns.requests
    ensures Act(address, env, ns, CheckHas(c, has)) == ns
    ensures Act(address, env, ns, AskReserve(c, w.account, w.now, w.delivered, w.replied)) == ns
    ensures Act(address, env, ns, Finish(c, w.works)) == ns && Act(address, env, ns, Drop(c)) == ns
  {
    assert ns.requests - {c} == ns.requests;
  }

  lemma CheckStep(address: Bytes -> Addr, env: Env, ns: Nodes, c: nat, r: Request, has: Option<bool>)
    requires r.stage.Accepted?
    ensures Act(address, env, With(ns, c, r), CheckHas(c, has)) ==
            With(ns, c, r.(stage := if has == Some(true) then Allowed(None) else Absent))
  {}

  lemma AskStep(address: Bytes -> Addr, env: Env, ns: Nodes, c: nat, r: Request, w: Surroundings)
    requires c !in ns.requests && !r.stage.Accepted?
    ensures var t := Act(address, env, With(ns, c, r), AskReserve(c, w.account, w.now, w.delivered, w.replied));
            if !r.stage.Absent? then t == With(ns, c, r)
            else if !w.delivered || w.account.None? then t == ns
            else
              var m' := Step(env, ns.control, EvReserve(w.account.value, |r.data|, w.now));
              if ControlSpec.Reserve(env, ns.control.st, w.account.value, |r.data|, w.now).1.Ok? && w.replied
              then t == With(ns.(control := m'), c, r.(stage := Allowed(w.account)))
              else t == ns.(control := m')
  {
    hide ControlSpec.Reserve, StepStore;
    assert ns.requests[c := r] - {c} == ns.requests;
    assert ns.requests[c := r][c := r.(stage := Allowed(w.account))] ==
           ns.requests[c := r.(stage := Allowed(w.account))];
  }

  lemma FinishStep(address: Bytes -> Addr, env: Env, ns: Nodes, c: nat, r: Request, w: Surroundings)
    requires c !in ns.requests
    requires r.stage.Allowed?
    ensures Act(address, env, With(ns, c, r), Finish(c, w.works)) ==
            ns.(blocks := if w.works && r.place !in ns.blocks then ns.blocks[r.place := Block(r.data, r.stage.payer)]
                else ns.blocks)
  {
    assert ns.requests[c := r] - {c} == ns.requests;
  }

  lemma RunCons(address: Bytes -> Addr, env: Env, ns: Nodes, a: Action, rest: seq<Action>)
    ensures NodeRun(address, env, ns, [a] + rest) == NodeRun(address, env, Act(address, env, ns, a), rest)
  {
    hide Act;
    assert ([a] + rest)[1..] == rest;
  }

  lemma FiveActs(address: Bytes -> Addr, env: Env, ns: Nodes, a0: Action, a1: Action, a2: Action, a3: Action,
                 a4: Action)
    ensures NodeRun(address, env, ns, [a0, a1, a2, a3, a4]) ==
            Act(address, env, Act(address, env, Act(address, env, Act(address, env, Act(address, env, ns, a0), a1),
                                                    a2), a3), a4)
  {
    hide Act;
    var n1 := Act(address, env, ns, a0);
    var n2 := Act(address, env, n1, a1);
    var n3 := Act(address, env, n2, a2);
    var n4 := Act(address, env, n3, a3);
    assert [a0, a1, a2, a3, a4] == [a0] + [a1, a2, a3, a4];
    assert [a1, a2, a3, a4] == [a1] + [a2, a3, a4];
    assert [a2, a3, a4] == [a2] + [a3, a4];
    assert [a3, a4] == [a3] + [a4];
    assert [a4] == [a4] + [];
    RunCons(address, env, ns, a0, [a1, a2, a3, a4]);
    RunCons(address, env, n1, a1, [a2, a3, a4]);
    RunCons(address, env, n2, a2, [a3, a4]);
    RunCons(address, env, n3, a3, [a4]);
    RunCons(address, env, n4, a4, []);
  }
}
