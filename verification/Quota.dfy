/** Reserved space over every run: usage has a closed form, never leaves [0, quota], and the int64
    comparison of Reserve is right exactly when its sum does not overflow. */
module Quota {
  import opened Wrappers
  import opened ControlModel
  import opened ControlSpec
  import opened ControlRuns
  import opened Billing

  function Used(s: Snapshot, x: Id): int {
    GetUsage(s, x).BytesUsed
  }

  /** Byte counts and quotas come in int64 variables. */
  predicate Typed(ev: Event) {
    match ev
    case EvCreatePlan(_, quota, _, _, _, _) => IsInt64(quota)
    case EvReserve(_, bytes, _) => IsInt64(bytes)
    case EvRelease(_, bytes, _) => IsInt64(bytes)
    case _ => true
  }

  ghost predicate QuotasTyped(s: Snapshot) {
    forall p :: p in s.plans ==> 0 < s.plans[p].QuotaBytes <= MAX_INT64
  }

  function QuotaOf(s: Snapshot, x: Id): int
    requires x in s.accounts && s.accounts[x].PlanID in s.plans
  {
    ThePlan(s, x).QuotaBytes
  }

  /** 0 <= usage <= quota for each account, and nothing is reserved for anybody else. */
  ghost predicate WithinQuota(s: Snapshot) {
    forall x :: 0 <= Used(s, x)
      && (x !in s.accounts ==> Used(s, x) == 0)
      && (x in s.accounts ==> s.accounts[x].PlanID in s.plans && Used(s, x) <= QuotaOf(s, x))
  }

  ghost predicate SpaceSound(s: Snapshot) {
    PeriodsSound(s) && QuotasTyped(s) && WithinQuota(s)
  }

  // ---- what each event does to usage -------------------------------------------------------

  /** Only Reserve and Release write usage records, and only CreatePlan adds a plan. */
  lemma OnlySpaceEvents(env: Env, m: Machine, ev: Event)
    ensures var s, t := m.st.mem, StepStore(env, m, ev).mem;
            && (!ev.EvReserve? && !ev.EvRelease? ==> t.usage == s.usage)
            && (!ev.EvCreatePlan? ==> t.plans == s.plans)
            && (ev.EvCreatePlan? && t.plans != s.plans ==>
                  0 < ev.quota && exists p: Plan :: p.QuotaBytes == ev.quota && t.plans == s.plans[p.ID := p])
  {
    hide Advance, Wrap64, BillAll, Settle, SuspendAll, RecordCheckout, IssueInvoice, Reserve, Release;
    match ev
    case EvRunBilling(now, order, invIDs, payIDs) => BillAllFrame(env, m.st, order, now, invIDs, payIDs);
    case EvPay(invoice, how, now, payID) => SettleFrame(env, m.st, invoice, how, now, payID);
    case EvWebhook(provider, verified, now, payID) =>
      if verified.Ok? && verified.value.paid && verified.value.invoice != "" {
        SettleFrame(env, m.st, verified.value.invoice, provider, now, payID);
      }
    case EvEnforce(now, grace, order) => SuspendAllFrame(env, m.st, order, now - grace);
    case EvReserve(id, bytes, now) => UsageOnly(env, m.st, id, bytes, now);
    case EvRelease(id, bytes, now) => UsageOnly(env, m.st, id, bytes, now);
    case EvIssueInvoice(id, amount, now, invID) => IssueFrame(env, m.st, id, amount, now, invID);
    case EvEndCheckout(call, session) =>
      if call in m.pending && session.Some? {
        RecordFrame(env, m.st, m.pending[call], session.value);
      }
    case EvCreatePlan(name, quota, price, currency, period, id) =>
      PlanFrame(env, m.st, name, quota, price, currency, period, id);
    case _ =>
  }

  lemma PlanFrame(env: Env, st: StoreState, name: string, quota: int, price: Money, currency: string, period: string,
                  id: Id)
    ensures var s, t := st.mem, CreatePlan(env, st, name, quota, price, currency, period, id).0.mem;
            && t.usage == s.usage
            && (t.plans != s.plans ==>
                  0 < quota && exists p: Plan :: p.QuotaBytes == quota && t.plans == s.plans[p.ID := p])
  {
    var s, r := st.mem, CreatePlan(env, st, name, quota, price, currency, period, id);
    if r.0 != st {
      var p := r.0.mem.plans[id];
      assert r.0.mem.plans == s.plans[p.ID := p];
    }
  }

  lemma {:induction false} BillAllFrame(env: Env, st: StoreState, order: seq<Id>, now: Time, invIDs: Id -> Id,
                                        payIDs: Id -> Id)
    ensures var t := BillAll(env, st, order, now, invIDs, payIDs).st.mem;
            t.usage == st.mem.usage && t.plans == st.mem.plans
    decreases |order|
  {
    hide Due, PeriodInvoice, ChargedInvoice, NextPeriod;
    if order != [] {
      var one := BillOne(env, st, order[0], now, invIDs(order[0]), payIDs(order[0]));
      if !one.failed {
        BillAllFrame(env, one.st, order[1..], now, invIDs, payIDs);
      }
    }
  }

  lemma SettleFrame(env: Env, st: StoreState, invoice: Id, how: string, now: Time, payID: Id)
    ensures var t := Settle(env, st, invoice, how, now, payID).0.mem; t.usage == st.mem.usage && t.plans == st.mem.plans
  {
    hide Outstanding;
  }

  lemma {:induction false} SuspendAllFrame(env: Env, st: StoreState, order: seq<Id>, cutoff: Time)
    ensures var t := SuspendAll(env, st, order, cutoff).0.mem; t.usage == st.mem.usage && t.plans == st.mem.plans
    decreases |order|
  {
    hide Delinquent;
    if order != [] {
      SuspendAllFrame(env, SuspendOne(env, st, order[0], cutoff).0, order[1..], cutoff);
    }
  }

  lemma IssueFrame(env: Env, st: StoreState, id: Id, amount: int, now: Time, invID: Id)
    ensures var t := IssueInvoice(env, st, id, amount, now, invID).0.mem;
            t.usage == st.mem.usage && t.plans == st.mem.plans
  {}

  lemma RecordFrame(env: Env, st: StoreState, req: Request, reference: string)
    ensures var t := RecordCheckout(env, st, req, reference).mem; t.usage == st.mem.usage && t.plans == st.mem.plans
  {}

  // ---- Reserve and Release -----------------------------------------------------------------

  /** Whether a Reserve changes usage in memory; when only its save fails, it still does. */
  ghost predicate Counted(env: Env, st: StoreState, id: Id, bytes: int, now: Time) {
    var r := Reserve(env, st, id, bytes, now).1;
    r.Ok? || r.error == PersistFailed
  }

  /** The account may reserve. */
  predicate MayReserve(s: Snapshot, id: Id) {
    id in s.accounts && s.accounts[id].Status == Active && s.accounts[id].PlanID in s.plans
  }

  /** Reserve lets a write of a non-negative size through exactly when it fits the quota - if and
      only if BytesUsed + bytes does not exceed the int64 range. Beyond that it lets through every
      write, none of which fits. */
  lemma ReserveExactIffNoWrap(env: Env, st: StoreState, id: Id, bytes: int, now: Time)
    requires SpaceSound(st.mem) && MayReserve(st.mem, id) && 0 <= bytes <= MAX_INT64
    ensures (Counted(env, st, id, bytes, now) <==> Used(st.mem, id) + bytes <= QuotaOf(st.mem, id))
       <==> bytes <= MAX_INT64 - Used(st.mem, id)
    ensures SpaceSound(Reserve(env, st, id, bytes, now).0.mem) <==> bytes <= MAX_INT64 - Used(st.mem, id)
  {
    var s, t := st.mem, Reserve(env, st, id, bytes, now).0.mem;
    var used, quota := Used(s, id), QuotaOf(s, id);
    assert 0 <= used <= quota <= MAX_INT64 by { hide PeriodsSound; }
    ReserveDecision(env, st, id, bytes, now);
    hide Reserve, Counted, PeriodsSound, QuotasTyped;
    if bytes <= MAX_INT64 - used {
      NoWrap(used, bytes);
      ReserveSound(env, st, id, bytes, now);
    } else {
      Wraps(used, bytes);
      hide Wrap64;
      assert Used(t, id) < 0;
    }
  }

  lemma ReserveDecision(env: Env, st: StoreState, id: Id, bytes: int, now: Time)
    requires MayReserve(st.mem, id) && 0 <= bytes
    ensures Counted(env, st, id, bytes, now) <==> Wrap64(Used(st.mem, id) + bytes) <= QuotaOf(st.mem, id)
    ensures Used(Reserve(env, st, id, bytes, now).0.mem, id) ==
            if Counted(env, st, id, bytes, now) then Wrap64(Used(st.mem, id) + bytes) else Used(st.mem, id)
  {
    hide Wrap64;
  }

  lemma Wraps(used: int, bytes: int)
    requires 0 <= used <= MAX_INT64 && MAX_INT64 - used < bytes <= MAX_INT64
    ensures Wrap64(used + bytes) == used + bytes - TWO_64 < 0
  {}

  /** A counterexample to the quota check, by one call: one byte stored, then the largest int64. */
  lemma WrapLetsEverythingThrough(env: Env, st: StoreState, id: Id, now: Time)
    requires SpaceSound(st.mem) && MayReserve(st.mem, id) && Used(st.mem, id) == 1
    ensures Counted(env, st, id, MAX_INT64, now)
    ensures Used(Reserve(env, st, id, MAX_INT64, now).0.mem, id) == -MAX_INT64 - 1
  {
    assert Wrap64(1 + MAX_INT64) == -MAX_INT64 - 1;
    assert 0 < QuotaOf(st.mem, id);
  }

  lemma ReserveSound(env: Env, st: StoreState, id: Id, bytes: int, now: Time)
    requires SpaceSound(st.mem) && bytes <= MAX_INT64 - Used(st.mem, id)
    ensures SpaceSound(Reserve(env, st, id, bytes, now).0.mem)
  {
    UsageOnly(env, st, id, bytes, now);
    UsedInRange(st.mem, id);
    hide SpaceSound, Wrap64;
    NoWrap(Used(st.mem, id), if bytes < 0 then 0 else bytes);
    UsageSetSound(st.mem, Reserve(env, st, id, bytes, now).0.mem, id);
  }

  /** Changing one account's usage within its quota. */
  lemma UsageSetSound(s: Snapshot, t: Snapshot, id: Id)
    requires SpaceSound(s) && t.accounts == s.accounts && t.plans == s.plans
    requires forall x :: x != id ==> Used(t, x) == Used(s, x)
    requires 0 <= Used(t, id)
    requires Used(t, id) <= Used(s, id)
      || (id in s.accounts && s.accounts[id].PlanID in s.plans && Used(t, id) <= QuotaOf(s, id))
    ensures SpaceSound(t)
  {
    hide Used;
    assert PeriodsSound(t) by { SameAccountsSound(s, t); }
    hide PeriodsSound;
  }

  lemma NoWrap(used: int, change: int)
    requires IsInt64(used + change)
    ensures Wrap64(used + change) == used + change
  {}

  lemma ReleaseSound(env: Env, st: StoreState, id: Id, bytes: int, now: Time)
    requires SpaceSound(st.mem) && bytes <= MAX_INT64
    ensures SpaceSound(Release(env, st, id, bytes, now).0.mem)
  {
    UsageOnly(env, st, id, bytes, now);
    UsedInRange(st.mem, id);
    hide SpaceSound, Wrap64;
    NoWrap(Used(st.mem, id), if bytes < 0 then 0 else -bytes);
    UsageSetSound(st.mem, Release(env, st, id, bytes, now).0.mem, id);
  }

  // ---- every reachable state ---------------------------------------------------------------

  /** No Reserve in the event makes the int64 sum overflow. */
  predicate FitsInt64(s: Snapshot, ev: Event) {
    ev.EvReserve? ==> ev.bytes <= MAX_INT64 - Used(s, ev.id)
  }

  ghost predicate TypedRun(env: Env, m: Machine, evs: seq<Event>)
    decreases |evs|
  {
    evs == [] || (Allowed(m, evs[0]) && Typed(evs[0]) && FitsInt64(m.st.mem, evs[0])
                  && TypedRun(env, Step(env, m, evs[0]), evs[1..]))
  }

  lemma StepSpace(env: Env, m: Machine, ev: Event)
    requires Allowed(m, ev) && Typed(ev) && FitsInt64(m.st.mem, ev) && SpaceSound(m.st.mem)
    ensures SpaceSound(StepStore(env, m, ev).mem)
  {
    match ev
    case EvReserve(id, bytes, now) =>
      hide SpaceSound;
      ReserveSound(env, m.st, id, bytes, now);
    case EvRelease(id, bytes, now) =>
      hide SpaceSound;
      ReleaseSound(env, m.st, id, bytes, now);
    case _ =>
      hide StepStore, PeriodsSound, Allowed;
      OnlySpaceEvents(env, m, ev);
      StepPeriods(env, m, ev);
      OtherEventsSound(m.st.mem, StepStore(env, m, ev).mem);
  }

  lemma OtherEventsSound(s: Snapshot, t: Snapshot)
    requires SpaceSound(s) && t.usage == s.usage && Stable(s, t) && PeriodsSound(t)
    requires t.plans == s.plans || exists p: Plan :: 0 < p.QuotaBytes <= MAX_INT64 && t.plans == s.plans[p.ID := p]
    ensures SpaceSound(t)
  {
    hide Advance;
    forall x ensures 0 <= Used(t, x)
      && (x !in t.accounts ==> Used(t, x) == 0)
      && (x in t.accounts ==> t.accounts[x].PlanID in t.plans && Used(t, x) <= QuotaOf(t, x))
    {
      assert Used(t, x) == Used(s, x);
    }
  }

  /** In every reachable state 0 <= BytesUsed <= quota, whatever saves fail. */
  lemma {:induction false} UsageStaysWithinQuota(env: Env, m: Machine, evs: seq<Event>)
    requires TypedRun(env, m, evs) && SpaceSound(m.st.mem)
    ensures SpaceSound(Run(env, m, evs).st.mem)
    decreases |evs|
  {
    if evs != [] {
      hide SpaceSound, Allowed, StepStore, Typed, FitsInt64;
      StepSpace(env, m, evs[0]);
      UsageStaysWithinQuota(env, Step(env, m, evs[0]), evs[1..]);
    }
  }

  lemma InitiallySound()
    ensures SpaceSound(INITIAL.st.mem)
  {}

  /** What Status shows in such a state: used and remaining bytes add up to the quota. */
  lemma StatusAddsUp(s: Snapshot, x: Id)
    requires SpaceSound(s) && x in s.accounts
    ensures Status(s, x).Ok?
    ensures var v := Status(s, x).value;
            v.BytesUsed + v.RemainingBytes == v.QuotaBytes && 0 <= v.BytesUsed && 0 <= v.RemainingBytes
  {
    hide Outstanding, PeriodsSound;
    assert s.accounts[x].PlanID in s.plans;
    assert 0 <= Used(s, x) <= QuotaOf(s, x) <= MAX_INT64;
    NoWrap(QuotaOf(s, x), -Used(s, x));
  }

  // ---- the closed form ---------------------------------------------------------------------

  function Sum(changes: seq<int>): int {
    if changes == [] then 0 else changes[0] + Sum(changes[1..])
  }

  /** The largest sum of a suffix; the empty suffix counts as 0. */
  function LargestSuffix(changes: seq<int>): int {
    if changes == [] then 0
    else
      var rest := LargestSuffix(changes[1..]);
      if rest < Sum(changes) then Sum(changes) else rest
  }

  lemma {:induction false} LargestSuffixIsLargest(changes: seq<int>)
    ensures forall i :: 0 <= i <= |changes| ==> Sum(changes[i..]) <= LargestSuffix(changes)
    ensures exists i :: 0 <= i <= |changes| && Sum(changes[i..]) == LargestSuffix(changes)
  {
    assert changes[0..] == changes;
    if changes == [] {
      assert Sum(changes[0..]) == LargestSuffix(changes);
    } else {
      LargestSuffixIsLargest(changes[1..]);
      forall i | 0 <= i <= |changes| ensures Sum(changes[i..]) <= LargestSuffix(changes) {
        if i > 0 {
          assert changes[i..] == changes[1..][i - 1..];
        }
      }
      var k :| 0 <= k <= |changes| - 1 && Sum(changes[1..][k..]) == LargestSuffix(changes[1..]);
      assert changes[k + 1..] == changes[1..][k..];
      var i := if LargestSuffix(changes) == Sum(changes) then 0 else k + 1;
      assert Sum(changes[i..]) == LargestSuffix(changes);
    }
  }

  /** The signed byte change an event makes to one account, when it makes one. */
  ghost function Change(env: Env, m: Machine, ev: Event, x: Id): seq<int> {
    match ev
    case EvReserve(id, bytes, now) => if id == x && Counted(env, m.st, id, bytes, now) then [bytes] else []
    case EvRelease(id, bytes, now) => if id == x && bytes >= 0 then [-bytes] else []
    case _ => []
  }

  ghost function Changes(env: Env, m: Machine, evs: seq<Event>, x: Id): seq<int>
    decreases |evs|
  {
    if evs == [] then [] else Change(env, m, evs[0], x) + Changes(env, Step(env, m, evs[0]), evs[1..], x)
  }

  /** Usage moves by the change and is clamped at zero. */
  ghost predicate Clamped(before: int, change: seq<int>, after: int) {
    after == if change == [] || before + change[0] < 0 then (if change == [] then before else 0) else before + change[0]
  }

  lemma StepClamps(env: Env, m: Machine, ev: Event, x: Id)
    requires SpaceSound(m.st.mem) && Typed(ev) && FitsInt64(m.st.mem, ev)
    ensures Clamped(Used(m.st.mem, x), Change(env, m, ev, x), Used(StepStore(env, m, ev).mem, x))
    ensures |Change(env, m, ev, x)| <= 1
  {
    hide Wrap64;
    match ev
    case EvReserve(id, bytes, now) =>
      UsedInRange(m.st.mem, x);
      hide SpaceSound;
      ReserveClamps(env, m.st, id, bytes, now, x);
    case EvRelease(id, bytes, now) =>
      UsedInRange(m.st.mem, id);
      UsedInRange(m.st.mem, x);
      hide SpaceSound;
      ReleaseClamps(env, m.st, id, bytes, now, x);
    case _ =>
      hide StepStore, SpaceSound;
      OnlySpaceEvents(env, m, ev);
  }

  lemma UsedInRange(s: Snapshot, x: Id)
    requires SpaceSound(s)
    ensures 0 <= Used(s, x) <= MAX_INT64
  {
    hide PeriodsSound;
  }

  lemma ReserveClamps(env: Env, st: StoreState, id: Id, bytes: int, now: Time, x: Id)
    requires 0 <= Used(st.mem, x) && bytes <= MAX_INT64 - Used(st.mem, id)
    ensures Used(Reserve(env, st, id, bytes, now).0.mem, x) ==
            Used(st.mem, x) + if id == x && Counted(env, st, id, bytes, now) then bytes else 0
    ensures Counted(env, st, id, bytes, now) ==> 0 <= bytes
  {
    hide Wrap64;
    if id == x && 0 <= bytes {
      NoWrap(Used(st.mem, id), bytes);
    }
  }

  lemma ReleaseClamps(env: Env, st: StoreState, id: Id, bytes: int, now: Time, x: Id)
    requires 0 <= Used(st.mem, id) <= MAX_INT64 && bytes <= MAX_INT64
    ensures var used := Used(st.mem, x);
            Used(Release(env, st, id, bytes, now).0.mem, x) ==
              if id != x || bytes < 0 then used else if used < bytes then 0 else used - bytes
  {
    hide Wrap64;
    if 0 <= bytes {
      NoWrap(Used(st.mem, id), -bytes);
    }
  }

  lemma ClampStep(before: int, change: seq<int>, after: int, rest: seq<int>)
    requires 0 <= before && |change| <= 1 && Clamped(before, change, after)
    ensures LargestSuffix([after] + rest) == LargestSuffix([before] + (change + rest))
  {
    if change == [] {
      assert [] + rest == rest;
    } else {
      var d := change[0];
      assert ([after] + rest)[1..] == rest;
      assert ([before] + (change + rest))[1..] == change + rest;
      assert (change + rest)[1..] == rest;
      assert LargestSuffix(rest) >= Sum(rest) by { SuffixAtLeastSum(rest); }
    }
  }

  lemma SuffixAtLeastSum(changes: seq<int>)
    ensures LargestSuffix(changes) >= Sum(changes)
  {}

  /** After any run, usage is the largest suffix sum of the signed changes, counted from the usage
      at its start: the closed form of adding and clamping at zero one call at a time. */
  lemma {:induction false} UsageIsLargestSuffix(env: Env, m: Machine, evs: seq<Event>, x: Id)
    requires TypedRun(env, m, evs) && SpaceSound(m.st.mem)
    ensures Used(Run(env, m, evs).st.mem, x) == LargestSuffix([Used(m.st.mem, x)] + Changes(env, m, evs, x))
    decreases |evs|
  {
    var used := Used(m.st.mem, x);
    assert 0 <= used;
    if evs == [] {
      assert [used] + [] == [used];
      assert [used][1..] == [] && Sum([used]) == used;
    } else {
      hide SpaceSound, Allowed, StepStore, Typed, FitsInt64, Used, Change, LargestSuffix;
      var m' := Step(env, m, evs[0]);
      StepSpace(env, m, evs[0]);
      StepClamps(env, m, evs[0], x);
      UsageIsLargestSuffix(env, m', evs[1..], x);
      ClampStep(used, Change(env, m, evs[0], x), Used(m'.st.mem, x), Changes(env, m', evs[1..], x));
    }
  }

  /** From the empty store the initial usage plays no part. */
  lemma UsageFromEmpty(env: Env, evs: seq<Event>, x: Id)
    requires TypedRun(env, INITIAL, evs)
    ensures Used(Run(env, INITIAL, evs).st.mem, x) == LargestSuffix(Changes(env, INITIAL, evs, x))
  {
    InitiallySound();
    hide SpaceSound, TypedRun, Run;
    UsageIsLargestSuffix(env, INITIAL, evs, x);
    var changes := Changes(env, INITIAL, evs, x);
    assert ([0] + changes)[1..] == changes;
    SuffixAtLeastSum(changes);
  }
}
