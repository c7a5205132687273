/** Billing periods over every run: the invoices of an account tile time, and repeated billing
    catches up exactly and then stops. */
module Billing {
  import opened Wrappers
  import opened Collections
  import CivilTime
  import opened ControlModel
  import opened ControlSpec
  import opened ControlRuns

  /** Accounts are stored under their id, their plan exists, and their period is one step long. */
  ghost predicate PeriodsSound(s: Snapshot) {
    forall id :: id in s.accounts ==>
      var a := s.accounts[id];
      a.ID == id && a.PlanID in s.plans && a.PeriodEnd == Advance(s.plans[a.PlanID].Period, a.PeriodStart)
  }

  ghost predicate AllSaved(env: Env) {
    forall n :: env.saved(n)
  }

  /** The issued invoices of one account, in order. */
  function IssuedFor(issued: seq<Invoice>, account: Id): seq<Invoice> {
    if issued == [] then [] else Mine(issued[0], account) + IssuedFor(issued[1..], account)
  }

  function Mine(inv: Invoice, account: Id): seq<Invoice> {
    if inv.AccountID == account then [inv] else []
  }

  lemma {:induction false} IssuedForAppend(a: seq<Invoice>, b: seq<Invoice>, account: Id)
    ensures IssuedFor(a + b, account) == IssuedFor(a, account) + IssuedFor(b, account)
  {
    hide Mine;
    if a == [] {
      assert a + b == b;
    } else {
      IssuedForAppend(a[1..], b, account);
      assert (a + b)[1..] == a[1..] + b;
      Associative(Mine(a[0], account), IssuedFor(a[1..], account), IssuedFor(b, account));
    }
  }

  lemma Associative<T>(a: seq<T>, b: seq<T>, c: seq<T>)
    ensures a + (b + c) == (a + b) + c
  {}

  predicate HasPlan(s: Snapshot, x: Id) {
    x in s.accounts && s.accounts[x].PlanID in s.plans
  }

  function ThePlan(s: Snapshot, id: Id): Plan
    requires id in s.accounts && s.accounts[id].PlanID in s.plans
  {
    s.plans[s.accounts[id].PlanID]
  }

  // ---- one pass ----------------------------------------------------------------------------

  /** The accounts after billing one of them. */
  function BilledAccounts(s: Snapshot, id: Id, now: Time): map<Id, Account> {
    if Due(s, id, now) then s.accounts[id := NextPeriod(s.accounts[id], ThePlan(s, id))] else s.accounts
  }

  function BilledInvoices(env: Env, s: Snapshot, id: Id, now: Time, invID: Id): seq<Invoice> {
    if Due(s, id, now) && ThePlan(s, id).PriceCents > 0
    then [ChargedInvoice(env, s.accounts[id], ThePlan(s, id), now, invID)] else []
  }

  lemma BillOneEffect(env: Env, st: StoreState, id: Id, now: Time, invID: Id, payID: Id)
    requires AllSaved(env) && (id in st.mem.accounts ==> st.mem.accounts[id].ID == id)
    ensures var b := BillOne(env, st, id, now, invID, payID);
            && !b.failed && b.st.mem.plans == st.mem.plans
            && b.st.mem.accounts == BilledAccounts(st.mem, id, now)
            && b.issued == BilledInvoices(env, st.mem, id, now, invID)
  {
    hide Advance, PeriodInvoice, ChargedInvoice;
  }

  /** What a pass means for one account: billed exactly when due and listed, and once. */
  ghost predicate PassEffect(env: Env, s: Snapshot, b: Billed, x: Id, listed: bool, now: Time, invID: Id)
    requires x in s.accounts
  {
    && !b.failed && b.st.mem.plans == s.plans && b.st.mem.accounts.Keys == s.accounts.Keys
    && PeriodsSound(b.st.mem)
    && b.st.mem.accounts[x] == (if listed then BilledAccounts(s, x, now)[x] else s.accounts[x])
    && IssuedFor(b.issued, x) == if listed then BilledInvoices(env, s, x, now, invID) else []
  }

  lemma {:induction false} BillAllEffect(env: Env, st: StoreState, order: seq<Id>, now: Time, invIDs: Id -> Id,
                                         payIDs: Id -> Id, x: Id)
    requires AllSaved(env) && PeriodsSound(st.mem) && x in st.mem.accounts
    requires forall i, j :: 0 <= i < j < |order| ==> order[i] != order[j]
    ensures PassEffect(env, st.mem, BillAll(env, st, order, now, invIDs, payIDs), x, x in order, now, invIDs(x))
    decreases |order|
  {
    hide BillOne, Due, Advance, BilledInvoices;
    if order != [] {
      var id, rest := order[0], order[1..];
      var one := BillOne(env, st, id, now, invIDs(id), payIDs(id));
      if id in st.mem.accounts {
        KeyedById(st.mem, id);
      }
      hide *;
      BillOneEffect(env, st, id, now, invIDs(id), payIDs(id));
      BilledSound(st.mem, id, now, one.st.mem);
      BilledKeys(st.mem, id, now);
      BillAllEffect(env, one.st, rest, now, invIDs, payIDs, x);
      BillAllUnfold(env, st, order, now, invIDs, payIDs);
      assert x in order <==> x == id || x in rest;
      assert x == id ==> x !in rest;
      PassStep(env, st.mem, one, BillAll(env, one.st, rest, now, invIDs, payIDs), id, x, x in rest, now, invIDs);
    }
  }

  lemma BilledKeys(s: Snapshot, id: Id, now: Time)
    ensures BilledAccounts(s, id, now).Keys == s.accounts.Keys
  {}

  lemma PassStep(env: Env, s: Snapshot, one: Billed, rest: Billed, id: Id, x: Id, listed: bool, now: Time,
                 invIDs: Id -> Id)
    requires PeriodsSound(s) && x in s.accounts && (x == id ==> !listed)
    requires one.st.mem.plans == s.plans && one.st.mem.accounts == BilledAccounts(s, id, now)
      && x in one.st.mem.accounts
    requires one.issued == BilledInvoices(env, s, id, now, invIDs(id)) && one.st.mem.accounts.Keys == s.accounts.Keys
    requires PassEffect(env, one.st.mem, rest, x, listed, now, invIDs(x))
    ensures PassEffect(env, s, Billed(rest.st, one.issued + rest.issued, rest.failed), x, listed || x == id, now,
                       invIDs(x))
  {
    IssuedForAppend(one.issued, rest.issued, x);
    hide Advance, PeriodsSound, ChargedInvoice, IssuedFor;
    if x == id {
      OwnInvoice(env, s, x, now, invIDs(x));
      assert BilledInvoices(env, s, x, now, invIDs(x)) + [] == BilledInvoices(env, s, x, now, invIDs(x));
    } else {
      OthersInvoice(env, s, id, now, invIDs(id), x);
      assert [] + IssuedFor(rest.issued, x) == IssuedFor(rest.issued, x);
    }
  }

  lemma BillAllUnfold(env: Env, st: StoreState, order: seq<Id>, now: Time, invIDs: Id -> Id, payIDs: Id -> Id)
    requires order != [] && !BillOne(env, st, order[0], now, invIDs(order[0]), payIDs(order[0])).failed
    ensures var one := BillOne(env, st, order[0], now, invIDs(order[0]), payIDs(order[0]));
            var rest := BillAll(env, one.st, order[1..], now, invIDs, payIDs);
            BillAll(env, st, order, now, invIDs, payIDs) == Billed(rest.st, one.issued + rest.issued, rest.failed)
  {}

  lemma BilledSound(s: Snapshot, id: Id, now: Time, t: Snapshot)
    requires PeriodsSound(s) && t.plans == s.plans && t.accounts == BilledAccounts(s, id, now)
    ensures PeriodsSound(t)
  {
    hide Advance;
  }

  lemma OwnInvoice(env: Env, s: Snapshot, x: Id, now: Time, invID: Id)
    requires PeriodsSound(s) && x in s.accounts
    ensures IssuedFor(BilledInvoices(env, s, x, now, invID), x) == BilledInvoices(env, s, x, now, invID)
  {
    assert forall inv :: Mine(inv, x) + [] == Mine(inv, x);
  }

  lemma OthersInvoice(env: Env, s: Snapshot, id: Id, now: Time, invID: Id, x: Id)
    requires PeriodsSound(s) && id != x
    ensures IssuedFor(BilledInvoices(env, s, id, now, invID), x) == []
  {}

  /** The issued invoices saved one after the other. */
  function Stored(invoices: map<Id, Invoice>, issued: seq<Invoice>): map<Id, Invoice>
    decreases |issued|
  {
    if issued == [] then invoices else Stored(invoices[issued[0].ID := issued[0]], issued[1..])
  }

  lemma {:induction false} StoredAppend(invoices: map<Id, Invoice>, a: seq<Invoice>, b: seq<Invoice>)
    ensures Stored(invoices, a + b) == Stored(Stored(invoices, a), b)
    decreases |a|
  {
    if a == [] {
      assert a + b == b;
    } else {
      assert (a + b)[1..] == a[1..] + b;
      StoredAppend(invoices[a[0].ID := a[0]], a[1..], b);
    }
  }

  /** RunBilling returns exactly the invoices it adds to the store, in that order, but for at most one
      more in a pass that fails. */
  lemma {:induction false} ReturnedAreStored(env: Env, st: StoreState, order: seq<Id>, now: Time, invIDs: Id -> Id,
                                             payIDs: Id -> Id) returns (unreturned: seq<Invoice>)
    ensures var b := BillAll(env, st, order, now, invIDs, payIDs);
            && b.st.mem.invoices == Stored(st.mem.invoices, b.issued + unreturned)
            && |unreturned| <= 1 && (unreturned != [] ==> b.failed) && (AllSaved(env) ==> !b.failed)
    decreases |order|
  {
    hide Due, PeriodInvoice, ChargedInvoice, NextPeriod;
    unreturned := [];
    if order != [] {
      var id := order[0];
      var one := BillOne(env, st, id, now, invIDs(id), payIDs(id));
      if one.failed {
        unreturned := BilledStores(env, st, id, now, invIDs(id), payIDs(id));
      } else {
        var none := BilledStores(env, st, id, now, invIDs(id), payIDs(id));
        assert one.issued + [] == one.issued;
        BillAllUnfold(env, st, order, now, invIDs, payIDs);
        hide *;
        unreturned := ReturnedAreStored(env, one.st, order[1..], now, invIDs, payIDs);
        var rest := BillAll(env, one.st, order[1..], now, invIDs, payIDs).issued;
        StoredAppend(st.mem.invoices, one.issued, rest + unreturned);
        Associative(one.issued, rest, unreturned);
      }
    }
  }

  lemma BilledStores(env: Env, st: StoreState, id: Id, now: Time, invID: Id, payID: Id)
    returns (unreturned: seq<Invoice>)
    ensures var b := BillOne(env, st, id, now, invID, payID);
            && b.st.mem.invoices == Stored(st.mem.invoices, b.issued + unreturned)
            && |unreturned| <= 1 && (unreturned != [] ==> b.failed) && (AllSaved(env) ==> !b.failed)
  {
    hide PeriodInvoice, ChargedInvoice, NextPeriod;
    var b := BillOne(env, st, id, now, invID, payID);
    unreturned := if Due(st.mem, id, now) && ThePlan(st.mem, id).PriceCents > 0 && b.issued == []
                  then [ChargedInvoice(env, st.mem.accounts[id], ThePlan(st.mem, id), now, invID)] else [];
    assert b.issued + [] == b.issued && [] + unreturned == unreturned;
  }

  // ---- periods and plans over every run ----------------------------------------------------

  /** Plans and the identity of accounts never change, with or without failed saves. */
  ghost predicate Stable(s: Snapshot, t: Snapshot) {
    && (forall p :: p in s.plans ==> p in t.plans && t.plans[p] == s.plans[p])
    && (forall x :: x in s.accounts ==>
          && x in t.accounts && t.accounts[x].PlanID == s.accounts[x].PlanID
          && t.accounts[x].CreatedAt == s.accounts[x].CreatedAt)
  }

  /** Additionally no existing account changes its period. */
  ghost predicate SamePeriods(s: Snapshot, t: Snapshot) {
    forall x :: x in s.accounts ==>
      x in t.accounts && t.accounts[x].PeriodStart == s.accounts[x].PeriodStart
        && t.accounts[x].PeriodEnd == s.accounts[x].PeriodEnd
      && t.accounts[x].ID == s.accounts[x].ID
  }

  lemma StableReflexive(s: Snapshot)
    ensures Stable(s, s)
  {}

  lemma StableTransitive(s: Snapshot, t: Snapshot, u: Snapshot)
    requires Stable(s, t) && Stable(t, u)
    ensures Stable(s, u)
  {}

  lemma {:induction false} BillAllStable(env: Env, st: StoreState, order: seq<Id>, now: Time, invIDs: Id -> Id,
                                         payIDs: Id -> Id)
    requires PeriodsSound(st.mem)
    ensures var t := BillAll(env, st, order, now, invIDs, payIDs).st.mem;
            PeriodsSound(t) && Stable(st.mem, t) && t.accounts.Keys == st.mem.accounts.Keys
    decreases |order|
  {
    if order == [] {
      StableReflexive(st.mem);
    } else {
      var id := order[0];
      var one := BillOne(env, st, id, now, invIDs(id), payIDs(id));
      BillOneStable(env, st, id, now, invIDs(id), payIDs(id));
      hide BillOne, PeriodsSound, Stable;
      if !one.failed {
        BillAllStable(env, one.st, order[1..], now, invIDs, payIDs);
        StableTransitive(st.mem, one.st.mem, BillAll(env, one.st, order[1..], now, invIDs, payIDs).st.mem);
      }
    }
  }

  lemma BillOneStable(env: Env, st: StoreState, id: Id, now: Time, invID: Id, payID: Id)
    requires PeriodsSound(st.mem)
    ensures var t := BillOne(env, st, id, now, invID, payID).st.mem;
            && PeriodsSound(t) && Stable(st.mem, t) && t.accounts.Keys == st.mem.accounts.Keys
            && (t.accounts == st.mem.accounts || t.accounts == BilledAccounts(st.mem, id, now))
  {
    hide Advance, PeriodInvoice, PeriodsSound, ChargedInvoice;
    if id in st.mem.accounts {
      KeyedById(st.mem, id);
    }
    BillOneCases(env, st, id, now, invID, payID);
    hide BillOne, Due;
    var t := BillOne(env, st, id, now, invID, payID).st.mem;
    if t.accounts == st.mem.accounts {
      SameAccountsSound(st.mem, t);
    } else {
      BilledSound(st.mem, id, now, t);
    }
  }

  lemma BillOneCases(env: Env, st: StoreState, id: Id, now: Time, invID: Id, payID: Id)
    requires id in st.mem.accounts ==> st.mem.accounts[id].ID == id
    ensures var t := BillOne(env, st, id, now, invID, payID).st.mem;
            t.plans == st.mem.plans && (t.accounts == st.mem.accounts || t.accounts == BilledAccounts(st.mem, id, now))
  {
    hide Advance, PeriodInvoice, ChargedInvoice, ChargedStore;
    if Due(st.mem, id, now) {
      var a := st.mem.accounts[id];
      ChargeLeavesAccounts(env, st, a, st.mem.plans[a.PlanID], now, invID, payID);
    }
  }

  lemma ChargeLeavesAccounts(env: Env, st: StoreState, a: Account, plan: Plan, now: Time, invID: Id, payID: Id)
    ensures var t := ChargedStore(env, st, a, plan, now, invID, payID).mem;
            t.plans == st.mem.plans && t.accounts == st.mem.accounts
  {}

  lemma KeyedById(s: Snapshot, id: Id)
    requires PeriodsSound(s) && id in s.accounts
    ensures s.accounts[id].ID == id
  {}

  lemma SameAccountsSound(s: Snapshot, t: Snapshot)
    requires PeriodsSound(s) && t.accounts == s.accounts
    requires forall p :: p in s.plans ==> p in t.plans && t.plans[p] == s.plans[p]
    ensures PeriodsSound(t)
  {
    hide Advance;
  }

  /** A save that keeps the plan and the period of an account, or a new account. */
  lemma SavedAccountSound(s: Snapshot, a: Account)
    requires PeriodsSound(s) && a.PlanID in s.plans && a.PeriodEnd == Advance(s.plans[a.PlanID].Period, a.PeriodStart)
    requires a.ID in s.accounts ==>
      var b := s.accounts[a.ID];
      b.PlanID == a.PlanID && b.CreatedAt == a.CreatedAt && b.PeriodStart == a.PeriodStart && b.PeriodEnd == a.PeriodEnd
    ensures var t := s.(accounts := s.accounts[a.ID := a]); PeriodsSound(t) && Stable(s, t) && SamePeriods(s, t)
  {
    hide Advance;
  }

  lemma {:induction false} SuspendAllPeriods(env: Env, st: StoreState, order: seq<Id>, cutoff: Time)
    requires PeriodsSound(st.mem)
    ensures var t := SuspendAll(env, st, order, cutoff).0.mem;
            PeriodsSound(t) && Stable(st.mem, t) && SamePeriods(st.mem, t) && t.accounts.Keys == st.mem.accounts.Keys
    decreases |order|
  {
    hide Advance, Delinquent;
    if order != [] {
      var st1 := SuspendOne(env, st, order[0], cutoff).0;
      if st1 != st {
        SavedAccountSound(st.mem, st.mem.accounts[order[0]].(Status := Suspended));
      }
      hide SuspendOne, PeriodsSound;
      SuspendAllPeriods(env, st1, order[1..], cutoff);
    }
  }

  lemma SettlePeriods(env: Env, st: StoreState, invoice: Id, how: string, now: Time, payID: Id)
    requires PeriodsSound(st.mem)
    ensures var t := Settle(env, st, invoice, how, now, payID).0.mem;
            PeriodsSound(t) && Stable(st.mem, t) && SamePeriods(st.mem, t) && t.accounts.Keys == st.mem.accounts.Keys
  {
    SettleTouches(env, st, invoice, how, now, payID);
    hide Settle, Advance;
    var s, t := st.mem, Settle(env, st, invoice, how, now, payID).0.mem;
    if t.accounts == s.accounts {
      SameAccountsSound(s, t);
    } else {
      var a := s.accounts[s.invoices[invoice].AccountID].(Status := Active);
      SavedAccountSound(s, a);
      SameAccountsSound(s.(accounts := t.accounts), t);
    }
  }

  /** A settlement changes accounts only by reactivating one. */
  lemma SettleTouches(env: Env, st: StoreState, invoice: Id, how: string, now: Time, payID: Id)
    ensures var s, t := st.mem, Settle(env, st, invoice, how, now, payID).0.mem;
            && t.plans == s.plans
            && (t.accounts == s.accounts ||
                 (invoice in s.invoices && s.invoices[invoice].AccountID in s.accounts &&
                  var a := s.accounts[s.invoices[invoice].AccountID].(Status := Active);
                  t.accounts == s.accounts[a.ID := a]))
  {
    hide Outstanding;
  }

  /** Every event keeps the periods sound; only RunBilling moves one, and only CreateAccount adds an
      account, whose first period starts at its creation. */
  lemma StepPeriods(env: Env, m: Machine, ev: Event)
    requires Allowed(m, ev) && PeriodsSound(m.st.mem)
    ensures var s, t := m.st.mem, StepStore(env, m, ev).mem;
            && PeriodsSound(t) && Stable(s, t)
            && (!ev.EvRunBilling? ==> SamePeriods(s, t))
            && (forall x :: x in t.accounts && x !in s.accounts ==>
                  ev.EvCreateAccount? && t.accounts[x].PeriodStart == t.accounts[x].CreatedAt)
  {
    hide Advance, Wrap64, BillAll, Settle, SuspendAll, FreshFor, RecordCheckout, IssueInvoice, PeriodsSound, Reserve,
         Release;
    var s, t := m.st.mem, StepStore(env, m, ev).mem;
    match ev
    case EvRunBilling(now, order, invIDs, payIDs) =>
      BillAllStable(env, m.st, order, now, invIDs, payIDs);
    case EvCreateAccount(name, email, planID, now, id, tokenHash) =>
      if t.accounts == s.accounts {
        SameAccountsSound(s, t);
      } else {
        SavedAccountSound(s, t.accounts[id]);
      }
    case EvSetStatus(id, status) =>
      if t.accounts == s.accounts {
        SameAccountsSound(s, t);
      } else {
        SetStatusSound(s, id, status);
      }
    case EvPay(invoice, how, now, payID) =>
      SettlePeriods(env, m.st, invoice, how, now, payID);
    case EvWebhook(provider, verified, now, payID) =>
      if verified.Ok? && verified.value.paid && verified.value.invoice != "" {
        SettlePeriods(env, m.st, verified.value.invoice, provider, now, payID);
      } else {
        SameAccountsSound(s, t);
      }
    case EvEnforce(now, grace, order) =>
      SuspendAllPeriods(env, m.st, order, now - grace);
    case EvCreatePlan(_, _, _, _, _, _) =>
      SameAccountsSound(s, t);
    case EvReserve(id, bytes, now) =>
      UsageOnly(env, m.st, id, bytes, now);
      SameAccountsSound(s, t);
    case EvRelease(id, bytes, now) =>
      UsageOnly(env, m.st, id, bytes, now);
      SameAccountsSound(s, t);
    case EvIssueInvoice(id, amount, now, invID) =>
      InvoicesOnly(env, m.st, id, amount, now, invID);
      SameAccountsSound(s, t);
    case EvEndCheckout(call, session) =>
      if call in m.pending && session.Some? {
        CheckoutOnly(env, m.st, m.pending[call], session.value);
      }
      SameAccountsSound(s, t);
    case EvBeginCheckout(_, _, _) =>
      SameAccountsSound(s, t);
  }

  lemma UsageOnly(env: Env, st: StoreState, id: Id, bytes: int, now: Time)
    ensures var t := Reserve(env, st, id, bytes, now).0.mem; t.accounts == st.mem.accounts && t.plans == st.mem.plans
    ensures var t := Release(env, st, id, bytes, now).0.mem; t.accounts == st.mem.accounts && t.plans == st.mem.plans
  {
    hide Wrap64;
  }

  lemma InvoicesOnly(env: Env, st: StoreState, id: Id, amount: int, now: Time, invID: Id)
    ensures var t := IssueInvoice(env, st, id, amount, now, invID).0.mem;
            t.accounts == st.mem.accounts && t.plans == st.mem.plans
  {}

  lemma CheckoutOnly(env: Env, st: StoreState, req: Request, reference: string)
    ensures var t := RecordCheckout(env, st, req, reference).mem;
            t.accounts == st.mem.accounts && t.plans == st.mem.plans
  {}

  lemma SetStatusSound(s: Snapshot, id: Id, status: AccountStatus)
    requires PeriodsSound(s) && id in s.accounts
    ensures var t := s.(accounts := s.accounts[s.accounts[id].ID := s.accounts[id].(Status := status)]);
            s.accounts[id].ID == id && PeriodsSound(t) && Stable(s, t) && SamePeriods(s, t)
  {
    hide Advance;
    SavedAccountSound(s, s.accounts[id].(Status := status));
  }

  // ---- tiling ------------------------------------------------------------------------------

  /** The invoices cover [start, end) one after the other, each one step long and issued no earlier
      than the end of its period. */
  predicate Tiles(period: string, start: Time, invoices: seq<Invoice>, end: Time)
    decreases |invoices|
  {
    if invoices == [] then start == end
    else
      var inv := invoices[0];
      && inv.PeriodStart == start && inv.PeriodEnd == Advance(period, start) && inv.PeriodEnd <= inv.CreatedAt
      && Tiles(period, inv.PeriodEnd, invoices[1..], end)
  }

  lemma {:induction false} TilesAppend(period: string, start: Time, a: seq<Invoice>, mid: Time, b: seq<Invoice>,
                                       end: Time)
    requires Tiles(period, start, a, mid) && Tiles(period, mid, b, end)
    ensures Tiles(period, start, a + b, end)
    decreases |a|
  {
    hide Advance;
    if a == [] {
      assert a + b == b;
    } else {
      TilesAppend(period, a[0].PeriodEnd, a[1..], mid, b, end);
      assert (a + b)[1..] == a[1..] + b;
    }
  }

  /** Tiles never overlap, so no period is billed twice. */
  lemma {:induction false} TilesDisjoint(period: string, start: Time, invoices: seq<Invoice>, end: Time, i: nat, j: nat)
    requires Tiles(period, start, invoices, end) && i < j < |invoices|
    ensures start <= invoices[i].PeriodStart < invoices[i].PeriodEnd <= invoices[j].PeriodStart
    decreases |invoices|
  {
    AdvanceMovesOn(period, start);
    hide Advance;
    if i == 0 {
      TileStarts(period, invoices[0].PeriodEnd, invoices[1..], end, j - 1);
    } else {
      TilesDisjoint(period, invoices[0].PeriodEnd, invoices[1..], end, i - 1, j - 1);
    }
  }

  lemma {:induction false} TileStarts(period: string, start: Time, invoices: seq<Invoice>, end: Time, i: nat)
    requires Tiles(period, start, invoices, end) && i < |invoices|
    ensures start <= invoices[i].PeriodStart
    decreases |invoices|
  {
    AdvanceMovesOn(period, start);
    hide Advance;
    if i > 0 {
      TileStarts(period, invoices[0].PeriodEnd, invoices[1..], end, i - 1);
    }
  }

  /** The invoices a run's billing passes issue to one account. */
  ghost function BilledIn(env: Env, m: Machine, ev: Event, x: Id): seq<Invoice> {
    match ev
    case EvRunBilling(now, order, invIDs, payIDs) => IssuedFor(BillAll(env, m.st, order, now, invIDs, payIDs).issued, x)
    case _ => []
  }

  ghost function BilledOver(env: Env, m: Machine, evs: seq<Event>, x: Id): seq<Invoice>
    decreases |evs|
  {
    if evs == [] then [] else BilledIn(env, m, evs[0], x) + BilledOver(env, Step(env, m, evs[0]), evs[1..], x)
  }

  /** A pass over the accounts extends the tiling of a priced account up to its new period start. */
  lemma PassTiles(env: Env, m: Machine, ev: Event, x: Id)
    requires AllSaved(env) && Allowed(m, ev) && PeriodsSound(m.st.mem) && x in m.st.mem.accounts
    requires ThePlan(m.st.mem, x).PriceCents > 0
    ensures x in StepStore(env, m, ev).mem.accounts
    ensures Tiles(ThePlan(m.st.mem, x).Period, m.st.mem.accounts[x].PeriodStart, BilledIn(env, m, ev, x),
                  StepStore(env, m, ev).mem.accounts[x].PeriodStart)
  {
    var s := m.st.mem;
    if ev.EvRunBilling? {
      BillAllEffect(env, m.st, ev.order, ev.now, ev.invIDs, ev.payIDs, x);
      hide BillAll, Advance, PeriodsSound;
      assert x in ev.order;
      OnePeriod(env, s, x, ev.now, ev.invIDs(x));
    } else {
      StepPeriods(env, m, ev);
    }
  }

  lemma OnePeriod(env: Env, s: Snapshot, x: Id, now: Time, invID: Id)
    requires PeriodsSound(s) && x in s.accounts && ThePlan(s, x).PriceCents > 0
    ensures Tiles(ThePlan(s, x).Period, s.accounts[x].PeriodStart, BilledInvoices(env, s, x, now, invID),
                  BilledAccounts(s, x, now)[x].PeriodStart)
  {
    hide Advance;
  }

  ghost predicate Priced(s: Snapshot, x: Id) {
    x in s.accounts && s.accounts[x].PlanID in s.plans && ThePlan(s, x).PriceCents > 0
  }

  /** The invoices tile time from the account's creation to its current period, which is one step
      long. */
  ghost predicate TiledUpTo(s: Snapshot, x: Id, invoices: seq<Invoice>) {
    && x in s.accounts && s.accounts[x].PlanID in s.plans
    && Tiles(ThePlan(s, x).Period, s.accounts[x].CreatedAt, invoices, s.accounts[x].PeriodStart)
    && s.accounts[x].PeriodEnd == Advance(ThePlan(s, x).Period, s.accounts[x].PeriodStart)
  }

  lemma StepTiles(env: Env, m: Machine, ev: Event, x: Id, before: seq<Invoice>)
    requires AllSaved(env) && Allowed(m, ev) && PeriodsSound(m.st.mem) && Priced(m.st.mem, x)
    requires TiledUpTo(m.st.mem, x, before)
    ensures var s := StepStore(env, m, ev).mem;
            PeriodsSound(s) && Priced(s, x) && TiledUpTo(s, x, before + BilledIn(env, m, ev, x))
  {
    StepPeriods(env, m, ev);
    PassTiles(env, m, ev, x);
    var a, s := m.st.mem.accounts[x], StepStore(env, m, ev).mem;
    hide StepStore, Allowed, Advance, BilledIn;
    TilesAppend(ThePlan(m.st.mem, x).Period, a.CreatedAt, before, a.PeriodStart, BilledIn(env, m, ev, x),
                s.accounts[x].PeriodStart);
  }

  /** Over every run whose saves succeed, the billing invoices of an account on a priced plan tile
      time from its creation to its current period start. */
  lemma {:induction false} InvoicesTile(env: Env, m: Machine, evs: seq<Event>, x: Id, before: seq<Invoice>)
    requires AllSaved(env) && IsRun(env, m, evs) && PeriodsSound(m.st.mem) && Priced(m.st.mem, x)
    requires TiledUpTo(m.st.mem, x, before)
    ensures var s := Run(env, m, evs).st.mem;
            PeriodsSound(s) && Priced(s, x) && TiledUpTo(s, x, before + BilledOver(env, m, evs, x))
    decreases |evs|
  {
    hide PeriodsSound, StepStore, Allowed, TiledUpTo, BilledIn, Priced;
    if evs == [] {
      assert before + [] == before;
    } else {
      var now := BilledIn(env, m, evs[0], x);
      StepTiles(env, m, evs[0], x, before);
      InvoicesTile(env, Step(env, m, evs[0]), evs[1..], x, before + now);
      Associative(before, now, BilledOver(env, Step(env, m, evs[0]), evs[1..], x));
    }
  }

  /** The same from the event that creates the account: nothing before its creation is billed. */
  lemma TilesFromCreation(env: Env, m: Machine, ev: Event, m': Machine, evs: seq<Event>, x: Id)
    requires AllSaved(env) && PeriodsSound(m.st.mem) && Allowed(m, ev) && m' == Step(env, m, ev) && IsRun(env, m', evs)
    requires x !in m.st.mem.accounts && Priced(m'.st.mem, x)
    ensures TiledUpTo(Run(env, m', evs).st.mem, x, BilledOver(env, m', evs, x))
  {
    StepPeriods(env, m, ev);
    hide StepStore, Allowed, Advance, Run, IsRun, BilledOver;
    InvoicesTile(env, m', evs, x, []);
    assert [] + BilledOver(env, m', evs, x) == BilledOver(env, m', evs, x);
  }

  // ---- a failed save -----------------------------------------------------------------------

  /** When the save of a period invoice fails, RunBilling stops before it advances the account: the
      invoice stays in memory and the same period is billed again by the next pass. The period
      moves on exactly when that save succeeds. */
  lemma PeriodAdvancesIffInvoiceSaved(env: Env, st: StoreState, x: Id, now: Time, invID: Id, payID: Id)
    requires PeriodsSound(st.mem) && Due(st.mem, x, now) && ThePlan(st.mem, x).PriceCents > 0
    ensures var b := BillOne(env, st, x, now, invID, payID);
            var st1 := ChargedStore(env, st, st.mem.accounts[x], ThePlan(st.mem, x), now, invID, payID);
            && invID in b.st.mem.invoices && b.st.mem.invoices[invID].PeriodStart == st.mem.accounts[x].PeriodStart
            && (b.st.mem.accounts[x].PeriodStart != st.mem.accounts[x].PeriodStart <==> Saves(env, st1))
            && (!Saves(env, st1) ==> Due(b.st.mem, x, now) && b.st.mem.accounts[x] == st.mem.accounts[x])
  {
    AdvanceMovesOn(ThePlan(st.mem, x).Period, st.mem.accounts[x].PeriodStart);
    hide Advance;
  }

  // ---- catching up -------------------------------------------------------------------------

  /** The k-th period boundary after e. */
  function Boundary(period: string, e: Time, k: nat): Time
    decreases k
  {
    if k == 0 then e else Boundary(period, Advance(period, e), k - 1)
  }

  /** The number of boundaries e, Advance(e), ... not after t. */
  function DueCount(period: string, e: Time, t: Time): nat
    decreases t - e
  {
    AdvanceMovesOn(period, e);
    if t < e then 0 else 1 + DueCount(period, Advance(period, e), t)
  }

  /** It counts exactly the boundaries not after t. */
  lemma {:induction false} DueCountExact(period: string, e: Time, t: Time, k: nat)
    ensures Boundary(period, e, k) <= t <==> k < DueCount(period, e, t)
    decreases k
  {
    AdvanceMovesOn(period, e);
    hide Advance;
    if k > 0 {
      DueCountExact(period, Advance(period, e), t, k - 1);
      if t < e {
        BoundaryAfter(period, Advance(period, e), k - 1);
      }
    }
  }

  lemma {:induction false} BoundaryAfter(period: string, e: Time, k: nat)
    ensures e <= Boundary(period, e, k)
    decreases k
  {
    if k > 0 {
      AdvanceMovesOn(period, e);
      hide Advance;
      BoundaryAfter(period, Advance(period, e), k - 1);
    }
  }

  /** A month has 28 to 31 days, which bounds the number of passes needed. */
  lemma {:induction false} DueCountBounds(period: string, e: Time, t: Time)
    requires e <= t
    ensures (DueCount(period, e, t) - 1) * 28 * CivilTime.DAY <= t - e < DueCount(period, e, t) * 31 * CivilTime.DAY
    decreases t - e
  {
    AdvanceMovesOn(period, e);
    hide Advance;
    if Advance(period, e) <= t {
      DueCountBounds(period, Advance(period, e), t);
    }
  }

  lemma DueCountStep(period: string, e: Time, t: Time, k: nat)
    ensures e <= t ==> DueCount(period, e, t) == 1 + DueCount(period, Advance(period, e), t)
    ensures e > t ==> DueCount(period, e, t) == 0
    ensures Boundary(period, e, 0) == e && Boundary(period, e, k + 1) == Boundary(period, Advance(period, e), k)
  {}

  /** A run of billing passes at one fixed time. */
  ghost predicate PassesAt(evs: seq<Event>, now: Time) {
    forall i :: 0 <= i < |evs| ==> evs[i].EvRunBilling? && evs[i].now == now
  }

  /** One pass moves a non-closed account on by one period, if one is due. */
  ghost predicate PassMoves(s: Snapshot, s': Snapshot, x: Id, t: Time, issued: seq<Invoice>)
    requires x in s.accounts && s.accounts[x].PlanID in s.plans
  {
    var due := s.accounts[x].PeriodEnd <= t;
    && x in s'.accounts && s'.accounts[x].Status != Closed
    && s'.accounts[x].PlanID in s'.plans && ThePlan(s', x) == ThePlan(s, x)
    && s'.accounts[x].PeriodEnd == (if due then Advance(ThePlan(s, x).Period, s.accounts[x].PeriodEnd)
                                    else s.accounts[x].PeriodEnd)
    && |issued| == if due && ThePlan(s, x).PriceCents > 0 then 1 else 0
  }

  lemma OnePass(env: Env, m: Machine, ev: Event, x: Id)
    requires AllSaved(env) && Allowed(m, ev) && ev.EvRunBilling? && PeriodsSound(m.st.mem)
    requires x in m.st.mem.accounts && m.st.mem.accounts[x].Status != Closed
    ensures var s := StepStore(env, m, ev).mem;
            PeriodsSound(s) && PassMoves(m.st.mem, s, x, ev.now, BilledIn(env, m, ev, x))
  {
    BillAllEffect(env, m.st, ev.order, ev.now, ev.invIDs, ev.payIDs, x);
    assert x in ev.order;
    hide BillAll, Advance, ChargedInvoice, IssuedFor;
  }

  /** After k passes at time t the account has moved on by the smaller of k and the number of
      boundaries due, with one invoice for each when it is priced. */
  ghost predicate CaughtUp(s: Snapshot, s': Snapshot, x: Id, t: Time, k: nat, issued: seq<Invoice>) {
    && x in s.accounts && s.accounts[x].PlanID in s.plans && x in s'.accounts
    && var plan, e := ThePlan(s, x), s.accounts[x].PeriodEnd;
       var n := Min(k, DueCount(plan.Period, e, t));
       s'.accounts[x].PeriodEnd == Boundary(plan.Period, e, n) && |issued| == if plan.PriceCents > 0 then n else 0
  }

  lemma CaughtUpStep(s: Snapshot, s1: Snapshot, s2: Snapshot, x: Id, t: Time, k: nat, now: seq<Invoice>,
                     later: seq<Invoice>)
    requires x in s.accounts && s.accounts[x].PlanID in s.plans
    requires PassMoves(s, s1, x, t, now) && CaughtUp(s1, s2, x, t, k, later)
    ensures CaughtUp(s, s2, x, t, k + 1, now + later)
  {
    hide Advance, DueCount, Boundary;
    var plan, e := ThePlan(s, x), s.accounts[x].PeriodEnd;
    DueCountStep(plan.Period, e, t, Min(k, DueCount(plan.Period, Advance(plan.Period, e), t)));
    DueCountStep(plan.Period, e, t, 0);
  }

  lemma NoPasses(env: Env, m: Machine, x: Id, t: Time)
    requires x in m.st.mem.accounts && m.st.mem.accounts[x].PlanID in m.st.mem.plans
    ensures CaughtUp(m.st.mem, Run(env, m, []).st.mem, x, t, 0, BilledOver(env, m, [], x))
  {
    hide DueCount;
  }

  lemma FirstPass(env: Env, m: Machine, evs: seq<Event>, t: Time, x: Id)
    requires IsRun(env, m, evs) && PassesAt(evs, t) && evs != []
    ensures evs[0].EvRunBilling? && evs[0].now == t && Allowed(m, evs[0]) && PassesAt(evs[1..], t)
    ensures var m' := Step(env, m, evs[0]);
            && m'.st == StepStore(env, m, evs[0]) && IsRun(env, m', evs[1..])
              && Run(env, m, evs) == Run(env, m', evs[1..])
            && BilledOver(env, m, evs, x) == BilledIn(env, m, evs[0], x) + BilledOver(env, m', evs[1..], x)
  {
    hide Allowed, StepStore, BilledIn;
  }

  lemma PlanKnown(s: Snapshot, x: Id)
    requires PeriodsSound(s) && x in s.accounts
    ensures s.accounts[x].PlanID in s.plans
  {
    hide Advance;
  }

  lemma StaysBilled(s: Snapshot, s': Snapshot, x: Id, t: Time, issued: seq<Invoice>)
    requires x in s.accounts && s.accounts[x].PlanID in s.plans && PassMoves(s, s', x, t, issued)
    ensures x in s'.accounts && s'.accounts[x].Status != Closed
  {}

  /** Repeating RunBilling with the clock at t catches a non-closed account up exactly; once every
      boundary not after t is billed, nothing more is issued. */
  lemma {:induction false} CatchUp(env: Env, m: Machine, evs: seq<Event>, t: Time, x: Id)
    requires AllSaved(env) && IsRun(env, m, evs) && PassesAt(evs, t) && PeriodsSound(m.st.mem)
    requires x in m.st.mem.accounts && m.st.mem.accounts[x].Status != Closed
    ensures CaughtUp(m.st.mem, Run(env, m, evs).st.mem, x, t, |evs|, BilledOver(env, m, evs, x))
    decreases |evs|
  {
    hide *;
    PlanKnown(m.st.mem, x);
    if evs == [] {
      NoPasses(env, m, x, t);
    } else {
      var m' := Step(env, m, evs[0]);
      FirstPass(env, m, evs, t, x);
      OnePass(env, m, evs[0], x);
      StaysBilled(m.st.mem, m'.st.mem, x, t, BilledIn(env, m, evs[0], x));
      CatchUp(env, m', evs[1..], t, x);
      CaughtUpStep(m.st.mem, m'.st.mem, Run(env, m', evs[1..]).st.mem, x, t, |evs| - 1, BilledIn(env, m, evs[0], x),
                   BilledOver(env, m', evs[1..], x));
    }
  }
}
