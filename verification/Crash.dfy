/** Crashes and failed writes. Every Save is a step: the process may stop, or the file may fail to
    be replaced, at any of them, and the store is then reloaded from the file. Automatic charging is
    the one thing excluded; see BillOneDurableIff and module CrashBilling. */
module Crash {
  import opened Wrappers
  import opened ControlModel
  import opened ControlSpec
  import opened ControlRuns
  import opened SaveLog
  import opened Ledger

  /** What holds in every state a crash can expose. */
  ghost predicate Durable(s: Snapshot) {
    && PaymentsSound(s)
    && InvoicesKeyed(s)
    && (forall id :: id in s.accounts ==> s.accounts[id].PlanID in s.plans)
  }

  /** The manual provider never charges by itself. */
  ghost predicate Manual(env: Env) {
    forall a, inv :: env.charge(a, inv) == None
  }

  // ---- durable logs ------------------------------------------------------------------------

  /** From st to t only Save calls happened, each leaving a durable state in memory. */
  ghost predicate Grows(env: Env, st: StoreState, t: StoreState) {
    && Chain(env, st, t)
    && (forall i :: |st.log| <= i < |t.log| ==> Durable(t.log[i]))
    && (Durable(st.mem) ==> Durable(t.mem))
  }

  lemma GrowsReflexive(env: Env, st: StoreState)
    ensures Grows(env, st, st)
  {
    ChainReflexive(env, st);
  }

  lemma CommitGrows(env: Env, st: StoreState, mem: Snapshot)
    requires Durable(mem)
    ensures Grows(env, st, Commit(env, st, mem))
  {
    hide Durable;
    CommitChain(env, st, mem);
  }

  lemma GrowsTransitive(env: Env, st: StoreState, t: StoreState, u: StoreState)
    requires Grows(env, st, t) && Grows(env, t, u)
    ensures Grows(env, st, u)
  {
    hide Durable, Chain;
    ChainTransitive(env, st, t, u);
    assert |st.log| <= |t.log| by { ChainLengths(env, st, t); }
  }

  lemma ChainLengths(env: Env, st: StoreState, t: StoreState)
    requires Chain(env, st, t)
    ensures |st.log| <= |t.log|
  {}

  // ---- single saves ------------------------------------------------------------------------

  lemma PlanSaved(env: Env, st: StoreState, p: Plan)
    requires Durable(st.mem)
    ensures Grows(env, st, SavePlan(env, st, p))
  {
    hide Grows;
    CommitGrows(env, st, SavePlan(env, st, p).mem);
  }

  lemma AccountSaved(env: Env, st: StoreState, a: Account)
    requires Durable(st.mem) && a.PlanID in st.mem.plans
    ensures Grows(env, st, SaveAccount(env, st, a))
  {
    hide Grows;
    CommitGrows(env, st, SaveAccount(env, st, a).mem);
  }

  lemma UsageSaved(env: Env, st: StoreState, u: Usage)
    requires Durable(st.mem)
    ensures Grows(env, st, SaveUsage(env, st, u))
  {
    hide Grows;
    CommitGrows(env, st, SaveUsage(env, st, u).mem);
  }

  /** No payment refers to an invoice that is new or not paid, so it may change. */
  lemma InvoiceSaved(env: Env, st: StoreState, inv: Invoice)
    requires Durable(st.mem)
    requires inv.ID in st.mem.invoices ==> st.mem.invoices[inv.ID].Status != Paid
    ensures Grows(env, st, SaveInvoice(env, st, inv))
  {
    hide Grows;
    CommitGrows(env, st, SaveInvoice(env, st, inv).mem);
  }

  lemma PaymentSaved(env: Env, st: StoreState, p: Payment)
    requires Durable(st.mem) && p.ID !in st.mem.payments && Settles(st.mem, p) && !HasPayment(st.mem, p.InvoiceID)
    ensures Grows(env, st, SavePayment(env, st, p))
  {
    hide Grows;
    CommitGrows(env, st, SavePayment(env, st, p).mem);
  }

  // ---- every operation ---------------------------------------------------------------------

  lemma SettleGrows(env: Env, st: StoreState, invoice: Id, how: string, now: Time, payID: Id)
    requires Durable(st.mem) && payID !in st.mem.payments
    ensures Grows(env, st, Settle(env, st, invoice, how, now, payID).0)
  {
    var t := Settle(env, st, invoice, how, now, payID).0;
    if invoice in st.mem.invoices && st.mem.invoices[invoice].Status == Open {
      var inv := st.mem.invoices[invoice];
      var st1 := SaveInvoice(env, st, inv.(Status := Paid, PaidAt := Some(now)));
      InvoiceSaved(env, st, inv.(Status := Paid, PaidAt := Some(now)));
      if Saves(env, st) {
        var pay := SettlePayment(inv, how, now, payID);
        assert !HasPayment(st1.mem, invoice);
        hide Outstanding;
        assert Durable(st1.mem);
        PaymentSaved(env, st1, pay);
        var st2 := SavePayment(env, st1, pay);
        assert Durable(st2.mem);
        hide Grows;
        GrowsTransitive(env, st, st1, st2);
        if t != st2 {
          AccountSaved(env, st2, st2.mem.accounts[inv.AccountID].(Status := Active));
          GrowsTransitive(env, st, st2, t);
        }
      }
    } else {
      GrowsReflexive(env, st);
    }
  }

  /** The provider does not collect this account's period, should it be due. */
  ghost predicate NoCharge(env: Env, s: Snapshot, id: Id, now: Time, invID: Id) {
    id in s.accounts && s.accounts[id].PlanID in s.plans ==>
      env.charge(s.accounts[id], PeriodInvoice(s.accounts[id], s.plans[s.accounts[id].PlanID], now, invID)) == None
  }

  lemma BillOneGrows(env: Env, st: StoreState, id: Id, now: Time, invID: Id, payID: Id)
    requires NoCharge(env, st.mem, id, now, invID) && Durable(st.mem) && invID !in st.mem.invoices
    ensures var t := BillOne(env, st, id, now, invID, payID).st;
            Grows(env, st, t) && t.mem.invoices.Keys <= st.mem.invoices.Keys + {invID}
  {
    hide Advance, PaymentsSound;
    var t := BillOne(env, st, id, now, invID, payID).st;
    if Due(st.mem, id, now) {
      var a := st.mem.accounts[id];
      var plan := st.mem.plans[a.PlanID];
      var next := NextPeriod(a, plan);
      if plan.PriceCents <= 0 {
        AccountSaved(env, st, next);
      } else {
        var inv := ChargedInvoice(env, a, plan, now, invID);
        InvoiceSaved(env, st, inv);
        var st1 := SaveInvoice(env, st, inv);
        if Saves(env, st) {
          AccountSaved(env, st1, next);
          hide Grows;
          GrowsTransitive(env, st, st1, t);
        }
      }
    } else {
      GrowsReflexive(env, st);
    }
  }

  lemma {:induction false} BillAllGrows(env: Env, st: StoreState, order: seq<Id>, now: Time, invIDs: Id -> Id,
                                        payIDs: Id -> Id)
    requires Manual(env) && Durable(st.mem) && FreshFor(invIDs, order, st.mem.invoices.Keys)
    requires forall i, j :: 0 <= i < j < |order| ==> order[i] != order[j]
    ensures Grows(env, st, BillAll(env, st, order, now, invIDs, payIDs).st)
    decreases |order|
  {
    if order == [] {
      GrowsReflexive(env, st);
    } else {
      var id := order[0];
      var one := BillOne(env, st, id, now, invIDs(id), payIDs(id));
      assert invIDs(id) !in st.mem.invoices && NoCharge(env, st.mem, id, now, invIDs(id));
      hide BillOne, Durable, NoCharge;
      BillOneGrows(env, st, id, now, invIDs(id), payIDs(id));
      if !one.failed {
        FreshLater(invIDs, order, st.mem.invoices.Keys, one.st.mem.invoices.Keys);
        assert Durable(one.st.mem);
        hide Grows, FreshFor;
        BillAllGrows(env, one.st, order[1..], now, invIDs, payIDs);
        GrowsTransitive(env, st, one.st, BillAll(env, one.st, order[1..], now, invIDs, payIDs).st);
      }
    }
  }

  lemma {:induction false} SuspendAllGrows(env: Env, st: StoreState, order: seq<Id>, cutoff: Time)
    requires Durable(st.mem)
    ensures Grows(env, st, SuspendAll(env, st, order, cutoff).0)
    decreases |order|
  {
    hide Delinquent;
    if order == [] {
      GrowsReflexive(env, st);
    } else {
      var st1 := SuspendOne(env, st, order[0], cutoff).0;
      if st1 == st {
        GrowsReflexive(env, st);
      } else {
        AccountSaved(env, st, st.mem.accounts[order[0]].(Status := Suspended));
      }
      assert Durable(st1.mem);
      hide SuspendOne, Durable, Grows;
      SuspendAllGrows(env, st1, order[1..], cutoff);
      GrowsTransitive(env, st, st1, SuspendAll(env, st1, order[1..], cutoff).0);
    }
  }

  lemma StepGrows(env: Env, m: Machine, ev: Event)
    requires Manual(env) && Allowed(m, ev) && Durable(m.st.mem)
    ensures Grows(env, m.st, StepStore(env, m, ev))
  {
    var st, t := m.st, StepStore(env, m, ev);
    hide Advance, Wrap64, BillAll, Settle, SuspendAll, FreshFor, Grows, PaymentsSound, Manual;
    GrowsReflexive(env, st);
    match ev
    case EvCreatePlan(_, _, _, _, _, id) =>
      if t != st { PlanSaved(env, st, t.mem.plans[id]); }
    case EvCreateAccount(_, _, _, _, id, _) =>
      if t != st { AccountSaved(env, st, t.mem.accounts[id]); }
    case EvSetStatus(id, status) =>
      if t != st { AccountSaved(env, st, st.mem.accounts[id].(Status := status)); }
    case EvReserve(id, bytes, now) =>
      if t != st { UsageSaved(env, st, t.mem.usage[id]); }
    case EvRelease(id, bytes, now) =>
      if t != st { UsageSaved(env, st, t.mem.usage[id]); }
    case EvRunBilling(now, order, invIDs, payIDs) =>
      BillAllGrows(env, st, order, now, invIDs, payIDs);
    case EvIssueInvoice(id, amount, now, invID) =>
      if t != st { InvoiceSaved(env, st, t.mem.invoices[invID]); }
    case EvPay(invoice, how, now, payID) =>
      SettleGrows(env, st, invoice, how, now, payID);
    case EvEndCheckout(call, session) =>
      if t != st { InvoiceSaved(env, st, t.mem.invoices[m.pending[call].InvoiceID]); }
    case EvWebhook(provider, verified, now, payID) =>
      if t != st { SettleGrows(env, st, verified.value.invoice, provider, now, payID); }
    case EvEnforce(now, grace, order) =>
      SuspendAllGrows(env, st, order, now - grace);
    case EvBeginCheckout(_, _, _) =>
  }

  // ---- runs with crashes -------------------------------------------------------------------

  /** An event, or an event cut short after some of its Save calls and followed by a restart. */
  datatype Act = Done(ev: Event) | CrashDuring(ev: Event, saves: nat)

  /** The store the restarted process loads: the file as of the crash. The log of all states ever
      in memory goes on. */
  ghost function Reload(env: Env, st: StoreState, t: StoreState, saves: nat): Machine
    requires |st.log| <= |st.log| + saves <= |t.log|
  {
    var n := |st.log| + saves;
    var file := FileAfter(env, st.disk, t.log, |st.log|, n);
    Machine(StoreState(file, file, t.log[..n]), map[])
  }

  ghost predicate Possible(env: Env, m: Machine, act: Act) {
    Allowed(m, act.ev) && (act.CrashDuring? ==> |m.st.log| + act.saves <= |StepStore(env, m, act.ev).log|)
  }

  ghost function ActStep(env: Env, m: Machine, act: Act): Machine
    requires Possible(env, m, act)
  {
    match act
    case Done(ev) => Step(env, m, ev)
    case CrashDuring(ev, saves) => Reload(env, m.st, StepStore(env, m, ev), saves)
  }

  /** Memory and file are durable states from the history of memory, which starts with the empty
      store. */
  ghost predicate Safe(st: StoreState) {
    && Durable(st.mem) && Durable(st.disk)
    && (forall i :: 0 <= i < |st.log| ==> Durable(st.log[i]))
    && (st.disk == EMPTY || st.disk in st.log)
    && (st.mem == EMPTY || st.mem in st.log)
  }

  lemma ActSafe(env: Env, m: Machine, act: Act)
    requires Manual(env) && Possible(env, m, act) && Safe(m.st)
    ensures Safe(ActStep(env, m, act).st)
  {
    hide StepStore, Durable, Grows, Allowed, Manual, FileAfter;
    StepGrows(env, m, act.ev);
    hide Safe;
    match act
    case Done(ev) => GrownSafe(env, m.st, StepStore(env, m, ev));
    case CrashDuring(ev, saves) => ReloadSafe(env, m.st, StepStore(env, m, ev), |m.st.log| + saves);
  }

  lemma LogSafe(env: Env, st: StoreState, t: StoreState, n: nat)
    requires Safe(st) && Grows(env, st, t) && |st.log| <= n <= |t.log|
    ensures forall i :: 0 <= i < n ==> Durable(t.log[i])
    ensures forall s :: s in st.log ==> s in t.log[..n]
    ensures forall i :: 0 <= i < n ==> t.log[i] in t.log[..n]
  {
    hide Durable, FileAfter;
    forall i | 0 <= i < n ensures Durable(t.log[i]) && t.log[i] in t.log[..n] {
      assert t.log[..n][i] == t.log[i];
      if i < |st.log| {
        assert t.log[..|st.log|][i] == t.log[i] == st.log[i];
      }
    }
    forall s | s in st.log ensures s in t.log[..n] {
      var i :| 0 <= i < |st.log| && st.log[i] == s;
      assert t.log[..n][i] == t.log[..|st.log|][i];
    }
  }

  lemma ReloadSafe(env: Env, st: StoreState, t: StoreState, n: nat)
    requires Safe(st) && Grows(env, st, t) && |st.log| <= n <= |t.log|
    ensures var file := FileAfter(env, st.disk, t.log, |st.log|, n); Safe(StoreState(file, file, t.log[..n]))
  {
    LogSafe(env, st, t, n);
    FileIsSomeState(env, st.disk, t.log, |st.log|, n);
    hide Durable, FileAfter, Grows;
  }

  lemma GrownSafe(env: Env, st: StoreState, t: StoreState)
    requires Safe(st) && Grows(env, st, t)
    ensures Safe(t)
  {
    LogSafe(env, st, t, |t.log|);
    FileIsSomeState(env, st.disk, t.log, |st.log|, |t.log|);
    hide Durable, FileAfter;
    assert t.log[..|t.log|] == t.log;
  }

  ghost predicate IsCrashRun(env: Env, m: Machine, acts: seq<Act>)
    decreases |acts|
  {
    acts == [] || (Possible(env, m, acts[0]) && IsCrashRun(env, ActStep(env, m, acts[0]), acts[1..]))
  }

  ghost function CrashRun(env: Env, m: Machine, acts: seq<Act>): Machine
    requires IsCrashRun(env, m, acts)
    decreases |acts|
  {
    if acts == [] then m else CrashRun(env, ActStep(env, m, acts[0]), acts[1..])
  }

  /** Over every run with crashes and failed writes anywhere, what is reloaded is an earlier state of
      memory; in it each payment refers to its own paid invoice of equal amount and account, no
      invoice has two payments, and every account's plan exists. */
  lemma {:induction false} CrashesAreSafe(env: Env, m: Machine, acts: seq<Act>)
    requires Manual(env) && IsCrashRun(env, m, acts) && Safe(m.st)
    ensures Safe(CrashRun(env, m, acts).st)
    decreases |acts|
  {
    if acts != [] {
      hide Safe, Possible, ActStep, Manual;
      ActSafe(env, m, acts[0]);
      CrashesAreSafe(env, ActStep(env, m, acts[0]), acts[1..]);
    }
  }

  lemma InitiallySafe()
    ensures Safe(INITIAL.st)
  {}

  // ---- what a crash can expose -------------------------------------------------------------

  /** The converse, "paid implies a payment", fails: a crash between the two Save calls of a
      settlement leaves the invoice paid without a payment, and settling it again is refused. */
  lemma PaidWithoutPayment(env: Env, m: Machine, invoice: Id, how: string, now: Time, payID: Id)
    requires Durable(m.st.mem) && Allowed(m, EvPay(invoice, how, now, payID)) && env.saved(|m.st.log|)
    requires invoice in m.st.mem.invoices && m.st.mem.invoices[invoice].Status == Open
    ensures Possible(env, m, CrashDuring(EvPay(invoice, how, now, payID), 1))
    ensures var m' := ActStep(env, m, CrashDuring(EvPay(invoice, how, now, payID), 1));
            && invoice in m'.st.mem.invoices && m'.st.mem.invoices[invoice].Status == Paid
            && !HasPayment(m'.st.mem, invoice)
            && forall p :: Settle(env, m'.st, invoice, how, now, p).1 == Err(Invalid)
  {
    hide Outstanding;
    var inv := m.st.mem.invoices[invoice];
    var st1 := SaveInvoice(env, m.st, inv.(Status := Paid, PaidAt := Some(now)));
    var t := Settle(env, m.st, invoice, how, now, payID).0;
    assert |t.log| >= |st1.log| && t.log[|m.st.log|] == st1.mem;
    assert StepStore(env, m, EvPay(invoice, how, now, payID)) == t;
    assert FileAfter(env, m.st.disk, t.log, |m.st.log|, |m.st.log| + 1) == st1.mem;
  }

  /** Billing one account exposes only durable states if and only if the provider does not collect. */
  lemma BillOneDurableIff(env: Env, st: StoreState, id: Id, now: Time, invID: Id, payID: Id)
    requires Durable(st.mem) && Due(st.mem, id, now) && st.mem.plans[st.mem.accounts[id].PlanID].PriceCents > 0
    requires invID !in st.mem.invoices && payID !in st.mem.payments
    ensures var t := BillOne(env, st, id, now, invID, payID).st;
            && |st.log| <= |t.log|
            && ((forall i :: |st.log| <= i < |t.log| ==> Durable(t.log[i])) <==> NoCharge(env, st.mem, id, now, invID))
  {
    hide Advance;
    var t := BillOne(env, st, id, now, invID, payID).st;
    if NoCharge(env, st.mem, id, now, invID) {
      BillOneGrows(env, st, id, now, invID, payID);
    } else {
      var s := t.log[|st.log|];
      assert payID in s.payments && s.payments[payID].InvoiceID == invID && invID !in s.invoices;
      assert !Durable(s);
    }
  }
}
