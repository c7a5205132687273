/** Every state any event leaves in memory, whatever saves fail and whatever the provider answers.
    Operations with several Save calls only pass through states that differ quietly from the one they
    start in; all others make one Save call at most. */
module SaveTrace {
  import opened Wrappers
  import opened ControlModel
  import opened ControlSpec
  import opened ControlRuns
  import opened SaveLog
  import opened Ledger
  import opened Billing
  import opened Crash

  ghost predicate SamePlans(s: Snapshot, u: Snapshot) {
    forall x :: x in s.accounts && x in u.accounts ==> u.accounts[x].PlanID == s.accounts[x].PlanID
  }

  /** Amounts stay positive, space and plans stay as they are, and so do the accounts, their choice of
      plan and the soundness of their periods. */
  ghost predicate Quiet(s: Snapshot, u: Snapshot) {
    && u.usage == s.usage && u.plans == s.plans
    && (InvoicesSound(s) ==> InvoicesSound(u))
    && (PeriodsSound(s) ==> PeriodsSound(u) && u.accounts.Keys == s.accounts.Keys && SamePlans(s, u))
  }

  ghost predicate QuietLog(env: Env, st: StoreState, t: StoreState) {
    && Chain(env, st, t) && Quiet(st.mem, t.mem)
    && forall i :: |st.log| <= i < |t.log| ==> Quiet(st.mem, t.log[i])
  }

  lemma QuietReflexive(env: Env, st: StoreState)
    ensures QuietLog(env, st, st)
  {
    hide InvoicesSound, PeriodsSound;
    ChainReflexive(env, st);
  }

  lemma QuietTransitive(env: Env, st: StoreState, t: StoreState, u: StoreState)
    requires QuietLog(env, st, t) && QuietLog(env, t, u)
    ensures QuietLog(env, st, u)
  {
    hide InvoicesSound, PeriodsSound, Chain;
    ChainTransitive(env, st, t, u);
    ChainLengths(env, st, t);
  }

  lemma CommitQuiet(env: Env, st: StoreState, mem: Snapshot)
    requires Quiet(st.mem, mem)
    ensures QuietLog(env, st, Commit(env, st, mem))
  {
    hide Quiet, Chain;
    CommitChain(env, st, mem);
  }

  // ---- single saves ------------------------------------------------------------------------

  lemma AccountQuiet(env: Env, st: StoreState, a: Account)
    requires PeriodsSound(st.mem) ==>
               && a.ID in st.mem.accounts && a.PlanID in st.mem.plans && a.PlanID == st.mem.accounts[a.ID].PlanID
               && a.PeriodEnd == Advance(st.mem.plans[a.PlanID].Period, a.PeriodStart)
    ensures QuietLog(env, st, SaveAccount(env, st, a))
  {
    hide QuietLog, Advance;
    CommitQuiet(env, st, SaveAccount(env, st, a).mem);
  }

  lemma InvoiceQuiet(env: Env, st: StoreState, inv: Invoice)
    requires InvoicesSound(st.mem) ==> SoundInvoice(inv.ID, inv)
    ensures QuietLog(env, st, SaveInvoice(env, st, inv))
  {
    hide QuietLog, Advance;
    CommitQuiet(env, st, SaveInvoice(env, st, inv).mem);
  }

  lemma PaymentQuiet(env: Env, st: StoreState, p: Payment)
    ensures QuietLog(env, st, SavePayment(env, st, p))
  {
    hide QuietLog, Advance;
    CommitQuiet(env, st, SavePayment(env, st, p).mem);
  }

  // ---- operations with several saves -------------------------------------------------------

  lemma BillOneQuiet(env: Env, st: StoreState, id: Id, now: Time, invID: Id, payID: Id)
    ensures QuietLog(env, st, BillOne(env, st, id, now, invID, payID).st)
  {
    hide QuietLog, Advance, InvoicesSound;
    QuietReflexive(env, st);
    if Due(st.mem, id, now) {
      var a, plan := st.mem.accounts[id], st.mem.plans[st.mem.accounts[id].PlanID];
      var st1 := if plan.PriceCents <= 0 then st else ChargedStore(env, st, a, plan, now, invID, payID);
      if st1 != st {
        var p := st1.mem.payments[payID];
        PaymentQuiet(env, st, p);
        assert st1 == SavePayment(env, st, p);
      }
      var inv := ChargedInvoice(env, a, plan, now, invID);
      var st2 := if plan.PriceCents <= 0 then st1 else SaveInvoice(env, st1, inv);
      if st2 != st1 {
        InvoiceQuiet(env, st1, inv);
        QuietTransitive(env, st, st1, st2);
      }
      assert st2.mem.accounts == st.mem.accounts && st2.mem.plans == st.mem.plans;
      assert PeriodsSound(st2.mem) ==> a.ID == id;
      hide PeriodsSound, ChargedInvoice, ChargedStore;
      AccountQuiet(env, st2, NextPeriod(a, plan));
      QuietTransitive(env, st, st2, SaveAccount(env, st2, NextPeriod(a, plan)));
    }
  }

  lemma {:induction false} BillAllQuiet(env: Env, st: StoreState, order: seq<Id>, now: Time, invIDs: Id -> Id,
                                        payIDs: Id -> Id)
    ensures QuietLog(env, st, BillAll(env, st, order, now, invIDs, payIDs).st)
    decreases |order|
  {
    hide QuietLog, BillOne;
    if order == [] {
      QuietReflexive(env, st);
    } else {
      var one := BillOne(env, st, order[0], now, invIDs(order[0]), payIDs(order[0]));
      BillOneQuiet(env, st, order[0], now, invIDs(order[0]), payIDs(order[0]));
      if !one.failed {
        BillAllQuiet(env, one.st, order[1..], now, invIDs, payIDs);
        QuietTransitive(env, st, one.st, BillAll(env, one.st, order[1..], now, invIDs, payIDs).st);
      }
    }
  }

  /** An account that only changes its status. */
  lemma StatusQuiet(env: Env, st: StoreState, id: Id, status: AccountStatus)
    requires id in st.mem.accounts
    ensures QuietLog(env, st, SaveAccount(env, st, st.mem.accounts[id].(Status := status)))
  {
    hide QuietLog, Advance, InvoicesSound;
    AccountQuiet(env, st, st.mem.accounts[id].(Status := status));
  }

  lemma SettleQuiet(env: Env, st: StoreState, invoice: Id, how: string, now: Time, payID: Id)
    ensures QuietLog(env, st, Settle(env, st, invoice, how, now, payID).0)
  {
    hide QuietLog, Outstanding, PeriodsSound;
    QuietReflexive(env, st);
    if invoice in st.mem.invoices && st.mem.invoices[invoice].Status == Open {
      var inv := st.mem.invoices[invoice];
      var paid := inv.(Status := Paid, PaidAt := Some(now));
      assert InvoicesSound(st.mem) ==> SoundInvoice(paid.ID, paid) by {
        assert InvoicesSound(st.mem) ==> SoundInvoice(invoice, inv);
      }
      hide InvoicesSound;
      var st1 := SaveInvoice(env, st, paid);
      var st2 := SavePayment(env, st1, SettlePayment(inv, how, now, payID));
      InvoiceQuiet(env, st, paid);
      PaymentQuiet(env, st1, SettlePayment(inv, how, now, payID));
      QuietTransitive(env, st, st1, st2);
      var st3 := Reactivate(env, st2, inv.AccountID);
      if st3 != st2 {
        StatusQuiet(env, st2, inv.AccountID, Active);
        QuietTransitive(env, st, st2, st3);
      }
    }
  }

  lemma {:induction false} SuspendAllQuiet(env: Env, st: StoreState, order: seq<Id>, cutoff: Time)
    ensures QuietLog(env, st, SuspendAll(env, st, order, cutoff).0)
    decreases |order|
  {
    hide QuietLog, Delinquent;
    QuietReflexive(env, st);
    if order != [] {
      var st1 := SuspendOne(env, st, order[0], cutoff).0;
      if st1 != st {
        StatusQuiet(env, st, order[0], Suspended);
      }
      SuspendAllQuiet(env, st1, order[1..], cutoff);
      QuietTransitive(env, st, st1, SuspendAll(env, st1, order[1..], cutoff).0);
    }
  }

  // ---- every event -------------------------------------------------------------------------

  /** Each state an event leaves is its last one, or differs quietly from the one it starts in. */
  ghost predicate Logged(env: Env, st: StoreState, t: StoreState) {
    Chain(env, st, t) && forall i :: |st.log| <= i < |t.log| ==> t.log[i] == t.mem || Quiet(st.mem, t.log[i])
  }

  lemma StepLogged(env: Env, m: Machine, ev: Event)
    ensures Logged(env, m.st, StepStore(env, m, ev))
    ensures ev.EvRunBilling? || ev.EvPay? || ev.EvWebhook? || ev.EvEnforce? ==>
              Quiet(m.st.mem, StepStore(env, m, ev).mem)
  {
    hide Advance, Wrap64, BillAll, Settle, SuspendAll, Quiet, Chain;
    var st, t := m.st, StepStore(env, m, ev);
    QuietReflexive(env, st);
    match ev
    case EvRunBilling(now, order, invIDs, payIDs) => BillAllQuiet(env, st, order, now, invIDs, payIDs);
    case EvPay(invoice, how, now, payID) => SettleQuiet(env, st, invoice, how, now, payID);
    case EvWebhook(provider, verified, now, payID) =>
      if verified.Ok? && verified.value.paid && verified.value.invoice != "" {
        SettleQuiet(env, st, verified.value.invoice, provider, now, payID);
      }
    case EvEnforce(now, grace, order) => SuspendAllQuiet(env, st, order, now - grace);
    case EvBeginCheckout(_, _, _) =>
    case _ =>
      if t != st {
        CommitChain(env, st, t.mem);
        assert t == Commit(env, st, t.mem);
      }
  }

  // ---- amounts -----------------------------------------------------------------------------

  lemma StepAmounts(env: Env, m: Machine, ev: Event)
    requires InvoicesSound(m.st.mem)
    ensures InvoicesSound(StepStore(env, m, ev).mem)
  {
    hide Advance, Wrap64, BillAll, Settle, SuspendAll, PeriodsSound;
    StepLogged(env, m, ev);
    match ev
    case EvEndCheckout(call, session) =>
      assert call in m.pending && m.pending[call].InvoiceID in m.st.mem.invoices ==>
        SoundInvoice(m.pending[call].InvoiceID, m.st.mem.invoices[m.pending[call].InvoiceID]);
    case _ =>
  }

  /** In every reachable state of every run every invoice has a positive amount, whatever saves fail
      and whatever the provider charges. */
  lemma {:induction false} AmountsPositive(env: Env, m: Machine, evs: seq<Event>)
    requires InvoicesSound(m.st.mem)
    ensures InvoicesSound(Run(env, m, evs).st.mem)
    decreases |evs|
  {
    if evs != [] {
      hide InvoicesSound, StepStore;
      StepAmounts(env, m, evs[0]);
      AmountsPositive(env, Step(env, m, evs[0]), evs[1..]);
    }
  }

  /** What the file holds after any part of an event. */
  lemma FileOfStep(env: Env, m: Machine, ev: Event, hi: nat)
    requires |m.st.log| <= hi <= |StepStore(env, m, ev).log|
    ensures var t := StepStore(env, m, ev);
            var file := FileAfter(env, m.st.disk, t.log, |m.st.log|, hi);
            file == m.st.disk || file == t.mem || Quiet(m.st.mem, file)
  {
    hide StepStore, FileAfter, Quiet;
    StepLogged(env, m, ev);
    FileIsSomeState(env, m.st.disk, StepStore(env, m, ev).log, |m.st.log|, hi);
  }

  lemma StepFile(env: Env, m: Machine, ev: Event)
    ensures var t := StepStore(env, m, ev);
            |m.st.log| <= |t.log| && t.disk == FileAfter(env, m.st.disk, t.log, |m.st.log|, |t.log|)
  {
    hide StepStore, Quiet, FileAfter;
    StepLogged(env, m, ev);
  }

  /** The same over every run with crashes and failed writes, in memory and in the file. */
  lemma {:induction false} AmountsPositiveAfterCrashes(env: Env, m: Machine, acts: seq<Act>)
    requires IsCrashRun(env, m, acts) && InvoicesSound(m.st.mem) && InvoicesSound(m.st.disk)
    ensures var t := CrashRun(env, m, acts).st; InvoicesSound(t.mem) && InvoicesSound(t.disk)
    decreases |acts|
  {
    if acts != [] {
      hide InvoicesSound, ActStep, Possible;
      ActAmounts(env, m, acts[0]);
      AmountsPositiveAfterCrashes(env, ActStep(env, m, acts[0]), acts[1..]);
    }
  }

  lemma ActAmounts(env: Env, m: Machine, act: Act)
    requires Possible(env, m, act) && InvoicesSound(m.st.mem) && InvoicesSound(m.st.disk)
    ensures var t := ActStep(env, m, act).st; InvoicesSound(t.mem) && InvoicesSound(t.disk)
  {
    hide StepStore, InvoicesSound, PeriodsSound, Allowed, FileAfter;
    StepAmounts(env, m, act.ev);
    StepFile(env, m, act.ev);
    var t := StepStore(env, m, act.ev);
    FileOfStep(env, m, act.ev, if act.Done? then |t.log| else |m.st.log| + act.saves);
  }
}
