/** Settlement over every run and interleaving, with any pattern of failed saves: what an invoice
    charges never changes, paid is final, and one call at most settles it. */
module Settlement {
  import opened Wrappers
  import opened ControlModel
  import opened ControlSpec
  import opened ControlRuns

  /** The same charge: account, period, amount, currency and creation time. */
  predicate SameCharge(a: Invoice, b: Invoice) {
    && a.ID == b.ID && a.AccountID == b.AccountID && a.PeriodStart == b.PeriodStart && a.PeriodEnd == b.PeriodEnd
    && a.AmountCents == b.AmountCents && a.Currency == b.Currency && a.CreatedAt == b.CreatedAt
  }

  /** No invoice disappears or changes its charge, and one that is not open changes not at all. */
  ghost predicate Keeps(s: Snapshot, t: Snapshot) {
    forall id :: id in s.invoices ==>
      && id in t.invoices && SameCharge(s.invoices[id], t.invoices[id])
      && (s.invoices[id].Status != Open ==> t.invoices[id] == s.invoices[id])
  }

  lemma KeepsTransitive(s: Snapshot, t: Snapshot, u: Snapshot)
    requires Keeps(s, t) && Keeps(t, u)
    ensures Keeps(s, u)
  {
    forall id | id in s.invoices
      ensures id in u.invoices && SameCharge(s.invoices[id], u.invoices[id])
      ensures s.invoices[id].Status != Open ==> u.invoices[id] == s.invoices[id]
    {
      assert id in t.invoices && SameCharge(s.invoices[id], t.invoices[id]);
    }
  }

  /** One Save of an invoice that is new, or open before with the same charge. */
  lemma SaveKeeps(env: Env, st: StoreState, inv: Invoice)
    requires InvoicesKeyed(st.mem)
    requires inv.ID in st.mem.invoices ==>
               st.mem.invoices[inv.ID].Status == Open && SameCharge(st.mem.invoices[inv.ID], inv)
    ensures Keeps(st.mem, SaveInvoice(env, st, inv).mem) && InvoicesKeyed(SaveInvoice(env, st, inv).mem)
  {}

  lemma SameInvoicesKeep(s: Snapshot, t: Snapshot)
    requires InvoicesKeyed(s) && s.invoices == t.invoices
    ensures Keeps(s, t) && InvoicesKeyed(t)
  {}

  lemma BillOneKeeps(env: Env, st: StoreState, id: Id, now: Time, invID: Id, payID: Id)
    requires InvoicesKeyed(st.mem) && invID !in st.mem.invoices
    ensures var t := BillOne(env, st, id, now, invID, payID).st.mem;
            Keeps(st.mem, t) && InvoicesKeyed(t) && t.invoices.Keys <= st.mem.invoices.Keys + {invID}
  {
    hide Keeps, InvoicesKeyed, Advance;
    var b := BillOne(env, st, id, now, invID, payID);
    if Due(st.mem, id, now) && st.mem.plans[st.mem.accounts[id].PlanID].PriceCents > 0 {
      var a := st.mem.accounts[id];
      var plan := st.mem.plans[a.PlanID];
      var st1 := ChargedStore(env, st, a, plan, now, invID, payID);
      var inv := ChargedInvoice(env, a, plan, now, invID);
      assert st1.mem.invoices == st.mem.invoices && inv.ID == invID;
      SameInvoicesKeep(st.mem, st1.mem);
      SaveKeeps(env, st1, inv);
      var st2 := SaveInvoice(env, st1, inv);
      KeepsTransitive(st.mem, st1.mem, st2.mem);
      assert b.st.mem.invoices == st2.mem.invoices;
      SameInvoicesKeep(st2.mem, b.st.mem);
      KeepsTransitive(st.mem, st2.mem, b.st.mem);
    } else {
      SameInvoicesKeep(st.mem, b.st.mem);
    }
  }

  lemma {:induction false} BillAllKeeps(env: Env, st: StoreState, order: seq<Id>, now: Time, invIDs: Id -> Id,
                                        payIDs: Id -> Id)
    requires InvoicesKeyed(st.mem) && FreshFor(invIDs, order, st.mem.invoices.Keys)
    requires forall i, j :: 0 <= i < j < |order| ==> order[i] != order[j]
    ensures var t := BillAll(env, st, order, now, invIDs, payIDs).st.mem;
            Keeps(st.mem, t) && InvoicesKeyed(t)
    decreases |order|
  {
    if order == [] {
      SameInvoicesKeep(st.mem, st.mem);
    } else {
      hide Keeps, InvoicesKeyed, BillOne;
      var id := order[0];
      BillOneKeeps(env, st, id, now, invIDs(id), payIDs(id));
      var one := BillOne(env, st, id, now, invIDs(id), payIDs(id));
      if !one.failed {
        FreshLater(invIDs, order, st.mem.invoices.Keys, one.st.mem.invoices.Keys);
        BillAllKeeps(env, one.st, order[1..], now, invIDs, payIDs);
        KeepsTransitive(st.mem, one.st.mem, BillAll(env, one.st, order[1..], now, invIDs, payIDs).st.mem);
      }
    }
  }

  lemma SettleKeeps(env: Env, st: StoreState, invoice: Id, how: string, now: Time, payID: Id)
    requires InvoicesKeyed(st.mem)
    ensures var (st', r) := Settle(env, st, invoice, how, now, payID);
            && Keeps(st.mem, st'.mem) && InvoicesKeyed(st'.mem)
            && (r.Ok? ==> invoice in st.mem.invoices && st.mem.invoices[invoice].Status == Open
                          && st'.mem.invoices[invoice].Status == Paid)
  {
    if invoice in st.mem.invoices && st.mem.invoices[invoice].Status == Open {
      var paid := st.mem.invoices[invoice].(Status := Paid, PaidAt := Some(now));
      assert paid.ID == invoice;
      hide Keeps, InvoicesKeyed, Outstanding;
      SaveKeeps(env, st, paid);
      var st1 := SaveInvoice(env, st, paid);
      var t := Settle(env, st, invoice, how, now, payID).0.mem;
      assert t.invoices == st1.mem.invoices;
      SameInvoicesKeep(st1.mem, t);
      KeepsTransitive(st.mem, st1.mem, t);
    } else {
      SameInvoicesKeep(st.mem, st.mem);
    }
  }

  lemma {:induction false} SuspendAllInvoices(env: Env, st: StoreState, order: seq<Id>, cutoff: Time)
    ensures SuspendAll(env, st, order, cutoff).0.mem.invoices == st.mem.invoices
    decreases |order|
  {
    if order != [] {
      hide Delinquent;
      SuspendAllInvoices(env, SuspendOne(env, st, order[0], cutoff).0, order[1..], cutoff);
    }
  }

  /** Paid is absorbing and charges are immutable, whatever the event and whichever saves fail. */
  lemma StepKeeps(env: Env, m: Machine, ev: Event)
    requires Allowed(m, ev) && InvoicesKeyed(m.st.mem)
    ensures Keeps(m.st.mem, StepStore(env, m, ev).mem) && InvoicesKeyed(StepStore(env, m, ev).mem)
  {
    hide Keeps, Advance, Wrap64, BillAll, Settle, SuspendAll, FreshFor;
    var s, t := m.st.mem, StepStore(env, m, ev).mem;
    match ev
    case EvRunBilling(now, order, invIDs, payIDs) =>
      BillAllKeeps(env, m.st, order, now, invIDs, payIDs);
    case EvIssueInvoice(id, amount, now, invID) =>
      if t.invoices == s.invoices {
        SameInvoicesKeep(s, t);
      } else {
        SaveKeeps(env, m.st, t.invoices[invID]);
      }
    case EvPay(invoice, how, now, payID) =>
      SettleKeeps(env, m.st, invoice, how, now, payID);
    case EvWebhook(provider, verified, now, payID) =>
      if verified.Ok? && verified.value.paid && verified.value.invoice != "" {
        SettleKeeps(env, m.st, verified.value.invoice, provider, now, payID);
      } else {
        SameInvoicesKeep(s, t);
      }
    case EvEndCheckout(call, session) =>
      if t.invoices == s.invoices {
        SameInvoicesKeep(s, t);
      } else {
        var req := m.pending[call];
        assert s.invoices[req.InvoiceID].ID == req.InvoiceID;
        SaveKeeps(env, m.st, t.invoices[req.InvoiceID]);
      }
    case EvEnforce(now, grace, order) =>
      SuspendAllInvoices(env, m.st, order, now - grace);
      SameInvoicesKeep(s, t);
    case _ =>
      SameInvoicesKeep(s, t);
  }

  lemma {:induction false} RunKeeps(env: Env, m: Machine, evs: seq<Event>)
    requires IsRun(env, m, evs) && InvoicesKeyed(m.st.mem)
    ensures Keeps(m.st.mem, Run(env, m, evs).st.mem) && InvoicesKeyed(Run(env, m, evs).st.mem)
    decreases |evs|
  {
    if evs == [] {
      SameInvoicesKeep(m.st.mem, m.st.mem);
    } else {
      hide Keeps, InvoicesKeyed, Allowed, StepStore;
      StepKeeps(env, m, evs[0]);
      var m' := Step(env, m, evs[0]);
      RunKeeps(env, m', evs[1..]);
      KeepsTransitive(m.st.mem, m'.st.mem, Run(env, m', evs[1..]).st.mem);
    }
  }

  // ---- at most one settlement --------------------------------------------------------------

  /** Whether the event is a call that reports having settled the invoice. */
  ghost predicate SettledBy(env: Env, m: Machine, ev: Event, invoice: Id) {
    match ev
    case EvPay(i, how, now, payID) => i == invoice && Settle(env, m.st, i, how, now, payID).1.Ok?
    case EvWebhook(provider, verified, now, payID) =>
      verified.Ok? && verified.value.invoice == invoice
        && Webhook(env, m.st, provider, verified, now, payID).1 == Ok(true)
    case _ => false
  }

  ghost function Settlements(env: Env, m: Machine, evs: seq<Event>, invoice: Id): nat
    decreases |evs|
  {
    if evs == [] then 0
    else
      (if SettledBy(env, m, evs[0], invoice) then 1 else 0) + Settlements(env, Step(env, m, evs[0]), evs[1..], invoice)
  }

  lemma SettledByOpen(env: Env, m: Machine, ev: Event, invoice: Id)
    requires InvoicesKeyed(m.st.mem) && SettledBy(env, m, ev, invoice)
    ensures invoice in m.st.mem.invoices && m.st.mem.invoices[invoice].Status == Open
    ensures invoice in StepStore(env, m, ev).mem.invoices && StepStore(env, m, ev).mem.invoices[invoice].Status == Paid
  {
    hide InvoicesKeyed, Settle;
    match ev
    case EvPay(i, how, now, payID) => SettleKeeps(env, m.st, i, how, now, payID);
    case EvWebhook(provider, verified, now, payID) => SettleKeeps(env, m.st, invoice, provider, now, payID);
  }

  /** Across any number of operator payments and webhook retries, at most one call settles a given
      invoice; afterwards it stays paid, and a settled or paid invoice is never settled again. */
  lemma {:induction false} SettledAtMostOnce(env: Env, m: Machine, evs: seq<Event>, invoice: Id)
    requires IsRun(env, m, evs) && InvoicesKeyed(m.st.mem)
    ensures Settlements(env, m, evs, invoice) <= 1
    ensures invoice in m.st.mem.invoices && m.st.mem.invoices[invoice].Status != Open ==>
              Settlements(env, m, evs, invoice) == 0
    ensures Settlements(env, m, evs, invoice) == 1 ==>
              var s := Run(env, m, evs).st.mem; invoice in s.invoices && s.invoices[invoice].Status == Paid
    decreases |evs|
  {
    if evs != [] {
      hide InvoicesKeyed, Allowed, StepStore, SettledBy;
      var m' := Step(env, m, evs[0]);
      StepKeeps(env, m, evs[0]);
      SettledAtMostOnce(env, m', evs[1..], invoice);
      if SettledBy(env, m, evs[0], invoice) {
        SettledByOpen(env, m, evs[0], invoice);
        RunKeeps(env, m', evs[1..]);
      }
    }
  }

  // ---- checkouts in flight -----------------------------------------------------------------

  /** A checkout between its two critical sections asks for exactly what the invoice charges, even
      when the invoice has been settled or billed around it meanwhile. */
  ghost predicate RequestsAccurate(m: Machine) {
    forall c :: c in m.pending ==>
      var req := m.pending[c];
      && req.InvoiceID in m.st.mem.invoices
      && req.AmountCents == m.st.mem.invoices[req.InvoiceID].AmountCents
      && req.AccountID == m.st.mem.invoices[req.InvoiceID].AccountID
      && req.Currency == m.st.mem.invoices[req.InvoiceID].Currency
  }

  lemma {:induction false} CheckoutsStayAccurate(env: Env, m: Machine, evs: seq<Event>)
    requires IsRun(env, m, evs) && InvoicesKeyed(m.st.mem) && RequestsAccurate(m)
    ensures RequestsAccurate(Run(env, m, evs))
    decreases |evs|
  {
    if evs != [] {
      var m' := Step(env, m, evs[0]);
      StepKeeps(env, m, evs[0]);
      assert RequestsAccurate(m') by { StepAccurate(env, m, evs[0]); }
      hide RequestsAccurate, InvoicesKeyed, StepStore;
      CheckoutsStayAccurate(env, m', evs[1..]);
    }
  }

  lemma StepAccurate(env: Env, m: Machine, ev: Event)
    requires InvoicesKeyed(m.st.mem) && RequestsAccurate(m) && Allowed(m, ev)
    ensures RequestsAccurate(Step(env, m, ev))
  {
    StepKeeps(env, m, ev);
    var m' := Step(env, m, ev);
    if ev.EvBeginCheckout? {
      assert m'.st == m.st;
    } else {
      hide StepStore, Allowed;
      forall c | c in m'.pending ensures c in m.pending && m'.pending[c] == m.pending[c] {}
    }
  }
}
