/** The ledger over every run and interleaving: totals are conserved, and invoices and payments stay
    paired, as long as no settlement fails to save its invoice. */
module Ledger {
  import opened Wrappers
  import opened ControlModel
  import opened ControlSpec
  import opened ControlRuns

  ghost function InvoiceAmount(invoices: map<Id, Invoice>, account: Id): Id -> int {
    (id: Id) => if id in invoices && Owned(invoices[id].AccountID, account) then invoices[id].AmountCents else 0
  }

  ghost function PaymentAmount(payments: map<Id, Payment>, account: Id): Id -> int {
    (id: Id) => if id in payments && Owned(payments[id].AccountID, account) then payments[id].AmountCents else 0
  }

  ghost function InvoiceTotal(s: Snapshot, account: Id): int {
    SumOver(s.invoices.Keys, InvoiceAmount(s.invoices, account))
  }

  ghost function PaymentTotal(s: Snapshot, account: Id): int {
    SumOver(s.payments.Keys, PaymentAmount(s.payments, account))
  }

  /** All invoices = outstanding + all payments. */
  ghost predicate Balanced(s: Snapshot, account: Id) {
    InvoiceTotal(s, account) == OpenTotal(s, account) + PaymentTotal(s, account)
  }

  /** The payment settles a paid invoice of the same account and amount. */
  predicate Settles(s: Snapshot, p: Payment) {
    && p.InvoiceID in s.invoices
    && s.invoices[p.InvoiceID].Status == Paid
    && s.invoices[p.InvoiceID].AmountCents == p.AmountCents
    && s.invoices[p.InvoiceID].AccountID == p.AccountID
  }

  ghost predicate HasPayment(s: Snapshot, invoice: Id) {
    exists p :: p in s.payments && s.payments[p].InvoiceID == invoice
  }

  predicate SoundInvoice(id: Id, inv: Invoice) {
    inv.ID == id && inv.Status != Void && inv.AmountCents > 0
  }

  /** Each payment settles its own paid invoice, so no invoice has two. */
  ghost predicate PaymentsSound(s: Snapshot) {
    && (forall p :: p in s.payments ==> s.payments[p].ID == p && Settles(s, s.payments[p]))
    && (forall p, q :: p in s.payments && q in s.payments && s.payments[p].InvoiceID == s.payments[q].InvoiceID ==>
        p == q)
  }

  ghost predicate InvoicesSound(s: Snapshot) {
    forall id :: id in s.invoices ==> SoundInvoice(id, s.invoices[id])
  }

  ghost predicate Consistent(s: Snapshot) {
    && InvoicesSound(s)
    && PaymentsSound(s)
    && (forall id :: id in s.invoices && s.invoices[id].Status == Paid ==> HasPayment(s, id))
    && (forall account :: Balanced(s, account))
  }

  // ---- the four changes an operation can make to the ledger --------------------------------

  ghost predicate SameLedger(s: Snapshot, t: Snapshot) {
    s.invoices == t.invoices && s.payments == t.payments
  }

  lemma SameLedgerConsistent(s: Snapshot, t: Snapshot)
    requires Consistent(s) && SameLedger(s, t)
    ensures Consistent(t)
  {
    forall account ensures Balanced(t, account) {
      assert Balanced(s, account);
    }
    forall id | id in t.invoices && t.invoices[id].Status == Paid ensures HasPayment(t, id) {
      assert HasPayment(s, id);
    }
  }

  function WithInvoice(s: Snapshot, inv: Invoice): Snapshot {
    s.(invoices := s.invoices[inv.ID := inv])
  }

  function WithPayment(s: Snapshot, p: Payment): Snapshot {
    s.(payments := s.payments[p.ID := p])
  }

  lemma NewInvoiceTotals(s: Snapshot, inv: Invoice, account: Id)
    requires inv.ID !in s.invoices
    ensures var t := WithInvoice(s, inv);
            && InvoiceTotal(t, account) == InvoiceTotal(s, account) +
              (if Owned(inv.AccountID, account) then inv.AmountCents else 0)
            && OpenTotal(t, account) == OpenTotal(s, account) + (if OpenFor(inv, account) then inv.AmountCents else 0)
            && PaymentTotal(t, account) == PaymentTotal(s, account)
  {
    var t := WithInvoice(s, inv);
    assert t.invoices.Keys == s.invoices.Keys + {inv.ID};
    SumExtend(s.invoices.Keys, InvoiceAmount(s.invoices, account), InvoiceAmount(t.invoices, account), inv.ID);
    SumExtend(s.invoices.Keys, OpenAmount(s.invoices, account), OpenAmount(t.invoices, account), inv.ID);
  }

  lemma NewPaymentTotals(s: Snapshot, p: Payment, account: Id)
    requires p.ID !in s.payments
    ensures var t := WithPayment(s, p);
            && PaymentTotal(t, account) == PaymentTotal(s, account) +
              (if Owned(p.AccountID, account) then p.AmountCents else 0)
            && InvoiceTotal(t, account) == InvoiceTotal(s, account) && OpenTotal(t, account) == OpenTotal(s, account)
  {
    var t := WithPayment(s, p);
    assert t.payments.Keys == s.payments.Keys + {p.ID};
    SumExtend(s.payments.Keys, PaymentAmount(s.payments, account), PaymentAmount(t.payments, account), p.ID);
  }

  lemma ChangedInvoiceTotals(s: Snapshot, inv: Invoice, account: Id)
    requires inv.ID in s.invoices
    ensures var t, was := WithInvoice(s, inv), s.invoices[inv.ID];
            && InvoiceTotal(t, account) == InvoiceTotal(s, account)
                 - (if Owned(was.AccountID, account) then was.AmountCents else 0)
                 + (if Owned(inv.AccountID, account) then inv.AmountCents else 0)
            && OpenTotal(t, account) == OpenTotal(s, account)
                 - (if OpenFor(was, account) then was.AmountCents else 0)
                 + (if OpenFor(inv, account) then inv.AmountCents else 0)
            && PaymentTotal(t, account) == PaymentTotal(s, account)
  {
    var t := WithInvoice(s, inv);
    assert t.invoices.Keys == s.invoices.Keys;
    SumChange(s.invoices.Keys, InvoiceAmount(s.invoices, account), InvoiceAmount(t.invoices, account), inv.ID);
    SumChange(s.invoices.Keys, OpenAmount(s.invoices, account), OpenAmount(t.invoices, account), inv.ID);
  }

  lemma AddOpenInvoice(s: Snapshot, inv: Invoice)
    requires Consistent(s) && inv.ID !in s.invoices && inv.Status == Open && inv.AmountCents > 0
    ensures Consistent(WithInvoice(s, inv))
  {
    var t := WithInvoice(s, inv);
    forall account ensures Balanced(t, account) {
      assert Balanced(s, account);
      NewInvoiceTotals(s, inv, account);
    }
    forall id | id in t.invoices && t.invoices[id].Status == Paid ensures HasPayment(t, id) {
      assert HasPayment(s, id);
    }
  }

  /** An open invoice keeps everything but its checkout fields. */
  lemma RecordSession(s: Snapshot, inv: Invoice)
    requires Consistent(s) && inv.ID in s.invoices && s.invoices[inv.ID].Status == Open
    requires inv.Status == Open && inv.AccountID == s.invoices[inv.ID].AccountID
    requires inv.AmountCents == s.invoices[inv.ID].AmountCents
    ensures Consistent(WithInvoice(s, inv))
  {
    var t := WithInvoice(s, inv);
    forall account ensures Balanced(t, account) {
      assert Balanced(s, account);
      ChangedInvoiceTotals(s, inv, account);
    }
    forall id | id in t.invoices && t.invoices[id].Status == Paid ensures HasPayment(t, id) {
      assert HasPayment(s, id);
    }
  }

  lemma PayOpenInvoice(s: Snapshot, id: Id, now: Time, p: Payment)
    requires Consistent(s) && id in s.invoices && s.invoices[id].Status == Open && p.ID !in s.payments
    requires p.InvoiceID == id && p.AmountCents == s.invoices[id].AmountCents && p.AccountID == s.invoices[id].AccountID
    ensures Consistent(WithPayment(WithInvoice(s, s.invoices[id].(Status := Paid, PaidAt := Some(now))), p))
  {
    var inv := s.invoices[id].(Status := Paid, PaidAt := Some(now));
    var u := WithInvoice(s, inv);
    var t := WithPayment(u, p);
    forall account ensures Balanced(t, account) {
      assert Balanced(s, account);
      ChangedInvoiceTotals(s, inv, account);
      NewPaymentTotals(u, p, account);
    }
    forall i | i in t.invoices && t.invoices[i].Status == Paid ensures HasPayment(t, i) {
      if i == id {
        assert p.ID in t.payments;
      } else {
        assert HasPayment(s, i);
        var q :| q in s.payments && s.payments[q].InvoiceID == i;
        assert t.payments[q].InvoiceID == i;
      }
    }
  }

  lemma AddPaidInvoice(s: Snapshot, inv: Invoice, p: Payment)
    requires Consistent(s) && inv.ID !in s.invoices && inv.Status == Paid && inv.AmountCents > 0 && p.ID !in s.payments
    requires p.InvoiceID == inv.ID && p.AmountCents == inv.AmountCents && p.AccountID == inv.AccountID
    ensures Consistent(WithInvoice(WithPayment(s, p), inv))
  {
    var u := WithPayment(s, p);
    var t := WithInvoice(u, inv);
    forall account ensures Balanced(t, account) {
      assert Balanced(s, account);
      NewPaymentTotals(s, p, account);
      NewInvoiceTotals(u, inv, account);
    }
    forall i | i in t.invoices && t.invoices[i].Status == Paid ensures HasPayment(t, i) {
      if i == inv.ID {
        assert p.ID in t.payments;
      } else {
        assert HasPayment(s, i);
        var q :| q in s.payments && s.payments[q].InvoiceID == i;
        assert t.payments[q].InvoiceID == i;
      }
    }
  }

  // ---- every operation keeps the ledger ----------------------------------------------------

  /** The only invoice or payment billing an account can add is the one with the new id. */
  lemma BillOneConsistent(env: Env, st: StoreState, id: Id, now: Time, invID: Id, payID: Id)
    requires Honest(env) && Consistent(st.mem) && invID !in st.mem.invoices && payID !in st.mem.payments
    ensures var b := BillOne(env, st, id, now, invID, payID);
            && Consistent(b.st.mem)
            && b.st.mem.invoices.Keys <= st.mem.invoices.Keys + {invID}
            && b.st.mem.payments.Keys <= st.mem.payments.Keys + {payID}
  {
    hide Consistent, Advance;
    var s, t := st.mem, BillOne(env, st, id, now, invID, payID).st.mem;
    if !Due(s, id, now) {
    } else {
      var a := s.accounts[id];
      var plan := s.plans[a.PlanID];
      if plan.PriceCents <= 0 {
        SameLedgerConsistent(s, t);
      } else {
        var inv := PeriodInvoice(a, plan, now, invID);
        var c := env.charge(a, inv);
        if c.None? {
          AddOpenInvoice(s, inv);
          SameLedgerConsistent(WithInvoice(s, inv), t);
        } else {
          var p := Payment(payID, a.ID, invID, c.value.amount, c.value.how, now);
          var paid := inv.(Status := Paid, PaidAt := Some(now));
          AddPaidInvoice(s, paid, p);
          SameLedgerConsistent(WithInvoice(WithPayment(s, p), paid), t);
        }
      }
    }
  }

  lemma {:induction false} BillAllConsistent(env: Env, st: StoreState, order: seq<Id>, now: Time, invIDs: Id -> Id,
                                             payIDs: Id -> Id)
    requires Honest(env) && Consistent(st.mem)
    requires forall i, j :: 0 <= i < j < |order| ==> order[i] != order[j]
    requires FreshFor(invIDs, order, st.mem.invoices.Keys) && FreshFor(payIDs, order, st.mem.payments.Keys)
    ensures Consistent(BillAll(env, st, order, now, invIDs, payIDs).st.mem)
    decreases |order|
  {
    if order != [] {
      hide Consistent, BillOne;
      var id, rest := order[0], order[1..];
      BillOneConsistent(env, st, id, now, invIDs(id), payIDs(id));
      var one := BillOne(env, st, id, now, invIDs(id), payIDs(id));
      var st1 := one.st;
      FreshLater(invIDs, order, st.mem.invoices.Keys, st1.mem.invoices.Keys);
      FreshLater(payIDs, order, st.mem.payments.Keys, st1.mem.payments.Keys);
      hide FreshFor;
      if !one.failed {
        BillAllConsistent(env, st1, rest, now, invIDs, payIDs);
      }
    }
  }

  /** With any other amount the ledger is broken at once. */
  lemma DishonestChargeBreaks(env: Env, st: StoreState, id: Id, now: Time, invID: Id, payID: Id)
    requires Due(st.mem, id, now)
    requires var a := st.mem.accounts[id];
             var inv := PeriodInvoice(a, st.mem.plans[a.PlanID], now, invID);
             inv.AmountCents > 0 && env.charge(a, inv).Some? && env.charge(a, inv).value.amount != inv.AmountCents
    ensures !Consistent(BillOne(env, st, id, now, invID, payID).st.mem)
  {
    hide Advance;
    var t := BillOne(env, st, id, now, invID, payID).st.mem;
    assert payID in t.payments && !Settles(t, t.payments[payID]);
  }

  /** A settlement of an open invoice whose first save fails: it returns before it records the
      payment, but memory already says paid. */
  predicate LosesPayment(env: Env, st: StoreState, invoice: Id) {
    invoice in st.mem.invoices && st.mem.invoices[invoice].Status == Open && !Saves(env, st)
  }

  lemma SettleConsistentIff(env: Env, st: StoreState, invoice: Id, how: string, now: Time, payID: Id)
    requires Consistent(st.mem) && payID !in st.mem.payments
    ensures Consistent(Settle(env, st, invoice, how, now, payID).0.mem) <==> !LosesPayment(env, st, invoice)
  {
    if invoice in st.mem.invoices && st.mem.invoices[invoice].Status == Open {
      var inv := st.mem.invoices[invoice];
      var paid := inv.(Status := Paid, PaidAt := Some(now));
      var p := SettlePayment(inv, how, now, payID);
      assert SoundInvoice(invoice, inv);
      if LosesPayment(env, st, invoice) {
        UnpaidPaid(st.mem, invoice, now);
        hide Consistent, Outstanding;
      } else {
        hide Consistent, Outstanding;
        PayOpenInvoice(st.mem, invoice, now, p);
        SameLedgerConsistent(WithPayment(WithInvoice(st.mem, paid), p),
                             Settle(env, st, invoice, how, now, payID).0.mem);
      }
    }
  }

  lemma UnpaidPaid(s: Snapshot, invoice: Id, now: Time)
    requires Consistent(s) && invoice in s.invoices && s.invoices[invoice].Status == Open
    ensures !Consistent(WithInvoice(s, s.invoices[invoice].(Status := Paid, PaidAt := Some(now))))
  {
    assert SoundInvoice(invoice, s.invoices[invoice]);
    var t := WithInvoice(s, s.invoices[invoice].(Status := Paid, PaidAt := Some(now)));
    assert forall p :: p in s.payments ==> Settles(s, s.payments[p]);
    assert !HasPayment(t, invoice);
  }

  lemma {:induction false} SuspendAllLedger(env: Env, st: StoreState, order: seq<Id>, cutoff: Time)
    ensures SameLedger(st.mem, SuspendAll(env, st, order, cutoff).0.mem)
    decreases |order|
  {
    if order != [] {
      hide Delinquent;
      SuspendAllLedger(env, SuspendOne(env, st, order[0], cutoff).0, order[1..], cutoff);
    }
  }

  ghost predicate EventLosesPayment(env: Env, m: Machine, ev: Event) {
    match ev
    case EvPay(invoice, _, _, _) => LosesPayment(env, m.st, invoice)
    case EvWebhook(_, verified, _, _) =>
      verified.Ok? && verified.value.paid && verified.value.invoice != ""
        && LosesPayment(env, m.st, verified.value.invoice)
    case _ => false
  }

  /** Every event keeps the ledger, whatever saves fail, except exactly such a settlement. */
  lemma StepConsistentIff(env: Env, m: Machine, ev: Event)
    requires Honest(env) && Allowed(m, ev) && Consistent(m.st.mem)
    ensures Consistent(StepStore(env, m, ev).mem) <==> !EventLosesPayment(env, m, ev)
  {
    hide Consistent, Advance, Wrap64, BillAll, Settle, SuspendAll, RecordCheckout, FreshFor, IssueInvoice, Honest,
         LosesPayment;
    var s, t := m.st.mem, StepStore(env, m, ev).mem;
    match ev
    case EvRunBilling(now, order, invIDs, payIDs) =>
      BillAllConsistent(env, m.st, order, now, invIDs, payIDs);
    case EvIssueInvoice(id, amount, now, invID) =>
      IssueConsistent(env, m.st, id, amount, now, invID);
    case EvPay(invoice, how, now, payID) =>
      SettleConsistentIff(env, m.st, invoice, how, now, payID);
    case EvWebhook(provider, verified, now, payID) =>
      if verified.Ok? && verified.value.paid && verified.value.invoice != "" {
        SettleConsistentIff(env, m.st, verified.value.invoice, provider, now, payID);
      }
    case EvEndCheckout(call, session) =>
      if call in m.pending && session.Some? {
        RecordConsistent(env, m.st, m.pending[call], session.value);
      }
    case EvEnforce(now, grace, order) =>
      SuspendAllLedger(env, m.st, order, now - grace);
      SameLedgerConsistent(s, t);
    case _ =>
      assert SameLedger(s, t);
      SameLedgerConsistent(s, t);
  }

  lemma IssueConsistent(env: Env, st: StoreState, id: Id, amount: int, now: Time, invID: Id)
    requires Consistent(st.mem) && invID !in st.mem.invoices
    ensures Consistent(IssueInvoice(env, st, id, amount, now, invID).0.mem)
  {
    hide Consistent;
    var r := IssueInvoice(env, st, id, amount, now, invID);
    if r.0 != st {
      AddOpenInvoice(st.mem, r.0.mem.invoices[invID]);
    }
  }

  lemma RecordConsistent(env: Env, st: StoreState, req: Request, reference: string)
    requires Consistent(st.mem)
    ensures Consistent(RecordCheckout(env, st, req, reference).mem)
  {
    if req.InvoiceID in st.mem.invoices && st.mem.invoices[req.InvoiceID].Status == Open {
      assert SoundInvoice(req.InvoiceID, st.mem.invoices[req.InvoiceID]);
      var inv := st.mem.invoices[req.InvoiceID];
      RecordSession(st.mem, inv.(CheckoutProvider := req.Provider, CheckoutRef := reference));
    }
  }

  ghost predicate LosesNoPayment(env: Env, m: Machine, evs: seq<Event>)
    decreases |evs|
  {
    evs == [] || (!EventLosesPayment(env, m, evs[0]) && LosesNoPayment(env, Step(env, m, evs[0]), evs[1..]))
  }

  /** In every run and interleaving, for every account: all invoices = outstanding + payments; each
      paid invoice has exactly one payment, of equal amount and account. Saves may fail anywhere but
      at the first save of a settlement. */
  lemma {:induction false} LedgerConserved(env: Env, m: Machine, evs: seq<Event>)
    requires Honest(env) && IsRun(env, m, evs) && LosesNoPayment(env, m, evs) && Consistent(m.st.mem)
    ensures Consistent(Run(env, m, evs).st.mem)
    decreases |evs|
  {
    if evs != [] {
      hide Consistent, Allowed, StepStore, EventLosesPayment, Honest;
      StepConsistentIff(env, m, evs[0]);
      LedgerConserved(env, Step(env, m, evs[0]), evs[1..]);
    }
  }

  /** In particular when every save succeeds. */
  lemma {:induction false} SavesLoseNothing(env: Env, m: Machine, evs: seq<Event>)
    requires forall n :: env.saved(n)
    ensures LosesNoPayment(env, m, evs)
    decreases |evs|
  {
    if evs != [] {
      SavesLoseNothing(env, Step(env, m, evs[0]), evs[1..]);
    }
  }

  lemma InitiallyConsistent()
    ensures Consistent(INITIAL.st.mem)
  {
    forall account ensures Balanced(EMPTY, account) {}
  }

  // ---- outstanding == 0 --------------------------------------------------------------------

  /** The open total is zero exactly when no invoice is open, because amounts are positive. The
      int64 sum the code compares with zero says the same if and only if the open total is not a
      positive multiple of 2^64. */
  lemma OutstandingZero(s: Snapshot, account: Id)
    requires InvoicesSound(s)
    ensures OpenTotal(s, account) >= 0
    ensures OpenTotal(s, account) == 0 <==> NothingOpen(s, account)
    ensures (Outstanding(s, account) == 0 <==> NothingOpen(s, account)) <==> ZeroIsTold(s, account)
    ensures OpenTotal(s, account) <= MAX_INT64 ==> Outstanding(s, account) == OpenTotal(s, account)
  {
    OpenTotalZero(s, account);
    hide OpenTotal, NothingOpen;
    WrapsToZero(OpenTotal(s, account));
  }

  /** No invoice of the account is open; the empty id stands for every account. */
  ghost predicate NothingOpen(s: Snapshot, account: Id) {
    forall id :: id in s.invoices && s.invoices[id].Status == Open ==>
      account != "" && s.invoices[id].AccountID != account
  }

  /** The int64 sum is zero only when the exact one is. */
  ghost predicate ZeroIsTold(s: Snapshot, account: Id) {
    OpenTotal(s, account) == 0 || OpenTotal(s, account) % TWO_64 != 0
  }

  lemma WrapsToZero(n: int)
    ensures Wrap64(n) == 0 <==> n % TWO_64 == 0
  {
    var q, r := n / TWO_64, n % TWO_64;
    assert n + MAX_INT64 + 1 == (r + MAX_INT64 + 1) + q * TWO_64;
    RemainderOf(r + MAX_INT64 + 1, q);
  }

  lemma RemainderOf(n: int, q: int)
    ensures (n + q * TWO_64) % TWO_64 == n % TWO_64
  {
    var k, r := n / TWO_64, n % TWO_64;
    assert n + q * TWO_64 == (k + q) * TWO_64 + r;
  }

  lemma OpenTotalZero(s: Snapshot, account: Id)
    requires InvoicesSound(s)
    ensures OpenTotal(s, account) >= 0 && (OpenTotal(s, account) == 0 <==> NothingOpen(s, account))
  {
    var f := OpenAmount(s.invoices, account);
    assert forall id :: id in s.invoices.Keys ==> f(id) >= 0 by {
      assert forall id :: id in s.invoices ==> SoundInvoice(id, s.invoices[id]);
    }
    SumNonNegative(s.invoices.Keys, f);
    if id :| id in s.invoices && OpenFor(s.invoices[id], account) {
      assert SoundInvoice(id, s.invoices[id]);
      SumZero(s.invoices.Keys, f, id);
    } else {
      SumOutside(s.invoices.Keys, {}, f);
    }
  }
}
