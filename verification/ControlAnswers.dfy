/** What each operation of the control server answers, exactly when, and everything it changes: each
    answer has its own cause, each record its own fields, and nothing else in the store moves. */
module ControlAnswers {
  import opened Wrappers
  import opened Collections
  import opened ControlModel
  import opened ControlSpec
  import opened ControlRuns
  import opened Billing
  import opened Ledger
  import opened Quota
  import opened Delinquency

  // ---- what one Save call does -------------------------------------------------------------

  /** Memory becomes mem, the file follows if the write succeeds, and the history grows by one. */
  ghost predicate SavedOnce(env: Env, st: StoreState, t: StoreState, mem: Snapshot) {
    && t.mem == mem && t.log == st.log + [mem]
    && (env.saved(|st.log|) ==> t.disk == mem) && (!env.saved(|st.log|) ==> t.disk == st.disk)
  }

  // ---- plans and accounts ------------------------------------------------------------------

  predicate Defaulted(given: string, default: string, stored: string) {
    (given != "" ==> stored == given) && (given == "" ==> stored == default)
  }

  lemma CreatePlanAnswers(env: Env, st: StoreState, name: string, quota: int, price: Money, currency: string,
                          period: string, id: Id)
    ensures var (t, r) := CreatePlan(env, st, name, quota, price, currency, period, id);
            && (r == Err(Invalid) <==> name == "" || quota <= 0)
            && (r == Err(Invalid) ==> t == st)
            && (r != Err(Invalid) ==>
                  && id in t.mem.plans
                  && var p := t.mem.plans[id];
                  && p.ID == id && p.Name == name && p.QuotaBytes == quota && p.PriceCents == price
                  && Defaulted(currency, "EUR", p.Currency) && Defaulted(period, "monthly", p.Period)
                  && SavedOnce(env, st, t, st.mem.(plans := st.mem.plans[id := p]))
                  && r == if env.saved(|st.log|) then Ok(p) else Err(PersistFailed))
  {}

  lemma CreateAccountAnswers(env: Env, st: StoreState, name: string, email: string, planID: Id, now: Time, id: Id,
                             tokenHash: string)
    ensures var (t, r) := CreateAccount(env, st, name, email, planID, now, id, tokenHash);
            && (r == Err(Invalid) <==> name == "")
            && (r == Err(NotFound) <==> name != "" && planID !in st.mem.plans)
            && (name == "" || planID !in st.mem.plans ==> t == st)
            && (name != "" && planID in st.mem.plans ==>
                  && id in t.mem.accounts
                  && var a := t.mem.accounts[id];
                  && a.ID == id && a.Name == name && a.Email == email && a.PlanID == planID && a.Status == Active
                  && a.TokenHash == tokenHash && a.CreatedAt == now && a.PeriodStart == now
                  && a.PeriodEnd == Advance(st.mem.plans[planID].Period, now)
                  && SavedOnce(env, st, t, st.mem.(accounts := st.mem.accounts[id := a]))
                  && r == if env.saved(|st.log|) then Ok(a) else Err(PersistFailed))
  {
    hide Advance;
  }

  lemma SetStatusAnswers(env: Env, st: StoreState, id: Id, status: AccountStatus)
    requires AccountsKeyed(st.mem)
    ensures var (t, r) := SetStatus(env, st, id, status);
            && (r == Err(NotFound) <==> id !in st.mem.accounts)
            && (r.Ok? <==> id in st.mem.accounts && env.saved(|st.log|))
            && (r.Err? ==> r.error == NotFound || r.error == PersistFailed)
            && (id !in st.mem.accounts ==> t == st)
            && (id in st.mem.accounts ==>
                  && id in t.mem.accounts && t.mem.accounts[id].Status == status
                  && t.mem.accounts[id] == st.mem.accounts[id].(Status := t.mem.accounts[id].Status)
                  && SavedOnce(env, st, t, st.mem.(accounts := st.mem.accounts[id := t.mem.accounts[id]])))
  {}

  // ---- space -------------------------------------------------------------------------------

  /** What is on record for the account, nothing when nothing is. */
  function BytesOf(s: Snapshot, id: Id): int {
    if id in s.usage then s.usage[id].BytesUsed else 0
  }

  function ObjectsOf(s: Snapshot, id: Id): int {
    if id in s.usage then s.usage[id].ObjectCount else 0
  }

  /** The int64 sum does not exceed the quota. */
  predicate Fits(s: Snapshot, id: Id, bytes: int)
    requires MayReserve(s, id)
  {
    Wrap64(BytesOf(s, id) + bytes) <= s.plans[s.accounts[id].PlanID].QuotaBytes
  }

  /** Exactly an active account with a plan may reserve, a size that is not negative and fits; every
      other answer has its own cause and changes nothing. */
  lemma ReserveAnswers(env: Env, st: StoreState, id: Id, bytes: int, now: Time)
    ensures var (t, r) := Reserve(env, st, id, bytes, now);
            var s := st.mem;
            var granted := 0 <= bytes && MayReserve(s, id) && Fits(s, id, bytes);
            && (r == Err(Invalid) <==> bytes < 0)
            && (r == Err(NotActive) <==> 0 <= bytes && id in s.accounts && s.accounts[id].Status != Active)
            && (r == Err(NotFound) <==>
                  0 <= bytes
                  && (id in s.accounts ==> s.accounts[id].Status == Active && s.accounts[id].PlanID !in s.plans))
            && (r == Err(QuotaExceeded) <==> 0 <= bytes && MayReserve(s, id) && !Fits(s, id, bytes))
            && (r == Err(PersistFailed) <==> granted && !env.saved(|st.log|))
            && (r.Ok? <==> granted && env.saved(|st.log|))
            && (!granted ==> t == st)
            && (granted ==>
                  && id in t.mem.usage
                  && var u := t.mem.usage[id];
                  && u.AccountID == id && u.BytesUsed == Wrap64(BytesOf(s, id) + bytes) && u.UpdatedAt == now
                  && u.ObjectCount == ObjectsOf(s, id) + (if bytes > 0 then 1 else 0)
                  && SavedOnce(env, st, t, s.(usage := s.usage[id := u])))
  {
    hide Wrap64;
  }

  lemma ReleaseAnswers(env: Env, st: StoreState, id: Id, bytes: int, now: Time)
    ensures var (t, r) := Release(env, st, id, bytes, now);
            var s := st.mem;
            var left := Wrap64(BytesOf(s, id) - bytes);
            && (r == Err(Invalid) <==> bytes < 0)
            && (r == Err(PersistFailed) <==> 0 <= bytes && !env.saved(|st.log|))
            && (r.Ok? <==> 0 <= bytes && env.saved(|st.log|))
            && (bytes < 0 ==> t == st)
            && (0 <= bytes ==>
                  && id in t.mem.usage
                  && var u := t.mem.usage[id];
                  && u.AccountID == id && u.UpdatedAt == now
                  && 0 <= u.BytesUsed && (0 <= left ==> u.BytesUsed == left) && (left < 0 ==> u.BytesUsed == 0)
                  && u.ObjectCount == ObjectsOf(s, id) - (if bytes > 0 && ObjectsOf(s, id) > 0 then 1 else 0)
                  && SavedOnce(env, st, t, s.(usage := s.usage[id := u])))
  {
    hide Wrap64;
  }

  /** The read model shows the account, its plan, what it uses and what it owes. */
  lemma StatusAnswers(s: Snapshot, id: Id)
    ensures var r := Status(s, id);
            && (r.Ok? <==> id in s.accounts && s.accounts[id].PlanID in s.plans)
            && (r.Err? ==> r.error == NotFound)
            && (r.Ok? ==>
                  var v, a, p := r.value, s.accounts[id], s.plans[s.accounts[id].PlanID];
                  && v.AccountID == a.ID && v.Name == a.Name && v.Status == a.Status && v.PeriodEnd == a.PeriodEnd
                  && v.PlanID == p.ID && v.PlanName == p.Name && v.QuotaBytes == p.QuotaBytes
                    && v.Currency == p.Currency
                  && v.BytesUsed == BytesOf(s, id) && v.ObjectCount == ObjectsOf(s, id) && 0 <= v.RemainingBytes
                  && (0 <= Wrap64(p.QuotaBytes - BytesOf(s, id)) ==>
                      v.RemainingBytes == Wrap64(p.QuotaBytes - BytesOf(s, id)))
                  && (Wrap64(p.QuotaBytes - BytesOf(s, id)) < 0 ==> v.RemainingBytes == 0)
                  && (InvoicesSound(s) ==> ((v.OutstandingCts == 0 <==> NothingOpen(s, id)) <==> ZeroIsTold(s, id)))
                  && (InvoicesSound(s) && OpenTotal(s, id) <= MAX_INT64 ==> v.OutstandingCts == OpenTotal(s, id)))
  {
    hide Wrap64, Outstanding, OpenTotal, NothingOpen, ZeroIsTold, InvoicesSound;
    if InvoicesSound(s) {
      OutstandingZero(s, id);
    }
  }

  // ---- ad-hoc invoices and settlement ------------------------------------------------------

  /** A given positive amount is charged as it is; otherwise the plan's price is, if positive. */
  lemma IssueInvoiceAnswers(env: Env, st: StoreState, id: Id, amount: int, now: Time, invID: Id)
    requires AccountsKeyed(st.mem)
    ensures var (t, r) := IssueInvoice(env, st, id, amount, now, invID);
            var s := st.mem;
            && (r == Err(NotFound) <==> id !in s.accounts || s.accounts[id].PlanID !in s.plans)
            && (r == Err(NotFound) ==> t == st)
            && (r != Err(NotFound) ==>
                  var p := s.plans[s.accounts[id].PlanID];
                  && (r == Err(Invalid) <==> amount <= 0 && p.PriceCents <= 0)
                  && (r == Err(Invalid) ==> t == st)
                  && (r != Err(Invalid) ==>
                        && invID in t.mem.invoices
                        && var inv := t.mem.invoices[invID];
                        && inv.ID == invID && inv.AccountID == id && inv.Currency == p.Currency
                        && (amount > 0 ==> inv.AmountCents == amount)
                        && (amount <= 0 ==> inv.AmountCents == p.PriceCents)
                        && inv.PeriodStart == now && inv.PeriodEnd == now && inv.CreatedAt == now
                        && inv.Status == Open && inv.PaidAt == None && inv.CheckoutProvider == ""
                          && inv.CheckoutRef == ""
                        && SavedOnce(env, st, t, s.(invoices := s.invoices[invID := inv]))
                        && r == if env.saved(|st.log|) then Ok(inv) else Err(PersistFailed)))
  {}

  /** The invoice as a settlement leaves it: paid now, all else as before. */
  predicate PaidNow(was: Invoice, inv: Invoice, now: Time) {
    inv.Status == Paid && inv.PaidAt == Some(now) && inv == was.(Status := inv.Status, PaidAt := inv.PaidAt)
  }

  /** A settlement succeeds exactly when the invoice is open and both its saves do, and then answers
      the payment it stored; every failure has its own cause. */
  lemma SettleAnswers(env: Env, st: StoreState, invoice: Id, how: string, now: Time, payID: Id)
    requires InvoicesKeyed(st.mem)
    ensures var (t, r) := Settle(env, st, invoice, how, now, payID);
            var s, n := st.mem, |st.log|;
            var isOpen := invoice in s.invoices && s.invoices[invoice].Status == Open;
            && (r == Err(NotFound) <==> invoice !in s.invoices)
            && (r == Err(Invalid) <==> invoice in s.invoices && s.invoices[invoice].Status != Open)
            && (r == Err(PersistFailed) <==> isOpen && !(env.saved(n) && env.saved(n + 1)))
            && (r.Ok? <==> isOpen && env.saved(n) && env.saved(n + 1))
            && (!isOpen ==> t == st)
            && (isOpen ==>
                  && invoice in t.mem.invoices && PaidNow(s.invoices[invoice], t.mem.invoices[invoice], now)
                  && t.mem.invoices == s.invoices[invoice := t.mem.invoices[invoice]]
                  && t.mem.plans == s.plans && t.mem.usage == s.usage)
            && (isOpen && !env.saved(n) ==>
                  t.mem.payments == s.payments && t.mem.accounts == s.accounts && t.disk == st.disk && |t.log| == n + 1)
            && (isOpen && env.saved(n) ==>
                  && payID in t.mem.payments
                  && var p, was := t.mem.payments[payID], s.invoices[invoice];
                  && p.ID == payID && p.InvoiceID == invoice && p.AccountID == was.AccountID
                  && p.AmountCents == was.AmountCents && p.Method == how && p.CreatedAt == now
                  && t.mem.payments == s.payments[payID := p] && (r.Ok? ==> r.value == p)
                  && (!env.saved(n + 1) ==> t.mem.accounts == s.accounts && |t.log| == n + 2 && t.disk == t.log[n])
                  && (!(was.AccountID in s.accounts && s.accounts[was.AccountID].Status == Suspended) ==>
                        t.mem.accounts == s.accounts))
  {
    hide Outstanding;
  }

  /** A callback reports a settlement exactly when it is genuine, says paid, names an invoice and
      settles it; a repeated one is no error. */
  lemma WebhookAnswers(env: Env, st: StoreState, provider: string, verified: Result<Callback, Error>, now: Time,
                       payID: Id)
    requires InvoicesKeyed(st.mem)
    ensures var (t, r) := Webhook(env, st, provider, verified, now, payID);
            var s, n := st.mem, |st.log|;
            var acts := verified.Ok? && verified.value.paid && verified.value.invoice != "";
            var known := acts && verified.value.invoice in s.invoices;
            var isOpen := known && s.invoices[verified.value.invoice].Status == Open;
            && (r == Ok(true) <==> isOpen && env.saved(n) && env.saved(n + 1))
            && (r == Ok(false) <==> verified.Ok? && (acts ==> known && !isOpen))
            && (r.Err? <==> verified.Err? || (acts && !known) || (isOpen && !(env.saved(n) && env.saved(n + 1))))
            && (verified.Err? ==> r == Err(verified.error))
            && (acts && !known ==> r == Err(NotFound))
            && (isOpen && !(env.saved(n) && env.saved(n + 1)) ==> r == Err(PersistFailed))
            && (!isOpen ==> t == st)
            && (isOpen ==> t == Settle(env, st, verified.value.invoice, provider, now, payID).0)
  {
    if verified.Ok? {
      SettleAnswers(env, st, verified.value.invoice, provider, now, payID);
    }
    hide Settle;
  }

  /** A checkout begins exactly for an open invoice, and asks for what that invoice charges. */
  lemma StartCheckoutAnswers(s: Snapshot, invoice: Id, provider: string)
    ensures var r := StartCheckout(s, invoice, provider);
            && (r == Err(NotFound) <==> invoice !in s.invoices)
            && (r == Err(Invalid) <==> invoice in s.invoices && s.invoices[invoice].Status != Open)
            && (r.Ok? <==> invoice in s.invoices && s.invoices[invoice].Status == Open)
            && (r.Ok? ==>
                  var q, inv := r.value, s.invoices[invoice];
                  && q.InvoiceID == invoice && q.AccountID == inv.AccountID && q.AmountCents == inv.AmountCents
                  && q.Currency == inv.Currency && q.Provider == provider)
  {}

  /** A session is recorded exactly on an invoice that is still open. */
  lemma RecordCheckoutAnswers(env: Env, st: StoreState, req: Request, reference: string)
    requires InvoicesKeyed(st.mem)
    ensures var t, s, id := RecordCheckout(env, st, req, reference), st.mem, req.InvoiceID;
            var isOpen := id in s.invoices && s.invoices[id].Status == Open;
            && (!isOpen ==> t == st)
            && (isOpen ==>
                  && id in t.mem.invoices
                  && var inv := t.mem.invoices[id];
                  && inv.CheckoutProvider == req.Provider && inv.CheckoutRef == reference
                  && inv == s.invoices[id].(CheckoutProvider := inv.CheckoutProvider, CheckoutRef := inv.CheckoutRef)
                  && SavedOnce(env, st, t, s.(invoices := s.invoices[id := inv])))
  {}

  // ---- billing -----------------------------------------------------------------------------

  /** The invoice for the period of the account that ended, at the plan's price, paid exactly when the
      provider collects it. */
  ghost predicate BillsPeriod(env: Env, s: Snapshot, x: Id, now: Time, inv: Invoice) {
    && x in s.accounts && s.accounts[x].PlanID in s.plans
    && var a, p := s.accounts[x], s.plans[s.accounts[x].PlanID];
    && a.Status != Closed && a.PeriodEnd <= now && p.PriceCents > 0
    && inv.AccountID == x && inv.PeriodStart == a.PeriodStart && inv.PeriodEnd == a.PeriodEnd
    && inv.AmountCents == p.PriceCents && inv.Currency == p.Currency && inv.CreatedAt == now
    && inv.CheckoutProvider == "" && inv.CheckoutRef == ""
    && (inv.Status == Paid <==> env.charge(a, inv.(Status := Open, PaidAt := None)).Some?)
    && (inv.Status == Paid ==> inv.PaidAt == Some(now))
      && (inv.Status != Paid ==> inv.Status == Open && inv.PaidAt == None)
  }

  /** The account is not closed, its period has ended and its plan is known. */
  predicate PeriodEnded(s: Snapshot, x: Id, now: Time) {
    x in s.accounts && s.accounts[x].Status != Closed && s.accounts[x].PeriodEnd <= now
      && s.accounts[x].PlanID in s.plans
  }

  /** The account after its period has moved on. */
  predicate MovedOn(was: Account, a: Account, period: string) {
    && a.PeriodStart == was.PeriodEnd && a.PeriodEnd == Advance(period, was.PeriodEnd)
    && a == was.(PeriodStart := a.PeriodStart, PeriodEnd := a.PeriodEnd)
  }

  /** Billing one account whose period has not ended does nothing; one on a free plan moves it on;
      one on a priced plan saves the invoice, after the payment when the provider collects, and moves
      it on unless the invoice cannot be saved. It fails exactly when one of the last two saves does. */
  lemma BillOneAnswers(env: Env, st: StoreState, id: Id, now: Time, invID: Id, payID: Id)
    requires AccountsKeyed(st.mem)
    ensures var b := BillOne(env, st, id, now, invID, payID);
            var s, t := st.mem, b.st.mem;
            && (!PeriodEnded(s, id, now) ==> b.st == st && b.issued == [] && !b.failed)
            && (PeriodEnded(s, id, now) && s.plans[s.accounts[id].PlanID].PriceCents <= 0 ==>
                  && id in t.accounts && MovedOn(s.accounts[id], t.accounts[id], s.plans[s.accounts[id].PlanID].Period)
                  && SavedOnce(env, st, b.st, s.(accounts := s.accounts[id := t.accounts[id]]))
                  && b.issued == [] && (b.failed <==> !env.saved(|st.log|)))
            && (PeriodEnded(s, id, now) && s.plans[s.accounts[id].PlanID].PriceCents > 0 ==>
                  && invID in t.invoices
                  && var inv := t.invoices[invID];
                  && inv.ID == invID && BillsPeriod(env, s, id, now, inv) && t.invoices == s.invoices[invID := inv]
                  && t.plans == s.plans && t.usage == s.usage
                  && var n := |st.log| + (if inv.Status == Paid then 1 else 0);
                  && (b.failed <==> !(env.saved(n) && env.saved(n + 1)))
                  && (env.saved(n) ==>
                        && id in t.accounts && MovedOn(s.accounts[id], t.accounts[id],
                                                       s.plans[s.accounts[id].PlanID].Period)
                        && t.accounts == s.accounts[id := t.accounts[id]] && b.issued == [inv] && |b.st.log| == n + 2)
                  && (!env.saved(n) ==> t.accounts == s.accounts && b.issued == [] && |b.st.log| == n + 1)
                  && (inv.Status != Paid ==> t.payments == s.payments)
                  && (inv.Status == Paid ==>
                        && payID in t.payments && t.payments == s.payments[payID := t.payments[payID]]
                        && var p, c := t.payments[payID],
                          env.charge(s.accounts[id], inv.(Status := Open, PaidAt := None)).value;
                        && p.ID == payID && p.AccountID == id && p.InvoiceID == invID && p.AmountCents == c.amount
                        && p.Method == c.how && p.CreatedAt == now))
  {
    hide Advance;
  }

  /** Every invoice a pass returns bills the ended period of one of the listed accounts, whatever
      saves fail. */
  lemma {:induction false} ReturnedBillPeriods(env: Env, st: StoreState, order: seq<Id>, now: Time, invIDs: Id -> Id,
                                               payIDs: Id -> Id)
    requires AccountsKeyed(st.mem) && Distinct(order)
    ensures forall inv :: inv in BillAll(env, st, order, now, invIDs, payIDs).issued ==>
              && inv.AccountID in order && inv.ID == invIDs(inv.AccountID)
              && BillsPeriod(env, st.mem, inv.AccountID, now, inv)
    decreases |order|
  {
    hide BillsPeriod, BillOne, Advance;
    if order != [] {
      var id, rest := order[0], order[1..];
      var one := BillOne(env, st, id, now, invIDs(id), payIDs(id));
      OneBillsPeriod(env, st, id, now, invIDs(id), payIDs(id));
      if !one.failed {
        ReturnedBillPeriods(env, one.st, rest, now, invIDs, payIDs);
        forall inv | inv in BillAll(env, one.st, rest, now, invIDs, payIDs).issued
          ensures inv.AccountID in order && BillsPeriod(env, st.mem, inv.AccountID, now, inv)
        {
          assert inv.AccountID in rest && inv.AccountID != id;
          SameBill(env, st.mem, one.st.mem, inv.AccountID, now, inv);
        }
      }
    }
  }

  lemma OneBillsPeriod(env: Env, st: StoreState, id: Id, now: Time, invID: Id, payID: Id)
    requires AccountsKeyed(st.mem)
    ensures var b := BillOne(env, st, id, now, invID, payID);
            && (forall inv :: inv in b.issued ==>
                  inv.AccountID == id && inv.ID == invID && BillsPeriod(env, st.mem, id, now, inv))
            && AccountsKeyed(b.st.mem) && b.st.mem.plans == st.mem.plans
            && b.st.mem.accounts.Keys == st.mem.accounts.Keys
            && (forall x :: x in st.mem.accounts && x != id ==> b.st.mem.accounts[x] == st.mem.accounts[x])
  {
    hide Advance, BillOne;
    BillOneAnswers(env, st, id, now, invID, payID);
  }

  lemma SameBill(env: Env, s: Snapshot, u: Snapshot, x: Id, now: Time, inv: Invoice)
    requires BillsPeriod(env, u, x, now, inv) && u.plans == s.plans
    requires u.accounts.Keys == s.accounts.Keys && (x in s.accounts ==> u.accounts[x] == s.accounts[x])
    ensures BillsPeriod(env, s, x, now, inv)
  {}

  /** A billing invoice of the account at the price of its plan. */
  predicate AtPlanPrice(s: Snapshot, x: Id, inv: Invoice) {
    && HasPlan(s, x) && inv.AccountID == x
    && inv.AmountCents == s.plans[s.accounts[x].PlanID].PriceCents
    && inv.Currency == s.plans[s.accounts[x].PlanID].Currency
  }

  /** Over every run, whatever fails, all billing invoices of an account charge its plan's price in its
      plan's currency. */
  lemma {:induction false} BilledAtPlanPrice(env: Env, m: Machine, evs: seq<Event>, x: Id)
    requires IsRun(env, m, evs) && PeriodsSound(m.st.mem) && x in m.st.mem.accounts
    ensures forall inv :: inv in BilledOver(env, m, evs, x) ==> AtPlanPrice(m.st.mem, x, inv)
    decreases |evs|
  {
    if evs != [] {
      hide Allowed, StepStore, PeriodsSound, BilledIn, AtPlanPrice, Stable;
      var m' := Step(env, m, evs[0]);
      StepPeriods(env, m, evs[0]);
      StepBilledAtPlanPrice(env, m, evs[0], x);
      assert x in m'.st.mem.accounts by { StableAccount(m.st.mem, m'.st.mem, x); }
      BilledAtPlanPrice(env, m', evs[1..], x);
      forall inv | inv in BilledOver(env, m', evs[1..], x) ensures AtPlanPrice(m.st.mem, x, inv) {
        SamePrice(m.st.mem, m'.st.mem, x, inv);
      }
    }
  }

  lemma StableAccount(s: Snapshot, t: Snapshot, x: Id)
    requires Stable(s, t) && x in s.accounts
    ensures x in t.accounts
  {}

  lemma SamePrice(s: Snapshot, t: Snapshot, x: Id, inv: Invoice)
    requires PeriodsSound(s) && Stable(s, t) && x in s.accounts && AtPlanPrice(t, x, inv)
    ensures AtPlanPrice(s, x, inv)
  {
    hide Advance;
  }

  lemma StepBilledAtPlanPrice(env: Env, m: Machine, ev: Event, x: Id)
    requires Allowed(m, ev) && PeriodsSound(m.st.mem)
    ensures forall inv :: inv in BilledIn(env, m, ev, x) ==> AtPlanPrice(m.st.mem, x, inv)
  {
    if ev.EvRunBilling? {
      assert AccountsKeyed(m.st.mem) by { hide Advance; }
      hide PeriodsSound, BillAll;
      ReturnedBillPeriods(env, m.st, ev.order, ev.now, ev.invIDs, ev.payIDs);
      OnlyMine(BillAll(env, m.st, ev.order, ev.now, ev.invIDs, ev.payIDs).issued, x);
    }
  }

  lemma {:induction false} OnlyMine(issued: seq<Invoice>, x: Id)
    ensures forall inv :: inv in IssuedFor(issued, x) <==> inv in issued && inv.AccountID == x
  {
    if issued != [] {
      OnlyMine(issued[1..], x);
    }
  }

  // ---- suspension --------------------------------------------------------------------------

  /** The account has an open invoice created before the cutoff. */
  ghost predicate OldDebt(s: Snapshot, x: Id, cutoff: Time) {
    exists id :: id in s.invoices && s.invoices[id].AccountID == x && s.invoices[id].Status == Open
      && s.invoices[id].CreatedAt < cutoff
  }

  /** Exactly the active accounts with such an invoice become suspended; nothing else changes. */
  lemma EnforceAnswers(env: Env, st: StoreState, order: seq<Id>, cutoff: Time)
    requires AccountsNamed(st.mem) && Listing(order, st.mem.accounts.Keys)
    ensures var s, t := st.mem, SuspendAll(env, st, order, cutoff).0.mem;
            && t.invoices == s.invoices && t.accounts.Keys == s.accounts.Keys
            && forall x :: x in s.accounts ==>
                 var suspends := s.accounts[x].Status == Active && OldDebt(s, x, cutoff);
                 t.accounts[x] == s.accounts[x].(Status := if suspends then Suspended else s.accounts[x].Status)
  {
    SuspendAllEffect(env, st, order, cutoff);
    hide SuspendAll, Delinquent, OldDebt;
    forall x | x in st.mem.accounts ensures Delinquent(st.mem, x, cutoff) <==> OldDebt(st.mem, x, cutoff) {
      DebtIsOld(st.mem, x, cutoff);
    }
  }

  lemma DebtIsOld(s: Snapshot, x: Id, cutoff: Time)
    requires x != ""
    ensures Delinquent(s, x, cutoff) <==> OldDebt(s, x, cutoff)
  {}

  /** The reported ids are exactly those of the accounts it suspended, each once. */
  lemma {:induction false} EnforceReports(env: Env, st: StoreState, order: seq<Id>, cutoff: Time)
    requires AccountsKeyed(st.mem) && Distinct(order)
    ensures var (t, ids) := SuspendAll(env, st, order, cutoff);
            && Distinct(ids) && (forall id :: id in ids ==> id in order)
            && (forall id :: id in ids <==>
                  id in st.mem.accounts && id in t.mem.accounts && t.mem.accounts[id] != st.mem.accounts[id])
            && AccountsKeyed(t.mem) && t.mem.accounts.Keys == st.mem.accounts.Keys
            && |t.log| == |st.log| + |ids|
    decreases |order|
  {
    hide Delinquent;
    if order != [] {
      var (st1, s1) := SuspendOne(env, st, order[0], cutoff);
      SuspendOneReports(env, st, order[0], cutoff);
      hide SuspendOne;
      EnforceReports(env, st1, order[1..], cutoff);
    }
  }

  lemma SuspendOneReports(env: Env, st: StoreState, x: Id, cutoff: Time)
    requires AccountsKeyed(st.mem)
    ensures var (t, ids) := SuspendOne(env, st, x, cutoff);
            && (t != st ==>
                  && ids == [x] && x in st.mem.accounts && |t.log| == |st.log| + 1
                  && t.mem.accounts == st.mem.accounts[x := t.mem.accounts[x]] && x in t.mem.accounts
                  && t.mem.accounts[x] != st.mem.accounts[x])
            && (t == st ==> ids == []) && AccountsKeyed(t.mem) && t.mem.accounts.Keys == st.mem.accounts.Keys
  {
    hide Delinquent;
  }
}
