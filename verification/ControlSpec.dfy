/** What every operation of the control server (core/control/service.go) does to the store, as
    functions of the store, the arguments and the environment. */
module ControlSpec {
  import opened Wrappers
  import opened ControlModel

  /** n ids in some order, each once: what ranging over a map yields. */
  ghost predicate Listing(order: seq<Id>, keys: set<Id>) {
    && (forall i, j :: 0 <= i < j < |order| ==> order[i] != order[j])
    && (forall id :: id in order <==> id in keys)
  }

  // ---- totals ------------------------------------------------------------------------------

  /** What ListInvoices selects: the empty id stands for every account. */
  predicate Owned(owner: Id, account: Id) {
    account == "" || owner == account
  }

  predicate OpenFor(inv: Invoice, account: Id) {
    Owned(inv.AccountID, account) && inv.Status == Open
  }

  ghost function OpenAmount(invoices: map<Id, Invoice>, account: Id): Id -> int {
    (id: Id) => if id in invoices && OpenFor(invoices[id], account) then invoices[id].AmountCents else 0
  }

  /** The exact sum of an account's open invoices. */
  ghost function OpenTotal(s: Snapshot, account: Id): int {
    SumOver(s.invoices.Keys, OpenAmount(s.invoices, account))
  }

  /** The sum as an int64 holds it. */
  ghost function Outstanding(s: Snapshot, account: Id): Money {
    Wrap64(OpenTotal(s, account))
  }

  // ---- plans and accounts ------------------------------------------------------------------

  function CreatePlan(env: Env, st: StoreState, name: string, quota: int, price: Money, currency: string,
                      period: string, id: Id): (StoreState, Result<Plan, Error>)
  {
    if name == "" || quota <= 0 then (st, Err(Invalid))
    else
      var p := Plan(id, name, quota, price, if currency == "" then "EUR" else currency,
                    if period == "" then "monthly" else period);
      (SavePlan(env, st, p), if Saves(env, st) then Ok(p) else Err(PersistFailed))
  }

  function CreateAccount(env: Env, st: StoreState, name: string, email: string, planID: Id, now: Time, id: Id,
                         tokenHash: string): (StoreState, Result<Account, Error>)
  {
    if name == "" then (st, Err(Invalid))
    else if planID !in st.mem.plans then (st, Err(NotFound))
    else
      var a := Account(id, name, email, planID, Active, tokenHash, now, now,
                       Advance(st.mem.plans[planID].Period, now));
      (SaveAccount(env, st, a), if Saves(env, st) then Ok(a) else Err(PersistFailed))
  }

  function SetStatus(env: Env, st: StoreState, id: Id, status: AccountStatus): (StoreState, Result<(), Error>) {
    if id !in st.mem.accounts then (st, Err(NotFound))
    else
      (SaveAccount(env, st, st.mem.accounts[id].(Status := status)),
       if Saves(env, st) then Ok(()) else Err(PersistFailed))
  }

  // ---- space -------------------------------------------------------------------------------

  function Reserve(env: Env, st: StoreState, id: Id, bytes: int, now: Time): (StoreState, Result<(), Error>) {
    if bytes < 0 then (st, Err(Invalid))
    else if id !in st.mem.accounts then (st, Err(NotFound))
    else if st.mem.accounts[id].Status != Active then (st, Err(NotActive))
    else if st.mem.accounts[id].PlanID !in st.mem.plans then (st, Err(NotFound))
    else
      var u := GetUsage(st.mem, id);
      var used := Wrap64(u.BytesUsed + bytes);
      if used > st.mem.plans[st.mem.accounts[id].PlanID].QuotaBytes then (st, Err(QuotaExceeded))
      else
        (SaveUsage(env, st, Usage(id, used, if bytes > 0 then u.ObjectCount + 1 else u.ObjectCount, now)),
         if Saves(env, st) then Ok(()) else Err(PersistFailed))
  }

  function Release(env: Env, st: StoreState, id: Id, bytes: int, now: Time): (StoreState, Result<(), Error>) {
    if bytes < 0 then (st, Err(Invalid))
    else
      var u := GetUsage(st.mem, id);
      var used := Wrap64(u.BytesUsed - bytes);
      (SaveUsage(env, st, Usage(id, if used < 0 then 0 else used,
                                if bytes > 0 && u.ObjectCount > 0 then u.ObjectCount - 1 else u.ObjectCount, now)),
       if Saves(env, st) then Ok(()) else Err(PersistFailed))
  }

  datatype StatusView =
    StatusView(AccountID: Id, Name: string, Status: AccountStatus, PlanID: Id, PlanName: string, QuotaBytes: int,
               BytesUsed: int, RemainingBytes: int, ObjectCount: int, Currency: string, OutstandingCts: Money,
               PeriodEnd: Time)

  ghost function Status(s: Snapshot, id: Id): Result<StatusView, Error> {
    if id !in s.accounts then Err(NotFound)
    else if s.accounts[id].PlanID !in s.plans then Err(NotFound)
    else
      var a, plan, u := s.accounts[id], s.plans[s.accounts[id].PlanID], GetUsage(s, id);
      var remaining := Wrap64(plan.QuotaBytes - u.BytesUsed);
      Ok(StatusView(a.ID, a.Name, a.Status, plan.ID, plan.Name, plan.QuotaBytes, u.BytesUsed,
                    if remaining < 0 then 0 else remaining, u.ObjectCount, plan.Currency, Outstanding(s, id),
                      a.PeriodEnd))
  }

  // ---- billing -----------------------------------------------------------------------------

  /** What one pass or part of a pass of RunBilling did. */
  datatype Billed = Billed(st: StoreState, issued: seq<Invoice>, failed: bool)

  function PeriodInvoice(a: Account, plan: Plan, now: Time, id: Id): Invoice {
    Invoice(id, a.ID, a.PeriodStart, a.PeriodEnd, plan.PriceCents, plan.Currency, Open, now, None, "", "")
  }

  predicate Due(s: Snapshot, id: Id, now: Time) {
    && id in s.accounts && s.accounts[id].Status != Closed && s.accounts[id].PeriodEnd <= now
    && s.accounts[id].PlanID in s.plans
  }

  /** The invoice a due account gets, already paid when the provider collected it. */
  function ChargedInvoice(env: Env, a: Account, plan: Plan, now: Time, id: Id): Invoice {
    var inv := PeriodInvoice(a, plan, now, id);
    if env.charge(a, inv).Some? then inv.(Status := Paid, PaidAt := Some(now)) else inv
  }

  /** Records the automatic payment, if there is one. Its save error is ignored. */
  function ChargedStore(env: Env, st: StoreState, a: Account, plan: Plan, now: Time, invID: Id, payID: Id): StoreState {
    match env.charge(a, PeriodInvoice(a, plan, now, invID))
    case None => st
    case Some(c) => SavePayment(env, st, Payment(payID, a.ID, invID, c.amount, c.how, now))
  }

  function NextPeriod(a: Account, plan: Plan): Account {
    a.(PeriodStart := a.PeriodEnd, PeriodEnd := Advance(plan.Period, a.PeriodEnd))
  }

  /** One account in the billing loop. */
  function BillOne(env: Env, st: StoreState, id: Id, now: Time, invID: Id, payID: Id): Billed {
    if !Due(st.mem, id, now) then Billed(st, [], false)
    else
      var a := st.mem.accounts[id];
      var plan := st.mem.plans[a.PlanID];
      if plan.PriceCents <= 0 then
        Billed(SaveAccount(env, st, NextPeriod(a, plan)), [], !Saves(env, st))
      else
        var inv := ChargedInvoice(env, a, plan, now, invID);
        var st1 := ChargedStore(env, st, a, plan, now, invID, payID);
        var st2 := SaveInvoice(env, st1, inv);
        if !Saves(env, st1) then Billed(st2, [], true)
        else Billed(SaveAccount(env, st2, NextPeriod(a, plan)), [inv], !Saves(env, st2))
  }

  /** The billing loop over the listed accounts; it stops at the first failed save. */
  function BillAll(env: Env, st: StoreState, order: seq<Id>, now: Time, invID: Id -> Id, payID: Id -> Id): Billed
    decreases |order|
  {
    if order == [] then Billed(st, [], false)
    else
      var one := BillOne(env, st, order[0], now, invID(order[0]), payID(order[0]));
      if one.failed then one
      else
        var rest := BillAll(env, one.st, order[1..], now, invID, payID);
        Billed(rest.st, one.issued + rest.issued, rest.failed)
  }

  function IssueInvoice(env: Env, st: StoreState, id: Id, amountCents: int, now: Time, invID: Id)
    : (StoreState, Result<Invoice, Error>)
  {
    if id !in st.mem.accounts then (st, Err(NotFound))
    else if st.mem.accounts[id].PlanID !in st.mem.plans then (st, Err(NotFound))
    else
      var plan := st.mem.plans[st.mem.accounts[id].PlanID];
      var amount := if amountCents <= 0 then plan.PriceCents else amountCents;
      if amount <= 0 then (st, Err(Invalid))
      else
        var inv := Invoice(invID, st.mem.accounts[id].ID, now, now, amount, plan.Currency, Open, now, None, "", "");
        (SaveInvoice(env, st, inv), if Saves(env, st) then Ok(inv) else Err(PersistFailed))
  }

  // ---- settlement --------------------------------------------------------------------------

  /** A settled account that is suspended becomes active; the save error is ignored. */
  ghost function Reactivate(env: Env, st: StoreState, account: Id): StoreState {
    if Outstanding(st.mem, account) == 0 && account in st.mem.accounts
       && st.mem.accounts[account].Status == Suspended
    then SaveAccount(env, st, st.mem.accounts[account].(Status := Active))
    else st
  }

  function SettlePayment(inv: Invoice, how: string, now: Time, payID: Id): Payment {
    Payment(payID, inv.AccountID, inv.ID, inv.AmountCents, how, now)
  }

  ghost function Settle(env: Env, st: StoreState, invoice: Id, how: string, now: Time, payID: Id)
    : (StoreState, Result<Payment, Error>)
  {
    if invoice !in st.mem.invoices then (st, Err(NotFound))
    else if st.mem.invoices[invoice].Status != Open then (st, Err(Invalid))
    else
      var inv := st.mem.invoices[invoice];
      var st1 := SaveInvoice(env, st, inv.(Status := Paid, PaidAt := Some(now)));
      if !Saves(env, st) then (st1, Err(PersistFailed))
      else
        var pay := SettlePayment(inv, how, now, payID);
        var st2 := SavePayment(env, st1, pay);
        if !Saves(env, st1) then (st2, Err(PersistFailed))
        else (Reactivate(env, st2, inv.AccountID), Ok(pay))
  }

  /** What a checkout carries from its first critical section to its second. */
  datatype Request = Request(InvoiceID: Id, AccountID: Id, AmountCents: Money, Currency: string, Provider: string)

  /** First critical section: the invoice must be open. */
  function StartCheckout(s: Snapshot, invoice: Id, provider: string): Result<Request, Error> {
    if invoice !in s.invoices then Err(NotFound)
    else if s.invoices[invoice].Status != Open then Err(Invalid)
    else
      var inv := s.invoices[invoice];
      Ok(Request(invoice, inv.AccountID, inv.AmountCents, inv.Currency, provider))
  }

  /** Second critical section: the session is recorded only if the invoice is still open. */
  function RecordCheckout(env: Env, st: StoreState, req: Request, reference: string): StoreState {
    if req.InvoiceID in st.mem.invoices && st.mem.invoices[req.InvoiceID].Status == Open then
      SaveInvoice(env, st, st.mem.invoices[req.InvoiceID].(CheckoutProvider := req.Provider, CheckoutRef := reference))
    else st
  }

  /** What the provider made of a callback: paid or not, and for which invoice. */
  datatype Callback = Callback(paid: bool, invoice: Id)

  ghost function Webhook(env: Env, st: StoreState, provider: string, verified: Result<Callback, Error>, now: Time,
                         payID: Id): (StoreState, Result<bool, Error>)
  {
    match verified
    case Err(e) => (st, Err(e))
    case Ok(c) =>
      if !c.paid || c.invoice == "" then (st, Ok(false))
      else
        var (st', r) := Settle(env, st, c.invoice, provider, now, payID);
        (st', if r.Ok? then Ok(true) else if r.error == Invalid then Ok(false) else Err(r.error))
  }

  // ---- delinquency -------------------------------------------------------------------------

  ghost predicate Delinquent(s: Snapshot, account: Id, cutoff: Time) {
    exists id :: id in s.invoices && OpenFor(s.invoices[id], account) && s.invoices[id].CreatedAt < cutoff
  }

  ghost function SuspendOne(env: Env, st: StoreState, id: Id, cutoff: Time): (StoreState, seq<Id>) {
    if id in st.mem.accounts && st.mem.accounts[id].Status == Active
       && Delinquent(st.mem, st.mem.accounts[id].ID, cutoff)
    then (SaveAccount(env, st, st.mem.accounts[id].(Status := Suspended)), [st.mem.accounts[id].ID])
    else (st, [])
  }

  ghost function SuspendAll(env: Env, st: StoreState, order: seq<Id>, cutoff: Time): (StoreState, seq<Id>)
    decreases |order|
  {
    if order == [] then (st, [])
    else
      var (st1, s1) := SuspendOne(env, st, order[0], cutoff);
      var (st2, s2) := SuspendAll(env, st1, order[1..], cutoff);
      (st2, s1 + s2)
  }
}
