/** Runs of the control server: every interleaving of its atomic sections. Each method is one
    event, except a checkout, whose two critical sections are separate events with anything in
    between. */
module ControlRuns {
  import opened Wrappers
  import opened ControlModel
  import opened ControlSpec

  /** The store and the checkouts that are between their two critical sections. */
  datatype Machine = Machine(st: StoreState, pending: map<nat, Request>)

  const INITIAL := Machine(StoreState(EMPTY, EMPTY, []), map[])

  datatype Event =
    | EvCreatePlan(name: string, quota: int, price: Money, currency: string, period: string, id: Id)
    | EvCreateAccount(name: string, email: string, planID: Id, now: Time, id: Id, tokenHash: string)
    | EvSetStatus(id: Id, status: AccountStatus)
    | EvReserve(id: Id, bytes: int, now: Time)
    | EvRelease(id: Id, bytes: int, now: Time)
    | EvRunBilling(now: Time, order: seq<Id>, invIDs: Id -> Id, payIDs: Id -> Id)
    | EvIssueInvoice(id: Id, amount: int, now: Time, invID: Id)
    | EvPay(invoice: Id, how: string, now: Time, payID: Id)
    | EvBeginCheckout(call: nat, invoice: Id, provider: string)
    | EvEndCheckout(call: nat, session: Option<string>)
    | EvWebhook(provider: string, verified: Result<Callback, Error>, now: Time, payID: Id)
    | EvEnforce(now: Time, grace: int, order: seq<Id>)

  ghost function StepStore(env: Env, m: Machine, ev: Event): StoreState {
    var st := m.st;
    match ev
    case EvCreatePlan(name, quota, price, currency, period, id) =>
      CreatePlan(env, st, name, quota, price, currency, period, id).0
    case EvCreateAccount(name, email, planID, now, id, tokenHash) =>
      CreateAccount(env, st, name, email, planID, now, id, tokenHash).0
    case EvSetStatus(id, status) => SetStatus(env, st, id, status).0
    case EvReserve(id, bytes, now) => Reserve(env, st, id, bytes, now).0
    case EvRelease(id, bytes, now) => Release(env, st, id, bytes, now).0
    case EvRunBilling(now, order, invIDs, payIDs) => BillAll(env, st, order, now, invIDs, payIDs).st
    case EvIssueInvoice(id, amount, now, invID) => IssueInvoice(env, st, id, amount, now, invID).0
    case EvPay(invoice, how, now, payID) => Settle(env, st, invoice, how, now, payID).0
    case EvBeginCheckout(call, invoice, provider) => st
    case EvEndCheckout(call, session) =>
      if call in m.pending && session.Some? then RecordCheckout(env, st, m.pending[call], session.value) else st
    case EvWebhook(provider, verified, now, payID) => Webhook(env, st, provider, verified, now, payID).0
    case EvEnforce(now, grace, order) => SuspendAll(env, st, order, now - grace).0
  }

  ghost function Step(env: Env, m: Machine, ev: Event): Machine {
    Machine(
      StepStore(env, m, ev),
      match ev
      case EvBeginCheckout(call, invoice, provider) =>
        var r := StartCheckout(m.st.mem, invoice, provider);
        if r.Ok? then m.pending[call := r.value] else m.pending
      case EvEndCheckout(call, session) => m.pending - {call}
      case _ => m.pending)
  }

  /** New ids for the billed accounts: unused and different from each other. */
  ghost predicate FreshFor(ids: Id -> Id, order: seq<Id>, used: set<Id>) {
    && (forall a :: a in order ==> ids(a) !in used)
    && (forall a, b :: a in order && b in order && ids(a) == ids(b) ==> a == b)
  }

  /** Once the first account has used its id, the other ids are still new. */
  lemma FreshLater(ids: Id -> Id, order: seq<Id>, used: set<Id>, used': set<Id>)
    requires order != [] && FreshFor(ids, order, used) && used' <= used + {ids(order[0])}
    requires forall i, j :: 0 <= i < j < |order| ==> order[i] != order[j]
    ensures FreshFor(ids, order[1..], used')
  {
    assert forall a :: a in order[1..] ==> a in order && a != order[0];
  }

  /** What the environment grants an event: generated ids are new, and ranging over the account
      map meets every account once. */
  ghost predicate Allowed(m: Machine, ev: Event) {
    var s := m.st.mem;
    match ev
    case EvCreatePlan(_, _, _, _, _, id) => id !in s.plans
    case EvCreateAccount(_, _, _, _, id, _) => id !in s.accounts && id != ""
    case EvRunBilling(_, order, invIDs, payIDs) =>
      Listing(order, s.accounts.Keys) && FreshFor(invIDs, order, s.invoices.Keys)
        && FreshFor(payIDs, order, s.payments.Keys)
    case EvIssueInvoice(_, _, _, invID) => invID !in s.invoices
    case EvPay(_, _, _, payID) => payID !in s.payments
    case EvBeginCheckout(call, _, _) => call !in m.pending
    case EvWebhook(_, _, _, payID) => payID !in s.payments
    case EvEnforce(_, _, order) => Listing(order, s.accounts.Keys)
    case _ => true
  }

  ghost function Run(env: Env, m: Machine, evs: seq<Event>): Machine
    decreases |evs|
  {
    if evs == [] then m else Run(env, Step(env, m, evs[0]), evs[1..])
  }

  ghost predicate IsRun(env: Env, m: Machine, evs: seq<Event>)
    decreases |evs|
  {
    evs == [] || (Allowed(m, evs[0]) && IsRun(env, Step(env, m, evs[0]), evs[1..]))
  }

  /** A successful charge returns the invoice amount. */
  ghost predicate Honest(env: Env) {
    forall a, inv :: env.charge(a, inv).Some? ==> env.charge(a, inv).value.amount == inv.AmountCents
  }
}
