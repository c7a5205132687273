/** The store and the service as objects that update their maps in place, each method tied to the
    function of ControlSpec that specifies it. */
module ControlService {
  import opened Wrappers
  import opened ControlModel
  import Spec = ControlSpec

  class Store {
    var plans: map<Id, Plan>
    var accounts: map<Id, Account>
    var usage: map<Id, Usage>
    var invoices: map<Id, Invoice>
    var payments: map<Id, Payment>
    var disk: Snapshot
    var writes: nat
    const saved: nat -> bool
    ghost var log: seq<Snapshot>

    ghost predicate Valid()
      reads this
    {
      writes == |log|
    }

    function Mem(): Snapshot
      reads this
    {
      Snapshot(plans, accounts, usage, invoices, payments)
    }

    ghost function View(): StoreState
      reads this
    {
      StoreState(Mem(), disk, log)
    }

    /** Opens the store on what the file holds. */
    constructor (saved: nat -> bool, file: Snapshot)
      ensures Valid() && View() == StoreState(file, file, []) && this.saved == saved
    {
      this.saved := saved;
      plans, accounts, usage, invoices, payments :=
        file.plans, file.accounts, file.usage, file.invoices, file.payments;
      disk, writes, log := file, 0, [];
    }

    /** Replaces the file by the state in memory, or fails and leaves it alone. */
    method Persist() returns (ok: bool)
      requires Valid()
      modifies this`disk, this`writes, this`log
      ensures Valid() && ok == saved(old(writes))
      ensures disk == if ok then Mem() else old(disk)
      ensures log == old(log) + [Mem()]
    {
      ok := saved(writes);
      if ok {
        disk := Snapshot(plans, accounts, usage, invoices, payments);
      }
      log := log + [Mem()];
      writes := writes + 1;
    }

    method SavePlan(ghost env: Env, p: Plan) returns (ok: bool)
      requires Valid() && env.saved == saved
      modifies this
      ensures Valid() && View() == ControlModel.SavePlan(env, old(View()), p)
      ensures ok == Saves(env, old(View()))
    {
      plans := plans[p.ID := p];
      ok := Persist();
    }

    method SaveAccount(ghost env: Env, a: Account) returns (ok: bool)
      requires Valid() && env.saved == saved
      modifies this
      ensures Valid() && View() == ControlModel.SaveAccount(env, old(View()), a)
      ensures ok == Saves(env, old(View()))
    {
      accounts := accounts[a.ID := a];
      ok := Persist();
    }

    method SaveUsage(ghost env: Env, u: Usage) returns (ok: bool)
      requires Valid() && env.saved == saved
      modifies this
      ensures Valid() && View() == ControlModel.SaveUsage(env, old(View()), u)
      ensures ok == Saves(env, old(View()))
    {
      usage := usage[u.AccountID := u];
      ok := Persist();
    }

    method SaveInvoice(ghost env: Env, inv: Invoice) returns (ok: bool)
      requires Valid() && env.saved == saved
      modifies this
      ensures Valid() && View() == ControlModel.SaveInvoice(env, old(View()), inv)
      ensures ok == Saves(env, old(View()))
    {
      invoices := invoices[inv.ID := inv];
      ok := Persist();
    }

    method SavePayment(ghost env: Env, p: Payment) returns (ok: bool)
      requires Valid() && env.saved == saved
      modifies this
      ensures Valid() && View() == ControlModel.SavePayment(env, old(View()), p)
      ensures ok == Saves(env, old(View()))
    {
      payments := payments[p.ID := p];
      ok := Persist();
    }

    /** Copies of the accounts, in the unspecified order in which ranging over the map meets them. */
    method ListAccounts() returns (out: seq<Account>, ghost order: seq<Id>)
      ensures Spec.Listing(order, accounts.Keys) && |out| == |order|
      ensures forall i :: 0 <= i < |out| ==> order[i] in accounts
      ensures forall i :: 0 <= i < |out| ==> out[i] == accounts[order[i]]
    {
      order := [];
      out := [];
      var rest := accounts.Keys;
      while rest != {}
        invariant rest <= accounts.Keys && |out| == |order|
        invariant Spec.Listing(order, accounts.Keys - rest)
        invariant forall i :: 0 <= i < |out| ==> order[i] in accounts
        invariant forall i :: 0 <= i < |out| ==> out[i] == accounts[order[i]]
        decreases rest
      {
        var id :| id in rest;
        order := order + [id];
        out := out + [accounts[id]];
        rest := rest - {id};
      }
      assert accounts.Keys - {} == accounts.Keys;
    }

    /** The invoices of an account, or of all accounts for the empty id. */
    method ListInvoices(account: Id) returns (ids: set<Id>)
      ensures ids == set id | id in invoices && (account == "" || invoices[id].AccountID == account)
    {
      ids := {};
      var rest := invoices.Keys;
      while rest != {}
        invariant rest <= invoices.Keys
        invariant ids == set id | id in invoices.Keys - rest && Spec.Owned(invoices[id].AccountID, account)
        decreases rest
      {
        var id :| id in rest;
        if account == "" || invoices[id].AccountID == account {
          ids := ids + {id};
        }
        rest := rest - {id};
      }
    }
  }

  lemma WrapSum(a: int, b: int)
    ensures Wrap64(Wrap64(a) + b) == Wrap64(a + b)
  {
    var k := (a + MAX_INT64 + 1) / TWO_64;
    assert Wrap64(a) == a - k * TWO_64;
    assert Wrap64(a) + b + MAX_INT64 + 1 == (a + b + MAX_INT64 + 1) - k * TWO_64;
    ShiftMod(a + b + MAX_INT64 + 1, k);
  }

  lemma ShiftMod(n: int, k: int)
    ensures (n - k * TWO_64) % TWO_64 == n % TWO_64
  {
    var q := n / TWO_64;
    assert n == q * TWO_64 + n % TWO_64;
    assert n - k * TWO_64 == (q - k) * TWO_64 + n % TWO_64;
  }

  class Service {
    const store: Store
    const charge: (Account, Invoice) -> Option<Charge>

    constructor (store: Store, charge: (Account, Invoice) -> Option<Charge>)
      ensures this.store == store && this.charge == charge
    {
      this.store := store;
      this.charge := charge;
    }

    ghost function TheEnv(): Env { Env(store.saved, charge) }

    method CreatePlan(name: string, quota: int, price: Money, currency: string, period: string, id: Id)
      returns (r: Result<Plan, Error>)
      requires store.Valid()
      modifies store
      ensures store.Valid()
      ensures (store.View(), r) == Spec.CreatePlan(TheEnv(), old(store.View()), name, quota, price, currency, period,
                                                   id)
    {
      if name == "" || quota <= 0 {
        return Err(Invalid);
      }
      var cur, per := currency, period;
      if cur == "" {
        cur := "EUR";
      }
      if per == "" {
        per := "monthly";
      }
      var p := Plan(id, name, quota, price, cur, per);
      var ok := store.SavePlan(TheEnv(), p);
      if !ok {
        return Err(PersistFailed);
      }
      return Ok(p);
    }

    method CreateAccount(name: string, email: string, planID: Id, now: Time, id: Id, tokenHash: string)
      returns (r: Result<Account, Error>)
      requires store.Valid()
      modifies store
      ensures store.Valid()
      ensures (store.View(), r) == Spec.CreateAccount(TheEnv(), old(store.View()), name, email, planID, now, id,
                                                      tokenHash)
    {
      hide Advance;
      if name == "" {
        return Err(Invalid);
      }
      if planID !in store.plans {
        return Err(NotFound);
      }
      var plan := store.plans[planID];
      var a := Account(id, name, email, planID, Active, tokenHash, now, now, Advance(plan.Period, now));
      var ok := store.SaveAccount(TheEnv(), a);
      if !ok {
        return Err(PersistFailed);
      }
      return Ok(a);
    }

    method SetStatus(id: Id, status: AccountStatus) returns (r: Result<(), Error>)
      requires store.Valid()
      modifies store
      ensures store.Valid()
      ensures (store.View(), r) == Spec.SetStatus(TheEnv(), old(store.View()), id, status)
    {
      if id !in store.accounts {
        return Err(NotFound);
      }
      var a := store.accounts[id].(Status := status);
      var ok := store.SaveAccount(TheEnv(), a);
      return if ok then Ok(()) else Err(PersistFailed);
    }

    method Reserve(id: Id, bytes: int, now: Time) returns (r: Result<(), Error>)
      requires store.Valid()
      modifies store
      ensures store.Valid()
      ensures (store.View(), r) == Spec.Reserve(TheEnv(), old(store.View()), id, bytes, now)
    {
      if bytes < 0 {
        return Err(Invalid);
      }
      if id !in store.accounts {
        return Err(NotFound);
      }
      var a := store.accounts[id];
      if a.Status != Active {
        return Err(NotActive);
      }
      if a.PlanID !in store.plans {
        return Err(NotFound);
      }
      var plan := store.plans[a.PlanID];
      var u := GetUsage(store.Mem(), id);
      if Wrap64(u.BytesUsed + bytes) > plan.QuotaBytes {
        return Err(QuotaExceeded);
      }
      u := u.(AccountID := id);
      u := u.(BytesUsed := Wrap64(u.BytesUsed + bytes));
      if bytes > 0 {
        u := u.(ObjectCount := u.ObjectCount + 1);
      }
      u := u.(UpdatedAt := now);
      var ok := store.SaveUsage(TheEnv(), u);
      return if ok then Ok(()) else Err(PersistFailed);
    }

    method Release(id: Id, bytes: int, now: Time) returns (r: Result<(), Error>)
      requires store.Valid()
      modifies store
      ensures store.Valid()
      ensures (store.View(), r) == Spec.Release(TheEnv(), old(store.View()), id, bytes, now)
    {
      if bytes < 0 {
        return Err(Invalid);
      }
      var u := GetUsage(store.Mem(), id);
      u := u.(AccountID := id);
      u := u.(BytesUsed := Wrap64(u.BytesUsed - bytes));
      if u.BytesUsed < 0 {
        u := u.(BytesUsed := 0);
      }
      if bytes > 0 && u.ObjectCount > 0 {
        u := u.(ObjectCount := u.ObjectCount - 1);
      }
      u := u.(UpdatedAt := now);
      var ok := store.SaveUsage(TheEnv(), u);
      return if ok then Ok(()) else Err(PersistFailed);
    }

    /** Adds up the open invoices one by one, in int64 and in any order. */
    method Outstanding(account: Id) returns (total: Money)
      ensures total == Spec.Outstanding(store.Mem(), account)
    {
      var listed := store.ListInvoices(account);
      ghost var invoices := store.invoices;
      ghost var f := Spec.OpenAmount(invoices, account);
      total := 0;
      ghost var done: set<Id> := {};
      var rest := listed;
      while rest != {}
        invariant rest <= listed && done == listed - rest
        invariant total == Wrap64(SumOver(done, f))
        decreases rest
      {
        var id :| id in rest;
        SumAdd(done, f, id);
        WrapSum(SumOver(done, f), f(id));
        if store.invoices[id].Status == Open {
          total := Wrap64(total + store.invoices[id].AmountCents);
        }
        done := done + {id};
        rest := rest - {id};
      }
      assert done == listed;
      SumOutside(invoices.Keys, listed, f);
    }

    method Status(id: Id) returns (r: Result<Spec.StatusView, Error>)
      ensures r == Spec.Status(store.Mem(), id)
    {
      if id !in store.accounts {
        return Err(NotFound);
      }
      var a := store.accounts[id];
      if a.PlanID !in store.plans {
        return Err(NotFound);
      }
      var plan := store.plans[a.PlanID];
      var u := GetUsage(store.Mem(), id);
      var remaining := Wrap64(plan.QuotaBytes - u.BytesUsed);
      if remaining < 0 {
        remaining := 0;
      }
      var due := Outstanding(id);
      return Ok(Spec.StatusView(a.ID, a.Name, a.Status, plan.ID, plan.Name, plan.QuotaBytes, u.BytesUsed, remaining,
                                u.ObjectCount, plan.Currency, due, a.PeriodEnd));
    }

    /** The body of the billing loop for one listed account. */
    method BillAccount(a: Account, now: Time, invID: Id, payID: Id) returns (issued: seq<Invoice>, failed: bool)
      requires store.Valid()
      requires a.ID in store.accounts && store.accounts[a.ID] == a
      modifies store
      ensures store.Valid()
      ensures Spec.BillOne(TheEnv(), old(store.View()), a.ID, now, invID, payID)
              == Spec.Billed(store.View(), issued, failed)
    {
      hide Advance;
      issued := [];
      if a.Status == Closed {
        return issued, false;
      }
      if now < a.PeriodEnd {
        return issued, false;
      }
      if a.PlanID !in store.plans {
        return issued, false;
      }
      var plan := store.plans[a.PlanID];
      if plan.PriceCents > 0 {
        var inv := Invoice(invID, a.ID, a.PeriodStart, a.PeriodEnd, plan.PriceCents, plan.Currency, Open, now, None,
                           "", "");
        match charge(a, inv) {
          case None =>
          case Some(c) =>
            var pay := Payment(payID, a.ID, inv.ID, c.amount, c.how, now);
            inv := inv.(Status := Paid, PaidAt := Some(now));
            var _ := store.SavePayment(TheEnv(), pay);
        }
        var saved := store.SaveInvoice(TheEnv(), inv);
        if !saved {
          return issued, true;
        }
        issued := issued + [inv];
      }
      var ok := store.SaveAccount(TheEnv(), a.(PeriodStart := a.PeriodEnd,
                                               PeriodEnd := Advance(plan.Period, a.PeriodEnd)));
      return issued, !ok;
    }

    method RunBilling(now: Time, invID: Id -> Id, payID: Id -> Id)
      returns (issued: seq<Invoice>, failed: bool, ghost order: seq<Id>)
      requires store.Valid() && AccountsKeyed(store.Mem())
      modifies store
      ensures store.Valid() && AccountsKeyed(store.Mem())
      ensures Spec.Listing(order, old(store.accounts.Keys))
      ensures Spec.BillAll(TheEnv(), old(store.View()), order, now, invID, payID)
              == Spec.Billed(store.View(), issued, failed)
    {
      var list;
      list, order := store.ListAccounts();
      ghost var env, st0 := TheEnv(), store.View();
      issued := [];
      PrependTwice([], [], Spec.BillAll(env, st0, order, now, invID, payID));
      assert order[0..] == order;
      for k := 0 to |list|
        invariant store.Valid() && AccountsKeyed(store.Mem()) && store.accounts.Keys == old(store.accounts.Keys)
        invariant forall j :: k <= j < |list| ==> list[j] == store.accounts[order[j]]
        invariant Spec.BillAll(env, st0, order, now, invID, payID)
                  == Prepend(issued, Spec.BillAll(env, store.View(), order[k..], now, invID, payID))
      {
        hide Spec.BillOne;
        var a := list[k];
        ghost var st := store.View();
        ghost var before := issued;
        BillAllStep(env, st, order[k..], now, invID, payID);
        BillOneKeys(env, st, a.ID, now, invID(a.ID), payID(a.ID));
        var inv, stop := BillAccount(a, now, invID(a.ID), payID(a.ID));
        assert order[k..][1..] == order[k + 1..];
        issued := issued + inv;
        PrependTwice(before, inv, Spec.BillAll(env, store.View(), order[k + 1..], now, invID, payID));
        if stop {
          return issued, true, order;
        }
      }
      assert order[|list|..] == [];
      return issued, false, order;
    }

    method IssueInvoice(id: Id, amountCents: int, now: Time, invID: Id) returns (r: Result<Invoice, Error>)
      requires store.Valid()
      modifies store
      ensures store.Valid()
      ensures (store.View(), r) == Spec.IssueInvoice(TheEnv(), old(store.View()), id, amountCents, now, invID)
    {
      if id !in store.accounts {
        return Err(NotFound);
      }
      var a := store.accounts[id];
      if a.PlanID !in store.plans {
        return Err(NotFound);
      }
      var plan := store.plans[a.PlanID];
      var amt := amountCents;
      if amt <= 0 {
        amt := plan.PriceCents;
      }
      if amt <= 0 {
        return Err(Invalid);
      }
      var inv := Invoice(invID, a.ID, now, now, amt, plan.Currency, Open, now, None, "", "");
      var ok := store.SaveInvoice(TheEnv(), inv);
      if !ok {
        return Err(PersistFailed);
      }
      return Ok(inv);
    }

    /** Marks an open invoice paid, records the payment, reactivates a settled account. */
    method SettleLocked(invoiceID: Id, how: string, now: Time, payID: Id) returns (r: Result<Payment, Error>)
      requires store.Valid()
      modifies store
      ensures store.Valid()
      ensures (store.View(), r) == Spec.Settle(TheEnv(), old(store.View()), invoiceID, how, now, payID)
    {
      if invoiceID !in store.invoices {
        return Err(NotFound);
      }
      var inv := store.invoices[invoiceID];
      if inv.Status != Open {
        return Err(Invalid);
      }
      inv := inv.(Status := Paid);
      inv := inv.(PaidAt := Some(now));
      var ok := store.SaveInvoice(TheEnv(), inv);
      if !ok {
        return Err(PersistFailed);
      }
      var pay := Payment(payID, inv.AccountID, inv.ID, inv.AmountCents, how, now);
      ok := store.SavePayment(TheEnv(), pay);
      if !ok {
        return Err(PersistFailed);
      }
      var due := Outstanding(inv.AccountID);
      if due == 0 {
        if inv.AccountID in store.accounts && store.accounts[inv.AccountID].Status == Suspended {
          var _ := store.SaveAccount(TheEnv(), store.accounts[inv.AccountID].(Status := Active));
        }
      }
      return Ok(pay);
    }

    method PayInvoice(invoiceID: Id, how: string, now: Time, payID: Id) returns (r: Result<Payment, Error>)
      requires store.Valid()
      modifies store
      ensures store.Valid()
      ensures (store.View(), r) == Spec.Settle(TheEnv(), old(store.View()), invoiceID, how, now, payID)
    {
      r := SettleLocked(invoiceID, how, now, payID);
    }

    /** First critical section of CreateCheckout. */
    method BeginCheckout(invoiceID: Id, provider: string) returns (r: Result<Spec.Request, Error>)
      ensures r == Spec.StartCheckout(store.Mem(), invoiceID, provider)
    {
      if invoiceID !in store.invoices {
        return Err(NotFound);
      }
      var inv := store.invoices[invoiceID];
      if inv.Status != Open {
        return Err(Invalid);
      }
      return Ok(Spec.Request(invoiceID, inv.AccountID, inv.AmountCents, inv.Currency, provider));
    }

    /** Second critical section of CreateCheckout. */
    method EndCheckout(req: Spec.Request, reference: string)
      requires store.Valid()
      modifies store
      ensures store.Valid()
      ensures store.View() == Spec.RecordCheckout(TheEnv(), old(store.View()), req, reference)
    {
      if req.InvoiceID in store.invoices {
        var cur := store.invoices[req.InvoiceID];
        if cur.Status == Open {
          var _ := store.SaveInvoice(TheEnv(), cur.(CheckoutProvider := req.Provider, CheckoutRef := reference));
        }
      }
    }

    method HandleWebhook(provider: string, verified: Result<Spec.Callback, Error>, now: Time, payID: Id)
      returns (r: Result<bool, Error>)
      requires store.Valid()
      modifies store
      ensures store.Valid()
      ensures (store.View(), r) == Spec.Webhook(TheEnv(), old(store.View()), provider, verified, now, payID)
    {
      match verified {
        case Err(e) => return Err(e);
        case Ok(c) =>
          if !c.paid || c.invoice == "" {
            return Ok(false);
          }
          var s := SettleLocked(c.invoice, provider, now, payID);
          match s {
            case Ok(_) => return Ok(true);
            case Err(e) =>
              if e == Invalid {
                return Ok(false);
              }
              return Err(e);
          }
      }
    }

    /** The inner loop of EnforceDelinquency: looks for one old open invoice. */
    method HasOldInvoice(account: Id, cutoff: Time) returns (found: bool)
      ensures found == Spec.Delinquent(store.Mem(), account, cutoff)
    {
      var listed := store.ListInvoices(account);
      var rest := listed;
      while rest != {}
        invariant rest <= listed
        invariant forall id :: id in listed - rest ==>
          !(store.invoices[id].Status == Open && store.invoices[id].CreatedAt < cutoff)
        decreases rest
      {
        var id :| id in rest;
        if store.invoices[id].Status == Open && store.invoices[id].CreatedAt < cutoff {
          return true;
        }
        rest := rest - {id};
      }
      return false;
    }

    method EnforceDelinquency(now: Time, grace: int) returns (suspended: seq<Id>, ghost order: seq<Id>)
      requires store.Valid() && AccountsKeyed(store.Mem())
      modifies store
      ensures store.Valid() && AccountsKeyed(store.Mem())
      ensures Spec.Listing(order, old(store.accounts.Keys))
      ensures (store.View(), suspended) == Spec.SuspendAll(TheEnv(), old(store.View()), order, now - grace)
    {
      var cutoff := now - grace;
      var list;
      list, order := store.ListAccounts();
      ghost var env, st0 := TheEnv(), store.View();
      suspended := [];
      AppendTwice([], [], Spec.SuspendAll(env, st0, order, cutoff));
      assert order[0..] == order;
      for k := 0 to |list|
        invariant store.Valid() && AccountsKeyed(store.Mem()) && store.accounts.Keys == old(store.accounts.Keys)
        invariant forall j :: k <= j < |list| ==> list[j] == store.accounts[order[j]]
        invariant Spec.SuspendAll(env, st0, order, cutoff)
                  == After(suspended, Spec.SuspendAll(env, store.View(), order[k..], cutoff))
      {
        hide Spec.SuspendOne;
        ghost var st, before := store.View(), suspended;
        assert order[k..][1..] == order[k + 1..];
        SuspendAllStep(env, st, order[k..], cutoff);
        var a := list[k];
        var now_ := SuspendAccount(a, cutoff);
        suspended := suspended + now_;
        AppendTwice(before, now_, Spec.SuspendAll(env, store.View(), order[k + 1..], cutoff));
      }
      assert order[|list|..] == [];
      AppendTwice(suspended, [], (store.View(), []));
    }

    /** The body of the delinquency loop for one listed account. */
    method SuspendAccount(a: Account, cutoff: Time) returns (suspended: seq<Id>)
      requires store.Valid() && AccountsKeyed(store.Mem())
      requires a.ID in store.accounts && store.accounts[a.ID] == a
      modifies store
      ensures store.Valid() && AccountsKeyed(store.Mem())
      ensures store.accounts.Keys == old(store.accounts.Keys)
      ensures forall id :: id in store.accounts && id != a.ID ==> store.accounts[id] == old(store.accounts[id])
      ensures (store.View(), suspended) == Spec.SuspendOne(TheEnv(), old(store.View()), a.ID, cutoff)
    {
      hide Spec.Delinquent;
      if a.Status != Active {
        return [];
      }
      var found := HasOldInvoice(a.ID, cutoff);
      if !found {
        return [];
      }
      var _ := store.SaveAccount(TheEnv(), a.(Status := Suspended));
      return [a.ID];
    }
  }

  function After(ids: seq<Id>, r: (StoreState, seq<Id>)): (StoreState, seq<Id>) {
    (r.0, ids + r.1)
  }

  lemma AppendTwice(a: seq<Id>, b: seq<Id>, r: (StoreState, seq<Id>))
    ensures After(a, After(b, r)) == After(a + b, r)
    ensures After([], r) == r && a + [] == a
  {
    assert a + (b + r.1) == (a + b) + r.1;
    assert [] + r.1 == r.1;
  }

  lemma SuspendAllStep(env: Env, st: StoreState, order: seq<Id>, cutoff: Time)
    requires order != []
    ensures var one := Spec.SuspendOne(env, st, order[0], cutoff);
            Spec.SuspendAll(env, st, order, cutoff) == After(one.1, Spec.SuspendAll(env, one.0, order[1..], cutoff))
  {}

  function Prepend(issued: seq<Invoice>, b: Spec.Billed): Spec.Billed {
    b.(issued := issued + b.issued)
  }

  lemma PrependTwice(a: seq<Invoice>, b: seq<Invoice>, r: Spec.Billed)
    ensures Prepend(a, Prepend(b, r)) == Prepend(a + b, r)
    ensures Prepend([], r) == r
  {
    assert a + (b + r.issued) == (a + b) + r.issued;
  }

  lemma BillAllStep(env: Env, st: StoreState, order: seq<Id>, now: Time, invID: Id -> Id, payID: Id -> Id)
    requires order != []
    ensures var one := Spec.BillOne(env, st, order[0], now, invID(order[0]), payID(order[0]));
            Spec.BillAll(env, st, order, now, invID, payID)
            == if one.failed then one else Prepend(one.issued, Spec.BillAll(env, one.st, order[1..], now, invID, payID))
  {}

  /** Billing an account touches no other account. */
  lemma BillOneAccounts(env: Env, st: StoreState, id: Id, now: Time, invID: Id, payID: Id)
    ensures var st' := Spec.BillOne(env, st, id, now, invID, payID).st;
            || st'.mem.accounts == st.mem.accounts
            || (&& Spec.Due(st.mem, id, now)
                && st'.mem.accounts == st.mem.accounts[st.mem.accounts[id].ID :=
                  Spec.NextPeriod(st.mem.accounts[id], st.mem.plans[st.mem.accounts[id].PlanID])])
  {
    hide Advance;
  }

  lemma BillOneKeys(env: Env, st: StoreState, id: Id, now: Time, invID: Id, payID: Id)
    requires forall k :: k in st.mem.accounts ==> st.mem.accounts[k].ID == k
    ensures var st' := Spec.BillOne(env, st, id, now, invID, payID).st;
            && st'.mem.accounts.Keys == st.mem.accounts.Keys
            && (forall k :: k in st.mem.accounts && k != id ==> st'.mem.accounts[k] == st.mem.accounts[k])
            && forall k :: k in st'.mem.accounts ==> st'.mem.accounts[k].ID == k
  {
    BillOneAccounts(env, st, id, now, invID, payID);
    hide Spec.BillOne, Advance;
  }
}
