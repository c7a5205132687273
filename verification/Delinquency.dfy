/** Suspension and reactivation over every run, with any failed saves. */
module Delinquency {
  import opened Wrappers
  import opened ControlModel
  import opened ControlSpec
  import opened ControlRuns
  import Ledger

  /** Accounts are stored under their ids, none of which is empty. */
  ghost predicate AccountsNamed(s: Snapshot) {
    AccountsKeyed(s) && "" !in s.accounts
  }

  ghost predicate HasOpen(s: Snapshot, account: Id) {
    exists id :: id in s.invoices && OpenFor(s.invoices[id], account)
  }

  /** Each suspended account still owes something. */
  ghost predicate SuspendedOwe(s: Snapshot) {
    forall id :: id in s.accounts && s.accounts[id].Status == Suspended ==> HasOpen(s, id)
  }

  ghost predicate Sound(s: Snapshot) {
    AccountsNamed(s) && InvoicesKeyed(s) && SuspendedOwe(s)
  }

  /** Open invoices only grow, and no account becomes suspended. */
  ghost predicate Eases(s: Snapshot, t: Snapshot) {
    && (forall id :: id in s.invoices && s.invoices[id].Status == Open ==>
          id in t.invoices && t.invoices[id].Status == Open && t.invoices[id].AccountID == s.invoices[id].AccountID)
    && (forall id :: id in t.accounts && t.accounts[id].Status == Suspended ==>
          id in s.accounts && s.accounts[id].Status == Suspended)
    && AccountsNamed(t) && InvoicesKeyed(t)
  }

  lemma EasesSound(s: Snapshot, t: Snapshot)
    requires Sound(s) && Eases(s, t)
    ensures Sound(t)
  {
    forall id | id in t.accounts && t.accounts[id].Status == Suspended ensures HasOpen(t, id) {
      assert HasOpen(s, id);
      var inv :| inv in s.invoices && OpenFor(s.invoices[inv], id);
      assert OpenFor(t.invoices[inv], id);
    }
  }

  lemma SavedInvoiceEases(s: Snapshot, inv: Invoice)
    requires AccountsNamed(s) && InvoicesKeyed(s)
    requires inv.ID in s.invoices ==> inv.Status == Open && inv.AccountID == s.invoices[inv.ID].AccountID
    ensures Eases(s, s.(invoices := s.invoices[inv.ID := inv]))
  {}

  lemma EasesTransitive(s: Snapshot, t: Snapshot, u: Snapshot)
    requires Eases(s, t) && Eases(t, u)
    ensures Eases(s, u)
  {}

  lemma SavedAccountEases(s: Snapshot, a: Account)
    requires AccountsNamed(s) && InvoicesKeyed(s) && a.ID != ""
    requires a.Status == Suspended ==> a.ID in s.accounts && s.accounts[a.ID].Status == Suspended
    ensures Eases(s, s.(accounts := s.accounts[a.ID := a]))
  {}

  lemma OtherMapsEase(s: Snapshot, t: Snapshot)
    requires AccountsNamed(s) && InvoicesKeyed(s) && s.accounts == t.accounts && s.invoices == t.invoices
    ensures Eases(s, t)
  {}

  lemma BillOneEases(env: Env, st: StoreState, id: Id, now: Time, invID: Id, payID: Id)
    requires AccountsNamed(st.mem) && InvoicesKeyed(st.mem) && invID !in st.mem.invoices
    ensures var t := BillOne(env, st, id, now, invID, payID).st.mem;
            Eases(st.mem, t) && t.invoices.Keys <= st.mem.invoices.Keys + {invID}
  {
    hide Eases, Advance;
    var b := BillOne(env, st, id, now, invID, payID);
    if !Due(st.mem, id, now) {
      OtherMapsEase(st.mem, st.mem);
    } else {
      var a := st.mem.accounts[id];
      var plan := st.mem.plans[a.PlanID];
      var next := NextPeriod(a, plan);
      if plan.PriceCents <= 0 {
        SavedAccountEases(st.mem, next);
      } else {
        var st1 := ChargedStore(env, st, a, plan, now, invID, payID);
        var inv := ChargedInvoice(env, a, plan, now, invID);
        OtherMapsEase(st.mem, st1.mem);
        SavedInvoiceEases(st1.mem, inv);
        var st2 := SaveInvoice(env, st1, inv);
        EasesTransitive(st.mem, st1.mem, st2.mem);
        SavedAccountEases(st2.mem, next);
        EasesTransitive(st.mem, st2.mem, SaveAccount(env, st2, next).mem);
      }
    }
  }

  lemma {:induction false} BillAllEases(env: Env, st: StoreState, order: seq<Id>, now: Time, invIDs: Id -> Id,
                                        payIDs: Id -> Id)
    requires AccountsNamed(st.mem) && InvoicesKeyed(st.mem) && FreshFor(invIDs, order, st.mem.invoices.Keys)
    requires forall i, j :: 0 <= i < j < |order| ==> order[i] != order[j]
    ensures Eases(st.mem, BillAll(env, st, order, now, invIDs, payIDs).st.mem)
    decreases |order|
  {
    if order == [] {
      OtherMapsEase(st.mem, st.mem);
    } else {
      var id := order[0];
      BillOneEases(env, st, id, now, invIDs(id), payIDs(id));
      var one := BillOne(env, st, id, now, invIDs(id), payIDs(id));
      if !one.failed {
        FreshLater(invIDs, order, st.mem.invoices.Keys, one.st.mem.invoices.Keys);
        hide BillOne, FreshFor;
        BillAllEases(env, one.st, order[1..], now, invIDs, payIDs);
        EasesTransitive(st.mem, one.st.mem, BillAll(env, one.st, order[1..], now, invIDs, payIDs).st.mem);
      }
    }
  }

  // ---- settlement --------------------------------------------------------------------------

  lemma NothingOpenSumsToZero(s: Snapshot, account: Id)
    requires !HasOpen(s, account)
    ensures Outstanding(s, account) == 0
  {
    SumOutside(s.invoices.Keys, {}, OpenAmount(s.invoices, account));
  }

  /** The account of the invoice is suspended and owes nothing else. */
  ghost predicate LastDebt(s: Snapshot, invoice: Id)
    requires invoice in s.invoices
  {
    var account := s.invoices[invoice].AccountID;
    && account in s.accounts && s.accounts[account].Status == Suspended
    && forall id :: id in s.invoices && OpenFor(s.invoices[id], account) ==> id == invoice
  }

  /** A settlement of an open invoice that fails one of its first two saves. */
  predicate SettleFails(env: Env, st: StoreState, invoice: Id) {
    && invoice in st.mem.invoices && st.mem.invoices[invoice].Status == Open
    && (!env.saved(|st.log|) || !env.saved(|st.log| + 1))
  }

  lemma SettleEffect(env: Env, st: StoreState, invoice: Id, how: string, now: Time, payID: Id)
    requires AccountsNamed(st.mem) && InvoicesKeyed(st.mem)
    requires invoice in st.mem.invoices && st.mem.invoices[invoice].Status == Open
    ensures var t := Settle(env, st, invoice, how, now, payID).0.mem;
            var account := st.mem.invoices[invoice].AccountID;
            && AccountsNamed(t) && InvoicesKeyed(t) && t.accounts.Keys == st.mem.accounts.Keys
            && t.invoices == st.mem.invoices[invoice := st.mem.invoices[invoice].(Status := Paid, PaidAt := Some(now))]
            && (forall id :: id in t.accounts && id != account ==> t.accounts[id] == st.mem.accounts[id])
            && (account in t.accounts && t.accounts[account].Status == Suspended ==>
                st.mem.accounts[account].Status == Suspended)
            && (SettleFails(env, st, invoice) ==> t.accounts == st.mem.accounts)
            && (!SettleFails(env, st, invoice) && !HasOpen(t, account) && account in t.accounts ==>
                  t.accounts[account].Status != Suspended)
  {
    var inv := st.mem.invoices[invoice];
    var st1 := SaveInvoice(env, st, inv.(Status := Paid, PaidAt := Some(now)));
    var st2 := SavePayment(env, st1, SettlePayment(inv, how, now, payID));
    hide Outstanding, HasOpen;
    if !SettleFails(env, st, invoice) && !HasOpen(st2.mem, inv.AccountID) {
      NothingOpenSumsToZero(st2.mem, inv.AccountID);
    }
    var t := Settle(env, st, invoice, how, now, payID).0.mem;
    assert t.invoices == st2.mem.invoices;
    SameOpen(st2.mem, t, inv.AccountID);
  }

  lemma SameOpen(s: Snapshot, t: Snapshot, account: Id)
    requires s.invoices == t.invoices
    ensures HasOpen(s, account) <==> HasOpen(t, account)
  {}

  /** A settlement keeps "suspended accounts owe something" exactly unless one of its saves fails
      while it settles the last debt of a suspended account: the error return skips reactivation. */
  lemma SettleKeepsOweIff(env: Env, st: StoreState, invoice: Id, how: string, now: Time, payID: Id)
    requires Sound(st.mem)
    ensures Sound(Settle(env, st, invoice, how, now, payID).0.mem) <==>
            !(SettleFails(env, st, invoice) && LastDebt(st.mem, invoice))
  {
    var s, t := st.mem, Settle(env, st, invoice, how, now, payID).0.mem;
    if invoice in s.invoices && s.invoices[invoice].Status == Open {
      SettleEffect(env, st, invoice, how, now, payID);
      var account := s.invoices[invoice].AccountID;
      hide Settle;
      forall id | id in t.accounts && id != account && t.accounts[id].Status == Suspended ensures HasOpen(t, id) {
        assert HasOpen(s, id);
        var i :| i in s.invoices && OpenFor(s.invoices[i], id);
        assert i in t.invoices && OpenFor(t.invoices[i], id);
      }
      if account in s.accounts && SettleFails(env, st, invoice) && s.accounts[account].Status == Suspended {
        if LastDebt(s, invoice) {
          assert !HasOpen(t, account);
        } else {
          var i :| i in s.invoices && OpenFor(s.invoices[i], account) && i != invoice;
          assert i in t.invoices && OpenFor(t.invoices[i], account);
        }
      }
    }
  }

  /** After a settlement whose saves succeed a suspended account is active exactly when the int64 sum
      of its open invoices is zero. That is exactly when nothing of it is open, if and only if the
      exact sum is not a positive multiple of 2^64. */
  lemma ReactivatesExactly(env: Env, st: StoreState, invoice: Id, how: string, now: Time, payID: Id)
    requires Ledger.InvoicesSound(st.mem) && AccountsKeyed(st.mem)
    requires invoice in st.mem.invoices && st.mem.invoices[invoice].Status == Open && !SettleFails(env, st, invoice)
    requires var account := st.mem.invoices[invoice].AccountID;
             account in st.mem.accounts && st.mem.accounts[account].Status == Suspended
    ensures var t, account := Settle(env, st, invoice, how, now, payID).0.mem, st.mem.invoices[invoice].AccountID;
            var status := if Outstanding(t, account) == 0 then Active else Suspended;
            && t.accounts == st.mem.accounts[account := st.mem.accounts[account].(Status := status)]
            && ((t.accounts[account].Status == Active <==> !HasOpen(t, account)) <==> Ledger.ZeroIsTold(t, account))
  {
    var inv := st.mem.invoices[invoice];
    var paid := inv.(Status := Paid, PaidAt := Some(now));
    var st2 := SavePayment(env, SaveInvoice(env, st, paid), SettlePayment(inv, how, now, payID));
    var t := Settle(env, st, invoice, how, now, payID).0.mem;
    assert Ledger.SoundInvoice(invoice, inv) && t == Reactivate(env, st2, inv.AccountID).mem;
    assert t.invoices == st2.mem.invoices == st.mem.invoices[invoice := paid];
    assert Ledger.InvoicesSound(t);
    hide Settle, HasOpen, Outstanding, OpenTotal, Ledger.InvoicesSound, Ledger.ZeroIsTold;
    SameOpenTotal(st2.mem, t, inv.AccountID);
    Ledger.OutstandingZero(t, inv.AccountID);
    OpenOrNothing(t, inv.AccountID);
  }

  function AnInvoice(id: Id, amount: Money): Invoice {
    Invoice(id, "acct", 0, 0, amount, "EUR", Open, 0, None, "", "")
  }

  /** A suspended account with four open invoices, of which three add up to 2^64 cents. */
  function DeepDebt(): Snapshot {
    EMPTY.(plans := map["plan" := Plan("plan", "any", 1, 1, "EUR", "monthly")],
           accounts := map["acct" := Account("acct", "any", "", "plan", Suspended, "", 0, 0, Advance("monthly", 0))],
           invoices := map["i" := AnInvoice("i", MAX_INT64), "j" := AnInvoice("j", MAX_INT64), "k" := AnInvoice("k", 2),
                           "l" := AnInvoice("l", 1)])
  }

  /** An input for which the code is wrong: paying the fourth invoice reactivates the account, which
      still owes the other three. */
  lemma WrappedDebtReactivates(env: Env, now: Time, payID: Id)
    requires env.saved(0) && env.saved(1)
    ensures Ledger.InvoicesSound(DeepDebt()) && AccountsNamed(DeepDebt())
    ensures var t := Settle(env, StoreState(DeepDebt(), EMPTY, []), "l", "manual", now, payID).0.mem;
            && t.accounts["acct"].Status == Active && HasOpen(t, "acct")
            && OpenTotal(t, "acct") == TWO_64
  {
    hide Advance;
    var st := StoreState(DeepDebt(), EMPTY, []);
    var t := Settle(env, st, "l", "manual", now, payID).0.mem;
    var paid := st.mem.invoices["l"].(Status := Paid, PaidAt := Some(now));
    assert t.invoices == st.mem.invoices["l" := paid];
    ReactivatesExactly(env, st, "l", "manual", now, payID);
    hide Settle, Outstanding;
    DeepDebtTotal(t, now);
    assert OpenFor(t.invoices["k"], "acct");
  }

  lemma DeepDebtTotal(t: Snapshot, now: Time)
    requires t.invoices == DeepDebt().invoices["l" := AnInvoice("l", 1).(Status := Paid, PaidAt := Some(now))]
    ensures OpenTotal(t, "acct") == TWO_64
  {
    hide Advance;
    var f := OpenAmount(t.invoices, "acct");
    assert t.invoices.Keys == {"i", "j", "k", "l"};
    assert f("i") == MAX_INT64 && f("j") == MAX_INT64 && f("k") == 2 && f("l") == 0;
    hide DeepDebt, AnInvoice, OpenAmount;
    FourTerms(f, "i", "j", "k", "l");
  }

  lemma FourTerms<K(!new)>(f: K -> int, a: K, b: K, c: K, d: K)
    requires a != b && a != c && a != d && b != c && b != d && c != d
    ensures SumOver({a, b, c, d}, f) == f(a) + f(b) + f(c) + f(d)
  {
    SumAdd({}, f, d);
    SumAdd({d}, f, c);
    SumAdd({c, d}, f, b);
    SumAdd({b, c, d}, f, a);
    assert {} + {d} == {d} && {d} + {c} == {c, d} && {c, d} + {b} == {b, c, d} && {b, c, d} + {a} == {a, b, c, d};
  }

  lemma SameOpenTotal(s: Snapshot, t: Snapshot, account: Id)
    requires s.invoices == t.invoices
    ensures Outstanding(s, account) == Outstanding(t, account)
  {}

  lemma OpenOrNothing(s: Snapshot, account: Id)
    ensures HasOpen(s, account) <==> !Ledger.NothingOpen(s, account)
  {}

  // ---- delinquency -------------------------------------------------------------------------

  lemma {:induction false} SuspendAllEffect(env: Env, st: StoreState, order: seq<Id>, cutoff: Time)
    requires AccountsNamed(st.mem)
    ensures var t := SuspendAll(env, st, order, cutoff).0.mem;
            && t.invoices == st.mem.invoices && t.accounts.Keys == st.mem.accounts.Keys && AccountsNamed(t)
            && forall id :: id in t.accounts ==>
                 t.accounts[id] == if id in order && st.mem.accounts[id].Status == Active
                   && Delinquent(st.mem, id, cutoff)
                                   then st.mem.accounts[id].(Status := Suspended) else st.mem.accounts[id]
    decreases |order|
  {
    hide Delinquent;
    if order != [] {
      var st1 := SuspendOne(env, st, order[0], cutoff).0;
      SuspendOneEffect(env, st, order[0], cutoff);
      hide SuspendOne;
      SuspendAllEffect(env, st1, order[1..], cutoff);
      assert forall id :: id in order <==> id == order[0] || id in order[1..];
      forall id ensures Delinquent(st1.mem, id, cutoff) <==> Delinquent(st.mem, id, cutoff) {
        SameDelinquent(st.mem, st1.mem, id, cutoff);
      }
    }
  }

  lemma SuspendOneEffect(env: Env, st: StoreState, x: Id, cutoff: Time)
    requires AccountsNamed(st.mem)
    ensures var t := SuspendOne(env, st, x, cutoff).0.mem;
            && t.invoices == st.mem.invoices && t.accounts.Keys == st.mem.accounts.Keys && AccountsNamed(t)
            && forall id :: id in t.accounts ==>
                 t.accounts[id] == if id == x && st.mem.accounts[id].Status == Active && Delinquent(st.mem, id, cutoff)
                                   then st.mem.accounts[id].(Status := Suspended) else st.mem.accounts[id]
  {
    hide Delinquent;
  }

  lemma SameDelinquent(s: Snapshot, t: Snapshot, id: Id, cutoff: Time)
    requires s.invoices == t.invoices
    ensures Delinquent(s, id, cutoff) <==> Delinquent(t, id, cutoff)
  {}

  /** After EnforceDelinquency no active account has an open invoice created before the cutoff, and
      only such accounts were suspended. */
  lemma EnforceIsExact(env: Env, st: StoreState, order: seq<Id>, cutoff: Time)
    requires AccountsNamed(st.mem) && Listing(order, st.mem.accounts.Keys)
    ensures var t := SuspendAll(env, st, order, cutoff).0.mem;
            && t.accounts.Keys == st.mem.accounts.Keys
            && (forall id :: id in t.accounts && t.accounts[id].Status == Active ==> !Delinquent(t, id, cutoff))
            && forall id :: id in t.accounts && t.accounts[id] != st.mem.accounts[id] ==>
                 st.mem.accounts[id].Status == Active && t.accounts[id] == st.mem.accounts[id].(Status := Suspended)
                 && Delinquent(st.mem, id, cutoff)
  {
    SuspendAllEffect(env, st, order, cutoff);
    var t := SuspendAll(env, st, order, cutoff).0.mem;
    hide Delinquent, SuspendAll;
    forall id | id in t.accounts && t.accounts[id].Status == Active ensures !Delinquent(t, id, cutoff) {
      SameDelinquent(st.mem, t, id, cutoff);
    }
  }

  lemma EnforceSound(env: Env, st: StoreState, order: seq<Id>, cutoff: Time)
    requires Sound(st.mem)
    ensures Sound(SuspendAll(env, st, order, cutoff).0.mem)
  {
    SuspendAllEffect(env, st, order, cutoff);
    var s, t := st.mem, SuspendAll(env, st, order, cutoff).0.mem;
    hide SuspendAll;
    forall id | id in t.accounts && t.accounts[id].Status == Suspended ensures HasOpen(t, id) {
      if s.accounts[id].Status == Suspended {
        assert HasOpen(s, id);
      } else {
        assert Delinquent(s, id, cutoff);
      }
      var i :| i in s.invoices && OpenFor(s.invoices[i], id);
      assert i in t.invoices;
    }
  }

  // ---- runs --------------------------------------------------------------------------------

  lemma IssueEases(env: Env, st: StoreState, id: Id, amount: int, now: Time, invID: Id)
    requires AccountsNamed(st.mem) && InvoicesKeyed(st.mem) && invID !in st.mem.invoices
    ensures Eases(st.mem, IssueInvoice(env, st, id, amount, now, invID).0.mem)
  {
    hide Eases;
    var t := IssueInvoice(env, st, id, amount, now, invID).0.mem;
    if t.invoices != st.mem.invoices {
      SavedInvoiceEases(st.mem, t.invoices[invID]);
    } else {
      OtherMapsEase(st.mem, t);
    }
  }

  lemma RecordEases(env: Env, st: StoreState, req: Request, reference: string)
    requires AccountsNamed(st.mem) && InvoicesKeyed(st.mem)
    ensures Eases(st.mem, RecordCheckout(env, st, req, reference).mem)
  {
    hide Eases;
    var t := RecordCheckout(env, st, req, reference).mem;
    if t.invoices != st.mem.invoices {
      SavedInvoiceEases(st.mem, t.invoices[req.InvoiceID]);
    } else {
      OtherMapsEase(st.mem, t);
    }
  }

  /** An operator's status change keeps the invariant unless it suspends an account that owes
      nothing. */
  lemma SetStatusSoundIff(env: Env, st: StoreState, id: Id, status: AccountStatus)
    requires Sound(st.mem)
    ensures Sound(SetStatus(env, st, id, status).0.mem) <==>
            !(id in st.mem.accounts && status == Suspended && !HasOpen(st.mem, id))
  {
    hide HasOpen;
    var s, t := st.mem, SetStatus(env, st, id, status).0.mem;
    if id in s.accounts {
      forall x ensures HasOpen(t, x) <==> HasOpen(s, x) {
        SameOpen(s, t, x);
      }
      assert t.accounts == s.accounts[id := s.accounts[id].(Status := status)];
    }
  }

  ghost predicate SettlementStrands(env: Env, m: Machine, invoice: Id) {
    SettleFails(env, m.st, invoice) && LastDebt(m.st.mem, invoice)
  }

  /** The events that leave an account suspended without a debt: a settlement of its last debt that
      fails one of its two saves, or an operator who suspends an account that owes nothing. */
  ghost predicate Strands(env: Env, m: Machine, ev: Event) {
    match ev
    case EvPay(invoice, _, _, _) => SettlementStrands(env, m, invoice)
    case EvWebhook(_, verified, _, _) =>
      && verified.Ok? && verified.value.paid && verified.value.invoice != ""
      && SettlementStrands(env, m, verified.value.invoice)
    case EvSetStatus(id, status) => id in m.st.mem.accounts && status == Suspended && !HasOpen(m.st.mem, id)
    case _ => false
  }

  /** Every event, whatever saves fail, keeps "suspended accounts owe something" unless, and only
      unless, it is one of those. */
  lemma StepSoundIff(env: Env, m: Machine, ev: Event)
    requires Allowed(m, ev) && Sound(m.st.mem)
    ensures Sound(StepStore(env, m, ev).mem) <==> !Strands(env, m, ev)
  {
    hide HasOpen, Advance, Wrap64, BillAll, Settle, SuspendAll, FreshFor, Eases, SuspendedOwe, Delinquent, IssueInvoice,
         RecordCheckout, LastDebt, SettleFails, SetStatus;
    var s, t := m.st.mem, StepStore(env, m, ev).mem;
    match ev
    case EvRunBilling(now, order, invIDs, payIDs) =>
      BillAllEases(env, m.st, order, now, invIDs, payIDs);
      EasesSound(s, t);
    case EvCreateAccount(name, email, planID, now, id, tokenHash) =>
      if t.accounts != s.accounts {
        SavedAccountEases(s, t.accounts[id]);
      } else {
        OtherMapsEase(s, t);
      }
      EasesSound(s, t);
    case EvIssueInvoice(id, amount, now, invID) =>
      IssueEases(env, m.st, id, amount, now, invID);
      EasesSound(s, t);
    case EvEndCheckout(call, session) =>
      if call in m.pending && session.Some? {
        RecordEases(env, m.st, m.pending[call], session.value);
      } else {
        OtherMapsEase(s, t);
      }
      EasesSound(s, t);
    case EvPay(invoice, how, now, payID) =>
      SettleKeepsOweIff(env, m.st, invoice, how, now, payID);
    case EvWebhook(provider, verified, now, payID) =>
      if verified.Ok? && verified.value.paid && verified.value.invoice != "" {
        SettleKeepsOweIff(env, m.st, verified.value.invoice, provider, now, payID);
      }
    case EvEnforce(now, grace, order) =>
      EnforceSound(env, m.st, order, now - grace);
    case EvSetStatus(id, status) =>
      SetStatusSoundIff(env, m.st, id, status);
    case _ =>
      OtherMapsEase(s, t);
      EasesSound(s, t);
  }

  ghost predicate NoSetStatus(evs: seq<Event>) {
    forall i :: 0 <= i < |evs| ==> !evs[i].EvSetStatus?
  }

  ghost predicate StrandsNobody(env: Env, m: Machine, evs: seq<Event>)
    decreases |evs|
  {
    evs == [] || (!Strands(env, m, evs[0]) && StrandsNobody(env, Step(env, m, evs[0]), evs[1..]))
  }

  /** In every run without such an event, each suspended account has an open invoice. */
  lemma {:induction false} SuspendedAlwaysOwe(env: Env, m: Machine, evs: seq<Event>)
    requires IsRun(env, m, evs) && StrandsNobody(env, m, evs) && Sound(m.st.mem)
    ensures Sound(Run(env, m, evs).st.mem)
    decreases |evs|
  {
    if evs != [] {
      hide Sound, Allowed, StepStore, Strands;
      StepSoundIff(env, m, evs[0]);
      SuspendedAlwaysOwe(env, Step(env, m, evs[0]), evs[1..]);
    }
  }

  /** Without SetStatus and without failed saves there is none. */
  lemma {:induction false} SavesStrandNobody(env: Env, m: Machine, evs: seq<Event>)
    requires (forall n :: env.saved(n)) && NoSetStatus(evs)
    ensures StrandsNobody(env, m, evs)
    decreases |evs|
  {
    if evs != [] {
      hide StepStore, LastDebt;
      SavesStrandNobody(env, Step(env, m, evs[0]), evs[1..]);
    }
  }

  // ---- closed accounts ---------------------------------------------------------------------

  /** No record of a closed account is touched. */
  ghost predicate ClosedKept(s: Snapshot, t: Snapshot) {
    && AccountsNamed(t)
    && forall id :: id in s.accounts && s.accounts[id].Status == Closed ==>
         id in t.accounts && t.accounts[id] == s.accounts[id]
  }

  lemma ClosedTransitive(s: Snapshot, t: Snapshot, u: Snapshot)
    requires ClosedKept(s, t) && ClosedKept(t, u)
    ensures ClosedKept(s, u)
  {}

  lemma SavedAccountKeepsClosed(s: Snapshot, t: Snapshot, a: Account)
    requires AccountsNamed(s) && a.ID != "" && (a.ID in s.accounts ==> s.accounts[a.ID].Status != Closed)
    requires t.accounts == s.accounts || t.accounts == s.accounts[a.ID := a]
    ensures ClosedKept(s, t)
  {}

  lemma SameAccountsKeepClosed(s: Snapshot, t: Snapshot)
    requires AccountsNamed(s) && t.accounts == s.accounts
    ensures ClosedKept(s, t)
  {}

  lemma BillOneKeepsClosed(env: Env, st: StoreState, id: Id, now: Time, invID: Id, payID: Id)
    requires AccountsNamed(st.mem)
    ensures ClosedKept(st.mem, BillOne(env, st, id, now, invID, payID).st.mem)
  {
    hide Advance, ClosedKept, PeriodInvoice, ChargedInvoice;
    if Due(st.mem, id, now) {
      var a := st.mem.accounts[id];
      SavedAccountKeepsClosed(st.mem, BillOne(env, st, id, now, invID, payID).st.mem,
                              NextPeriod(a, st.mem.plans[a.PlanID]));
    } else {
      SameAccountsKeepClosed(st.mem, st.mem);
    }
  }

  lemma {:induction false} BillAllKeepsClosed(env: Env, st: StoreState, order: seq<Id>, now: Time, invIDs: Id -> Id,
                                              payIDs: Id -> Id)
    requires AccountsNamed(st.mem)
    ensures ClosedKept(st.mem, BillAll(env, st, order, now, invIDs, payIDs).st.mem)
    decreases |order|
  {
    hide BillOne;
    if order != [] {
      var one := BillOne(env, st, order[0], now, invIDs(order[0]), payIDs(order[0]));
      BillOneKeepsClosed(env, st, order[0], now, invIDs(order[0]), payIDs(order[0]));
      if !one.failed {
        BillAllKeepsClosed(env, one.st, order[1..], now, invIDs, payIDs);
        ClosedTransitive(st.mem, one.st.mem, BillAll(env, one.st, order[1..], now, invIDs, payIDs).st.mem);
      }
    }
  }

  lemma SettleKeepsClosed(env: Env, st: StoreState, invoice: Id, how: string, now: Time, payID: Id)
    requires AccountsNamed(st.mem)
    ensures ClosedKept(st.mem, Settle(env, st, invoice, how, now, payID).0.mem)
  {
    hide Outstanding;
    var s, t := st.mem, Settle(env, st, invoice, how, now, payID).0.mem;
    if t.accounts == s.accounts {
      SameAccountsKeepClosed(s, t);
    } else {
      SavedAccountKeepsClosed(s, t, s.accounts[s.invoices[invoice].AccountID].(Status := Active));
    }
  }

  lemma EnforceKeepsClosed(env: Env, st: StoreState, order: seq<Id>, cutoff: Time)
    requires AccountsNamed(st.mem)
    ensures ClosedKept(st.mem, SuspendAll(env, st, order, cutoff).0.mem)
  {
    SuspendAllEffect(env, st, order, cutoff);
    hide SuspendAll, Delinquent;
  }

  lemma StepKeepsClosed(env: Env, m: Machine, ev: Event)
    requires Allowed(m, ev) && !ev.EvSetStatus? && AccountsNamed(m.st.mem)
    ensures ClosedKept(m.st.mem, StepStore(env, m, ev).mem)
  {
    hide Advance, Wrap64, BillAll, Settle, SuspendAll, FreshFor, ClosedKept;
    var s, t := m.st.mem, StepStore(env, m, ev).mem;
    match ev
    case EvRunBilling(now, order, invIDs, payIDs) =>
      BillAllKeepsClosed(env, m.st, order, now, invIDs, payIDs);
    case EvCreateAccount(name, email, planID, now, id, tokenHash) =>
      SavedAccountKeepsClosed(s, t, Account(id, name, email, planID, Active, tokenHash, now, now,
                                            if planID in s.plans then Advance(s.plans[planID].Period, now) else now));
    case EvPay(invoice, how, now, payID) =>
      SettleKeepsClosed(env, m.st, invoice, how, now, payID);
    case EvWebhook(provider, verified, now, payID) =>
      if verified.Ok? && verified.value.paid && verified.value.invoice != "" {
        SettleKeepsClosed(env, m.st, verified.value.invoice, provider, now, payID);
      } else {
        SameAccountsKeepClosed(s, t);
      }
    case EvEnforce(now, grace, order) =>
      EnforceKeepsClosed(env, m.st, order, now - grace);
    case _ =>
      SameAccountsKeepClosed(s, t);
  }

  /** In every run without SetStatus, whatever saves fail, a closed account stays closed: it is
      never billed, suspended or reactivated. */
  lemma {:induction false} ClosedStaysClosed(env: Env, m: Machine, evs: seq<Event>)
    requires IsRun(env, m, evs) && NoSetStatus(evs) && AccountsNamed(m.st.mem)
    ensures ClosedKept(m.st.mem, Run(env, m, evs).st.mem)
    decreases |evs|
  {
    if evs == [] {
      SameAccountsKeepClosed(m.st.mem, m.st.mem);
    } else {
      StepKeepsClosed(env, m, evs[0]);
      var m' := Step(env, m, evs[0]);
      hide StepStore, Allowed;
      ClosedStaysClosed(env, m', evs[1..]);
      ClosedTransitive(m.st.mem, m'.st.mem, Run(env, m', evs[1..]).st.mem);
    }
  }
}
