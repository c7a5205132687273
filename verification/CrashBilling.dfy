/** What a crash or a failed write inside RunBilling leaves of one account's period. Its Save calls
    are the payment, if the provider collected, then the invoice, then the account; the one state
    between the first two of them is followed to the reloaded store. */
module CrashBilling {
  import opened Wrappers
  import opened ControlModel
  import opened ControlSpec
  import opened ControlRuns
  import opened Billing
  import opened SaveLog
  import opened Crash

  // ---- the other accounts ------------------------------------------------------------------

  /** An account under billing, with the ids its invoice and payment get. */
  datatype Turn = Turn(account: Id, invoice: Id, payment: Id)

  /** Nothing that concerns the turn changes. */
  ghost predicate Untouched(s: Snapshot, u: Snapshot, turn: Turn) {
    && AccountsKeyed(u) && u.plans == s.plans
    && (turn.account in u.accounts <==> turn.account in s.accounts)
    && (turn.account in s.accounts ==> u.accounts[turn.account] == s.accounts[turn.account])
    && (turn.invoice in u.invoices <==> turn.invoice in s.invoices)
    && (turn.invoice in s.invoices ==> u.invoices[turn.invoice] == s.invoices[turn.invoice])
    && (turn.payment in u.payments <==> turn.payment in s.payments)
  }

  /** From st to t only Save calls happened, none of which concerns the turn. */
  ghost predicate Passed(st: StoreState, t: StoreState, turn: Turn) {
    && |st.log| <= |t.log| && t.log[..|st.log|] == st.log
    && Untouched(st.mem, t.mem, turn)
    && forall i :: |st.log| <= i < |t.log| ==> Untouched(st.mem, t.log[i], turn)
  }

  lemma PassedTransitive(st: StoreState, t: StoreState, u: StoreState, turn: Turn)
    requires Passed(st, t, turn) && Passed(t, u, turn)
    ensures Passed(st, u, turn)
  {
    assert u.log[..|st.log|] == u.log[..|t.log|][..|st.log|];
    forall i | |st.log| <= i < |u.log| ensures Untouched(st.mem, u.log[i], turn) {
      if i < |t.log| {
        assert u.log[i] == u.log[..|t.log|][i];
      }
    }
  }

  lemma CommitPassed(env: Env, st: StoreState, mem: Snapshot, turn: Turn)
    requires Untouched(st.mem, mem, turn)
    ensures Passed(st, Commit(env, st, mem), turn)
  {
    hide Untouched;
    assert Commit(env, st, mem).log[..|st.log|] == st.log;
  }

  lemma OtherPassed(env: Env, st: StoreState, id: Id, now: Time, invID: Id, payID: Id, turn: Turn)
    requires AccountsKeyed(st.mem) && id != turn.account && invID != turn.invoice && payID != turn.payment
    ensures Passed(st, BillOne(env, st, id, now, invID, payID).st, turn)
  {
    hide Advance, Passed;
    if Due(st.mem, id, now) {
      var a, plan := st.mem.accounts[id], st.mem.plans[st.mem.accounts[id].PlanID];
      var next, inv := NextPeriod(a, plan), ChargedInvoice(env, a, plan, now, invID);
      var st1 := if plan.PriceCents <= 0 then st else ChargedStore(env, st, a, plan, now, invID, payID);
      NothingPassed(st, turn);
      if st1 != st {
        CommitPassed(env, st, st1.mem, turn);
      }
      var st2 := if plan.PriceCents <= 0 then st1 else SaveInvoice(env, st1, inv);
      if st2 != st1 {
        CommitPassed(env, st1, st2.mem, turn);
        PassedTransitive(st, st1, st2, turn);
      }
      CommitPassed(env, st2, SaveAccount(env, st2, next).mem, turn);
      PassedTransitive(st, st2, SaveAccount(env, st2, next), turn);
    } else {
      NothingPassed(st, turn);
    }
  }

  lemma NothingPassed(st: StoreState, turn: Turn)
    requires AccountsKeyed(st.mem)
    ensures Passed(st, st, turn)
  {}

  lemma {:induction false} OthersPassed(env: Env, st: StoreState, order: seq<Id>, now: Time, invIDs: Id -> Id,
                                        payIDs: Id -> Id, turn: Turn)
    requires AccountsKeyed(st.mem) && turn.account !in order
    requires forall a :: a in order ==> invIDs(a) != turn.invoice && payIDs(a) != turn.payment
    ensures Passed(st, BillAll(env, st, order, now, invIDs, payIDs).st, turn)
    decreases |order|
  {
    hide BillOne;
    if order == [] {
      NothingPassed(st, turn);
    } else {
      var id := order[0];
      var one := BillOne(env, st, id, now, invIDs(id), payIDs(id));
      OtherPassed(env, st, id, now, invIDs(id), payIDs(id), turn);
      assert AccountsKeyed(one.st.mem);
      hide Passed, AccountsKeyed;
      if !one.failed {
        OthersPassed(env, one.st, order[1..], now, invIDs, payIDs, turn);
        PassedTransitive(st, one.st, BillAll(env, one.st, order[1..], now, invIDs, payIDs).st, turn);
      }
    }
  }

  // ---- one account's turn ------------------------------------------------------------------

  /** Billing in two parts. */
  lemma {:induction false} BillAllSplit(env: Env, st: StoreState, a: seq<Id>, b: seq<Id>, now: Time, invIDs: Id -> Id,
                                        payIDs: Id -> Id)
    ensures var first := BillAll(env, st, a, now, invIDs, payIDs);
            BillAll(env, st, a + b, now, invIDs, payIDs).st ==
            if first.failed then first.st else BillAll(env, first.st, b, now, invIDs, payIDs).st
    decreases |a|
  {
    hide BillOne;
    if a == [] {
      assert a + b == b;
    } else {
      assert (a + b)[1..] == a[1..] + b;
      var one := BillOne(env, st, a[0], now, invIDs(a[0]), payIDs(a[0]));
      BillAllSplit(env, one.st, a[1..], b, now, invIDs, payIDs);
    }
  }

  /** The account of the turn is billed for a priced period that has ended. */
  ghost predicate Billable(s: Snapshot, turn: Turn, now: Time) {
    && Due(s, turn.account, now) && ThePlan(s, turn.account).PriceCents > 0
    && turn.invoice !in s.invoices && turn.payment !in s.payments
  }

  /** The provider collects the period. */
  ghost predicate Collected(env: Env, s: Snapshot, turn: Turn, now: Time) {
    && Due(s, turn.account, now)
    && var a := s.accounts[turn.account];
       env.charge(a, PeriodInvoice(a, ThePlan(s, turn.account), now, turn.invoice)).Some?
  }

  /** The payment is there, and its invoice is not. */
  predicate Orphaned(s: Snapshot, turn: Turn) {
    turn.payment in s.payments && s.payments[turn.payment].InvoiceID == turn.invoice && turn.invoice !in s.invoices
  }

  /** The invoice of a period is there while the account is still due for the same period: the next
      RunBilling bills it again. */
  predicate BilledAgain(s: Snapshot, turn: Turn, now: Time) {
    && turn.invoice in s.invoices && Due(s, turn.account, now)
    && s.accounts[turn.account].ID == turn.account && ThePlan(s, turn.account).PriceCents > 0
    && SamePeriod(s.invoices[turn.invoice], s.accounts[turn.account])
  }

  /** The invoice is for the account's current period. */
  predicate SamePeriod(inv: Invoice, a: Account) {
    inv.AccountID == a.ID && inv.PeriodStart == a.PeriodStart && inv.PeriodEnd == a.PeriodEnd
  }

  /** Two invoices for one period of one account. */
  predicate BilledTwice(s: Snapshot, i: Id, j: Id) {
    && i != j && i in s.invoices && j in s.invoices
    && s.invoices[i].AccountID == s.invoices[j].AccountID
    && s.invoices[i].PeriodStart == s.invoices[j].PeriodStart && s.invoices[i].PeriodEnd == s.invoices[j].PeriodEnd
  }

  /** Billing the account once more, then or later, leaves two invoices for the period. */
  lemma NextPassBillsTwice(env: Env, st: StoreState, turn: Turn, now: Time, later: Time, invID: Id, payID: Id)
    requires BilledAgain(st.mem, turn, now) && now <= later && invID !in st.mem.invoices
    ensures BilledTwice(BillOne(env, st, turn.account, later, invID, payID).st.mem, turn.invoice, invID)
  {
    hide Advance;
  }

  datatype Trace = Orphan | Again

  predicate Shows(s: Snapshot, turn: Turn, now: Time, trace: Trace) {
    match trace
    case Orphan => Orphaned(s, turn)
    case Again => BilledAgain(s, turn, now)
  }

  /** The number of the Save call that leaves the trace, when the turn's first one is number q: the
      payment's for an orphan, the invoice's for a period that is billed again. */
  function Leaving(q: nat, collected: bool, trace: Trace): nat {
    if trace.Again? && collected then q + 1 else q
  }

  /** An orphan needs a collected payment. */
  predicate CanLeave(collected: bool, trace: Trace) {
    trace.Again? || collected
  }

  /** The states after the payment, the invoice and the account of the turn. */
  ghost function ChargedState(env: Env, st: StoreState, turn: Turn, now: Time): StoreState
    requires Due(st.mem, turn.account, now)
  {
    ChargedStore(env, st, st.mem.accounts[turn.account], ThePlan(st.mem, turn.account), now, turn.invoice, turn.payment)
  }

  ghost function InvoicedState(env: Env, st: StoreState, turn: Turn, now: Time): StoreState
    requires Due(st.mem, turn.account, now)
  {
    SaveInvoice(env, ChargedState(env, st, turn, now),
                ChargedInvoice(env, st.mem.accounts[turn.account], ThePlan(st.mem, turn.account), now, turn.invoice))
  }

  ghost function AdvancedState(env: Env, st: StoreState, turn: Turn, now: Time): StoreState
    requires Due(st.mem, turn.account, now)
  {
    SaveAccount(env, InvoicedState(env, st, turn, now),
                NextPeriod(st.mem.accounts[turn.account], ThePlan(st.mem, turn.account)))
  }

  lemma TurnStates(env: Env, st: StoreState, turn: Turn, now: Time)
    requires PeriodsSound(st.mem) && Billable(st.mem, turn, now)
    ensures Due(st.mem, turn.account, now)
    ensures var st1, st2 := ChargedState(env, st, turn, now), InvoicedState(env, st, turn, now);
            var st3 := AdvancedState(env, st, turn, now);
            && (if Collected(env, st.mem, turn, now)
                then st1.log == st.log + [st1.mem] && Orphaned(st1.mem, turn) else st1 == st)
            && st2.log == st1.log + [st2.mem] && st3.log == st2.log + [st3.mem]
            && !BilledAgain(st1.mem, turn, now) && BilledAgain(st2.mem, turn, now) && !Orphaned(st2.mem, turn)
            && !BilledAgain(st3.mem, turn, now) && !Orphaned(st3.mem, turn) && turn.invoice in st3.mem.invoices
            && AccountsKeyed(st2.mem) && AccountsKeyed(st3.mem)
  {
    AdvanceMovesOn(ThePlan(st.mem, turn.account).Period, st.mem.accounts[turn.account].PeriodStart);
    hide Advance;
  }

  lemma TurnResult(env: Env, st: StoreState, turn: Turn, now: Time)
    requires Billable(st.mem, turn, now)
    ensures var b := BillOne(env, st, turn.account, now, turn.invoice, turn.payment);
            var st1, st2 := ChargedState(env, st, turn, now), InvoicedState(env, st, turn, now);
            && b.st == (if Saves(env, st1) then AdvancedState(env, st, turn, now) else st2)
            && (b.failed <==> !(Saves(env, st1) && Saves(env, st2)))
  {
    hide Advance, ChargedStore, ChargedInvoice;
  }

  /** The one state of the turn that shows a trace. */
  lemma OwnTurn(env: Env, st: StoreState, turn: Turn, now: Time, trace: Trace)
    requires PeriodsSound(st.mem) && Billable(st.mem, turn, now)
    ensures var b := BillOne(env, st, turn.account, now, turn.invoice, turn.payment);
            var q, c := |st.log|, Collected(env, st.mem, turn, now);
            var p := Leaving(q, c, trace);
            && q <= p < |b.st.log| && b.st.log[..q] == st.log && AccountsKeyed(b.st.mem)
            && (CanLeave(c, trace) && env.saved(p) && !env.saved(p + 1) ==> b.failed && |b.st.log| <= p + 2)
            && (forall i :: q <= i < |b.st.log| ==>
                (Shows(b.st.log[i], turn, now, trace) <==> CanLeave(c, trace) && i == p))
            && (!b.failed ==> turn.invoice in b.st.mem.invoices && !Shows(b.st.mem, turn, now, trace))
  {
    hide *;
    TurnStates(env, st, turn, now);
    TurnResult(env, st, turn, now);
    TurnLog(env, st, ChargedState(env, st, turn, now), InvoicedState(env, st, turn, now),
            AdvancedState(env, st, turn, now), BillOne(env, st, turn.account, now, turn.invoice, turn.payment),
            Collected(env, st.mem, turn, now), turn, now, trace);
  }

  lemma TurnLog(env: Env, st: StoreState, st1: StoreState, st2: StoreState, st3: StoreState, b: Billed, c: bool,
                turn: Turn, now: Time, trace: Trace)
    requires if c then st1.log == st.log + [st1.mem] && Orphaned(st1.mem, turn) else st1 == st
    requires st2.log == st1.log + [st2.mem] && st3.log == st2.log + [st3.mem]
    requires !BilledAgain(st1.mem, turn, now) && BilledAgain(st2.mem, turn, now) && !Orphaned(st2.mem, turn)
    requires !BilledAgain(st3.mem, turn, now) && !Orphaned(st3.mem, turn) && turn.invoice in st3.mem.invoices
    requires b.st == if Saves(env, st1) then st3 else st2
    requires b.failed <==> !(Saves(env, st1) && Saves(env, st2))
    ensures var q := |st.log|;
            var p := Leaving(q, c, trace);
            && q <= p < |b.st.log| && b.st.log[..q] == st.log
            && (CanLeave(c, trace) && env.saved(p) && !env.saved(p + 1) ==> b.failed && |b.st.log| <= p + 2)
            && (forall i :: q <= i < |b.st.log| ==>
                  (Shows(b.st.log[i], turn, now, trace) <==> CanLeave(c, trace) && i == p))
            && (!b.failed ==> turn.invoice in b.st.mem.invoices && !Shows(b.st.mem, turn, now, trace))
  {
    hide Orphaned, BilledAgain;
  }

  // ---- the whole pass ----------------------------------------------------------------------

  lemma HiddenBefore(s: Snapshot, u: Snapshot, turn: Turn, now: Time, trace: Trace)
    requires Untouched(s, u, turn) && turn.invoice !in s.invoices && turn.payment !in s.payments
    ensures !Shows(u, turn, now, trace)
  {}

  lemma HiddenAfter(s: Snapshot, u: Snapshot, turn: Turn, now: Time, trace: Trace)
    requires Untouched(s, u, turn) && turn.invoice in s.invoices && !Shows(s, turn, now, trace)
    ensures !Shows(u, turn, now, trace)
  {}

  lemma TurnComes(env: Env, s: Snapshot, u: Snapshot, turn: Turn, now: Time)
    requires Untouched(s, u, turn) && Billable(s, turn, now)
    ensures Billable(u, turn, now) && (Collected(env, u, turn, now) <==> Collected(env, s, turn, now))
  {}

  function TurnAt(order: seq<Id>, invIDs: Id -> Id, payIDs: Id -> Id, j: nat): Turn
    requires j < |order|
  {
    Turn(order[j], invIDs(order[j]), payIDs(order[j]))
  }

  /** The states of the pass, numbered from n: the j-th account's turn starts with number q. */
  ghost predicate PassTraced(env: Env, st: StoreState, t: StoreState, turn: Turn, now: Time, trace: Trace, c: bool,
                             q: nat)
  {
    var n, p := |st.log|, Leaving(q, c, trace);
    && n <= q <= p < |t.log|
    && (forall i :: n <= i < |t.log| ==> (Shows(t.log[i], turn, now, trace) <==> CanLeave(c, trace) && i == p))
    && (CanLeave(c, trace) && env.saved(p) && !env.saved(p + 1) ==> |t.log| <= p + 2)
  }

  /** The accounts before the turn, the turn and the accounts after it put together. */
  lemma Assemble(env: Env, st: StoreState, first: StoreState, one: Billed, t: StoreState, turn: Turn, now: Time,
                 trace: Trace)
    requires Billable(st.mem, turn, now) && Passed(st, first, turn)
    requires var q, c := |first.log|, Collected(env, st.mem, turn, now);
             var p := Leaving(q, c, trace);
             && q <= p < |one.st.log| && one.st.log[..q] == first.log
             && (CanLeave(c, trace) && env.saved(p) && !env.saved(p + 1) ==> one.failed && |one.st.log| <= p + 2)
             && (forall i :: q <= i < |one.st.log| ==>
                 (Shows(one.st.log[i], turn, now, trace) <==> CanLeave(c, trace) && i == p))
             && (!one.failed ==> turn.invoice in one.st.mem.invoices && !Shows(one.st.mem, turn, now, trace))
    requires if one.failed then t == one.st else Passed(one.st, t, turn)
    ensures PassTraced(env, st, t, turn, now, trace, Collected(env, st.mem, turn, now), |first.log|)
  {
    hide Untouched, Shows, Due;
    var n, q, c := |st.log|, |first.log|, Collected(env, st.mem, turn, now);
    forall i | n <= i < |t.log|
      ensures Shows(t.log[i], turn, now, trace) <==> CanLeave(c, trace) && i == Leaving(q, c, trace)
    {
      if i < |one.st.log| {
        assert t.log[i] == one.st.log[i] by { assert !one.failed ==> t.log[..|one.st.log|][i] == t.log[i]; }
        if i < q {
          assert one.st.log[i] == one.st.log[..q][i];
          HiddenBefore(st.mem, first.log[i], turn, now, trace);
        }
      } else {
        HiddenAfter(one.st.mem, t.log[i], turn, now, trace);
      }
    }
  }

  lemma PassIsTraced(env: Env, m: Machine, now: Time, order: seq<Id>, invIDs: Id -> Id, payIDs: Id -> Id, j: nat,
                     trace: Trace)
    requires Allowed(m, EvRunBilling(now, order, invIDs, payIDs)) && PeriodsSound(m.st.mem) && j < |order|
    requires Billable(m.st.mem, TurnAt(order, invIDs, payIDs, j), now)
    requires !BillAll(env, m.st, order[..j], now, invIDs, payIDs).failed
    ensures PassTraced(env, m.st, BillAll(env, m.st, order, now, invIDs, payIDs).st, TurnAt(order, invIDs, payIDs, j),
                       now, trace,
                       Collected(env, m.st.mem, TurnAt(order, invIDs, payIDs, j), now),
                       |BillAll(env, m.st, order[..j], now, invIDs, payIDs).st.log|)
  {
    hide *;
    DifferentTurns(m, now, order, invIDs, payIDs, j);
    UnderId(m.st.mem);
    var st, turn := m.st, TurnAt(order, invIDs, payIDs, j);
    var rest := order[j + 1..];
    var first := BillAll(env, st, order[..j], now, invIDs, payIDs);
    var one := BillOne(env, first.st, turn.account, now, turn.invoice, turn.payment);
    SplitAtTurn(env, st, order, now, invIDs, payIDs, j);
    OthersPassed(env, st, order[..j], now, invIDs, payIDs, turn);
    BillAllStable(env, st, order[..j], now, invIDs, payIDs);
    PassedMem(st, first.st, turn);
    TurnComes(env, st.mem, first.st.mem, turn, now);
    OwnTurn(env, first.st, turn, now, trace);
    if !one.failed {
      OthersPassed(env, one.st, rest, now, invIDs, payIDs, turn);
    }
    Assemble(env, st, first.st, one, BillAll(env, st, order, now, invIDs, payIDs).st, turn, now, trace);
  }

  lemma UnderId(s: Snapshot)
    requires PeriodsSound(s)
    ensures AccountsKeyed(s)
  {
    hide Advance;
  }

  lemma SplitAtTurn(env: Env, st: StoreState, order: seq<Id>, now: Time, invIDs: Id -> Id, payIDs: Id -> Id, j: nat)
    requires j < |order|
    ensures var turn := TurnAt(order, invIDs, payIDs, j);
            var first := BillAll(env, st, order[..j], now, invIDs, payIDs);
            var one := BillOne(env, first.st, turn.account, now, turn.invoice, turn.payment);
            && turn == Turn(order[j], invIDs(order[j]), payIDs(order[j]))
            && BillAll(env, st, order, now, invIDs, payIDs).st ==
               if first.failed then first.st
               else if one.failed then one.st else BillAll(env, one.st, order[j + 1..], now, invIDs, payIDs).st
  {
    hide BillOne;
    var x, rest := order[j], order[j + 1..];
    assert order == order[..j] + ([x] + rest);
    BillAllSplit(env, st, order[..j], [x] + rest, now, invIDs, payIDs);
    assert ([x] + rest)[1..] == rest;
  }

  lemma PassedMem(st: StoreState, t: StoreState, turn: Turn)
    requires Passed(st, t, turn)
    ensures Untouched(st.mem, t.mem, turn)
  {}

  lemma DifferentTurns(m: Machine, now: Time, order: seq<Id>, invIDs: Id -> Id, payIDs: Id -> Id, j: nat)
    requires Allowed(m, EvRunBilling(now, order, invIDs, payIDs)) && j < |order|
    ensures var turn := TurnAt(order, invIDs, payIDs, j);
            && turn.account !in order[..j] && turn.account !in order[j + 1..]
            && (forall a :: a in order[..j] || a in order[j + 1..] ==>
                  invIDs(a) != turn.invoice && payIDs(a) != turn.payment)
  {
    var x := order[j];
    forall a | a in order[..j] || a in order[j + 1..] ensures a != x && a in order {}
    assert x in order;
  }

  // ---- the reload --------------------------------------------------------------------------

  /** RunBilling cut short after some of its Save calls, at the turn of any account whose turn comes
      and whose period is due and priced; the turn's saves are numbered from q.

      The reloaded store has the payment without its invoice if and only if the provider collected
      and the payment's save is the last one that reached the file. It has the invoice with the
      period still due, to be billed again, if and only if the invoice's save is. */
  lemma ReloadShowsIff(env: Env, m: Machine, now: Time, order: seq<Id>, invIDs: Id -> Id, payIDs: Id -> Id, j: nat,
                       saves: nat, trace: Trace)
    requires Allowed(m, EvRunBilling(now, order, invIDs, payIDs)) && PeriodsSound(m.st.mem) && j < |order|
    requires Billable(m.st.mem, TurnAt(order, invIDs, payIDs, j), now)
    requires TurnAt(order, invIDs, payIDs, j).invoice !in m.st.disk.invoices
    requires TurnAt(order, invIDs, payIDs, j).payment !in m.st.disk.payments
    requires !BillAll(env, m.st, order[..j], now, invIDs, payIDs).failed
    requires Possible(env, m, CrashDuring(EvRunBilling(now, order, invIDs, payIDs), saves))
    ensures var turn := TurnAt(order, invIDs, payIDs, j);
            var c := Collected(env, m.st.mem, turn, now);
            var p := Leaving(|BillAll(env, m.st, order[..j], now, invIDs, payIDs).st.log|, c, trace);
            var hi := |m.st.log| + saves;
            var s := ActStep(env, m, CrashDuring(EvRunBilling(now, order, invIDs, payIDs), saves)).st.mem;
            Shows(s, turn, now, trace) <==>
            CanLeave(c, trace) && hi >= p + 1 && env.saved(p) && !(hi >= p + 2 && env.saved(p + 1))
  {
    hide *;
    var turn := TurnAt(order, invIDs, payIDs, j);
    var t := BillAll(env, m.st, order, now, invIDs, payIDs).st;
    ReloadedBilling(env, m, now, order, invIDs, payIDs, saves);
    NotOnFile(m.st.disk, turn, now, trace);
    PassIsTraced(env, m, now, order, invIDs, payIDs, j, trace);
    ShownByFile(env, m.st, t, turn, now, trace, Collected(env, m.st.mem, turn, now),
                |BillAll(env, m.st, order[..j], now, invIDs, payIDs).st.log|, saves);
  }

  lemma ReloadedBilling(env: Env, m: Machine, now: Time, order: seq<Id>, invIDs: Id -> Id, payIDs: Id -> Id, saves: nat)
    requires Possible(env, m, CrashDuring(EvRunBilling(now, order, invIDs, payIDs), saves))
    ensures var t := BillAll(env, m.st, order, now, invIDs, payIDs).st;
            && |m.st.log| + saves <= |t.log|
            && ActStep(env, m, CrashDuring(EvRunBilling(now, order, invIDs, payIDs), saves)).st.mem ==
               FileAfter(env, m.st.disk, t.log, |m.st.log|, |m.st.log| + saves)
  {
    hide BillAll, Allowed, FileAfter;
  }

  lemma NotOnFile(file: Snapshot, turn: Turn, now: Time, trace: Trace)
    requires turn.invoice !in file.invoices && turn.payment !in file.payments
    ensures !Shows(file, turn, now, trace)
  {}

  lemma ShownByFile(env: Env, st: StoreState, t: StoreState, turn: Turn, now: Time, trace: Trace, c: bool, q: nat,
                    saves: nat)
    requires PassTraced(env, st, t, turn, now, trace, c, q) && |st.log| + saves <= |t.log|
      && !Shows(st.disk, turn, now, trace)
    ensures var p, hi := Leaving(q, c, trace), |st.log| + saves;
            Shows(FileAfter(env, st.disk, t.log, |st.log|, hi), turn, now, trace) <==>
            CanLeave(c, trace) && hi >= p + 1 && env.saved(p) && !(hi >= p + 2 && env.saved(p + 1))
  {
    hide Shows, FileAfter, LastWrite;
    FileIsLastWrite(env, st.disk, t.log, |st.log|, |st.log| + saves);
  }

  /** Such a crash is possible whenever the save that leaves the trace reaches the file. */
  lemma TraceIsReached(env: Env, m: Machine, now: Time, order: seq<Id>, invIDs: Id -> Id, payIDs: Id -> Id, j: nat,
                       trace: Trace) returns (saves: nat)
    requires Allowed(m, EvRunBilling(now, order, invIDs, payIDs)) && PeriodsSound(m.st.mem) && j < |order|
    requires Billable(m.st.mem, TurnAt(order, invIDs, payIDs, j), now)
    requires TurnAt(order, invIDs, payIDs, j).invoice !in m.st.disk.invoices
    requires TurnAt(order, invIDs, payIDs, j).payment !in m.st.disk.payments
    requires !BillAll(env, m.st, order[..j], now, invIDs, payIDs).failed
    requires CanLeave(Collected(env, m.st.mem, TurnAt(order, invIDs, payIDs, j), now), trace)
    requires env.saved(Leaving(|BillAll(env, m.st, order[..j], now, invIDs, payIDs).st.log|,
                               Collected(env, m.st.mem, TurnAt(order, invIDs, payIDs, j), now), trace))
    ensures Possible(env, m, CrashDuring(EvRunBilling(now, order, invIDs, payIDs), saves))
    ensures Shows(ActStep(env, m, CrashDuring(EvRunBilling(now, order, invIDs, payIDs), saves)).st.mem,
                  TurnAt(order, invIDs, payIDs, j), now, trace)
  {
    hide *;
    var turn := TurnAt(order, invIDs, payIDs, j);
    var t := BillAll(env, m.st, order, now, invIDs, payIDs).st;
    var q, c := |BillAll(env, m.st, order[..j], now, invIDs, payIDs).st.log|, Collected(env, m.st.mem, turn, now);
    PassIsTraced(env, m, now, order, invIDs, payIDs, j, trace);
    ReachedWithin(env, m.st, t, turn, now, trace, c, q);
    saves := Leaving(q, c, trace) + 1 - |m.st.log|;
    PossibleBilling(env, m, now, order, invIDs, payIDs, saves);
    ReloadShowsIff(env, m, now, order, invIDs, payIDs, j, saves, trace);
  }

  lemma ReachedWithin(env: Env, st: StoreState, t: StoreState, turn: Turn, now: Time, trace: Trace, c: bool, q: nat)
    requires PassTraced(env, st, t, turn, now, trace, c, q)
    ensures |st.log| <= Leaving(q, c, trace) < |t.log|
  {
    hide Shows;
  }

  lemma PossibleBilling(env: Env, m: Machine, now: Time, order: seq<Id>, invIDs: Id -> Id, payIDs: Id -> Id, saves: nat)
    requires Allowed(m, EvRunBilling(now, order, invIDs, payIDs))
    requires |m.st.log| + saves <= |BillAll(env, m.st, order, now, invIDs, payIDs).st.log|
    ensures Possible(env, m, CrashDuring(EvRunBilling(now, order, invIDs, payIDs), saves))
  {
    hide BillAll, Allowed;
  }

  /** With automatic charging, of the first account listed: a crash after the payment's save reloads
      the payment, and no invoice it could belong to. */
  lemma ChargeLeavesOrphan(env: Env, m: Machine, now: Time, order: seq<Id>, invIDs: Id -> Id, payIDs: Id -> Id)
    requires Allowed(m, EvRunBilling(now, order, invIDs, payIDs)) && PeriodsSound(m.st.mem) && order != []
    requires Billable(m.st.mem, TurnAt(order, invIDs, payIDs, 0), now)
    requires Collected(env, m.st.mem, TurnAt(order, invIDs, payIDs, 0), now) && env.saved(|m.st.log|)
    requires invIDs(order[0]) !in m.st.disk.invoices && payIDs(order[0]) !in m.st.disk.payments
    ensures Possible(env, m, CrashDuring(EvRunBilling(now, order, invIDs, payIDs), 1))
    ensures var s := ActStep(env, m, CrashDuring(EvRunBilling(now, order, invIDs, payIDs), 1)).st.mem;
            && payIDs(order[0]) in s.payments && s.payments[payIDs(order[0])].InvoiceID == invIDs(order[0])
            && invIDs(order[0]) !in s.invoices
  {
    hide Allowed, PeriodsSound, Billable, Collected, Possible, ActStep, BillOne;
    assert order[..0] == [] && BillAll(env, m.st, [], now, invIDs, payIDs) == Billed(m.st, [], false);
    hide BillAll;
    FirstTurn(env, m, now, order, invIDs, payIDs, Orphan);
  }

  /** With the manual provider: a crash after the invoice's save reloads the invoice with the account
      still due for its period, and billing it again leaves two invoices for that period. */
  lemma PeriodBilledAgain(env: Env, m: Machine, now: Time, order: seq<Id>, invIDs: Id -> Id, payIDs: Id -> Id)
    requires Allowed(m, EvRunBilling(now, order, invIDs, payIDs)) && PeriodsSound(m.st.mem) && order != []
    requires Billable(m.st.mem, TurnAt(order, invIDs, payIDs, 0), now)
    requires !Collected(env, m.st.mem, TurnAt(order, invIDs, payIDs, 0), now) && env.saved(|m.st.log|)
    requires invIDs(order[0]) !in m.st.disk.invoices && payIDs(order[0]) !in m.st.disk.payments
    ensures Possible(env, m, CrashDuring(EvRunBilling(now, order, invIDs, payIDs), 1))
    ensures var st := ActStep(env, m, CrashDuring(EvRunBilling(now, order, invIDs, payIDs), 1)).st;
            && BilledAgain(st.mem, TurnAt(order, invIDs, payIDs, 0), now)
            && forall later: Time, i: Id, p: Id {:trigger BillOne(env, st, order[0], later, i, p)} ::
                 now <= later && i !in st.mem.invoices ==>
                 BilledTwice(BillOne(env, st, order[0], later, i, p).st.mem, invIDs(order[0]), i)
  {
    hide Allowed, PeriodsSound, Billable, Collected, Possible, ActStep, BillOne, BilledAgain, BilledTwice;
    assert order[..0] == [] && BillAll(env, m.st, [], now, invIDs, payIDs) == Billed(m.st, [], false);
    hide BillAll;
    FirstTurn(env, m, now, order, invIDs, payIDs, Again);
    var st := ActStep(env, m, CrashDuring(EvRunBilling(now, order, invIDs, payIDs), 1)).st;
    forall later: Time, i: Id, p: Id | now <= later && i !in st.mem.invoices
      ensures BilledTwice(BillOne(env, st, order[0], later, i, p).st.mem, invIDs(order[0]), i)
    {
      NextPassBillsTwice(env, st, TurnAt(order, invIDs, payIDs, 0), now, later, i, p);
    }
  }

  lemma FirstTurn(env: Env, m: Machine, now: Time, order: seq<Id>, invIDs: Id -> Id, payIDs: Id -> Id, trace: Trace)
    requires Allowed(m, EvRunBilling(now, order, invIDs, payIDs)) && PeriodsSound(m.st.mem) && order != []
    requires Billable(m.st.mem, TurnAt(order, invIDs, payIDs, 0), now)
    requires Collected(env, m.st.mem, TurnAt(order, invIDs, payIDs, 0), now) <==> trace.Orphan?
    requires invIDs(order[0]) !in m.st.disk.invoices && payIDs(order[0]) !in m.st.disk.payments
    requires env.saved(|m.st.log|)
    ensures Possible(env, m, CrashDuring(EvRunBilling(now, order, invIDs, payIDs), 1))
    ensures Shows(ActStep(env, m, CrashDuring(EvRunBilling(now, order, invIDs, payIDs), 1)).st.mem,
                  TurnAt(order, invIDs, payIDs, 0), now, trace)
  {
    hide *;
    var turn := TurnAt(order, invIDs, payIDs, 0);
    var t := BillAll(env, m.st, order, now, invIDs, payIDs).st;
    NoneBefore(env, m.st, order, now, invIDs, payIDs);
    PassIsTraced(env, m, now, order, invIDs, payIDs, 0, trace);
    ReachedWithin(env, m.st, t, turn, now, trace, trace.Orphan?, |m.st.log|);
    FirstLeaves(|m.st.log|, trace);
    PossibleBilling(env, m, now, order, invIDs, payIDs, 1);
    ReloadShowsIff(env, m, now, order, invIDs, payIDs, 0, 1, trace);
  }

  lemma NoneBefore(env: Env, st: StoreState, order: seq<Id>, now: Time, invIDs: Id -> Id, payIDs: Id -> Id)
    requires order != []
    ensures BillAll(env, st, order[..0], now, invIDs, payIDs) == Billed(st, [], false)
    ensures TurnAt(order, invIDs, payIDs, 0) == Turn(order[0], invIDs(order[0]), payIDs(order[0]))
  {}

  lemma FirstLeaves(q: nat, trace: Trace)
    ensures Leaving(q, trace.Orphan?, trace) == q && CanLeave(trace.Orphan?, trace)
  {}
}
