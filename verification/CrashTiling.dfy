/** Tiling over every run with crashes, failed writes and automatic charging: the billing invoices in
    the store tile time from an account's creation to its current period, in memory and on file,
    until an act saves an invoice of the account without the period advance that belongs to it. */
module CrashTiling {
  import opened Wrappers
  import opened Collections
  import opened ControlModel
  import opened ControlSpec
  import opened ControlRuns
  import opened SaveLog
  import opened Billing
  import opened Settlement
  import opened Crash
  import opened CrashBilling
  import SaveTrace

  /** A billing invoice of the account; invoices issued by hand cover no time. */
  predicate Periodic(inv: Invoice, x: Id) {
    inv.AccountID == x && inv.PeriodStart < inv.PeriodEnd
  }

  /** The list names the billing invoices of the account in the store, and they tile time. */
  ghost predicate TiledBy(s: Snapshot, x: Id, l: seq<Invoice>) {
    && TiledUpTo(s, x, l)
    && (forall i :: 0 <= i < |l| ==>
          l[i].ID in s.invoices && SameCharge(l[i], s.invoices[l[i].ID]) && l[i].AccountID == x)
    && (forall id :: id in s.invoices && Periodic(s.invoices[id], x) ==> exists i :: 0 <= i < |l| && l[i].ID == id)
  }

  ghost predicate Tiled(s: Snapshot, x: Id) {
    AccountsKeyed(s) && InvoicesKeyed(s) && Priced(s, x) && exists l :: TiledBy(s, x, l)
  }

  // ---- what leaves the tiling alone --------------------------------------------------------

  /** The account keeps its period, its plan and its billing invoices. */
  ghost predicate Kept(s: Snapshot, u: Snapshot, x: Id) {
    && (AccountsKeyed(s) && InvoicesKeyed(s) ==> AccountsKeyed(u) && InvoicesKeyed(u))
    && x in s.accounts && x in u.accounts && s.accounts[x].PlanID in s.plans
    && u.accounts[x].PlanID == s.accounts[x].PlanID && u.accounts[x].CreatedAt == s.accounts[x].CreatedAt
    && u.accounts[x].PeriodStart == s.accounts[x].PeriodStart && u.accounts[x].PeriodEnd == s.accounts[x].PeriodEnd
    && s.accounts[x].PlanID in u.plans && u.plans[s.accounts[x].PlanID] == s.plans[s.accounts[x].PlanID]
    && (forall id :: id in s.invoices ==> id in u.invoices && SameCharge(s.invoices[id], u.invoices[id]))
    && (forall id :: id in u.invoices && Periodic(u.invoices[id], x) ==> id in s.invoices)
  }

  lemma KeptTiled(s: Snapshot, u: Snapshot, x: Id)
    requires Kept(s, u, x) && Tiled(s, x)
    ensures Tiled(u, x)
  {
    hide Advance, Tiles;
    var l: seq<Invoice> :| TiledBy(s, x, l);
    forall i | 0 <= i < |l| ensures l[i].ID in u.invoices && SameCharge(l[i], u.invoices[l[i].ID]) {
      assert SameCharge(s.invoices[l[i].ID], u.invoices[l[i].ID]);
    }
    forall id | id in u.invoices && Periodic(u.invoices[id], x) ensures exists i :: 0 <= i < |l| && l[i].ID == id {
      assert SameCharge(s.invoices[id], u.invoices[id]) && Periodic(s.invoices[id], x);
    }
    assert TiledBy(u, x, l);
  }

  lemma KeptReflexive(s: Snapshot, x: Id)
    requires HasPlan(s, x)
    ensures Kept(s, s, x)
  {}

  lemma KeptTransitive(s: Snapshot, t: Snapshot, u: Snapshot, x: Id)
    requires Kept(s, t, x) && Kept(t, u, x)
    ensures Kept(s, u, x)
  {
    forall id | id in s.invoices ensures id in u.invoices && SameCharge(s.invoices[id], u.invoices[id]) {
      assert SameCharge(s.invoices[id], t.invoices[id]) && SameCharge(t.invoices[id], u.invoices[id]);
    }
    forall id | id in u.invoices && Periodic(u.invoices[id], x) ensures id in s.invoices {
      assert SameCharge(t.invoices[id], u.invoices[id]) && Periodic(t.invoices[id], x);
    }
  }

  /** From st to t only Save calls happened, and all of them leave the tiling alone. */
  ghost predicate KeptLog(st: StoreState, t: StoreState, x: Id) {
    && |st.log| <= |t.log| && t.log[..|st.log|] == st.log && Kept(st.mem, t.mem, x)
    && forall i :: |st.log| <= i < |t.log| ==> Kept(st.mem, t.log[i], x)
  }

  lemma NothingKept(st: StoreState, x: Id)
    requires HasPlan(st.mem, x)
    ensures KeptLog(st, st, x)
  {
    hide Kept;
    KeptReflexive(st.mem, x);
  }

  lemma KeptLogTransitive(st: StoreState, t: StoreState, u: StoreState, x: Id)
    requires KeptLog(st, t, x) && KeptLog(t, u, x)
    ensures KeptLog(st, u, x)
  {
    hide Kept;
    assert u.log[..|st.log|] == u.log[..|t.log|][..|st.log|];
    KeptTransitive(st.mem, t.mem, u.mem, x);
    forall i | |st.log| <= i < |u.log| ensures Kept(st.mem, u.log[i], x) {
      if i < |t.log| {
        assert u.log[i] == u.log[..|t.log|][i];
      } else {
        KeptTransitive(st.mem, t.mem, u.log[i], x);
      }
    }
  }

  lemma CommitKept(env: Env, st: StoreState, mem: Snapshot, x: Id)
    requires Kept(st.mem, mem, x)
    ensures KeptLog(st, Commit(env, st, mem), x)
  {
    hide Kept;
    assert Commit(env, st, mem).log[..|st.log|] == st.log;
  }

  // ---- single saves ------------------------------------------------------------------------

  /** Neither accounts nor invoices change, and plans are only added. */
  lemma OtherMapsKept(env: Env, st: StoreState, mem: Snapshot, x: Id)
    requires HasPlan(st.mem, x) && mem.accounts == st.mem.accounts && mem.invoices == st.mem.invoices
    requires forall p :: p in st.mem.plans ==> p in mem.plans && mem.plans[p] == st.mem.plans[p]
    ensures KeptLog(st, Commit(env, st, mem), x)
  {
    hide KeptLog;
    CommitKept(env, st, mem, x);
  }

  lemma InvoiceKept(env: Env, st: StoreState, inv: Invoice, x: Id)
    requires HasPlan(st.mem, x)
    requires if inv.ID in st.mem.invoices then SameCharge(st.mem.invoices[inv.ID], inv) else !Periodic(inv, x)
    ensures KeptLog(st, SaveInvoice(env, st, inv), x)
  {
    hide KeptLog;
    CommitKept(env, st, SaveInvoice(env, st, inv).mem, x);
  }

  lemma AccountKept(env: Env, st: StoreState, a: Account, x: Id)
    requires HasPlan(st.mem, x)
    requires a.ID == x ==> a == st.mem.accounts[x].(Status := a.Status)
    ensures KeptLog(st, SaveAccount(env, st, a), x)
  {
    hide KeptLog;
    CommitKept(env, st, SaveAccount(env, st, a).mem, x);
  }

  // ---- operations on other accounts and invoices -------------------------------------------

  lemma OtherBilled(env: Env, st: StoreState, id: Id, now: Time, invID: Id, payID: Id, x: Id)
    requires AccountsKeyed(st.mem) && HasPlan(st.mem, x) && id != x && invID !in st.mem.invoices
    ensures var t := BillOne(env, st, id, now, invID, payID).st;
            && KeptLog(st, t, x) && t.mem.invoices.Keys <= st.mem.invoices.Keys + {invID}
            && t.mem.payments.Keys <= st.mem.payments.Keys + {payID}
  {
    hide Advance, KeptLog;
    NothingKept(st, x);
    if Due(st.mem, id, now) {
      var a, plan := st.mem.accounts[id], st.mem.plans[st.mem.accounts[id].PlanID];
      var inv := ChargedInvoice(env, a, plan, now, invID);
      var st1 := if plan.PriceCents <= 0 then st else ChargedStore(env, st, a, plan, now, invID, payID);
      if st1 != st {
        OtherMapsKept(env, st, st1.mem, x);
      }
      var st2 := if plan.PriceCents <= 0 then st1 else SaveInvoice(env, st1, inv);
      if st2 != st1 {
        InvoiceKept(env, st1, inv, x);
        KeptLogTransitive(st, st1, st2, x);
      }
      AccountKept(env, st2, NextPeriod(a, plan), x);
      KeptLogTransitive(st, st2, SaveAccount(env, st2, NextPeriod(a, plan)), x);
    }
  }

  lemma KeptPlan(st: StoreState, t: StoreState, x: Id)
    requires KeptLog(st, t, x)
    ensures HasPlan(t.mem, x) && HasPlan(st.mem, x)
    ensures AccountsKeyed(st.mem) && InvoicesKeyed(st.mem) ==> AccountsKeyed(t.mem) && InvoicesKeyed(t.mem)
    ensures Kept(st.mem, t.mem, x)
  {}

  lemma {:induction false} OthersBilled(env: Env, st: StoreState, order: seq<Id>, now: Time, invIDs: Id -> Id,
                                        payIDs: Id -> Id, x: Id)
    requires AccountsKeyed(st.mem) && InvoicesKeyed(st.mem) && HasPlan(st.mem, x) && x !in order
    requires Distinct(order) && FreshFor(invIDs, order, st.mem.invoices.Keys)
    ensures KeptLog(st, BillAll(env, st, order, now, invIDs, payIDs).st, x)
    decreases |order|
  {
    hide BillOne, KeptLog;
    if order == [] {
      NothingKept(st, x);
    } else {
      var id := order[0];
      var one := BillOne(env, st, id, now, invIDs(id), payIDs(id));
      OtherBilled(env, st, id, now, invIDs(id), payIDs(id), x);
      if !one.failed {
        FreshLater(invIDs, order, st.mem.invoices.Keys, one.st.mem.invoices.Keys);
        KeptPlan(st, one.st, x);
        hide FreshFor, Kept, AccountsKeyed, InvoicesKeyed, HasPlan;
        OthersBilled(env, one.st, order[1..], now, invIDs, payIDs, x);
        KeptLogTransitive(st, one.st, BillAll(env, one.st, order[1..], now, invIDs, payIDs).st, x);
      }
    }
  }

  lemma SettleKept(env: Env, st: StoreState, invoice: Id, how: string, now: Time, payID: Id, x: Id)
    requires AccountsKeyed(st.mem) && InvoicesKeyed(st.mem) && HasPlan(st.mem, x)
    ensures KeptLog(st, Settle(env, st, invoice, how, now, payID).0, x)
  {
    hide KeptLog, Outstanding;
    NothingKept(st, x);
    if invoice in st.mem.invoices && st.mem.invoices[invoice].Status == Open {
      var inv := st.mem.invoices[invoice];
      var paid := inv.(Status := Paid, PaidAt := Some(now));
      var st1 := SaveInvoice(env, st, paid);
      var st2 := SavePayment(env, st1, SettlePayment(inv, how, now, payID));
      InvoiceKept(env, st, paid, x);
      OtherMapsKept(env, st1, st2.mem, x);
      KeptLogTransitive(st, st1, st2, x);
      var st3 := Reactivate(env, st2, inv.AccountID);
      if st3 != st2 {
        AccountKept(env, st2, st2.mem.accounts[inv.AccountID].(Status := Active), x);
        KeptLogTransitive(st, st2, st3, x);
      }
    }
  }

  lemma {:induction false} SuspendAllKept(env: Env, st: StoreState, order: seq<Id>, cutoff: Time, x: Id)
    requires AccountsKeyed(st.mem) && InvoicesKeyed(st.mem) && HasPlan(st.mem, x)
    ensures KeptLog(st, SuspendAll(env, st, order, cutoff).0, x)
    decreases |order|
  {
    hide KeptLog, Delinquent;
    NothingKept(st, x);
    if order != [] {
      var st1 := SuspendOne(env, st, order[0], cutoff).0;
      if st1 != st {
        AccountKept(env, st, st.mem.accounts[order[0]].(Status := Suspended), x);
        KeptPlan(st, st1, x);
      }
      hide Kept, AccountsKeyed, InvoicesKeyed, HasPlan, SuspendOne;
      SuspendAllKept(env, st1, order[1..], cutoff, x);
      KeptLogTransitive(st, st1, SuspendAll(env, st1, order[1..], cutoff).0, x);
    }
  }

  // ---- the account's own turn --------------------------------------------------------------

  lemma {:induction false} TileEnds(period: string, start: Time, l: seq<Invoice>, end: Time, i: nat)
    requires Tiles(period, start, l, end) && i < |l|
    ensures l[i].PeriodStart < l[i].PeriodEnd <= end
    decreases |l|
  {
    AdvanceMovesOn(period, start);
    hide Advance;
    if i > 0 {
      TileEnds(period, l[0].PeriodEnd, l[1..], end, i - 1);
    } else if |l| > 1 {
      TileEnds(period, l[0].PeriodEnd, l[1..], end, 0);
    }
  }

  /** An invoice for the current period spoils the tiling, which ends where that period starts. */
  lemma BetweenNotTiled(s: Snapshot, x: Id, invID: Id)
    requires x in s.accounts && invID in s.invoices && Periodic(s.invoices[invID], x)
    requires s.invoices[invID].PeriodStart == s.accounts[x].PeriodStart
    ensures !Tiled(s, x)
  {
    if Tiled(s, x) {
      var l: seq<Invoice> :| TiledBy(s, x, l);
      var i :| 0 <= i < |l| && l[i].ID == invID;
      hide Advance, Tiles;
      TileEnds(ThePlan(s, x).Period, s.accounts[x].CreatedAt, l, s.accounts[x].PeriodStart, i);
      assert false;
    }
  }

  /** The invoice and the advance together extend the tiling by one period. */
  lemma AdvanceTiled(s: Snapshot, u: Snapshot, x: Id, inv: Invoice)
    requires Tiled(s, x) && u.plans == s.plans && inv.ID !in s.invoices
    requires inv.AccountID == x
    requires inv.PeriodStart == s.accounts[x].PeriodStart && inv.PeriodEnd == s.accounts[x].PeriodEnd
    requires inv.PeriodEnd <= inv.CreatedAt
    requires u.invoices == s.invoices[inv.ID := inv]
    requires u.accounts == s.accounts[x := NextPeriod(s.accounts[x], ThePlan(s, x))]
    ensures Tiled(u, x)
  {
    hide Advance, Tiles;
    var l: seq<Invoice> :| TiledBy(s, x, l);
    var a, period := s.accounts[x], ThePlan(s, x).Period;
    OneTile(period, a.PeriodStart, inv, a.PeriodEnd);
    TilesAppend(period, a.CreatedAt, l, a.PeriodStart, [inv], a.PeriodEnd);
    var l' := l + [inv];
    forall id | id in u.invoices && Periodic(u.invoices[id], x) ensures exists i :: 0 <= i < |l'| && l'[i].ID == id {
      if id == inv.ID {
        assert l'[|l|].ID == id;
      } else {
        var i :| 0 <= i < |l| && l[i].ID == id;
        assert l'[i].ID == id;
      }
    }
    assert TiledBy(u, x, l');
  }

  lemma OneTile(period: string, start: Time, inv: Invoice, end: Time)
    requires inv.PeriodStart == start && inv.PeriodEnd == end == Advance(period, start) && end <= inv.CreatedAt
    ensures Tiles(period, start, [inv], end)
  {
    hide Advance;
    assert [inv][1..] == [];
  }

  /** What the account's own turn leaves: tiled states, except after the invoice's save. */
  ghost predicate TurnTiled(env: Env, st: StoreState, t: StoreState, p: nat, x: Id) {
    && |st.log| <= p < |t.log| && t.log[..|st.log|] == st.log
    && (env.saved(p) <==> p + 2 <= |t.log|)
    && (Tiled(t.mem, x) <==> env.saved(p))
    && forall i :: |st.log| <= i < |t.log| ==> (Tiled(t.log[i], x) <==> i != p)
  }

  lemma OwnBilled(env: Env, st: StoreState, turn: Turn, now: Time)
    requires Tiled(st.mem, turn.account) && Due(st.mem, turn.account, now)
    requires turn.invoice !in st.mem.invoices && turn.payment !in st.mem.payments
    ensures var b := BillOne(env, st, turn.account, now, turn.invoice, turn.payment);
            var p := Leaving(|st.log|, Collected(env, st.mem, turn, now), Again);
            && TurnTiled(env, st, b.st, p, turn.account) && (b.failed <==> !(env.saved(p) && env.saved(p + 1)))
            && b.st.mem.invoices.Keys <= st.mem.invoices.Keys + {turn.invoice}
  {
    hide *;
    OwnStates(env, st, turn, now);
    TurnResult(env, st, turn, now);
    OwnLog(env, st, ChargedState(env, st, turn, now), InvoicedState(env, st, turn, now),
           AdvancedState(env, st, turn, now), BillOne(env, st, turn.account, now, turn.invoice, turn.payment),
           Collected(env, st.mem, turn, now), turn.account);
  }

  lemma OwnStates(env: Env, st: StoreState, turn: Turn, now: Time)
    requires Tiled(st.mem, turn.account) && Due(st.mem, turn.account, now)
    requires turn.invoice !in st.mem.invoices && turn.payment !in st.mem.payments
    ensures Billable(st.mem, turn, now)
    ensures var x, st1, st2 := turn.account, ChargedState(env, st, turn, now), InvoicedState(env, st, turn, now);
            var st3 := AdvancedState(env, st, turn, now);
            && (if Collected(env, st.mem, turn, now) then st1.log == st.log + [st1.mem] else st1 == st)
            && st2.log == st1.log + [st2.mem] && st3.log == st2.log + [st3.mem]
            && Tiled(st1.mem, x) && !Tiled(st2.mem, x) && Tiled(st3.mem, x)
            && st2.mem.invoices.Keys <= st.mem.invoices.Keys + {turn.invoice} && st3.mem.invoices == st2.mem.invoices
  {
    var x := turn.account;
    var a := st.mem.accounts[x];
    AdvanceMovesOn(ThePlan(st.mem, x).Period, a.PeriodStart);
    var st1, st2 := ChargedState(env, st, turn, now), InvoicedState(env, st, turn, now);
    var inv := ChargedInvoice(env, a, ThePlan(st.mem, x), now, turn.invoice);
    hide Advance, Tiles;
    assert a.PeriodEnd == Advance(ThePlan(st.mem, x).Period, a.PeriodStart) && a.ID == x;
    if st1 != st {
      OtherMapsKept(env, st, st1.mem, x);
    }
    NothingKept(st, x);
    KeptTiled(st.mem, st1.mem, x);
    BetweenNotTiled(st2.mem, x, turn.invoice);
    AdvanceTiled(st1.mem, AdvancedState(env, st, turn, now).mem, x, inv);
  }

  lemma OwnLog(env: Env, st: StoreState, st1: StoreState, st2: StoreState, st3: StoreState, b: Billed, c: bool, x: Id)
    requires if c then st1.log == st.log + [st1.mem] else st1 == st
    requires st2.log == st1.log + [st2.mem] && st3.log == st2.log + [st3.mem]
    requires Tiled(st1.mem, x) && !Tiled(st2.mem, x) && Tiled(st3.mem, x)
    requires b.st == if Saves(env, st1) then st3 else st2
    requires b.failed <==> !(Saves(env, st1) && Saves(env, st2))
    ensures var p := Leaving(|st.log|, c, Again);
            TurnTiled(env, st, b.st, p, x) && (b.failed <==> !(env.saved(p) && env.saved(p + 1)))
  {
    hide Tiled;
  }

  // ---- the whole pass ----------------------------------------------------------------------

  /** The number of the Save call for the invoice of the account, if the pass reaches its turn and its
      period is due. */
  ghost function InvoiceSave(env: Env, st: StoreState, order: seq<Id>, now: Time, invIDs: Id -> Id, payIDs: Id -> Id,
                             x: Id): Option<nat>
    decreases |order|
  {
    if order == [] then None
    else if order[0] == x then
      if Due(st.mem, x, now)
      then Some(Leaving(|st.log|, Collected(env, st.mem, Turn(x, invIDs(x), payIDs(x)), now), Again)) else None
    else
      var one := BillOne(env, st, order[0], now, invIDs(order[0]), payIDs(order[0]));
      if one.failed then None else InvoiceSave(env, one.st, order[1..], now, invIDs, payIDs, x)
  }

  /** Every state left is tiled but for the one after save w, if there is one. */
  ghost predicate LogTiled(env: Env, st: StoreState, t: StoreState, w: Option<nat>, x: Id) {
    && |st.log| <= |t.log| && t.log[..|st.log|] == st.log
    && (forall i :: |st.log| <= i < |t.log| ==> (Tiled(t.log[i], x) <==> w != Some(i)))
    && (Tiled(t.mem, x) <==> !(w.Some? && !env.saved(w.value)))
    && (w.Some? ==>
          && |st.log| <= w.value < |t.log| && (env.saved(w.value) <==> w.value + 2 <= |t.log|)
          && (w.value + 3 <= |t.log| ==> env.saved(w.value + 1)))
  }

  lemma KeptLogTiled(env: Env, st: StoreState, t: StoreState, x: Id)
    requires KeptLog(st, t, x) && Tiled(st.mem, x)
    ensures LogTiled(env, st, t, None, x)
  {
    hide Kept, Tiled;
    KeptTiled(st.mem, t.mem, x);
    forall i | |st.log| <= i < |t.log| ensures Tiled(t.log[i], x) {
      KeptTiled(st.mem, t.log[i], x);
    }
  }

  /** First something that keeps the tiling, then the rest. */
  lemma KeptThenTiled(env: Env, st: StoreState, t: StoreState, u: StoreState, w: Option<nat>, x: Id)
    requires KeptLog(st, t, x) && Tiled(st.mem, x) && LogTiled(env, t, u, w, x)
    ensures LogTiled(env, st, u, w, x)
  {
    KeptLogTiled(env, st, t, x);
    assert forall i :: |st.log| <= i < |t.log| ==> Tiled(t.log[i], x);
    hide KeptLog, Tiled;
    StatesJoined(st.log, t.log, u.log, w, x);
  }

  /** A stretch of tiled states before one in which only the state after save w is not. */
  lemma StatesJoined(a: seq<Snapshot>, b: seq<Snapshot>, c: seq<Snapshot>, w: Option<nat>, x: Id)
    requires |a| <= |b| <= |c| && b[..|a|] == a && c[..|b|] == b && (w.Some? ==> |b| <= w.value)
    requires forall i :: |a| <= i < |b| ==> Tiled(b[i], x)
    requires forall i :: |b| <= i < |c| ==> (Tiled(c[i], x) <==> w != Some(i))
    ensures c[..|a|] == a
    ensures forall i :: |a| <= i < |c| ==> (Tiled(c[i], x) <==> w != Some(i))
  {
    hide *;
    assert c[..|a|] == c[..|b|][..|a|];
    forall i | |a| <= i < |c| ensures Tiled(c[i], x) <==> w != Some(i) {
      if i < |b| {
        assert c[i] == c[..|b|][i];
      }
    }
  }

  /** First the account's own turn, then something that keeps the tiling. */
  lemma TurnThenKept(env: Env, st: StoreState, t: StoreState, u: StoreState, p: nat, x: Id)
    requires TurnTiled(env, st, t, p, x) && env.saved(p) && env.saved(p + 1) && KeptLog(t, u, x)
    ensures LogTiled(env, st, u, Some(p), x)
  {
    KeptLogTiled(env, t, u, x);
    hide KeptLog, Tiled;
    assert u.log[..|st.log|] == u.log[..|t.log|][..|st.log|];
    forall i | |st.log| <= i < |u.log| ensures Tiled(u.log[i], x) <==> i != p {
      if i < |t.log| {
        assert u.log[i] == u.log[..|t.log|][i];
      }
    }
  }

  /** A turn that ends the pass. */
  lemma TurnAlone(env: Env, st: StoreState, t: StoreState, p: nat, x: Id)
    requires TurnTiled(env, st, t, p, x) && (|t.log| >= p + 3 ==> env.saved(p + 1))
    ensures LogTiled(env, st, t, Some(p), x)
  {
    hide Tiled;
  }

  lemma TiledParts(s: Snapshot, x: Id)
    requires Tiled(s, x)
    ensures AccountsKeyed(s) && InvoicesKeyed(s) && HasPlan(s, x)
  {
    hide Advance, Tiles;
  }

  lemma TurnMem(env: Env, st: StoreState, t: StoreState, p: nat, x: Id)
    requires TurnTiled(env, st, t, p, x)
    ensures Tiled(t.mem, x) <==> env.saved(p)
  {
    hide Tiled;
  }

  lemma TurnSize(env: Env, st: StoreState, turn: Turn, now: Time)
    requires Tiled(st.mem, turn.account) && Due(st.mem, turn.account, now)
    requires turn.invoice !in st.mem.invoices && turn.payment !in st.mem.payments
    ensures var b := BillOne(env, st, turn.account, now, turn.invoice, turn.payment);
            |b.st.log| <= Leaving(|st.log|, Collected(env, st.mem, turn, now), Again) + 2
  {
    hide *;
    OwnStates(env, st, turn, now);
    TurnResult(env, st, turn, now);
    LogSize(env, st, ChargedState(env, st, turn, now), InvoicedState(env, st, turn, now),
            AdvancedState(env, st, turn, now), Collected(env, st.mem, turn, now));
  }

  lemma LogSize(env: Env, st: StoreState, st1: StoreState, st2: StoreState, st3: StoreState, c: bool)
    requires if c then st1.log == st.log + [st1.mem] else st1 == st
    requires st2.log == st1.log + [st2.mem] && st3.log == st2.log + [st3.mem]
    ensures |st2.log| < |st3.log| == Leaving(|st.log|, c, Again) + 2
  {}

  lemma {:induction false} PassTiled(env: Env, st: StoreState, order: seq<Id>, now: Time, invIDs: Id -> Id,
                                     payIDs: Id -> Id, x: Id)
    requires Tiled(st.mem, x) && Distinct(order)
    requires FreshFor(invIDs, order, st.mem.invoices.Keys) && FreshFor(payIDs, order, st.mem.payments.Keys)
    ensures LogTiled(env, st, BillAll(env, st, order, now, invIDs, payIDs).st,
                     InvoiceSave(env, st, order, now, invIDs, payIDs, x), x)
    decreases |order|
  {
    hide BillOne, KeptLog, LogTiled, Tiled, TurnTiled, Collected;
    TiledParts(st.mem, x);
    if order == [] {
      NothingKept(st, x);
      KeptLogTiled(env, st, st, x);
    } else {
      var id, rest := order[0], order[1..];
      var one := BillOne(env, st, id, now, invIDs(id), payIDs(id));
      if id == x {
        OwnTurnPass(env, st, order, now, invIDs, payIDs);
      } else {
        OtherBilled(env, st, id, now, invIDs(id), payIDs(id), x);
        if one.failed {
          KeptLogTiled(env, st, one.st, x);
        } else {
          FreshLater(invIDs, order, st.mem.invoices.Keys, one.st.mem.invoices.Keys);
          FreshLater(payIDs, order, st.mem.payments.Keys, one.st.mem.payments.Keys);
          assert Tiled(one.st.mem, x) by {
            KeptPlan(st, one.st, x);
            KeptTiled(st.mem, one.st.mem, x);
          }
          hide FreshFor, Kept, AccountsKeyed, InvoicesKeyed, HasPlan;
          PassTiled(env, one.st, rest, now, invIDs, payIDs, x);
          KeptThenTiled(env, st, one.st, BillAll(env, one.st, rest, now, invIDs, payIDs).st,
                        InvoiceSave(env, one.st, rest, now, invIDs, payIDs, x), x);
        }
      }
    }
  }

  /** A pass that begins with the account. */
  lemma OwnTurnPass(env: Env, st: StoreState, order: seq<Id>, now: Time, invIDs: Id -> Id, payIDs: Id -> Id)
    requires order != [] && Tiled(st.mem, order[0]) && Distinct(order)
    requires FreshFor(invIDs, order, st.mem.invoices.Keys) && FreshFor(payIDs, order, st.mem.payments.Keys)
    ensures LogTiled(env, st, BillAll(env, st, order, now, invIDs, payIDs).st,
                     InvoiceSave(env, st, order, now, invIDs, payIDs, order[0]), order[0])
  {
    hide KeptLog, LogTiled, Tiled, TurnTiled, Collected, BillOne;
    var x, rest := order[0], order[1..];
    var turn := Turn(x, invIDs(x), payIDs(x));
    var one := BillOne(env, st, x, now, turn.invoice, turn.payment);
    assert x !in rest;
    TiledParts(st.mem, x);
    if Due(st.mem, x, now) {
      var p := Leaving(|st.log|, Collected(env, st.mem, turn, now), Again);
      OwnBilled(env, st, turn, now);
      TurnSize(env, st, turn, now);
      TurnMem(env, st, one.st, p, x);
      if one.failed {
        TurnAlone(env, st, one.st, p, x);
      } else {
        TiledParts(one.st.mem, x);
        FreshLater(invIDs, order, st.mem.invoices.Keys, one.st.mem.invoices.Keys);
        OthersBilled(env, one.st, rest, now, invIDs, payIDs, x);
        TurnThenKept(env, st, one.st, BillAll(env, one.st, rest, now, invIDs, payIDs).st, p, x);
      }
    } else {
      assert one == Billed(st, [], false) by { NotDue(env, st, x, now, turn.invoice, turn.payment); }
      FreshLater(invIDs, order, st.mem.invoices.Keys, st.mem.invoices.Keys);
      OthersBilled(env, st, rest, now, invIDs, payIDs, x);
      KeptLogTiled(env, st, BillAll(env, st, rest, now, invIDs, payIDs).st, x);
    }
  }

  lemma NotDue(env: Env, st: StoreState, x: Id, now: Time, invID: Id, payID: Id)
    requires !Due(st.mem, x, now)
    ensures BillOne(env, st, x, now, invID, payID) == Billed(st, [], false)
  {}

  // ---- every event -------------------------------------------------------------------------

  /** The Save call of the event that leaves the account's invoice without its period advance. */
  ghost function HalfSave(env: Env, m: Machine, ev: Event, x: Id): Option<nat> {
    match ev
    case EvRunBilling(now, order, invIDs, payIDs) => InvoiceSave(env, m.st, order, now, invIDs, payIDs, x)
    case _ => None
  }

  lemma StepTiled(env: Env, m: Machine, ev: Event, x: Id)
    requires Allowed(m, ev) && Tiled(m.st.mem, x)
    ensures LogTiled(env, m.st, StepStore(env, m, ev), HalfSave(env, m, ev, x), x)
  {
    hide LogTiled, BillAll, KeptLog, FreshFor, InvoiceSave, Settle, SuspendAll;
    if ev.EvRunBilling? {
      PassTiled(env, m.st, ev.order, ev.now, ev.invIDs, ev.payIDs, x);
    } else {
      TiledParts(m.st.mem, x);
      hide Tiled;
      StepKept(env, m, ev, x);
      KeptLogTiled(env, m.st, StepStore(env, m, ev), x);
    }
  }

  lemma StepKept(env: Env, m: Machine, ev: Event, x: Id)
    requires Allowed(m, ev) && !ev.EvRunBilling?
    requires AccountsKeyed(m.st.mem) && InvoicesKeyed(m.st.mem) && HasPlan(m.st.mem, x)
    ensures KeptLog(m.st, StepStore(env, m, ev), x)
  {
    hide Advance, Wrap64, Settle, SuspendAll, KeptLog, Reserve, Release, IssueInvoice, RecordCheckout, CreateAccount;
    var st, t := m.st, StepStore(env, m, ev);
    NothingKept(st, x);
    match ev
    case EvPay(invoice, how, now, payID) => SettleKept(env, st, invoice, how, now, payID, x);
    case EvWebhook(provider, verified, now, payID) =>
      if verified.Ok? && verified.value.paid && verified.value.invoice != "" {
        SettleKept(env, st, verified.value.invoice, provider, now, payID, x);
      }
    case EvEnforce(now, grace, order) => SuspendAllKept(env, st, order, now - grace, x);
    case EvReserve(id, bytes, now) => SpaceKept(env, st, id, bytes, now, x);
    case EvRelease(id, bytes, now) => SpaceKept(env, st, id, bytes, now, x);
    case EvIssueInvoice(id, amount, now, invID) => IssueKept(env, st, id, amount, now, invID, x);
    case EvEndCheckout(call, session) =>
      if call in m.pending && session.Some? {
        RecordKept(env, st, m.pending[call], session.value, x);
      }
    case EvCreateAccount(name, email, planID, now, id, tokenHash) =>
      NewAccountKept(env, st, name, email, planID, now, id, tokenHash, x);
    case EvSetStatus(id, status) =>
      if id in st.mem.accounts {
        AccountKept(env, st, st.mem.accounts[id].(Status := status), x);
      }
    case EvCreatePlan(_, _, _, _, _, _) =>
      if t != st {
        OtherMapsKept(env, st, t.mem, x);
      }
    case EvBeginCheckout(_, _, _) =>
  }

  lemma SpaceKept(env: Env, st: StoreState, id: Id, bytes: int, now: Time, x: Id)
    requires HasPlan(st.mem, x)
    ensures KeptLog(st, Reserve(env, st, id, bytes, now).0, x) && KeptLog(st, Release(env, st, id, bytes, now).0, x)
  {
    hide Wrap64, KeptLog;
    NothingKept(st, x);
    if Reserve(env, st, id, bytes, now).0 != st {
      OtherMapsKept(env, st, Reserve(env, st, id, bytes, now).0.mem, x);
    }
    if Release(env, st, id, bytes, now).0 != st {
      OtherMapsKept(env, st, Release(env, st, id, bytes, now).0.mem, x);
    }
  }

  lemma IssueKept(env: Env, st: StoreState, id: Id, amount: int, now: Time, invID: Id, x: Id)
    requires HasPlan(st.mem, x) && invID !in st.mem.invoices
    ensures KeptLog(st, IssueInvoice(env, st, id, amount, now, invID).0, x)
  {
    hide KeptLog;
    NothingKept(st, x);
    var t := IssueInvoice(env, st, id, amount, now, invID).0;
    if t != st {
      InvoiceKept(env, st, t.mem.invoices[invID], x);
    }
  }

  lemma RecordKept(env: Env, st: StoreState, req: Request, reference: string, x: Id)
    requires InvoicesKeyed(st.mem) && HasPlan(st.mem, x)
    ensures KeptLog(st, RecordCheckout(env, st, req, reference), x)
  {
    hide KeptLog;
    NothingKept(st, x);
    if req.InvoiceID in st.mem.invoices && st.mem.invoices[req.InvoiceID].Status == Open {
      var inv := st.mem.invoices[req.InvoiceID];
      InvoiceKept(env, st, inv.(CheckoutProvider := req.Provider, CheckoutRef := reference), x);
    }
  }

  lemma NewAccountKept(env: Env, st: StoreState, name: string, email: string, planID: Id, now: Time, id: Id,
                       tokenHash: string, x: Id)
    requires HasPlan(st.mem, x) && id !in st.mem.accounts
    ensures KeptLog(st, CreateAccount(env, st, name, email, planID, now, id, tokenHash).0, x)
  {
    hide KeptLog, Advance;
    NothingKept(st, x);
    var t := CreateAccount(env, st, name, email, planID, now, id, tokenHash).0;
    if t != st {
      AccountKept(env, st, t.mem.accounts[id], x);
    }
  }

  // ---- every run ---------------------------------------------------------------------------

  /** The act saves an invoice of the account, in memory or on file, without its period advance. */
  ghost predicate Halves(env: Env, m: Machine, act: Act, x: Id)
    requires Possible(env, m, act)
  {
    var w := HalfSave(env, m, act.ev, x);
    w.Some? &&
    match act
    case Done(_) => !(env.saved(w.value) && env.saved(w.value + 1))
    case CrashDuring(_, saves) =>
      var hi := |m.st.log| + saves;
      hi >= w.value + 1 && env.saved(w.value) && !(hi >= w.value + 2 && env.saved(w.value + 1))
  }

  /** What the file shows after the first saves of a log, from a tiled memory and a tiled file. */
  lemma FileTiled(env: Env, st: StoreState, t: StoreState, w: Option<nat>, hi: nat, x: Id)
    requires LogTiled(env, st, t, w, x) && |st.log| <= hi <= |t.log| && Tiled(st.disk, x)
    ensures Tiled(FileAfter(env, st.disk, t.log, |st.log|, hi), x) <==>
            !(w.Some? && hi >= w.value + 1 && env.saved(w.value) && !(hi >= w.value + 2 && env.saved(w.value + 1)))
  {
    hide Tiled, FileAfter, LastWrite;
    FileIsLastWrite(env, st.disk, t.log, |st.log|, hi);
  }

  /** One act from a tiled memory and a tiled file keeps both tiled if and only if it does not halve a
      billing of the account. */
  lemma ActTiledIff(env: Env, m: Machine, act: Act, x: Id)
    requires Possible(env, m, act) && Tiled(m.st.mem, x) && Tiled(m.st.disk, x)
    ensures var t := ActStep(env, m, act).st; Tiled(t.mem, x) && Tiled(t.disk, x) <==> !Halves(env, m, act, x)
  {
    hide StepStore, Allowed, Tiled, FileAfter, HalfSave;
    var t := StepStore(env, m, act.ev);
    StepTiled(env, m, act.ev, x);
    SaveTrace.StepFile(env, m, act.ev);
    FileTiled(env, m.st, t, HalfSave(env, m, act.ev, x), if act.Done? then |t.log| else |m.st.log| + act.saves, x);
  }

  ghost predicate HalvesNothing(env: Env, m: Machine, acts: seq<Act>, x: Id)
    requires IsCrashRun(env, m, acts)
    decreases |acts|
  {
    acts == [] || (!Halves(env, m, acts[0], x) && HalvesNothing(env, ActStep(env, m, acts[0]), acts[1..], x))
  }

  /** Over every run with crashes, failed writes and automatic charging that halves no billing of the
      account, its billing invoices tile time from its creation to its current period. */
  lemma {:induction false} TilingSurvivesCrashes(env: Env, m: Machine, acts: seq<Act>, x: Id)
    requires IsCrashRun(env, m, acts) && Tiled(m.st.mem, x) && Tiled(m.st.disk, x) && HalvesNothing(env, m, acts, x)
    ensures var t := CrashRun(env, m, acts).st; Tiled(t.mem, x) && Tiled(t.disk, x)
    decreases |acts|
  {
    if acts != [] {
      hide Tiled, Possible, ActStep, Halves;
      ActTiledIff(env, m, acts[0], x);
      TilingSurvivesCrashes(env, ActStep(env, m, acts[0]), acts[1..], x);
    }
  }

  /** An account that has just been created is tiled by nothing. */
  lemma NewAccountTiled(s: Snapshot, x: Id)
    requires AccountsKeyed(s) && InvoicesKeyed(s) && Priced(s, x)
    requires s.accounts[x].PeriodStart == s.accounts[x].CreatedAt
    requires s.accounts[x].PeriodEnd == Advance(ThePlan(s, x).Period, s.accounts[x].PeriodStart)
    requires forall id :: id in s.invoices ==> s.invoices[id].AccountID != x
    ensures Tiled(s, x)
  {
    hide Advance;
    assert TiledBy(s, x, []);
  }
}
