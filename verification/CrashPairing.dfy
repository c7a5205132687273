/** When a reload keeps "every paid invoice has a payment". Only a settlement can expose a paid
    invoice without its payment, in the one state between its first two Save calls; this module
    follows that state into memory and file through every run with crashes and failed writes. */
module CrashPairing {
  import opened Wrappers
  import opened ControlModel
  import opened ControlSpec
  import opened ControlRuns
  import opened Ledger
  import opened SaveLog
  import opened Crash

  ghost predicate Paired(s: Snapshot) {
    forall id :: id in s.invoices && s.invoices[id].Status == Paid ==> HasPayment(s, id)
  }

  /** From st to t only Save calls happened, and none of the states they left differs from st in
      being paired. */
  ghost predicate Even(st: StoreState, t: StoreState) {
    && |st.log| <= |t.log| && t.log[..|st.log|] == st.log
    && (Paired(t.mem) <==> Paired(st.mem))
    && forall i :: |st.log| <= i < |t.log| ==> (Paired(t.log[i]) <==> Paired(st.mem))
  }

  lemma EvenReflexive(st: StoreState)
    ensures Even(st, st)
  {}

  lemma EvenTransitive(st: StoreState, t: StoreState, u: StoreState)
    requires Even(st, t) && Even(t, u)
    ensures Even(st, u)
  {
    hide Paired;
    assert u.log[..|st.log|] == u.log[..|t.log|][..|st.log|];
    forall i | |st.log| <= i < |u.log| ensures Paired(u.log[i]) <==> Paired(st.mem) {
      if i < |t.log| {
        assert u.log[i] == u.log[..|t.log|][i];
      }
    }
  }

  lemma CommitEven(env: Env, st: StoreState, mem: Snapshot)
    requires Paired(mem) <==> Paired(st.mem)
    ensures Even(st, Commit(env, st, mem))
  {
    hide Paired;
    assert Commit(env, st, mem).log[..|st.log|] == st.log;
  }

  // ---- single saves ------------------------------------------------------------------------

  /** What a Save leaves alone decides whether it can matter. */
  lemma SameLedgerPaired(s: Snapshot, t: Snapshot)
    requires SameLedger(s, t)
    ensures Paired(s) <==> Paired(t)
  {
    assert forall id :: HasPayment(s, id) <==> HasPayment(t, id);
  }

  lemma OtherSaved(env: Env, st: StoreState, mem: Snapshot)
    requires SameLedger(st.mem, mem)
    ensures Even(st, Commit(env, st, mem))
  {
    SameLedgerPaired(st.mem, mem);
    CommitEven(env, st, mem);
  }

  lemma UnpaidPaired(s: Snapshot, inv: Invoice)
    requires inv.Status != Paid && (inv.ID in s.invoices ==> s.invoices[inv.ID].Status != Paid)
    ensures Paired(WithInvoice(s, inv)) <==> Paired(s)
  {
    var t := WithInvoice(s, inv);
    assert forall id :: HasPayment(s, id) <==> HasPayment(t, id);
    assert forall id :: id != inv.ID ==> (id in s.invoices <==> id in t.invoices);
    assert forall id :: id in s.invoices && id != inv.ID ==> s.invoices[id] == t.invoices[id];
  }

  /** A Save of an invoice that neither was nor becomes paid. */
  lemma UnpaidSaved(env: Env, st: StoreState, inv: Invoice)
    requires inv.Status != Paid && (inv.ID in st.mem.invoices ==> st.mem.invoices[inv.ID].Status != Paid)
    ensures Even(st, SaveInvoice(env, st, inv))
  {
    UnpaidPaired(st.mem, inv);
    CommitEven(env, st, SaveInvoice(env, st, inv).mem);
  }

  // ---- settlement --------------------------------------------------------------------------

  /** The three states a settlement goes through. */
  lemma SettlementStates(s: Snapshot, invoice: Id, now: Time, pay: Payment)
    requires Durable(s) && invoice in s.invoices && s.invoices[invoice].Status == Open
    requires pay.ID !in s.payments && pay.InvoiceID == invoice
    ensures var u := WithInvoice(s, s.invoices[invoice].(Status := Paid, PaidAt := Some(now)));
            !Paired(u) && (Paired(WithPayment(u, pay)) <==> Paired(s))
  {
    var u := WithInvoice(s, s.invoices[invoice].(Status := Paid, PaidAt := Some(now)));
    var t := WithPayment(u, pay);
    assert s.invoices[invoice].ID == invoice;
    assert !HasPayment(u, invoice) by {
      assert forall p :: p in s.payments ==> Settles(s, s.payments[p]);
    }
    assert u.invoices[invoice].Status == Paid;
    assert HasPayment(t, invoice) by { assert t.payments[pay.ID] == pay; }
    forall id | id != invoice ensures HasPayment(t, id) <==> HasPayment(s, id) {
      if p :| p in s.payments && s.payments[p].InvoiceID == id {
        assert t.payments[p].InvoiceID == id;
      }
    }
    assert forall id :: id in s.invoices && id != invoice ==> t.invoices[id] == s.invoices[id];
    assert forall id :: id in t.invoices ==> id in s.invoices;
  }

  /** The states a run of Save calls leaves: all as before, but for the first one if it is the first
      save of a settlement. */
  ghost predicate Traced(env: Env, st: StoreState, t: StoreState, settles: bool) {
    var n := |st.log|;
    && n <= |t.log|
    && (forall i :: n <= i < |t.log| ==> (Paired(t.log[i]) <==> Paired(st.mem) && !(settles && i == n)))
    && (Paired(t.mem) <==> Paired(st.mem) && !(settles && !env.saved(n)))
    && (settles ==> n < |t.log| && (env.saved(n) <==> n + 2 <= |t.log|) && (n + 3 <= |t.log| ==> env.saved(n + 1)))
  }

  lemma EvenTraced(env: Env, st: StoreState, t: StoreState)
    requires Even(st, t)
    ensures Traced(env, st, t, false)
  {
    hide Paired;
  }

  predicate OpenInvoice(s: Snapshot, invoice: Id) {
    invoice in s.invoices && s.invoices[invoice].Status == Open
  }

  lemma SettleTraced(env: Env, st: StoreState, invoice: Id, how: string, now: Time, payID: Id)
    requires Durable(st.mem) && payID !in st.mem.payments
    ensures Traced(env, st, Settle(env, st, invoice, how, now, payID).0, OpenInvoice(st.mem, invoice))
  {
    var t := Settle(env, st, invoice, how, now, payID).0;
    if OpenInvoice(st.mem, invoice) {
      var inv := st.mem.invoices[invoice];
      var pay := SettlePayment(inv, how, now, payID);
      assert inv.ID == invoice;
      hide Durable, Outstanding, Paired, Reactivate, Traced;
      SettlementStates(st.mem, invoice, now, pay);
      var st1 := SaveInvoice(env, st, inv.(Status := Paid, PaidAt := Some(now)));
      var st2 := SavePayment(env, st1, pay);
      ReactivateShape(env, st2, inv.AccountID);
      SameLedgerPaired(st2.mem, Reactivate(env, st2, inv.AccountID).mem);
      ThreeSaves(env, st, st1, st2, Reactivate(env, st2, inv.AccountID), t);
    } else {
      EvenReflexive(st);
      EvenTraced(env, st, t);
    }
  }

  lemma ThreeSaves(env: Env, st: StoreState, st1: StoreState, st2: StoreState, st3: StoreState, t: StoreState)
    requires st1.log == st.log + [st1.mem] && st2.log == st1.log + [st2.mem]
    requires st3 == st2 || st3.log == st2.log + [st3.mem]
    requires !Paired(st1.mem) && (Paired(st2.mem) <==> Paired(st.mem)) && (Paired(st3.mem) <==> Paired(st.mem))
    requires t == if !Saves(env, st) then st1 else if !Saves(env, st1) then st2 else st3
    ensures Traced(env, st, t, true)
  {
    hide Paired;
  }

  lemma ReactivateShape(env: Env, st: StoreState, account: Id)
    ensures var t := Reactivate(env, st, account);
            SameLedger(st.mem, t.mem) && (t == st || t.log == st.log + [t.mem])
  {
    hide Outstanding;
  }

  // ---- every other operation ---------------------------------------------------------------

  lemma BillOneEven(env: Env, st: StoreState, id: Id, now: Time, invID: Id, payID: Id)
    requires Manual(env) && invID !in st.mem.invoices
    ensures var t := BillOne(env, st, id, now, invID, payID).st;
            Even(st, t) && t.mem.invoices.Keys <= st.mem.invoices.Keys + {invID}
  {
    hide Advance, Even;
    var t := BillOne(env, st, id, now, invID, payID).st;
    EvenReflexive(st);
    if Due(st.mem, id, now) {
      var a, plan := st.mem.accounts[id], st.mem.plans[st.mem.accounts[id].PlanID];
      var next := NextPeriod(a, plan);
      if plan.PriceCents <= 0 {
        OtherSaved(env, st, t.mem);
      } else {
        var st1 := SaveInvoice(env, st, ChargedInvoice(env, a, plan, now, invID));
        UnpaidSaved(env, st, ChargedInvoice(env, a, plan, now, invID));
        if Saves(env, st) {
          OtherSaved(env, st1, SaveAccount(env, st1, next).mem);
          EvenTransitive(st, st1, t);
        }
      }
    }
  }

  lemma {:induction false} BillAllEven(env: Env, st: StoreState, order: seq<Id>, now: Time, invIDs: Id -> Id,
                                       payIDs: Id -> Id)
    requires Manual(env) && FreshFor(invIDs, order, st.mem.invoices.Keys)
    requires forall i, j :: 0 <= i < j < |order| ==> order[i] != order[j]
    ensures Even(st, BillAll(env, st, order, now, invIDs, payIDs).st)
    decreases |order|
  {
    hide BillOne, Even;
    if order == [] {
      EvenReflexive(st);
    } else {
      var id := order[0];
      var one := BillOne(env, st, id, now, invIDs(id), payIDs(id));
      BillOneEven(env, st, id, now, invIDs(id), payIDs(id));
      if !one.failed {
        FreshLater(invIDs, order, st.mem.invoices.Keys, one.st.mem.invoices.Keys);
        hide FreshFor;
        BillAllEven(env, one.st, order[1..], now, invIDs, payIDs);
        EvenTransitive(st, one.st, BillAll(env, one.st, order[1..], now, invIDs, payIDs).st);
      }
    }
  }

  lemma {:induction false} SuspendAllEven(env: Env, st: StoreState, order: seq<Id>, cutoff: Time)
    ensures Even(st, SuspendAll(env, st, order, cutoff).0)
    decreases |order|
  {
    hide Delinquent, Even;
    EvenReflexive(st);
    if order != [] {
      var st1 := SuspendOne(env, st, order[0], cutoff).0;
      if st1 != st {
        OtherSaved(env, st, st1.mem);
      }
      SuspendAllEven(env, st1, order[1..], cutoff);
      EvenTransitive(st, st1, SuspendAll(env, st1, order[1..], cutoff).0);
    }
  }

  // ---- every event -------------------------------------------------------------------------

  /** The event settles an invoice that is open. */
  ghost predicate SettlesOpen(m: Machine, ev: Event) {
    match ev
    case EvPay(invoice, _, _, _) => OpenInvoice(m.st.mem, invoice)
    case EvWebhook(_, verified, _, _) =>
      && verified.Ok? && verified.value.paid && verified.value.invoice != ""
      && OpenInvoice(m.st.mem, verified.value.invoice)
    case _ => false
  }

  lemma StepTraced(env: Env, m: Machine, ev: Event)
    requires Manual(env) && Allowed(m, ev) && Durable(m.st.mem)
    ensures Traced(env, m.st, StepStore(env, m, ev), SettlesOpen(m, ev))
  {
    assert InvoicesKeyed(m.st.mem);
    hide Advance, Wrap64, BillAll, Settle, SuspendAll, FreshFor, Even, Traced, Durable, Manual, OpenInvoice,
         InvoicesKeyed;
    match ev
    case EvPay(invoice, how, now, payID) =>
      SettleTraced(env, m.st, invoice, how, now, payID);
    case EvWebhook(provider, verified, now, payID) =>
      if verified.Ok? && verified.value.paid && verified.value.invoice != "" {
        SettleTraced(env, m.st, verified.value.invoice, provider, now, payID);
      } else {
        EvenReflexive(m.st);
        EvenTraced(env, m.st, m.st);
      }
    case _ =>
      StepEven(env, m, ev);
      EvenTraced(env, m.st, StepStore(env, m, ev));
  }

  lemma StepEven(env: Env, m: Machine, ev: Event)
    requires Manual(env) && Allowed(m, ev) && InvoicesKeyed(m.st.mem) && !ev.EvPay? && !ev.EvWebhook?
    ensures Even(m.st, StepStore(env, m, ev))
  {
    hide Advance, Wrap64, BillAll, SuspendAll, FreshFor, Even, Manual;
    var st, t := m.st, StepStore(env, m, ev);
    EvenReflexive(st);
    match ev
    case EvRunBilling(now, order, invIDs, payIDs) => BillAllEven(env, st, order, now, invIDs, payIDs);
    case EvEnforce(now, grace, order) => SuspendAllEven(env, st, order, now - grace);
    case EvIssueInvoice(id, amount, now, invID) =>
      if t != st { UnpaidSaved(env, st, t.mem.invoices[invID]); }
    case EvEndCheckout(call, session) =>
      if call in m.pending && session.Some? {
        RecordEven(env, st, m.pending[call], session.value);
      }
    case _ =>
      if t != st { OtherSaved(env, st, t.mem); }
  }

  lemma RecordEven(env: Env, st: StoreState, req: Request, reference: string)
    requires InvoicesKeyed(st.mem)
    ensures Even(st, RecordCheckout(env, st, req, reference))
  {
    hide Even;
    EvenReflexive(st);
    if req.InvoiceID in st.mem.invoices && st.mem.invoices[req.InvoiceID].Status == Open {
      UnpaidSaved(env, st, st.mem.invoices[req.InvoiceID].(CheckoutProvider := req.Provider, CheckoutRef := reference));
    }
  }

  // ---- one act -----------------------------------------------------------------------------

  /** Whether memory and file are paired. */
  datatype Pairing = Pairing(mem: bool, file: bool)

  ghost function PairingOf(st: StoreState): Pairing {
    Pairing(Paired(st.mem), Paired(st.disk))
  }

  /** How many Save calls the act makes. */
  ghost function SavesOf(env: Env, m: Machine, act: Act): nat
    requires Possible(env, m, act)
  {
    match act
    case CrashDuring(_, saves) => saves
    case Done(ev) =>
      var made := |StepStore(env, m, ev).log| - |m.st.log|;
      if made < 0 then 0 else made
  }

  /** The act settles an open invoice, and the last write it gets to is that of its first Save. */
  ghost predicate CutsShort(env: Env, m: Machine, act: Act)
    requires Possible(env, m, act)
  {
    var n, k := |m.st.log|, SavesOf(env, m, act);
    SettlesOpen(m, act.ev) && k >= 1 && env.saved(n) && !(k >= 2 && env.saved(n + 1))
  }

  /** What an act makes of the pairing, from what failed: a cut settlement exposes its invoice in the
      file, another write copies memory there, and a settlement that cannot write its invoice at all
      loses the payment in memory. A crash replaces memory by the file. */
  ghost function PairingAfter(env: Env, m: Machine, act: Act, p: Pairing): Pairing
    requires Possible(env, m, act)
  {
    var n, k := |m.st.log|, SavesOf(env, m, act);
    var file := if LastWrite(env, n, n + k).None? then p.file else p.mem && !CutsShort(env, m, act);
    match act
    case Done(ev) => Pairing(p.mem && !(SettlesOpen(m, ev) && !env.saved(n)), file)
    case CrashDuring(_, _) => Pairing(file, file)
  }

  lemma FilePaired(env: Env, st: StoreState, t: StoreState, settles: bool, k: nat)
    requires Traced(env, st, t, settles) && |st.log| + k <= |t.log|
    ensures var n := |st.log|;
            Paired(FileAfter(env, st.disk, t.log, n, n + k)) <==>
            if LastWrite(env, n, n + k).None? then Paired(st.disk)
            else Paired(st.mem) && !(settles && k >= 1 && env.saved(n) && !(k >= 2 && env.saved(n + 1)))
  {
    hide Paired, FileAfter, LastWrite;
    FileIsLastWrite(env, st.disk, t.log, |st.log|, |st.log| + k);
  }

  /** A first save that reaches the file leaves a last one that does. */
  lemma {:induction false} FirstWrite(env: Env, lo: nat, hi: nat)
    ensures lo < hi && env.saved(lo) ==> LastWrite(env, lo, hi).Some?
    decreases hi
  {
    if lo + 1 < hi {
      FirstWrite(env, lo, hi - 1);
    }
  }

  /** Each act has exactly that effect. */
  lemma ActPairing(env: Env, m: Machine, act: Act)
    requires Manual(env) && Possible(env, m, act) && Safe(m.st)
    ensures PairingOf(ActStep(env, m, act).st) == PairingAfter(env, m, act, PairingOf(m.st))
  {
    hide StepStore, Durable, Grows, Allowed, Manual, FileAfter, Paired, LastWrite, SettlesOpen;
    assert Durable(m.st.mem);
    hide Safe;
    var t := StepStore(env, m, act.ev);
    StepGrows(env, m, act.ev);
    StepTraced(env, m, act.ev);
    assert |m.st.log| <= |t.log| && t.disk == FileAfter(env, m.st.disk, t.log, |m.st.log|, |t.log|) by {
      GrownFile(env, m.st, t);
    }
    FilePaired(env, m.st, t, SettlesOpen(m, act.ev), SavesOf(env, m, act));
  }

  lemma GrownFile(env: Env, st: StoreState, t: StoreState)
    requires Grows(env, st, t)
    ensures |st.log| <= |t.log| && t.disk == FileAfter(env, st.disk, t.log, |st.log|, |t.log|)
  {}

  /** One settlement, by an operator or a webhook, cut short after some of its Save calls: when memory
      and file are paired before, the reloaded state is paired if and only if the invoice was not
      open, or its save did not reach the file, or the payment's did too. */
  lemma ReloadPairedIff(env: Env, m: Machine, ev: Event, saves: nat)
    requires Manual(env) && Possible(env, m, CrashDuring(ev, saves)) && Safe(m.st)
    requires Paired(m.st.mem) && Paired(m.st.disk)
    ensures var n := |m.st.log|;
            Paired(ActStep(env, m, CrashDuring(ev, saves)).st.mem) <==>
            !(SettlesOpen(m, ev) && saves >= 1 && env.saved(n) && !(saves >= 2 && env.saved(n + 1)))
  {
    ActPairing(env, m, CrashDuring(ev, saves));
    FirstWrite(env, |m.st.log|, |m.st.log| + saves);
    hide Possible, ActStep, Safe, Paired, SettlesOpen, LastWrite;
  }

  /** The same without a crash: memory loses the pairing exactly when the invoice's save fails, and
      the file exactly when only the payment's does. */
  lemma DonePairedIff(env: Env, m: Machine, ev: Event)
    requires Manual(env) && Allowed(m, ev) && Safe(m.st)
    requires Paired(m.st.mem) && Paired(m.st.disk)
    ensures var n, t := |m.st.log|, StepStore(env, m, ev);
            && (Paired(t.mem) <==> !(SettlesOpen(m, ev) && !env.saved(n)))
            && (Paired(t.disk) <==> !(SettlesOpen(m, ev) && env.saved(n) && !env.saved(n + 1)))
  {
    assert Durable(m.st.mem);
    StepTraced(env, m, ev);
    ActPairing(env, m, Done(ev));
    FirstWrite(env, |m.st.log|, |m.st.log| + SavesOf(env, m, Done(ev)));
    hide StepStore, Allowed, Safe, Paired, SettlesOpen, Manual, Durable, LastWrite;
  }

  // ---- every run ---------------------------------------------------------------------------

  ghost function PairingOver(env: Env, m: Machine, acts: seq<Act>, p: Pairing): Pairing
    requires IsCrashRun(env, m, acts)
    decreases |acts|
  {
    if acts == [] then p
    else PairingOver(env, ActStep(env, m, acts[0]), acts[1..], PairingAfter(env, m, acts[0], p))
  }

  /** Over every run with crashes and failed writes anywhere, memory and file are paired exactly when
      following the cut and failed settlements says so. */
  lemma {:induction false} RunPairing(env: Env, m: Machine, acts: seq<Act>)
    requires Manual(env) && IsCrashRun(env, m, acts) && Safe(m.st)
    ensures PairingOf(CrashRun(env, m, acts).st) == PairingOver(env, m, acts, PairingOf(m.st))
    decreases |acts|
  {
    if acts != [] {
      hide Safe, Possible, ActStep, Manual, PairingAfter, PairingOf;
      ActSafe(env, m, acts[0]);
      ActPairing(env, m, acts[0]);
      RunPairing(env, ActStep(env, m, acts[0]), acts[1..]);
    }
  }

  /** The act lets a settlement fail between its two Save calls, in memory or in the file. */
  ghost predicate Unpairs(env: Env, m: Machine, act: Act)
    requires Possible(env, m, act)
  {
    CutsShort(env, m, act) || (act.Done? && SettlesOpen(m, act.ev) && !env.saved(|m.st.log|))
  }

  ghost predicate UnpairsNothing(env: Env, m: Machine, acts: seq<Act>)
    requires IsCrashRun(env, m, acts)
    decreases |acts|
  {
    acts == [] || (!Unpairs(env, m, acts[0]) && UnpairsNothing(env, ActStep(env, m, acts[0]), acts[1..]))
  }

  /** A step from a paired memory and file loses the pairing of one of them if and only if it unpairs;
      so a run without such a step always reloads a paired state. */
  lemma UnpairsIff(env: Env, m: Machine, act: Act)
    requires Manual(env) && Possible(env, m, act) && Safe(m.st) && Paired(m.st.mem) && Paired(m.st.disk)
    ensures var t := ActStep(env, m, act).st; Paired(t.mem) && Paired(t.disk) <==> !Unpairs(env, m, act)
  {
    ActPairing(env, m, act);
    FirstWrite(env, |m.st.log|, |m.st.log| + SavesOf(env, m, act));
    assert PairingOf(m.st) == Pairing(true, true);
    hide Possible, ActStep, Safe, Paired, PairingAfter, SavesOf, Unpairs, Manual, LastWrite;
    PairingIff(env, m, act);
  }

  lemma PairingIff(env: Env, m: Machine, act: Act)
    requires Possible(env, m, act)
    requires var n := |m.st.log|;
             SavesOf(env, m, act) >= 1 && env.saved(n) ==> LastWrite(env, n, n + SavesOf(env, m, act)).Some?
    ensures PairingAfter(env, m, act, Pairing(true, true)) == Pairing(true, true) <==> !Unpairs(env, m, act)
  {
    hide Possible, SettlesOpen, SavesOf, LastWrite;
  }

  lemma {:induction false} PairedRuns(env: Env, m: Machine, acts: seq<Act>)
    requires Manual(env) && IsCrashRun(env, m, acts) && Safe(m.st) && Paired(m.st.mem) && Paired(m.st.disk)
    requires UnpairsNothing(env, m, acts)
    ensures var t := CrashRun(env, m, acts).st; Paired(t.mem) && Paired(t.disk)
    decreases |acts|
  {
    if acts != [] {
      hide Safe, Possible, ActStep, Manual, Unpairs, Paired;
      ActSafe(env, m, acts[0]);
      UnpairsIff(env, m, acts[0]);
      PairedRuns(env, ActStep(env, m, acts[0]), acts[1..]);
    }
  }
}
