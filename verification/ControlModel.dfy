/** The records of the control server (core/control/model.go) and its store: five maps in memory
    and, when a path is configured, a snapshot file (core/control/store.go). */
module ControlModel {
  import opened Wrappers
  import CivilTime

  type Id = string
  type Time = CivilTime.Time
  type Money = int

  /** Both branches of the period switch add one month. */
  function Advance(period: string, t: Time): Time {
    CivilTime.AddMonth(t)
  }

  /** Whatever the period is called, the step leads to the same day and time one month later, days past
      the end of that month carried over. */
  lemma AdvanceIsMonth(period: string, t: Time)
    ensures var next := Advance(period, t);
            && next % CivilTime.DAY == t % CivilTime.DAY
            && CivilTime.CivilDate(next / CivilTime.DAY) == CivilTime.MonthLater(CivilTime.CivilDate(t / CivilTime.DAY))
  {
    CivilTime.AddMonthLands(t);
    hide CivilTime.CivilDate, CivilTime.MonthLater, CivilTime.AddMonth;
  }

  lemma AdvanceMovesOn(period: string, t: Time)
    ensures t + 28 * CivilTime.DAY <= Advance(period, t) <= t + 31 * CivilTime.DAY
    ensures t < Advance(period, t)
  {
    CivilTime.AddMonthLength(t);
  }

  datatype Plan = Plan(ID: Id, Name: string, QuotaBytes: int, PriceCents: Money, Currency: string, Period: string)

  /** SetStatus stores whatever string it is given. */
  datatype AccountStatus = Active | Suspended | Closed | OtherStatus(name: string)

  datatype Account = Account(ID: Id, Name: string, Email: string, PlanID: Id, Status: AccountStatus,
                             TokenHash: string, CreatedAt: Time, PeriodStart: Time, PeriodEnd: Time)

  datatype Usage = Usage(AccountID: Id, BytesUsed: int, ObjectCount: int, UpdatedAt: Time)

  datatype InvoiceStatus = Open | Paid | Void

  datatype Invoice = Invoice(ID: Id, AccountID: Id, PeriodStart: Time, PeriodEnd: Time, AmountCents: Money,
                             Currency: string, Status: InvoiceStatus, CreatedAt: Time, PaidAt: Option<Time>,
                             CheckoutProvider: string, CheckoutRef: string)

  datatype Payment = Payment(ID: Id, AccountID: Id, InvoiceID: Id, AmountCents: Money, Method: string,
                             CreatedAt: Time)

  datatype Error = NotFound | QuotaExceeded | NotActive | Invalid | PersistFailed | ProviderFailed

  datatype Snapshot = Snapshot(plans: map<Id, Plan>, accounts: map<Id, Account>, usage: map<Id, Usage>,
                               invoices: map<Id, Invoice>, payments: map<Id, Payment>)

  /** Accounts are stored under their ids. */
  ghost predicate AccountsKeyed(s: Snapshot) {
    forall id :: id in s.accounts ==> s.accounts[id].ID == id
  }

  /** Invoices are stored under their ids. */
  ghost predicate InvoicesKeyed(s: Snapshot) {
    forall id :: id in s.invoices ==> s.invoices[id].ID == id
  }

  const EMPTY := Snapshot(map[], map[], map[], map[], map[])

  /** The store: what is in memory, what the file holds, and every in-memory state a Save call
      has produced, oldest first. */
  datatype StoreState = StoreState(mem: Snapshot, disk: Snapshot, log: seq<Snapshot>)

  /** What the environment decides: whether the n-th Save call manages to write the file, and what
      the payment provider answers to a charge. */
  datatype Env = Env(saved: nat -> bool, charge: (Account, Invoice) -> Option<Charge>)

  datatype Charge = Charge(amount: Money, how: string)

  /** One Save call: memory changes first, then the file is replaced or left alone. */
  function Commit(env: Env, st: StoreState, mem: Snapshot): StoreState {
    StoreState(mem, if env.saved(|st.log|) then mem else st.disk, st.log + [mem])
  }

  /** Whether the next Save call returns no error. */
  predicate Saves(env: Env, st: StoreState) {
    env.saved(|st.log|)
  }

  function SavePlan(env: Env, st: StoreState, p: Plan): StoreState {
    Commit(env, st, st.mem.(plans := st.mem.plans[p.ID := p]))
  }

  function SaveAccount(env: Env, st: StoreState, a: Account): StoreState {
    Commit(env, st, st.mem.(accounts := st.mem.accounts[a.ID := a]))
  }

  function SaveUsage(env: Env, st: StoreState, u: Usage): StoreState {
    Commit(env, st, st.mem.(usage := st.mem.usage[u.AccountID := u]))
  }

  function SaveInvoice(env: Env, st: StoreState, inv: Invoice): StoreState {
    Commit(env, st, st.mem.(invoices := st.mem.invoices[inv.ID := inv]))
  }

  function SavePayment(env: Env, st: StoreState, p: Payment): StoreState {
    Commit(env, st, st.mem.(payments := st.mem.payments[p.ID := p]))
  }

  function GetUsage(s: Snapshot, id: Id): Usage {
    if id in s.usage then s.usage[id] else Usage(id, 0, 0, 0)
  }

  // ---- 64-bit arithmetic -------------------------------------------------------------------

  const MAX_INT64: int := 0x7fff_ffff_ffff_ffff
  const TWO_64: int := 0x1_0000_0000_0000_0000

  predicate IsInt64(n: int) { -MAX_INT64 - 1 <= n <= MAX_INT64 }

  /** The two's complement value an int64 variable holds for n. */
  function Wrap64(n: int): (r: int)
    ensures IsInt64(r)
    ensures IsInt64(n) ==> r == n
  {
    (n + MAX_INT64 + 1) % TWO_64 - MAX_INT64 - 1
  }

  // ---- sums over maps ----------------------------------------------------------------------

  /** The sum of f over a finite set, in whatever order. */
  ghost function SumOver<K(!new)>(keys: set<K>, f: K -> int): int {
    if keys == {} then 0
    else
      var k :| k in keys;
      f(k) + SumOver(keys - {k}, f)
  }

  lemma {:induction false} SumRemove<K(!new)>(keys: set<K>, f: K -> int, x: K)
    requires x in keys
    ensures SumOver(keys, f) == f(x) + SumOver(keys - {x}, f)
  {
    var k :| k in keys && SumOver(keys, f) == f(k) + SumOver(keys - {k}, f);
    if k != x {
      SumRemove(keys - {k}, f, x);
      assert keys - {k} - {x} == keys - {x} - {k};
      SumRemove(keys - {x}, f, k);
    }
  }

  lemma SumAdd<K(!new)>(keys: set<K>, f: K -> int, x: K)
    requires x !in keys
    ensures SumOver(keys + {x}, f) == f(x) + SumOver(keys, f)
  {
    SumRemove(keys + {x}, f, x);
    assert keys + {x} - {x} == keys;
  }

  lemma {:induction false} SumSame<K(!new)>(keys: set<K>, f: K -> int, g: K -> int)
    requires forall k :: k in keys ==> f(k) == g(k)
    ensures SumOver(keys, f) == SumOver(keys, g)
  {
    if keys != {} {
      var k :| k in keys;
      SumRemove(keys, f, k);
      SumRemove(keys, g, k);
      SumSame(keys - {k}, f, g);
    }
  }

  lemma {:induction false} SumBounds<K(!new)>(keys: set<K>, f: K -> int, g: K -> int)
    requires forall k :: k in keys ==> f(k) <= g(k)
    ensures SumOver(keys, f) <= SumOver(keys, g)
  {
    if keys != {} {
      var k :| k in keys;
      SumRemove(keys, f, k);
      SumRemove(keys, g, k);
      SumBounds(keys - {k}, f, g);
    }
  }

  /** Elements where f vanishes do not contribute. */
  lemma {:induction false} SumOutside<K(!new)>(keys: set<K>, part: set<K>, f: K -> int)
    requires part <= keys && forall k :: k in keys && k !in part ==> f(k) == 0
    ensures SumOver(keys, f) == SumOver(part, f)
    decreases keys - part
  {
    if k :| k in keys && k !in part {
      SumOutside(keys, part + {k}, f);
      SumAdd(part, f, k);
      assert SumOver(keys, f) == SumOver(part + {k}, f);
    } else {
      assert keys == part;
    }
  }

  /** Changing one term changes the sum by the difference. */
  lemma SumChange<K(!new)>(keys: set<K>, f: K -> int, g: K -> int, x: K)
    requires x in keys && forall k :: k in keys && k != x ==> f(k) == g(k)
    ensures SumOver(keys, g) == SumOver(keys, f) - f(x) + g(x)
  {
    SumRemove(keys, f, x);
    SumRemove(keys, g, x);
    SumSame(keys - {x}, f, g);
  }

  /** Adding one term to the sum. */
  lemma SumExtend<K(!new)>(keys: set<K>, f: K -> int, g: K -> int, x: K)
    requires x !in keys && forall k :: k in keys ==> f(k) == g(k)
    ensures SumOver(keys + {x}, g) == SumOver(keys, f) + g(x)
  {
    SumAdd(keys, g, x);
    SumSame(keys, f, g);
  }

  /** A sum of sums. */
  lemma {:induction false} SumSplit<K(!new)>(keys: set<K>, f: K -> int, g: K -> int, h: K -> int)
    requires forall k :: k in keys ==> h(k) == f(k) + g(k)
    ensures SumOver(keys, h) == SumOver(keys, f) + SumOver(keys, g)
  {
    if k :| k in keys {
      SumRemove(keys, f, k);
      SumRemove(keys, g, k);
      SumRemove(keys, h, k);
      SumSplit(keys - {k}, f, g, h);
    }
  }

  lemma {:induction false} SumNonNegative<K(!new)>(keys: set<K>, f: K -> int)
    requires forall k :: k in keys ==> f(k) >= 0
    ensures SumOver(keys, f) >= 0
  {
    if k :| k in keys {
      SumRemove(keys, f, k);
      SumNonNegative(keys - {k}, f);
    }
  }

  /** A sum of non-negative terms is zero only if every term is. */
  lemma SumZero<K(!new)>(keys: set<K>, f: K -> int, x: K)
    requires (forall k :: k in keys ==> f(k) >= 0) && x in keys
    ensures f(x) <= SumOver(keys, f)
  {
    SumRemove(keys, f, x);
    SumNonNegative(keys - {x}, f);
  }
}
