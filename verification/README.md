# Verified model of the self-owned vault

This project models the core of a self-owned file vault and proves what it is for:

- **Secret sharing** (`GF256`, `GFTables`, `Polynomial`, `Shamir`, `ShamirTheorems`, `ShareText`):
  the tables of GF(256) filled in place, the algebra behind them, `Split`, `Combine` and the text
  form in which `vaultctl` prints and reads shares.
- **The control server** (`CivilTime`, `ControlModel`, `ControlSpec`, `ControlService`,
  `ControlRuns`): plans, accounts, quota, billing, settlement and suspension. `ControlService` holds
  the store and the service as objects that update their maps; every method is proved equal to a
  function of `ControlSpec`, and `ControlAnswers` says what those functions answer and change.
  `ControlRuns` makes a state machine of those functions, in which a
  checkout is two separate events, so that theorems are about every interleaving. They follow in
  `Ledger`, `Settlement`, `Delinquency`, `Billing` and `Quota`; then, with every Save call as a step
  (`SaveLog`, `SaveTrace`), in `Crash`, `CrashPairing`, `CrashBilling` and `CrashTiling`.
- **The storage node** (`Node`, `NodeTheorems`): Has, Reserve and Put as separate steps of many
  requests on many nodes, next to the control server.
- **The replicated store** (`CAS`, `CASTheorems`) over backends that may fail, lie, lose or corrupt.
- **The vault** (`AEAD`, `Vault`, `VaultTheorems`): envelopes, chunks, manifest, round trip.

Conventions. A store is a value with the state in memory, the content of its file and the history
of every state a Save call left in memory. `Env` decides which Save calls manage to write the file
and what the provider answers to a charge; `Conduct` and `Weather` decide how backends, nonces and
writers behave. All theorems are for every such choice unless they say otherwise. Byte counts and
money that the program keeps in int64 go through `Wrap64` where they are added or subtracted.

## Where the code does less than its comments or tests say

- `RunBilling` speaks of active accounts (core/control/service.go:273) but skips only closed ones
  (line 281): suspended accounts are billed. The model follows the code; `ControlSpec.Due` is the
  condition and `Billing.BillAllEffect` its effect.
- One `RunBilling` moves an account by one period; `Billing.CatchUp` says how many runs it takes.
- `BytesUsed + bytes` (core/control/service.go:195) wraps in int64: `Quota.ReserveExactIffNoWrap`
  gives the exact condition, `Quota.WrapLetsEverythingThrough` an input.
- A settlement whose invoice cannot be saved leaves memory saying paid with no payment
  (core/control/service.go:385-389): `Ledger.StepConsistentIff`. For the same reason a suspended
  account may stay suspended without a debt: `Delinquency.SettleKeepsOweIff`. A failed write or a
  crash between the two saves leaves the same in the file: `CrashPairing.ReloadPairedIff`.
- `RunBilling` is called idempotent per period (core/control/service.go:274-275). A crash after the
  save of an invoice and before that of its account makes it bill the period again:
  `CrashBilling.ReloadShowsIff`, `CrashBilling.PeriodBilledAgain`.
- `outstanding` adds up open invoices in int64 (core/control/service.go:264): debts of a positive multiple
  of 2^64 cents read as none. `Ledger.OutstandingZero` and `Delinquency.ReactivatesExactly` give the
  exact condition, `Delinquency.WrappedDebtReactivates` an input.
- `Get` announces that corrupted copies are replaced (core/cas/cas.go:82-83); lines 102-103 skip
  every backend that has a file: `CASTheorems.HealsUnlessCorrupted`.
- `NewStore` counts backends without asking whether they differ (core/cas/cas.go:57):
  `CASTheorems.SurvivesAnyLossIff`.
- A nil slice for the empty block reads as not found (core/cas/cas.go:97):
  `CASTheorems.GetRefinesMap`.
- Threshold minus one shares can combine to the right secret by chance
  (core/shamir/shamir_test.go:37-51 expects a wrong one): `ShamirTheorems.OneShareShort`.
- `cmdCombine` does not look at the scanner's error, so an overlong line ends the input silently
  (core/cmd/vaultctl/main.go:280-291): `ShareText.PipelineRoundTrip`.

## Model

| member | source | states |
|---|---|---|
| GF256.MulIsTheRemainder | core/shamir/shamir.go:17 | The product of the field is the one and only byte congruent to the carry-less product modulo x^8+x^4+x^3+x+1 (section 4.2 of FIPS 197). |
| GF256.MulCommutative | core/shamir/shamir.go:41-46 | The product is commutative. |
| GF256.MulAssociative | core/shamir/shamir.go:41-46 | The product is associative. |
| GF256.DistributeLeft | core/shamir/shamir.go:41-46 | The product distributes over xor. |
| GF256.InverseExists | core/shamir/shamir.go:48-57 | Every non-zero byte has an inverse. |
| GF256.OrderOfThree | core/shamir/shamir.go:23-35 | A power of 3 is 1 exactly when 255 divides the exponent. |
| GF256.PowSurjective | core/shamir/shamir.go:23-35 | Every non-zero byte is one of the first 255 powers of 3, so the log table is filled. |
| GFTables.Tables.constructor | core/shamir/shamir.go:23-39 | The two loops build valid tables: entry i of gfExp is the i-th power of 3 and gfLog its inverse. |
| GFTables.Tables.MutualInverses | core/shamir/shamir.go:23-39 | gfExp and gfLog are mutual inverses on the non-zero bytes. |
| GFTables.Tables.GfMul | core/shamir/shamir.go:41-46 | Table multiplication is the field product, without an index out of bounds. |
| GFTables.Tables.GfDiv | core/shamir/shamir.go:48-57 | Table division undoes the field product; it panics exactly for the divisor zero. |
| Polynomial.EvalIsTermSum | core/shamir/shamir.go:58-67 | Horner's rule computes the sum of the terms p[i] * x^i. |
| Polynomial.TooManyRoots | core/shamir/shamir.go:111-112 | A polynomial with as many distinct roots as coefficients is zero. |
| Polynomial.InterpolationExists | core/shamir/shamir.go:133-149 | Lagrange's formula gives a polynomial of the right size through all points. |
| Polynomial.InterpolationUnique | core/shamir/shamir.go:133-149 | There is only one such polynomial. |
| Shamir.EvalHorner | core/shamir/shamir.go:60-67 | The loop from the highest coefficient down computes the polynomial's value. |
| Shamir.Split | core/shamir/shamir.go:77-109 | The loops that fill the shares in place give, for every draw of coefficients, the values of the drawn polynomials at 1..parts, or the first parameter error. |
| Shamir.CombineByte | core/shamir/shamir.go:133-148 | The middle loop computes the Lagrange sum at 0; the division never panics. |
| Shamir.Combine | core/shamir/shamir.go:113-151 | The validation loop reports the first bad share; otherwise every byte is the interpolated value at 0. |
| ShamirTheorems.SplitOk | core/shamir/shamir.go:77-103 | Split succeeds exactly for a non-empty secret, 2 <= threshold <= parts <= 255 and working randomness. |
| ShamirTheorems.SplitShape | core/shamir/shamir.go:91-95 | As many shares as asked for, numbered from 1, each as long as the secret. |
| ShamirTheorems.SplitRefuses | core/shamir/shamir.go:77-103 | Each error's cause, in the order of the checks. |
| ShamirTheorems.AcceptableIffOk | core/shamir/shamir.go:113-130 | Combine accepts exactly two or more shares with distinct non-zero X and equal lengths. |
| ShamirTheorems.CombineRefuses | core/shamir/shamir.go:113-130 | A refused set has a first bad share, and the error says what is wrong with it. |
| ShamirTheorems.RoundTrip | core/shamir/shamir.go:76-151 | For every secret, draw and selection of at least threshold distinct shares in any order, Combine returns the secret. |
| ShamirTheorems.CombineIsUniqueInterpolation | core/shamir/shamir.go:111-151 | For any accepted share set the combined byte is the value at 0 of the one polynomial of degree below the share count through its points. |
| ShamirTheorems.OrderDoesNotMatter | core/shamir/shamir.go:111-151 | The result does not depend on share order. |
| ShamirTheorems.OneByteChangesOneByte | core/shamir/shamir.go:133-149 | Changing one Y byte of one share changes exactly that byte of the result. |
| ShamirTheorems.ExactlyOnePolynomial | core/shamir/shamir.go:5-6 | For threshold - 1 shares and every candidate byte exactly one polynomial of the shape Split draws has that constant term and gives those shares. |
| ShamirTheorems.SharesFitEverySecret | core/shamir/shamir.go:5-6 | Every other secret of the same length has a draw under which Split hands out exactly the same threshold - 1 shares. |
| ShamirTheorems.CompatibleDrawIsUnique | core/shamir/shamir.go:97-106 | That draw is unique, so the shares say nothing about the secret. |
| ShamirTheorems.FewerSharesFitEverySecret | core/shamir/shamir.go:5-6 | Fewer shares than threshold - 1 fit every other secret too. |
| ShamirTheorems.OneShareShort | core/shamir/shamir_test.go:37-51 | With one share missing a byte comes out right exactly when its top coefficient was drawn as zero. |
| ShamirTheorems.SharesShort | core/shamir/shamir_test.go:37-51 | With any number missing and two or more held, exactly when the drawn polynomial divided by the product of the (x + X) held has constant term zero. |
| ShareText.HexRoundTrip | core/cmd/vaultctl/main.go:265-273 | Decoding undoes the hex coding of section 8 of RFC 4648. |
| ShareText.DecodesIff | core/cmd/vaultctl/main.go:306-314 | A text decodes to exactly the bytes whose coding it is, in either case of its letters. |
| ShareText.ParseShareAnswers | core/cmd/vaultctl/main.go:301-315 | Which lines are shares, and which part of any other is wrong. |
| ShareText.ParseShareLine | core/cmd/vaultctl/main.go:301-315 | parseShare gives back the share a printed line was made from. |
| ShareText.CmdSplit | core/cmd/vaultctl/main.go:265-274 | The loop prints the two comment lines and one line per share. |
| ShareText.CmdCombine | core/cmd/vaultctl/main.go:277-299 | The loop over scanned lines trims, skips blanks and comments, stops at the first bad line and combines the rest. |
| ShareText.CombineTextAnswers | core/cmd/vaultctl/main.go:277-299 | The combined key exactly when every share line parses and the shares are acceptable; otherwise the first bad line's error, or what Combine finds wrong. |
| ShareText.TextRoundTrip | core/cmd/vaultctl/main.go:277-315 | Any text whose other lines are blank or comments and whose share lines are a selection of at least threshold printed ones, in any order, yields the master key. |
| ShareText.FilterAnswers | core/cmd/vaultctl/main.go:283-285 | Among comments, blank lines and shares with white space around them, exactly the shares get through, without it. |
| ShareText.TypedRoundTrip | core/cmd/vaultctl/main.go:277-299 | Such lines with a selection of at least threshold shares in any order, one per line, the last with or without newline, yield the master key. |
| ShareText.PipelineRoundTrip | core/cmd/vaultctl/main.go:254-299 | Feeding all of cmdSplit's output to cmdCombine yields the master key if and only if a share line fits the scanner's buffer. |
| CivilTime.AddMonthLength | core/control/model.go:21-28 | The step is as long as the month it starts in, 28 to 31 days. |
| CivilTime.AddMonthLands | core/control/model.go:21-28 | It lands on the same day of the next month, or as many days into the month after as the day overflows, at the same time of day. |
| CivilTime.DaysBeforeMonthClosed | core/control/model.go:21-28 | The calendar behind the step agrees with the closed form for the days before a month. |
| CivilTime.MonthLengthClosed | core/control/model.go:21-28 | Month lengths and leap years in closed form. |
| CivilTime.KnownSteps | core/control/model.go:21-28 | From 15 June to 15 July, and from 31 January to 3 March. |
| ControlModel.AdvanceIsMonth | core/control/model.go:21-28 | Under any name a period is one calendar month. |
| ControlService.Store.Persist | core/control/store.go:57-74 | The file becomes the state in memory or stays as it is, and the caller is told which. |
| ControlService.Store.SaveInvoice | core/control/store.go:158-163 | Memory changes first, whether or not the file can be written. |
| ControlService.Store.ListInvoices | core/control/store.go:175-185 | The invoices of one account; the empty id stands for all. |
| ControlService.Service.CreatePlan | core/control/service.go:101-116 | New store and result, with the defaults and errors of the code. |
| ControlService.Service.CreateAccount | core/control/service.go:124-149 | New store and result: active, with the first period starting now. |
| ControlService.Service.SetStatus | core/control/service.go:160-169 | Any status string is stored. |
| ControlService.Service.Reserve | core/control/service.go:177-205 | Checks in the order of the code, int64 sum, one usage save. |
| ControlService.Service.Release | core/control/service.go:208-225 | Clamped at zero, also for unknown accounts. |
| ControlService.Service.Status | core/control/service.go:228-256 | The read model, remaining bytes clamped at zero. |
| ControlService.Service.Outstanding | core/control/service.go:260-268 | The loop over open invoices is the int64 sum, in whatever order they are listed. |
| ControlService.Service.RunBilling | core/control/service.go:276-326 | The loop over listed accounts, ended early by a failed save, has the effect of billing them one by one. |
| ControlService.Service.IssueInvoice | core/control/service.go:330-363 | One open invoice of no length, of the given amount or the plan price. |
| ControlService.Service.SettleLocked | core/control/service.go:376-401 | Invoice save, payment save and reactivation, with the error returns in between. |
| ControlService.Service.BeginCheckout | core/control/service.go:415-426 | The first critical section reads an open invoice and changes nothing. |
| ControlService.Service.EndCheckout | core/control/service.go:440-447 | The second records the session only if the invoice is still open. |
| ControlService.Service.HandleWebhook | core/control/service.go:453-478 | A verified callback settles like an operator; one already settled is no error. |
| ControlService.Service.EnforceDelinquency | core/control/service.go:482-500 | The nested loops suspend account by account and report the ids. |
| ControlAnswers.CreatePlanAnswers | core/control/service.go:101-116 | Refused exactly for an empty name or a quota that is not positive; otherwise the new plan has the given fields or their defaults, one save is made and nothing else moves. |
| ControlAnswers.CreateAccountAnswers | core/control/service.go:124-149 | Each error's cause; otherwise an active account whose first period starts now and ends one step later, one save, nothing else. |
| ControlAnswers.SetStatusAnswers | core/control/service.go:160-169 | Unknown accounts only are refused; otherwise the status alone changes. |
| ControlAnswers.ReserveAnswers | core/control/service.go:177-205 | Granted exactly to an active account with a plan, for a size that is not negative and fits; each other answer has its own cause and changes nothing; a grant changes that account's record alone. |
| ControlAnswers.ReleaseAnswers | core/control/service.go:208-225 | Refused exactly for a negative size; otherwise the record goes down, not below zero. |
| ControlAnswers.StatusAnswers | core/control/service.go:228-256 | Every field, and that 0 outstanding means no open invoice unless the debt is a positive multiple of 2^64. |
| ControlAnswers.BillOneAnswers | core/control/service.go:280-324 | One account in the pass: nothing unless its period has ended; the invoice at the plan's price and currency for that period, paid exactly when the provider collects it, with that payment; the period moves on unless the invoice cannot be saved; it fails exactly when one of the last two saves does. |
| ControlAnswers.ReturnedBillPeriods | core/control/service.go:291-316 | Every returned invoice bills the ended period of a listed account at its plan's price, paid exactly when collected, whatever saves fail. |
| ControlAnswers.BilledAtPlanPrice | core/control/service.go:291-301 | Over every run all billing invoices of an account charge its plan's price in its plan's currency. |
| ControlAnswers.IssueInvoiceAnswers | core/control/service.go:330-363 | A positive amount is charged as given, otherwise the plan's positive price; each error has its cause. |
| ControlAnswers.SettleAnswers | core/control/service.go:376-401 | Success exactly when the invoice is open and both saves succeed, with the stored payment as answer; unknown, not open and failed saves each have their error; what each outcome leaves behind. |
| ControlAnswers.WebhookAnswers | core/control/service.go:461-478 | True exactly for a genuine, paid callback that settles the invoice it names; false exactly for one that is unpaid, names none or one no longer open; every error's cause. |
| ControlAnswers.StartCheckoutAnswers | core/control/service.go:415-436 | Begins exactly for an open invoice and asks for what it charges. |
| ControlAnswers.RecordCheckoutAnswers | core/control/service.go:440-447 | Records provider and session exactly on an invoice that is still open. |
| ControlAnswers.EnforceAnswers | core/control/service.go:482-500 | Exactly the active accounts with an open invoice created before the cutoff become suspended; nothing else changes. |
| ControlAnswers.EnforceReports | core/control/service.go:486-499 | The reported ids are exactly those of the accounts suspended, each once. |
| Ledger.StepConsistentIff | core/control/service.go:376-401 | Every event keeps: for each account all invoices = outstanding + payments, and each paid invoice has exactly one payment of equal amount and account - unless, and only unless, a settlement fails to save its invoice. |
| Ledger.LedgerConserved | core/control/service.go:258-401 | This holds over every run and interleaving without such a failure, whatever other saves fail, if a successful charge returns the invoice amount. |
| Ledger.SavesLoseNothing | core/control/service.go:387-389 | No such failure occurs when saves succeed. |
| Ledger.DishonestChargeBreaks | core/control/service.go:303-316 | A charge of another amount breaks the ledger at once. |
| Ledger.OutstandingZero | core/control/service.go:260-268 | With positive amounts the exact open total is zero exactly when no invoice is open; the int64 sum says so if and only if the open total is not a positive multiple of 2^64. |
| SaveTrace.AmountsPositive | core/control/service.go:291-316 | In every reachable state every invoice has a positive amount, whatever saves fail and whatever is charged. |
| SaveTrace.AmountsPositiveAfterCrashes | core/control/store.go:57-74 | The same in memory and file over every run with crashes. |
| Settlement.RunKeeps | core/control/service.go:376-449 | In every interleaving, with any failed saves, including a settlement inside a checkout: no invoice disappears, its account, period and amount never change, and paid is final. |
| Settlement.SettledAtMostOnce | core/control/service.go:373-401 | Over any number of webhook retries and operator payments at most one call settles an invoice, and none settles one that is not open. |
| Settlement.CheckoutsStayAccurate | core/control/service.go:415-447 | A checkout between its two critical sections always asks for what its invoice charges. |
| Delinquency.StepSoundIff | core/control/service.go:160-169 | Every event, whatever saves fail, keeps an open invoice for each suspended account, unless and only unless it settles a suspended account's last debt with a failed save, or is an operator suspending an account that owes nothing. |
| Delinquency.SuspendedAlwaysOwe | core/control/service.go:394-399 | In every run without such an event each suspended account has an open invoice. |
| Delinquency.SavesStrandNobody | core/control/service.go:394-399 | A run without SetStatus and without failed saves has none. |
| Delinquency.SettleKeepsOweIff | core/control/service.go:385-399 | A settlement keeps that exactly unless one of its two saves fails while it settles a suspended account's last debt. |
| Delinquency.ReactivatesExactly | core/control/service.go:394-399 | After a settlement whose saves succeed a suspended account is active exactly when the int64 sum of its open invoices is zero; that is exactly when none is open, if and only if their exact sum is not a positive multiple of 2^64. Nothing is asked of payments or charges. |
| Delinquency.WrappedDebtReactivates | core/control/service.go:394-399 | Open invoices of 2^63-1, 2^63-1 and 2 cents: paying a fourth one reactivates the account. |
| Delinquency.EnforceIsExact | core/control/service.go:482-500 | Afterwards no active account has an open invoice created before the cutoff, and only such accounts were suspended. |
| Delinquency.ClosedStaysClosed | core/control/service.go:276-285 | Without SetStatus, whatever saves fail, no record of a closed account is ever touched. |
| Billing.InvoicesTile | core/control/service.go:276-325 | Over every run without a failed save the billing invoices of a priced account tile time: each starts where the previous ended and is issued no earlier than its end, the last ends at PeriodStart, and PeriodEnd is one step later. |
| Billing.BillAllEffect | core/control/service.go:280-324 | A pass without failed saves bills an account exactly when it is not closed, its period has ended and its plan exists - suspended or not - and once. |
| Billing.TilesFromCreation | core/control/service.go:132-149 | Over a run without a failed save the first of them starts at the account's creation. |
| Billing.TilesDisjoint | core/control/service.go:273-275 | Tiles never overlap: no period is billed twice. |
| Billing.ReturnedAreStored | core/control/service.go:313-325 | The returned invoices are exactly the ones added to the store, in order, but for at most one more in a pass that fails. |
| Billing.CatchUp | core/control/service.go:280-324 | With the clock fixed at T and no failed save, repeated RunBilling moves each non-closed account over one boundary per run, with one invoice each if priced, until every boundary not after T is billed, and then issues nothing. |
| CrashTiling.ActTiledIff | core/control/service.go:291-323 | One act, with any failed saves, crash and charge, keeps the billing invoices of an account in memory and file tiling time from its creation to its current period if and only if it does not save an invoice of the account without the period advance. |
| CrashTiling.TilingSurvivesCrashes | core/control/service.go:276-325 | Over every run with crashes, failed writes and charges without such an act they tile time. |
| Billing.DueCountExact | core/control/model.go:21-28 | The number of runs counts exactly the boundaries not after T. |
| Billing.DueCountBounds | core/control/model.go:21-28 | It lies within the elapsed time divided by 28 and by 31 days. |
| Billing.PeriodAdvancesIffInvoiceSaved | core/control/service.go:313-321 | An account's period moves on exactly when its invoice was saved; otherwise the invoice is in memory and the period is due again. |
| Quota.ReserveExactIffNoWrap | core/control/service.go:193-204 | Reserve lets a write through exactly when it fits the quota, and usage stays in range, if and only if bytes <= MaxInt64 - BytesUsed. |
| Quota.WrapLetsEverythingThrough | core/control/service.go:195 | With one byte used, a reservation of MaxInt64 bytes passes every quota. |
| Quota.UsageStaysWithinQuota | core/control/service.go:177-225 | In every reachable state without such an overflow 0 <= BytesUsed <= quota. |
| Quota.StatusAddsUp | core/control/service.go:237-241 | There BytesUsed + RemainingBytes = quota. |
| Quota.UsageIsLargestSuffix | core/control/service.go:177-225 | After any run usage is the largest suffix sum of the signed byte changes: the closed form of the clamp at zero. |
| Quota.LargestSuffixIsLargest | core/control/service.go:215-219 | That value is attained by a suffix and exceeded by none; the empty one counts as 0. |
| Crash.CrashesAreSafe | core/control/store.go:57-74 | With the manual provider and crashes or failed writes at any Save, what is reloaded is the empty store or an earlier state of memory; in it each payment refers to its own paid invoice of equal amount and account and every account's plan exists. |
| SaveLog.FileIsSomeState | core/control/store.go:58-74 | The file always holds its old content or the memory of some successful Save since. |
| Crash.PaidWithoutPayment | core/control/service.go:385-393 | The converse fails for this input: a crash between the two saves reloads as paid without a payment, and settling again is refused. |
| CrashPairing.ReloadPairedIff | core/control/service.go:376-393 | From a memory and a file in which every paid invoice has a payment, any event cut short after k saves reloads such a state if and only if it does not settle an open invoice, or the invoice's save did not reach the file, or the payment's did too. |
| CrashPairing.DonePairedIff | core/control/service.go:385-393 | Without a crash memory loses this exactly when a settlement's invoice save fails, and the file exactly when only its payment save does. |
| CrashPairing.UnpairsIff | core/control/service.go:385-393 | One act from such a state keeps it in memory and file if and only if it is not one of those. |
| CrashPairing.RunPairing | core/control/store.go:57-74 | Over every run with crashes and failed writes, whether memory and file have a payment for every paid invoice is exactly what following those acts and the later writes says. |
| CrashPairing.PairedRuns | core/control/store.go:57-74 | A run without such an act always reloads a payment for every paid invoice. |
| Crash.BillOneDurableIff | core/control/service.go:302-323 | Billing a due, priced account exposes only durable states if and only if the provider does not collect. |
| CrashBilling.ReloadShowsIff | core/control/service.go:302-323 | RunBilling cut short at any account's turn reloads that account's payment without its invoice if and only if the provider collected and the payment's save is the last to reach the file; and its invoice with the same period still due if and only if the invoice's save is. |
| CrashBilling.ChargeLeavesOrphan | core/control/service.go:303-316 | With automatic charging a crash after the first save is possible and reloads the payment while its invoice does not exist. |
| CrashBilling.PeriodBilledAgain | core/control/service.go:273-275 | With the manual provider a crash after the first save reloads the invoice with its period still due, and billing the account again, then or later, leaves two invoices for that period. |
| Node.Server.PutBlock | core/node/server.go:125-159 | The handler by itself: new blocks, control store and reply for every failure along the way. |
| NodeTheorems.PutBlockAnswers | core/node/server.go:125-159 | In both modes: Created exactly when the body fits and hashes to its address, the backend works and a charge, where one is due, was granted; the block is then there, as sent if it was new; every other reply has its cause and leaves the blocks alone; without quota the control store is untouched. |
| NodeTheorems.InactiveIsRefused | core/node/server.go:139-152 | An account that is not active adds no block a node does not hold. |
| NodeTheorems.InactiveStoresNothing | core/control/service.go:187-189 | The same in every interleaving of requests: an account that is never active pays for no block. |
| Node.AloneIsARun | core/node/server.go:125-159 | The handler by itself is one interleaving of the request's separate steps. |
| NodeTheorems.WritesNeverOutrunCharging | core/node/server.go:125-159 | In every interleaving of requests of many clients on initially empty nodes, with lost replies, failed stores, control server restarts at any Save call and any control events, Release included while it fits: bytes stored <= usage of all accounts <= all quotas, in memory and on file; the same for what each group of accounts paid for; every block hashes to its address. |
| NodeTheorems.ReserveFile | core/control/service.go:198-204 | A reservation answered with success has reached the file. |
| Node.ReserveCharges | core/control/service.go:194-204 | A reservation charges its bytes to its account alone, even when its save or reply fails. |
| Node.ReleaseCoveredIff | core/control/service.go:207-225 | After a Release an account still covers what it has stored or may store if and only if max(0, usage - bytes) is at least that much. |
| CAS.Store.Put | core/cas/cas.go:65-80 | The loop over all backends and success exactly when at least two report it. |
| CASTheorems.PutAnswers | core/cas/cas.go:65-80 | Success, with the data's address, exactly when two different listed backends report it, however many others fail; otherwise the error counts them; exactly the backends that take the write gain the block. |
| CAS.Store.Get | core/cas/cas.go:84-108 | First verified answer, then healing of every backend that does not claim the block. |
| CASTheorems.GetHeals | core/cas/cas.go:97-107 | A failed Get changes nothing; after a successful one exactly those backends hold the block that had it, or that take the write and do not claim to have it, an error of Has being no claim. |
| CAS.NewStore | core/cas/cas.go:56-61 | Succeeds exactly for a list of two or more. |
| CASTheorems.GetRefinesMap | core/cas/cas.go:30-35 | For any answers of any backends in any order, Get of the address of data returns data or ErrNotFound; data that is not empty exactly when some backend offers it. |
| CASTheorems.RunRefinesPlainMap | core/cas/cas.go:65-99 | After any run the store behaves like the plain map from returned addresses to data, up to ErrNotFound. |
| CASTheorems.PutMakesTwoCopies | core/cas/cas.go:63-80 | Over different backends that report truthfully a successful Put leaves two good copies. |
| CASTheorems.HealsUnlessCorrupted | core/cas/cas.go:82-108 | After a successful Get with all backends up, a backend holds the good copy exactly if it held no corrupted one before. |
| CASTheorems.BlockSurvives | core/cas/cas.go:100-107 | Over at least two different backends a block with two copies is never lost while a Get with all backends up lies between any two losses. |
| CASTheorems.FullAfterRestore | core/cas/cas.go:100-107 | After each such Get every backend has the block. |
| CASTheorems.SurvivesAnyLossIff | core/cas/cas.go:55-61 | A block put with all backends up survives every single loss if and only if two of them are different. |
| AEAD.Seal | core/aead/aead.go:27-44 | The header filled in place and the ciphertext form the envelope, or the error of the code. |
| AEAD.OpenUndoesSeal | core/aead/aead.go:21-68 | Open gives back what Seal was given, for every key Seal accepts. |
| AEAD.SealAnswers | core/aead/aead.go:21-44 | The envelope byte by byte, and each error's cause. |
| AEAD.OpenAnswers | core/aead/aead.go:47-68 | Which envelope opens, and each error's cause in the order of the checks. |
| AEAD.AADSeparates | core/aead/aead.go:70-76 | Different fingerprints or kinds never share associated data. |
| AEAD.AADAnswers | core/aead/aead.go:72-76 | The fingerprint, a bar, and the kind in four bytes, most significant first. |
| Vault.FileVault.PutFile | core/vault/vault.go:61-99 | The loop with its reused buffer puts the chunks and then the manifest. |
| VaultTheorems.PutFileAnswers | core/vault/vault.go:61-99 | Success exactly when the input reads to its end and every chunk and the manifest can be sealed and is taken by two backends; otherwise the first block that fails gives the error, or the reader does. |
| Vault.FileVault.GetFile | core/vault/vault.go:119-138 | The loop writes chunk after chunk until something fails. |
| VaultTheorems.GetManifestAnswers | core/vault/vault.go:102-116 | From any address: the decoded manifest, or each error's cause. |
| VaultTheorems.ChunksGotAnswers | core/vault/vault.go:124-136 | From any manifest: a success has written the authentic content of every chunk in order; each failure names its chunk and has its cause. |
| VaultTheorems.RoundTrip | core/vault/vault.go:60-138 | For every file and whatever happens in between, a successful GetFile of what PutFile returned writes exactly the file; Size is its length and the chunk count ceil(length / 1 MiB); any output is a prefix. |
| VaultTheorems.GetFileIsExact | core/vault/vault.go:118-138 | If a chunk is unavailable the output is a prefix ending on a chunk boundary, if the manifest is there is none; no decryption or parse error is possible. |
| VaultTheorems.CutsCount | core/vault/vault.go:61-84 | Chunk i seals bytes i MiB up to the next MiB or the end: every chunk but the last is full. |
| VaultTheorems.FileSurvives | core/vault/vault.go:60-138 | End to end: a file put with all backends up, followed by any run in which each of its blocks' losses are spaced out by reads, is read back exactly. |

## Left out

- HTTP: routing, headers, status codes beyond the node's replies, TLS, both clients, the shared-token check of the node.
- Cryptographic primitives: the address is any function (collision-free where a lemma says so), the cipher any pair in which open undoes seal.
- The access key and its derivation (core/paperkey): any 32-byte key and any fingerprint.
- Payment providers: StartCheckout and VerifyWebhook are arbitrary answers, and Charge is any function of account and invoice.
- JSON text: a codec that round trips; names are assumed to survive it.
- Files: temporary files, renames and directories; each write is one step that happens or fails, and an address is identified with its file.
- Creating plans and accounts and reading a status take no lock in the code; each is one atomic step here.
- Generated ids are assumed new, and the clock may show anything at any event.
- Tokens and their hashes: the account a token belongs to is an arbitrary answer.
- ObjectCount is unbounded here; it could wrap only after 2^63 reservations.
- Quota.UsageIsLargestSuffix: assumes that no reservation overflows the int64 sum; ReserveExactIffNoWrap says what happens otherwise.
- NodeTheorems.WritesNeverOutrunCharging: plans stay 64 MiB below MaxInt64, so that no reservation of a node can overflow.
- Vault.FileVault.PutFile: Size does not wrap, because a file would need 2^63 bytes.
- ShareText.CmdCombine: the text is valid UTF-8; what the scanner and TrimSpace make of other bytes is not modelled.
- Health, ConstantTimeEqual, the listing calls and the other commands of vaultctl: reads without logic of their own.
- Timing of comparisons, and probabilities beyond the counting statement about shares.
