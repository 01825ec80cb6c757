# School-trip bookkeeping, modelled in Dafny

A model of the money side of a school-trip administration tool ("voyages
scolaires"): participants of a trip with their status, one debt ("créance")
per participant with an initial amount and a discount, signed payments
against the debt, payment modes looked up by label, social-fund requests
that are decided once, and budget items. All amounts are integer cents.
It also models `encode_str`, the accent transliteration and latin-1
replacement applied to text printed with the standard PDF fonts.

Layout:

- `wrappers.dfy` — `Option` and `Result`.
- `encoding.dfy` (module `Encoding`) — `encode_str`: the replacement table,
  its entry-by-entry application, latin-1 replacement, and the method that
  runs the loop of the source.
- `ledger.dfy` (module `Ledger`) — payments, total paid, remaining due, the
  two different "to refund" formulas, and the paid / unpaid filter of the
  participant-list export.
- `budget.dfy` (module `Budget`) — expense total, revenue total, balance.
- `records.dfy` (module `Records`) — the whole store as a value `Db`, and
  each state-changing handler as a function from the store before to the
  store after plus the handler's answer (`Committed`, `Skipped` for a
  redirect that writes nothing, `NotFound` for a 404, `Crashed` for an
  uncaught error before the commit). The lemmas about several calls
  (idempotence, one-shot decisions, toggling twice) are stated here.
- `store.dfy` (module `Handlers`) — class `Store` whose fields are the
  tables; each handler is a method that updates the fields in place and is
  proved to produce exactly the state the matching `Records` function
  describes.

Modelling choices:

- A debt is keyed by the id of its participant, since the schema links the
  two one to one; a payment's `debt` field holds that key. A payment
  mode's id is its position in `modes`.
- Participant ids start at 1 and `nextId` is the next one handed out, as
  SQLite's row ids do; 0 stands for the missing id that
  `toggle_validation` refuses.
- The `remboursement_validé` column may be NULL. The trip view treats
  only the value 0 as "not yet validated", so a NULL flag shows nothing to
  refund there. `valider_remboursement` and the payments page treat NULL
  like 0. The model keeps the three tests as written
  (`Ledger.ToRefundViewsDisagreeOnNullFlag`). A participant added by
  `ajouter_participant` gets flag 0 and both paperwork checkboxes 0, and
  its debt gets `montant_remise` 0 (the insert of app.py:1275-1278 sets only
  `montant_initial`). The schema is not part of this model, so these
  defaults are an assumption; `Records.AddParticipantOwesFullPrice` rests
  on the last one.
  `toggle_validation` computes `1 - current` and needs a non-NULL value,
  which is why the checkbox defaults are taken as 0.
- The two "to refund" formulas differ on purpose in the model. The trip
  view shows `max(0, paid)` only while a refund is pending and 0
  otherwise. The payments page shows `max(0, paid - owed)` outside a
  pending refund. `Ledger.ToRefundViewsAgreeWhilePending` and
  `Ledger.ToRefundViewsDisagreeOnOverpayment` state where they agree and
  where they do not.
- A social-fund approval of G both records a payment of G and raises the
  discount by G, so `owed - paid` drops by 2G. This is kept as written
  (`Records.DecideFundRequest`, `Records.FundGrantLowersRemainingDue`).
- The remaining due in `liste_editable` (app.py:663-668) and
  `export_liste_pdf` (app.py:693-697) is the same expression as in the
  trip view; both are `Ledger.RemainingDue` applied to the participant's
  debt and payments, as in `Records.ListRowOf`.
- The participant-list filter compares the euro amount
  `max(0, (owed - paid) / 100.0)` with 0. Its sign is that of the remaining
  due in cents, so the model filters on cents.
- Today's date (the clock) is a parameter of the handlers that write a
  date.
- The store invariant `Records.WellFormed` says that ids handed out so far
  are below `nextId`, that 0 is never an id, and that every payment
  references an existing debt. All five handlers keep it. A new
  participant therefore starts with nothing paid and owes the trip's full
  price (`Records.AddParticipantOwesFullPrice`). It does not require a
  participant's trip to exist: app.py never turns on SQLite's foreign-key
  enforcement, so a deleted trip (app.py:1221-1227) may leave its
  participants behind, and the payments page answers 404 for them
  (`Records.PaymentsPage`).
- The design rule that a participant with money paid passes through
  `A_REMBOURSER` before `ANNULÉ` holds for `modifier_statut_participant`
  (`Records.CancellationWithMoneyGoesThroughRefund`) but not for
  `valider_remboursement`. That handler stores `ANNULÉ` whatever the current
  status, and records a refund only from `A_REMBOURSER`. A participant who
  is `INSCRIT` and has paid is therefore cancelled with the money kept and
  no refund recorded. The model keeps the handler as written and states
  the discrepancy in `Records.ValidateRefundCancelsWithoutRefund`.

## Model

| member | source | states |
|---|---|---|
| `Encoding.EncodeStr` | app.py:38-59 | the output has the input's length; each character is replaced by its table value (first matching entry), then anything outside latin-1 becomes `?`; no output character is a key of the table and all are below 256 |
| `Encoding.EncodeCharCases` | app.py:43-59 | every accented letter of the table encodes to its base letter; a character that is not a key is kept when it is latin-1 and becomes `?` otherwise; the result is never a table key |
| `Encoding.ApplyReplacementsAt` | app.py:57-58 | applying the replacements one entry after the other equals transliterating each character on its own, because no replacement value is itself a key |
| `Encoding.ReplaceChar` | app.py:58 | `str.replace` of one character by another keeps the length, replaces every occurrence and nothing else, and leaves no occurrence behind |
| `Encoding.Latin1Replace` | app.py:59 | latin-1 encoding with `replace` then decoding keeps the length, keeps characters below 256 and turns the others into `?` |
| `Encoding.ApplyReplacements` | app.py:57-58 | running `s = s.replace(a, b)` for every table entry in order keeps the length of the string |
| `Encoding.EncodeChar` | app.py:43-59 | the encoding of one character is below 256, and a character that is not a table key is kept when it is latin-1 and becomes `?` otherwise |
| `Encoding.Transliterate` | app.py:44-56 | a character keyed in the table becomes the value of its first entry; any other character is unchanged |
| `Ledger.TotalPaid` | app.py:616-619 | `SUM(montant) or 0` over the payments of one debt: 0 when no payment references the debt, and never negative when none of its payments is |
| `Ledger.TotalPaidAppend` | app.py:616-619 | recording a payment raises the `SUM(montant)` of its own debt by its amount and leaves the total of every other debt unchanged |
| `Ledger.RemainingDue` | app.py:619-623 | remaining due is `max(0, owed - paid)`: never negative, at least `owed - paid`, and 0 exactly when paid is at least owed |
| `Ledger.RemainingDueExample` | app.py:619-623 | price 500.00: after a payment of 200.00 the remaining due is 300.00, after 300.00 more it is 0, and after 50.00 more it stays 0 although 550.00 were paid |
| `Ledger.ToRefundInTripView` | app.py:624-630 | the trip view's amount to refund is positive exactly when status is `A_REMBOURSER`, the flag reads 0 and something was paid, and it then equals total paid; otherwise 0 |
| `Ledger.ToRefundInPaymentsPage` | app.py:1360-1364 | while a refund is pending (flag NULL or 0) the payments page refunds what was paid; otherwise it refunds only what was paid beyond the amount owed |
| `Ledger.ToRefundViewsAgreeWhilePending` | app.py:1361-1362 | with status `A_REMBOURSER` and flag 0 both formulas give the same amount |
| `Ledger.ToRefundViewsDisagreeOnOverpayment` | app.py:1363-1364 | for a participant not awaiting a refund who paid more than owed, the trip view shows 0 while the payments page shows the overpayment |
| `Ledger.ToRefundViewsDisagreeOnNullFlag` | app.py:624-630 | with a NULL refund flag the trip view shows nothing to refund while the payments page shows all that was paid |
| `Ledger.SettledRows` | app.py:1610-1611 | filter `paye` keeps exactly the `INSCRIT` rows whose remaining due is at most 0 |
| `Ledger.PendingRows` | app.py:1613-1614 | filter `non_paye` keeps exactly the `INSCRIT` rows whose remaining due is positive |
| `Ledger.ListFilter` | app.py:1609-1618 | `paye` and `non_paye` select as above; any other filter value keeps every row |
| `Ledger.ListFilterPartition` | app.py:1610-1615 | the `paye` and `non_paye` selections together hold every `INSCRIT` row exactly once (as multisets, and by count) |
| `Budget.KindTotal` | app.py:1795-1798 | the sum of the amounts of the items of one kind is never negative when none of those amounts is |
| `Budget.Totals` | app.py:1794-1799 | balance = revenues - expenses; with no `depense` item the expense total is 0, with no `recette` item the revenue total is 0 |
| `Budget.KindTotalConcat` | app.py:1797-1798 | the total of one kind over two lists put together is the sum of the two totals |
| `Budget.BalanceIsSignedSum` | app.py:1880-1882 | the balance equals the one-pass sum counting revenues plus, expenses minus and other items not at all |
| `Budget.OtherKindIgnored` | app.py:1877-1878 | an item that is neither `depense` nor `recette`, wherever it stands, changes neither total nor the balance |
| `Records.Paid` | app.py:906-911 | total paid of a participant: 0 without a debt, and 0 when no payment references the participant's debt |
| `Records.EnrolledIds` | app.py:1261-1263 | the participants of one trip with status `INSCRIT` are among the store's participants |
| `Records.EnrolledCount` | app.py:1261-1263 | the `INSCRIT` count of a trip never exceeds the number of participants |
| `Records.FindMode` | app.py:915 | the mode lookup by label finds the first mode with that label, and finds none exactly when no mode has it |
| `Records.EnsureMode` | app.py:1038-1043 | locate-or-create: the returned id carries the label; an existing label adds no mode, a missing one is appended once |
| `Records.InitialStatus` | app.py:1264 | a new participant is `INSCRIT` exactly when the enrolled count is below the expected count, and `LISTE_ATTENTE` exactly when it is not |
| `Records.AddParticipant` | app.py:1244-1281 | an empty field writes nothing, an unknown trip is a 404, and otherwise the call commits; a committed call inserts under `nextId` one participant of type `ELEVE` with the initial status of the trip's current `INSCRIT` count, refund flag 0 and both checkboxes 0, and exactly one debt of the trip's price with no discount; it touches no other table |
| `Records.AddParticipantFresh` | app.py:1267-1279 | when the ids are below `nextId`, the new id was unused, so exactly one participant and one debt are added and every other participant is unchanged |
| `Records.AddParticipantKeepsWellFormed` | app.py:1267-1279 | adding a participant keeps the store invariant, and keeps "every participant has exactly one debt" |
| `Records.AddParticipantOwesFullPrice` | app.py:1274-1279 | in a well-formed store no payment references the new debt, so the new participant has paid 0 and owes exactly the trip's price |
| `Records.AddParticipantKeepsCapacity` | app.py:1259-1265 | adding a participant never pushes a trip's `INSCRIT` count past its expected count |
| `Records.ChangeStatus` | app.py:1284-1305 | a request for `ANNULÉ` when the payments sum to more than 0 stores `A_REMBOURSER`; any other request, or `ANNULÉ` with total paid at most 0, is stored as requested; only that participant's status changes; an unknown id changes nothing; the store invariant is kept |
| `Records.CancellationWithMoneyGoesThroughRefund` | app.py:1293-1301 | `modifier_statut_participant` never stores `ANNULÉ` for a participant who has paid something |
| `Records.ValidateRefund` | app.py:897-931 | unknown participant is a 404; when status is `A_REMBOURSER`, the flag is NULL or 0 and total paid P > 0, exactly one payment of -P is appended under the mode `Remboursement` (reused or created), so total paid becomes 0; in every case the flag becomes 1 and the status `ANNULÉ`; debts and requests and other participants' totals are unchanged; the store invariant is kept, since the refund references the participant's existing debt |
| `Records.ValidateRefundCancelsWithoutRefund` | app.py:913-927 | a participant who is not `A_REMBOURSER` and has paid something ends `ANNULÉ` with no payment recorded and the total paid unchanged |
| `Records.ValidateRefundIdempotent` | app.py:913-927 | a second validation appends nothing and leaves the store as the first left it |
| `Records.DecideFundRequest` | app.py:1005-1054 | unknown request is a 404; a processed request, or `VALIDE` without an amount or with a negative one, changes nothing; `VALIDE` with G > 0 for a participant without a debt crashes with nothing written, and exactly then; every other call commits: the request is marked processed with its status, the commission date (today when none is given) and the granted amount (0 unless `VALIDE`); `VALIDE` with G > 0 appends one payment of +G dated at the commission with the reference `Commission FS du <date>` under `Fonds Social` (reused, or appended to the mode table when missing) and raises the discount by exactly G, so `owed - paid` drops by 2G; `REFUSE` or G = 0 touches no payment, debt or mode; participants are never changed |
| `Records.RecordGrant` | app.py:1034-1051 | a grant of G for a participant with a debt appends one payment of +G dated at the commission under `Fonds Social` (reused or created), raises the debt's discount by G, raises that participant's total paid by G, leaves every other total paid and every other table unchanged, and keeps the store invariant |
| `Records.DecideFundRequestKeepsWellFormed` | app.py:1005-1054 | deciding a request keeps the store invariant |
| `Records.FundRequestDecidedOnce` | app.py:1014-1015 | once a decision is committed, every later decision on the same request is skipped and changes nothing |
| `Records.FundGrantLowersRemainingDue` | app.py:1045-1051 | after a grant G the remaining due is `max(0, owed - 2G - paid)` in terms of the old debt and payments |
| `Records.ToggleValidation` | app.py:1308-1332 | only `fiche_engagement` and `liste_definitive` are accepted, a missing id is refused, an unknown participant fails, all with nothing written; the call succeeds exactly for an accepted field and an existing participant, and then that checkbox becomes `1 - current`, the new value is answered, and nothing else changes; the store invariant is kept |
| `Records.ToggleTwiceRestores` | app.py:1322-1327 | toggling the same checkbox twice restores the store |
| `Records.TripViewFigures` | app.py:614-631 | for a listed participant: total paid is the sum of its payments, remaining due is `max(0, owed - paid)`, and the amount to refund is never negative, is positive exactly when the trip view's pending-refund test holds (then equal to total paid), and is 0 otherwise |
| `Records.ListRowOf` | app.py:1598-1606 | the row the list filter reads has the participant's status and a remaining due at most 0 exactly when paid is at least owed |
| `Records.PaymentsPage` | app.py:1335-1364 | a 404 exactly when the participant, its trip or its debt is missing; otherwise total paid, remaining due `max(0, owed - paid)`, and an amount to refund that is never negative: when the status is `A_REMBOURSER` with the flag NULL or 0 it is total paid if positive and 0 otherwise, and in every other case (a validated flag included) it is `max(0, paid - owed)` |
| `Handlers.Store.FindOrCreateMode` | app.py:914-920 | the mode table and the returned id are those of `Records.EnsureMode` on the old table |
| `Handlers.Store.AddParticipant` | app.py:1244-1281 | updates the tables in place to exactly `Records.AddParticipant` of the old store, and keeps the store invariant |
| `Handlers.Store.ChangeStatus` | app.py:1284-1305 | updates the tables in place to exactly `Records.ChangeStatus` of the old store |
| `Handlers.Store.ValidateRefund` | app.py:897-931 | updates the tables in place to exactly `Records.ValidateRefund` of the old store |
| `Handlers.Store.RecordGrant` | app.py:1034-1051 | updates the tables in place to exactly `Records.RecordGrant` of the old store |
| `Handlers.Store.DecideFundRequest` | app.py:1005-1054 | updates the tables in place to exactly `Records.DecideFundRequest` of the old store |
| `Handlers.Store.ToggleValidation` | app.py:1308-1332 | updates the tables in place to exactly `Records.ToggleValidation` of the old store and answers the same result |

## Left out

- HTTP routing, redirects, templates, `abort` messages and form parsing, including the euro-to-cents conversion `int(float(x) * 100)`: amounts arrive in cents, and a granted amount arrives as an optional number of cents. Float rounding (a form value below one cent becoming 0) is therefore not modelled.
- Date parsing of the commission date (`strptime`): the model receives an optional date; a malformed date string, which raises in the source, is not modelled.
- The database itself: connections, schema creation, migrations, transactions beyond "an uncaught error commits nothing", and the cascade delete of a trip's rows and files, which lives in a schema that is not part of this model.
- The joins of the payments page with the payment-mode table: a payment whose mode row is missing would be dropped from that page's sum; the model sums every payment of the debt.
- The joins of both budget queries with the budget-category table (app.py:1789, app.py:1872): an item whose category row is missing counts in neither total; the model receives the items after the join.
- The other aggregates of the trip and social-fund pages (number waitlisted, total collected from enrolled participants, expected total), and the per-student budget indicators, which divide euros as floats and round up.
- Ordering of rows (`ORDER BY nom, prenom` and the like): the list filter works on whatever order its input has; its contracts state which rows it keeps, not their order.
- All PDF layout, fonts, logos and signature images, file uploads and file deletion, `sanitize_filename` (Unicode NFKD normalisation), currency formatting, demo data seeding and the desktop start-up code.
- `Encoding.EncodeStr`: the source first converts any value with `str()`; the model takes a string. Python strings may hold lone surrogates, which a Dafny `char` cannot; for them the source also writes `?`.
- Adding and editing payments, trips, budget items and social-fund requests by hand: those handlers are outside the modelled core; `Handlers.Store` is opened on any well-formed store instead.
