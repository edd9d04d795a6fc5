# RanchoFinanzas backend — a Dafny model

RanchoFinanzas is a small income/expense ledger. A progressive web app records
transactions on the device, offline if it has to. A FastAPI backend keeps the
shared copy in a Google Sheets worksheet named "Transacciones". This project
models that backend, which is the server half of the sync:

- **`Sheets`** (`sheets.dfy`, from `backend/sheets.py`) holds the worksheet as
  a `Worksheet` class whose `rows` field is a sequence of rows, with the header
  row first. Other parts:
  - `AppendTransactions` appends a batch. It reads the ID column once, skips
    transactions whose id is already there, builds a 9-cell row for each
    remaining one and appends those rows at the end. It returns how many rows
    it appended. If the ID column cannot be read, nothing is skipped.
  - `FilterByDate` is the inclusive date-range query over the records read
    back from the sheet.
- **`Api`** (`api.dfy`, from `backend/main.py`) covers:
  - the CORS settings computed from `ALLOWED_ORIGINS`;
  - `POST /api/sync` (`SyncTransactions`);
  - `GET /api/transactions` (`GetTransactions`, which normalises records);
  - `GET /api/summary` (`GetSummary`, which computes income and expense
    totals).
- **`Models`** (`models.dfy`, from `backend/models.py`) holds the request
  validation of `TransactionIn` and `SyncRequest`, plus the `TransactionType`
  and `PaymentMethod` enumerations.
- **`Strings`** (`strings.dfy`) gives Python's string operations the model
  needs: `strip()`, `split(",")`, the `<=` order on `str`, `lower()` and
  `str(n)`. **`Base`** (`base.dfy`) holds `Option`, `Result`, the fault kinds
  and the fault-to-status mapping.

The central property is that the client may re-send a batch without harm.
`RepushSelectsNothing` and `RepushIsHarmless` prove that pushing a valid batch
a second time appends nothing and reports 0. This needs three things:
- the sheet's header row;
- non-empty ids, which validation guarantees;
- a second push that can read the ID column. When `col_values` fails, the
  source carries on with no known ids and appends every transaction again
  (`NoExistingIdsKeepsAll`).

`HeaderlessSheetRepeats` shows why the header row is needed: the first row is
always skipped as the header.

Modelling choices:

- Amounts are integers.
- A spreadsheet cell is `Text`, `Number` or `Blank`. A record read back (what
  `get_all_records` returns) maps column titles to `Str` or `Num` values.
- A Python `TypeError`, `ValueError` or `AttributeError` raised on a record's
  cell becomes the fault `BadValue`, which the routes answer with 500.
- Missing credentials (`FileNotFoundError`) are answered with 503.
- The spreadsheet service is represented by its outcomes, which are inputs:
  - `Access` says whether opening the sheet fails, whether the ID column can be
    read, whether the write fails, and whether a failing write had already
    stored the rows (a reply lost after the service committed);
  - `fetched` is the list of records read, or the fault raised while reading.

## Model

| member | source | states |
|---|---|---|
| `Base.StatusOf` | backend/main.py:98-109 | A missing-credentials failure answers 503 and every other failure answers 500. |
| `Strings.Strip` | backend/main.py:49 | `strip()` returns "" exactly when the text is all whitespace. Otherwise the result starts and ends with non-whitespace. |
| `Strings.StripIsInfix` | backend/main.py:49 | `strip()` keeps an infix of the text. Only whitespace lies before it and after it. |
| `Strings.StripUnpadded` | backend/main.py:49 | A string with no whitespace at either end is left as it is by `strip()`. |
| `Strings.StripIdempotent` | backend/main.py:49 | A stripped origin has nothing left to strip. |
| `Strings.Split` | backend/main.py:49 | `split(",")` never returns an empty list, and no piece contains a comma. |
| `Strings.JoinSplit` | backend/main.py:49 | Joining the pieces of `split(",")` with commas gives back the original text, so no character is lost. |
| `Strings.SplitJoin` | backend/main.py:49 | Splitting a join of comma-free pieces gives back the pieces. This is the other direction of the round trip. |
| `Strings.LessEqTransitive` | backend/sheets.py:155 | Python's `<=` on `str` (lexicographic by code point) is transitive. |
| `Strings.LessEqFirstDifference` | backend/sheets.py:155 | `LessEq` is exactly the textbook order: a <= b when a is a prefix of b, or when a has the smaller code point at the first index where they differ. |
| `Strings.LessEqTotal` | backend/sheets.py:155 | Any two strings are comparable under `<=`. |
| `Strings.LessEqAntisymmetric` | backend/sheets.py:155 | Two strings that are each `<=` the other are equal. |
| `Strings.LessEqReflexive` | backend/sheets.py:155 | Every string is `<=` itself, so a record dated exactly on a bound is included. |
| `Strings.Lower` | backend/main.py:169 | `lower()` keeps the length and lowercases each ASCII letter. |
| `Strings.NatToString` | backend/main.py:96 | `str(n)` is a non-empty string of decimal digits with no leading zero. |
| `Strings.NatToStringRoundTrip` | backend/main.py:96 | Reading the digits of `str(n)` back gives `n`. |
| `Models.ParseType` | backend/models.py:9-12 | A type is accepted exactly when it is "ingreso" or "gasto". The member it gives has that value. |
| `Models.TypeRoundTrip` | backend/models.py:9-12 | The value of each `TransactionType` member parses back to that member. |
| `Models.ParseMethod` | backend/models.py:15-20 | A payment method is accepted exactly when it is efectivo, transferencia, tarjeta or cheque. |
| `Models.MethodRoundTrip` | backend/models.py:15-20 | The value of each `PaymentMethod` member parses back to that member. |
| `Models.ParseTransaction` | backend/models.py:23-32 | A transaction is accepted exactly when its id is non-empty, its tipo is a type, its monto is > 0, its fecha matches `dddd-dd-dd`, and metodoPago (if sent) is a method. What is accepted is `Valid`. |
| `Models.Acceptable` | backend/models.py:23-32 | The field rules, one by one: id, tipo, monto and fecha are present and meet their constraints, and metodoPago, if sent, is not null and names a method. The optional texts accept null. |
| `Models.ParseKeepsAndDefaults` | backend/models.py:29-32 | An accepted transaction keeps the fields sent. Fields left out default to descripcion "", metodoPago efectivo, usuario "Usuario" and createdAt None. |
| `Models.DateShapeIgnoresRanges` | backend/models.py:28 | The date pattern checks shape only. "2024-99-99" is accepted, while "2024-1-05" and "2024/01/05" are rejected. |
| `Models.DateShaped` | backend/models.py:28 | The date pattern: ten characters, a dash at positions 4 and 7, and decimal digits everywhere else. |
| `Models.ParseBatch` | backend/models.py:35-42 | A sync request is accepted exactly when it holds 1 to 100 transactions and each one is accepted. The result is the validated transactions, one per input, in order. |
| `Models.ParseAll` | backend/models.py:37 | A list is accepted exactly when every element is. The result is the validated elements, in order. |
| `Models.AcceptedBatchValid` | backend/models.py:37-42 | An accepted batch has 1 to 100 transactions, and each one is valid (non-empty id, positive amount, date-shaped). |
| `Sheets.IdColumn` | backend/sheets.py:113 | `col_values(1)` holds the first-cell text of each row, in order, up to the last non-empty one. |
| `Sheets.ExistingIdsExact` | backend/sheets.py:111-114 | A non-empty id counts as existing exactly when some row below the first has it in its ID cell. |
| `Sheets.ExistingIds` | backend/sheets.py:111-114 | The set of the ID column's values below its first cell. |
| `Sheets.ColumnLengthBelowHeader` | backend/sheets.py:113-114 | Changing only the first row does not change how far the ID column reaches below it. |
| `Sheets.HeaderExcluded` | backend/sheets.py:114 | The first (header) row never contributes an id, whatever it holds. |
| `Sheets.RowAsWritten` | backend/sheets.py:122-132 | The row exactly as the source writes it. When createdAt is present but None, the Creado cell is empty. |
| `Sheets.NewRow` | backend/sheets.py:122-132 | Each appended row has 9 cells in `HEADERS` order and the transaction's id in the ID column. Creado holds the transaction's createdAt, or now when it has none (corrected, see Findings). |
| `Sheets.NewRowDefaults` | backend/sheets.py:122-132 | The tipo, monto and fecha cells are copied. Missing keys are filled with descripcion "", categoria "general", metodoPago "efectivo" and usuario "Usuario". Keys with a value are copied, and keys holding None write an empty cell. |
| `Sheets.Fresh` | backend/sheets.py:119-121 | No more transactions are selected than were given. |
| `Sheets.FreshMembers` | backend/sheets.py:119-121 | The selected transactions are exactly the input transactions whose id is not already present. |
| `Sheets.FreshAppend` | backend/sheets.py:119-121 | Selection keeps input order: selecting from a + b gives the selection from a followed by the selection from b. |
| `Sheets.FreshCount` | backend/sheets.py:111-121 | Duplicates within a batch are not filtered against each other. A new transaction is kept as many times as it occurs. |
| `Sheets.RowsToAdd` | backend/sheets.py:118-132 | One new row per selected transaction, in the same order. |
| `Sheets.NothingFreshIff` | backend/sheets.py:134-138 | Nothing is to be added exactly when every id is already present. |
| `Sheets.NoExistingIdsKeepsAll` | backend/sheets.py:112-116 | If the ID column cannot be read, every transaction is appended. |
| `Sheets.AppendedIdsExist` | backend/sheets.py:111-138 | After a batch is appended below a header row, every non-empty id of the batch is among the existing ids. |
| `Sheets.RepushSelectsNothing` | backend/sheets.py:111-138 | Re-sending a batch that was just appended selects nothing: the second push is idempotent. |
| `Sheets.HeaderlessSheetRepeats` | backend/sheets.py:113-114 | On a sheet without a header row, re-sending a transaction appends it a second time. |
| `Sheets.Worksheet.AppendRows` | backend/sheets.py:135 | `append_rows` adds the rows after the existing ones, and nothing else changes. |
| `Sheets.AppendTransactions` | backend/sheets.py:99-138 | The rows are the old rows followed by one row per transaction whose id was not present, in input order, built with the corrected `NewRow` (see Findings). It returns that number. If nothing is new, the sheet is not written. If opening fails, the fault is returned and the sheet is unchanged. If writing fails, the fault is returned, and the sheet holds the new rows only when the write had already stored them. |
| `Sheets.FilterByDate` | backend/sheets.py:147-156 | The query fails exactly when some record's Fecha is not a string, and the failure is a bad value. Otherwise it keeps at most all the records. |
| `Sheets.FechaOf` | backend/sheets.py:155 | A text Fecha reads as itself, and a missing Fecha reads as "". A numeric Fecha cannot be compared with the bounds, and only that case fails, with a bad value. |
| `Sheets.InRangeInclusive` | backend/sheets.py:155 | Both bounds of `InRange` are inclusive, and a record can be in range only when start <= end. |
| `Sheets.FilterByDateMembers` | backend/sheets.py:153-156 | The records kept are exactly those with start <= Fecha <= end in string order, with a missing Fecha read as "". |
| `Sheets.FilterAppend` | backend/sheets.py:153-156 | The filter keeps the original order: filtering a + b gives the filtered a followed by the filtered b. |
| `Sheets.EmptyRangeSelectsNothing` | backend/sheets.py:155 | A range whose start comes after its end selects no record. |
| `Api.NonEmptyMembers` | backend/main.py:49-50 | Exactly the non-empty stripped pieces are kept. |
| `Api.NonEmptyAppend` | backend/main.py:48-50 | The origins keep their original order. |
| `Api.StrippedMembers` | backend/main.py:48-50 | The parsed origins are exactly the non-empty results of stripping a comma-separated piece. |
| `Api.StrippedAreStripped` | backend/main.py:48-50 | No parsed origin has surrounding whitespace. |
| `Api.ParseOrigins` | backend/main.py:48-50 | No parsed origin is empty, and none has surrounding whitespace. |
| `Api.Cors` | backend/main.py:47-61 | The origin list is never empty. Credentials are allowed exactly when the parsed list is non-empty and has no "*". The origins passed on are ["*"] when credentials are not allowed, and the parsed list when they are. |
| `Api.CorsDefault` | backend/main.py:47 | With `ALLOWED_ORIGINS` unset, every origin is allowed and credentials are not. |
| `Api.WildcardParses` | backend/main.py:47-50 | The default value "*" parses to the single origin "*". |
| `Api.CorsBlankList` | backend/main.py:52-53 | A value made only of commas and blanks names no origin, so every origin is allowed without credentials. |
| `Api.NoneNonEmpty` | backend/main.py:49-50 | A list of empty pieces yields no origin. |
| `Api.JoinMember` | backend/main.py:49 | Every character of a piece occurs in the joined text. |
| `Api.Dump` | backend/main.py:90 | `model_dump()` has every declared field as a key and no categoria key. Type and method are given by their values. An optional field holding None is a key holding None, and one with a value holds that value. |
| `Api.SyncedCategoryIsGeneral` | backend/models.py:23-32 | A transaction that reaches the sheet through /api/sync always gets category "general". |
| `Api.SyncMessage` | backend/main.py:96 | The message is "✅ ", then the count in decimal digits, then " transacción(es) sincronizada(s)". The digits read back as the number synced. |
| `Api.SyncTransactions` | backend/main.py:81-109 | On success, `synced` equals the number of rows appended, and the sheet is the old rows plus those rows, built with the corrected `NewRow` (see Findings). A missing-credentials failure answers 503 and any other failure answers 500. On failure the sheet is unchanged, unless the failing write had already stored the rows. |
| `Api.RepushIsHarmless` | backend/main.py:81-109 | Two pushes of the same valid batch to a sheet with a header row append the batch's new transactions once. The second push reports 0. |
| `Api.RetryAfterLostReply` | backend/main.py:81-109 | A push whose write is stored but whose reply is lost answers 500. The client's retry then appends nothing and reports 0, so the sheet holds the batch once. |
| `Api.Selected` | backend/main.py:124-127 | The date-range query is used only when both start_date and end_date are given and non-empty. Otherwise all records are used. A read failure passes through. |
| `Api.Normalize` | backend/main.py:131-140 | A record normalises exactly when its Monto converts. |
| `Api.MontoOf` | backend/main.py:134 | A numeric Monto converts to its own value, and a missing Monto reads as 0. Only a text Monto fails to convert, with a bad value. |
| `Api.NormalizeDefaults` | backend/main.py:131-140 | Missing keys give "" for the texts, 0 for monto and "efectivo" for metodoPago. Keys that are present are copied. |
| `Api.NormalizeIgnoresCategory` | backend/main.py:131-140 | Categoría is not carried into the listing, so removing it changes nothing. |
| `Api.GetTransactions` | backend/main.py:112-147 | The listing maps records one to one, in order, and `total` equals its length. A read failure answers 503 or 500, and a Monto that does not convert answers 500. |
| `Api.IncomeIff` | backend/main.py:169-172 | A record is income exactly when its Tipo, lowercased, is "ingreso". Any other string, or a missing Tipo, makes it an expense. |
| `Api.IsIncome` | backend/main.py:169 | Only a numeric Tipo fails, because it has no `lower()`. This is a bad value. |
| `Api.IncomeIgnoresCase` | backend/main.py:169 | "INGRESO" and "Ingreso" count as income, and "gasto" counts as an expense. |
| `Strings.LowerIngreso` | backend/main.py:169 | A Tipo lowercases to "ingreso" exactly when it has seven letters and each one is the letter of "ingreso" in either case. |
| `Api.Totals` | backend/main.py:164-172 | The totals exist exactly when every record's Monto and Tipo can be used. |
| `Api.TotalsPartition` | backend/main.py:164-172 | The two totals add up to the sum of all amounts. |
| `Api.RecordsOfTypeMembers` | backend/main.py:169-172 | The income records are exactly the records that `IsIncome` marks as income. The expense records are exactly those it marks as expenses. |
| `Api.TotalOfType` | backend/main.py:164-172 | The total of one type is the sum of the amounts of exactly the records of that type. |
| `Api.TotalsByType` | backend/main.py:164-172 | `totalIngresos` is the sum over exactly the income records, and `totalGastos` the sum over exactly the expense records. |
| `Api.GetSummary` | backend/main.py:150-184 | The summary holds the income and expense totals of the selected records, balance = income − expense, and transacciones = the number of records. Failures answer 503 or 500. |
| `Api.SingleIncomeSummary` | backend/main.py:164-179 | A single "ingreso" record of 500 gives totals of 500 income and 0 expense. |
| `Api.CreatedAtLostAsWritten` | backend/sheets.py:131 | As written, a transaction sent without createdAt is stored with an empty Creado cell. |
| `Api.CreatedAtStamped` | backend/sheets.py:131 | With the correction, every synced row carries a creation time: the one sent, or the current time. |

## Findings

| source | as written | input that shows it | evidently intended | confidence | as-written member | corrected member |
|---|---|---|---|---|---|---|
| backend/sheets.py:131 | The Creado cell is `t.get("createdAt", datetime.now().isoformat())`. The dictionaries come from `TransactionIn.model_dump()` (backend/main.py:90), which always contains the key `createdAt`, with None when the client sent none (backend/models.py:32). So the default never applies, and the cell is written empty. | A sync request whose transaction omits `createdAt` | The row should be stamped with the current time when the client sent no createdAt | medium; not executed | `Sheets.RowAsWritten`, `Api.CreatedAtLostAsWritten` | `Sheets.NewRow`, `Api.CreatedAtStamped` |

`AppendTransactions` builds its rows with the corrected `NewRow`.

## Left out

- The Google client and sheet handles are not modelled: `_get_credentials`, `get_client`, `get_sheet` and the `_client`/`_sheet` singletons, along with the creation and sharing of the spreadsheet. They are network I/O through gspread. Their possible outcomes are the `Access` input.
- `get_all_transactions` (`get_all_records`) is a library read. Its result is the `fetched` input. The conversion of rows into records, including gspread's numeric conversion, is not modelled. So no lemma connects rows written by the append to records read by the queries.
- FastAPI plumbing is not modelled: app construction, lifespan, logging, the health route, `uvicorn.run`, and the 422 response FastAPI sends when a body fails validation. The handler takes the validated batch. `ParseBatch` states when a body is accepted.
- The runtime behaviour of `CORSMiddleware` and `ALLOWED_ORIGIN_REGEX` is library code. Only the computed configuration is modelled.
- Floating point: amounts are integers.
  - `Models.AmountOk` therefore cannot express a fractional positive amount such as 0.5.
  - `Api.MontoOf` treats every text Monto as a `ValueError`. It does not model texts that `float()` would accept but `get_all_records` leaves as text, such as digits with underscores.
- `Sheets.CellText` renders a number in the ID column in plain decimal. Custom number formats are not modelled.
- `datetime.now()` is a clock read. It is the `now` parameter, which is the same for every row of a batch, whereas the source reads the clock once per row.
- `Strings.Lower` folds only ASCII letters. This gives the same answer as Python's `lower()` when comparing against "ingreso", because no non-ASCII character lowercases to a single letter of that word.
- `Models.DateShaped` tests ASCII digits. The regular-expression engine's Unicode digits and the rest of pydantic's type coercion are not modelled.
- `KeyError` is not modelled. The dictionaries always carry id, tipo, monto and fecha, as validated requests do.
- A failing `append_rows` either stored all the new rows or none of them. A write that stores only part of a batch before raising is not modelled.
- Concurrency is not modelled: two `/api/sync` requests racing on the same sheet.
- The client side is not modelled: its offline store, pending-change tracking, push/pull engine and connectivity handling are not part of this backend. The model covers only the server contract they rely on: a re-pushed batch is harmless.
