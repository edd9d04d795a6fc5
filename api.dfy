/** The HTTP layer of the backend: the CORS settings computed from
    ALLOWED_ORIGINS, POST /api/sync (append a validated batch), GET
    /api/transactions (list records, normalised) and GET /api/summary
    (income and expense totals).

    What the spreadsheet returns is an input: `fetched` is the outcome of
    reading every record (the records, or the fault the read raised). */
module Api {
  import opened Base
  import opened Strings
  import opened Models
  import opened Sheets

  /** What a route answers: a body, or an HTTP error status. */
  datatype Response<T> = Success(body: T) | HttpError(status: int)

  // ---------------------------------------------------------------------------
  // CORS settings
  // ---------------------------------------------------------------------------

  /** Each piece stripped of surrounding whitespace. */
  function StripAll(pieces: seq<string>): (r: seq<string>)
    ensures |r| == |pieces|
    ensures forall k :: 0 <= k < |pieces| ==> r[k] == Strip(pieces[k])
  {
    seq(|pieces|, k requires 0 <= k < |pieces| => Strip(pieces[k]))
  }

  /** The non-empty strings, in order. */
  function NonEmpty(xs: seq<string>): (r: seq<string>)
    ensures |r| <= |xs|
  {
    if xs == [] then []
    else
      var init := NonEmpty(xs[..|xs| - 1]);
      var last := xs[|xs| - 1];
      if last != "" then init + [last] else init
  }

  /** Exactly the non-empty strings are kept. */
  lemma {:induction false} NonEmptyMembers(xs: seq<string>)
    ensures forall o :: o in NonEmpty(xs) <==> o in xs && o != ""
  {
    if xs != [] {
      NonEmptyMembers(xs[..|xs| - 1]);
      assert xs == xs[..|xs| - 1] + [xs[|xs| - 1]];
    }
  }

  /** Order is kept: filtering a concatenation concatenates the filtered parts. */
  lemma {:induction false} NonEmptyAppend(a: seq<string>, b: seq<string>)
    ensures NonEmpty(a + b) == NonEmpty(a) + NonEmpty(b)
    decreases |b|
  {
    if b == [] {
      assert a + b == a;
    } else {
      var b', last := b[..|b| - 1], b[|b| - 1];
      NonEmptyAppend(a, b');
      assert (a + b)[..|a + b| - 1] == a + b';
      assert (a + b)[|a + b| - 1] == last;
      if last != "" {
        assert NonEmpty(a) + NonEmpty(b) == (NonEmpty(a) + NonEmpty(b')) + [last];
      }
    }
  }

  /** The origin list written in ALLOWED_ORIGINS: the comma-separated pieces,
      stripped, the empty ones dropped. */
  function ParseOrigins(env: string): (origins: seq<string>)
    ensures forall o :: o in origins ==> o != "" && Strip(o) == o
  {
    var pieces := Split(env, ',');
    NonEmptyMembers(StripAll(pieces));
    StrippedAreStripped(pieces);
    NonEmpty(StripAll(pieces))
  }

  /** The parsed origins are exactly the non-empty stripped pieces. */
  lemma StrippedMembers(pieces: seq<string>)
    ensures forall o :: o in NonEmpty(StripAll(pieces)) <==>
      o != "" && exists k :: 0 <= k < |pieces| && Strip(pieces[k]) == o
  {
    NonEmptyMembers(StripAll(pieces));
  }

  /** Each parsed origin has nothing left to strip. */
  lemma StrippedAreStripped(pieces: seq<string>)
    ensures forall o :: o in NonEmpty(StripAll(pieces)) ==> Strip(o) == o
  {
    var stripped := StripAll(pieces);
    NonEmptyMembers(stripped);
    forall o | o in NonEmpty(stripped) ensures Strip(o) == o {
      var k :| 0 <= k < |stripped| && stripped[k] == o;
      StripIdempotent(pieces[k]);
    }
  }

  /** The configuration given to the CORS middleware. */
  datatype CorsSettings = CorsSettings(allowOrigins: seq<string>, allowCredentials: bool)

  /** The CORS settings for ALLOWED_ORIGINS (unset means "*"): an origin list
      that is never empty; credentials allowed exactly when the list names no
      wildcard; the wildcard alone when it does (or when no origin is listed),
      the parsed list otherwise. */
  function Cors(env: Option<string>): (c: CorsSettings)
    ensures c.allowOrigins != []
    ensures var parsed := ParseOrigins(if env.Some? then env.value else "*");
      && (c.allowCredentials <==> parsed != [] && "*" !in parsed)
      && (c.allowCredentials ==> c.allowOrigins == parsed)
      && (!c.allowCredentials ==> c.allowOrigins == ["*"])
  {
    var parsed := ParseOrigins(if env.Some? then env.value else "*");
    var allowed := if parsed == [] then ["*"] else parsed;
    var allowAll := "*" in allowed;
    assert allowAll <==> parsed == [] || "*" in parsed by {
      if parsed == [] { assert allowed[0] == "*"; }
    }
    CorsSettings(if allowAll then ["*"] else allowed, !allowAll)
  }

  /** Unset, ALLOWED_ORIGINS allows every origin and no credentials. */
  lemma CorsDefault()
    ensures Cors(None) == CorsSettings(["*"], false)
  {
    WildcardParses();
  }

  /** "*" parses to the wildcard alone. */
  lemma WildcardParses()
    ensures ParseOrigins("*") == ["*"]
  {
    WildcardSplits();
    WildcardStrips();
    assert StripAll(["*"]) == ["*"];
    assert ["*"][..0] == [];
    assert NonEmpty(["*"]) == ["*"];
  }

  lemma WildcardSplits()
    ensures Split("*", ',') == ["*"]
  {
    assert "*"[1..] == [];
    assert Split("*", ',') == [['*'] + []] + [];
    assert ['*'] + [] == "*";
  }

  lemma WildcardStrips()
    ensures Strip("*") == "*"
  {
    assert !IsSpace('*');
    StripUnpadded("*");
  }

  /** A list of blanks and commas names no origin: every origin is allowed,
      without credentials. */
  lemma CorsBlankList(env: string)
    requires forall k :: 0 <= k < |env| ==> env[k] == ',' || IsSpace(env[k])
    ensures Cors(Some(env)) == CorsSettings(["*"], false)
  {
    var pieces := Split(env, ',');
    JoinSplit(env, ',');
    forall p | p in pieces ensures AllSpace(p) {
      JoinMember(pieces, ',', p);
      assert ',' !in p;
    }
    var stripped := StripAll(pieces);
    assert forall k :: 0 <= k < |pieces| ==> stripped[k] == "" by {
      forall k | 0 <= k < |pieces| ensures stripped[k] == "" {
        assert pieces[k] in pieces;
      }
    }
    NoneNonEmpty(stripped);
  }

  /** Nothing is kept of a list of empty strings. */
  lemma {:induction false} NoneNonEmpty(xs: seq<string>)
    requires forall k :: 0 <= k < |xs| ==> xs[k] == ""
    ensures NonEmpty(xs) == []
  {
    if xs != [] {
      NoneNonEmpty(xs[..|xs| - 1]);
    }
  }

  /** Every piece of a list is a part of its join. */
  lemma {:induction false} JoinMember(parts: seq<string>, sep: char, p: string)
    requires p in parts
    ensures forall k :: 0 <= k < |p| ==> p[k] in Join(parts, sep)
  {
    if |parts| > 1 && p != parts[0] {
      JoinMember(parts[1..], sep, p);
    }
  }

  // ---------------------------------------------------------------------------
  // POST /api/sync
  // ---------------------------------------------------------------------------

  function EntryOf(o: Option<string>): Entry {
    if o.Some? then Given(o.value) else NoneValue
  }

  /** t.model_dump(): a dictionary with every declared field as a key — a field
      holding None is a key holding None — and no categoria key, since
      TransactionIn declares none. */
  function Dump(t: TransactionIn): (d: TxDict)
    ensures d.id == t.id && d.tipo == TypeValue(t.tipo) && d.monto == t.monto && d.fecha == t.fecha
    ensures d.categoria == Missing
    ensures d.metodoPago == Given(MethodValue(t.metodoPago))
    ensures t.descripcion.None? <==> d.descripcion == NoneValue
    ensures t.descripcion.Some? ==> d.descripcion == Given(t.descripcion.value)
    ensures t.usuario.None? <==> d.usuario == NoneValue
    ensures t.usuario.Some? ==> d.usuario == Given(t.usuario.value)
    ensures t.createdAt.None? <==> d.createdAt == NoneValue
    ensures t.createdAt.Some? ==> d.createdAt == Given(t.createdAt.value)
  {
    TxDict(t.id, TypeValue(t.tipo), t.monto, t.fecha, EntryOf(t.descripcion), Missing,
           Given(MethodValue(t.metodoPago)), EntryOf(t.usuario), EntryOf(t.createdAt))
  }

  function DumpAll(ts: seq<TransactionIn>): (ds: seq<TxDict>)
    ensures |ds| == |ts|
    ensures forall i :: 0 <= i < |ts| ==> ds[i] == Dump(ts[i])
  {
    seq(|ts|, i requires 0 <= i < |ts| => Dump(ts[i]))
  }

  /** A transaction that arrives through /api/sync is always filed under
      category "general". */
  lemma SyncedCategoryIsGeneral(t: TransactionIn, now: string)
    ensures NewRow(Dump(t), now)[5] == Text("general")
  {
  }

  /** The body of a successful sync. */
  datatype SyncResponse = SyncResponse(synced: nat, message: string)

  /** The text after the count in the sync message. */
  const SyncSuffix: string := " transacción(es) sincronizada(s)"

  /** f"✅ {synced_count} transacción(es) sincronizada(s)": the count is
      written in decimal between the check mark and the suffix, and reads back
      as the number synced. */
  function SyncMessage(n: nat): (m: string)
    ensures |m| > 2 + |SyncSuffix| && m[..2] == "✅ " && m[|m| - |SyncSuffix|..] == SyncSuffix
    ensures var digits := m[2..|m| - |SyncSuffix|];
      (forall k :: 0 <= k < |digits| ==> IsDigit(digits[k])) && DigitsValue(digits) == n
  {
    var digits := NatToString(n);
    NatToStringRoundTrip(n);
    var m := "✅ " + digits + SyncSuffix;
    assert m[..2] == "✅ ";
    assert m[2..|m| - |SyncSuffix|] == digits;
    assert m[|m| - |SyncSuffix|..] == SyncSuffix;
    m
  }

  /** sync_transactions: the batch is dumped and appended. On success the
      response reports the number of rows appended; a failure answers 503 when
      the credentials are missing and 500 otherwise, and leaves the sheet as it
      was unless the failing write had already stored the rows. */
  method SyncTransactions(request: seq<TransactionIn>, sheet: Worksheet, access: Access, now: string)
    returns (resp: Response<SyncResponse>)
    modifies sheet
    ensures var added := RowsToAdd(KnownIds(old(sheet.rows), access), DumpAll(request), now);
      && (resp.HttpError? <==> access.opening.Some? || (access.write.Some? && added != []))
      && (resp.HttpError? && (access.opening.Some? || !access.writeLanded) ==> sheet.rows == old(sheet.rows))
      && (resp.HttpError? && access.opening.None? && access.writeLanded ==> sheet.rows == old(sheet.rows) + added)
      && (resp.HttpError? && access.opening.Some? ==> resp.status == StatusOf(access.opening.value))
      && (resp.HttpError? && access.opening.None? ==> resp.status == StatusOf(access.write.value))
      && (resp.Success? ==> sheet.rows == old(sheet.rows) + added
                            && resp.body == SyncResponse(|added|, SyncMessage(|added|)))
  {
    var transactionsData := DumpAll(request);
    var outcome := AppendTransactions(sheet, transactionsData, access, now);
    match outcome
    case Ok(syncedCount) =>
      resp := Success(SyncResponse(syncedCount, SyncMessage(syncedCount)));
    case Err(fault) =>
      resp := HttpError(StatusOf(fault));
  }

  /** The property the client's sync relies on: pushing a valid batch twice in
      a row to a sheet that has its header row appends the batch's new
      transactions once, and the second push appends nothing and reports 0. */
  method RepushIsHarmless(sheet: Worksheet, request: seq<TransactionIn>, now1: string, now2: string)
    returns (first: Response<SyncResponse>, second: Response<SyncResponse>)
    requires |sheet.rows| >= 1
    requires forall t :: t in request ==> Valid(t)
    modifies sheet
    ensures first.Success? && second == Success(SyncResponse(0, SyncMessage(0)))
    ensures sheet.rows == old(sheet.rows) + RowsToAdd(ExistingIds(old(sheet.rows)), DumpAll(request), now1)
  {
    var healthy := Access(None, true, None, false);
    var data := DumpAll(request);
    forall d | d in data ensures d.id != "" {
      var i :| 0 <= i < |data| && data[i] == d;
      assert request[i] in request;
    }
    first := SyncTransactions(request, sheet, healthy, now1);
    RepushSelectsNothing(old(sheet.rows), data, now1);
    second := SyncTransactions(request, sheet, healthy, now2);
  }

  /** The case the id check exists for: the write is stored but its reply is
      lost, so the push answers 500 and the client keeps the batch pending;
      the client's retry then appends nothing and reports 0, and the sheet
      holds the batch once. */
  method RetryAfterLostReply(sheet: Worksheet, request: seq<TransactionIn>, now1: string, now2: string)
    returns (first: Response<SyncResponse>, retry: Response<SyncResponse>)
    requires |sheet.rows| >= 1
    requires forall t :: t in request ==> Valid(t)
    requires RowsToAdd(ExistingIds(sheet.rows), DumpAll(request), now1) != []
    modifies sheet
    ensures first == HttpError(500)
    ensures retry == Success(SyncResponse(0, SyncMessage(0)))
    ensures sheet.rows == old(sheet.rows) + RowsToAdd(ExistingIds(old(sheet.rows)), DumpAll(request), now1)
  {
    var lostReply := Access(None, true, Some(ServiceFailure), true);
    var healthy := Access(None, true, None, false);
    var data := DumpAll(request);
    forall d | d in data ensures d.id != "" {
      var i :| 0 <= i < |data| && data[i] == d;
      assert request[i] in request;
    }
    first := SyncTransactions(request, sheet, lostReply, now1);
    RepushSelectsNothing(old(sheet.rows), data, now1);
    retry := SyncTransactions(request, sheet, healthy, now2);
  }

  // ---------------------------------------------------------------------------
  // Which records a query reads
  // ---------------------------------------------------------------------------

  /** A query parameter counts as given when it is present and not empty. */
  predicate Supplied(p: Option<string>) {
    p.Some? && p.value != ""
  }

  /** The records a GET route works on: the date-range query when both bounds
      are given, every record otherwise. */
  function Selected(startDate: Option<string>, endDate: Option<string>, fetched: Result<seq<Record>, Fault>)
    : (r: Result<seq<Record>, Fault>)
    ensures fetched.Err? ==> r == fetched
    ensures fetched.Ok? && !(Supplied(startDate) && Supplied(endDate)) ==> r == fetched
    ensures fetched.Ok? && Supplied(startDate) && Supplied(endDate) ==>
      r == FilterByDate(fetched.value, startDate.value, endDate.value)
  {
    match fetched
    case Err(f) => Err(f)
    case Ok(all) =>
      if Supplied(startDate) && Supplied(endDate) then FilterByDate(all, startDate.value, endDate.value)
      else Ok(all)
  }

  // ---------------------------------------------------------------------------
  // GET /api/transactions
  // ---------------------------------------------------------------------------

  /** One transaction as the listing returns it. There is no category: the
      Categoría column is not carried into the listing. */
  datatype Listed = Listed(
    id: Value, tipo: Value, monto: int, fecha: Value, descripcion: Value,
    metodoPago: Value, usuario: Value, createdAt: Value)

  /** r.get(key, default). */
  function Lookup(r: Record, key: string, default: string): Value {
    if key in r then r[key] else Str(default)
  }

  /** float(r.get("Monto", 0)): a number, or 0 when there is no Monto column;
      a text (an empty cell included) does not convert (ValueError). */
  function MontoOf(r: Record): (m: Result<int, Fault>)
    ensures m.Err? <==> "Monto" in r && r["Monto"].Str?
    ensures m.Err? ==> m.error == BadValue
    ensures "Monto" !in r ==> m == Ok(0)
    ensures "Monto" in r && r["Monto"].Num? ==> m == Ok(r["Monto"].n)
  {
    if "Monto" !in r then Ok(0)
    else match r["Monto"]
      case Num(n) => Ok(n)
      case Str(_) => Err(BadValue)
  }

  /** The listing entry for one record. */
  function Normalize(r: Record): (out: Result<Listed, Fault>)
    ensures out.Ok? <==> MontoOf(r).Ok?
  {
    match MontoOf(r)
    case Err(e) => Err(e)
    case Ok(monto) =>
      Ok(Listed(
        Lookup(r, Headers[0], ""), Lookup(r, Headers[1], ""), monto, Lookup(r, Headers[3], ""),
        Lookup(r, Headers[4], ""), Lookup(r, Headers[6], "efectivo"), Lookup(r, Headers[7], ""),
        Lookup(r, Headers[8], "")))
  }

  /** A missing column reads as "" for the texts, 0 for monto and "efectivo"
      for metodoPago; a present one is copied. */
  lemma NormalizeDefaults(r: Record)
    requires MontoOf(r).Ok?
    ensures var l := Normalize(r).value;
      && ("ID" !in r ==> l.id == Str("")) && ("ID" in r ==> l.id == r["ID"])
      && ("Tipo" !in r ==> l.tipo == Str("")) && ("Tipo" in r ==> l.tipo == r["Tipo"])
      && ("Monto" !in r ==> l.monto == 0) && ("Monto" in r ==> Num(l.monto) == r["Monto"])
      && ("Fecha" !in r ==> l.fecha == Str("")) && ("Fecha" in r ==> l.fecha == r["Fecha"])
      && ("Descripción" !in r ==> l.descripcion == Str(""))
      && ("Descripción" in r ==> l.descripcion == r["Descripción"])
      && ("Método de Pago" !in r ==> l.metodoPago == Str("efectivo"))
      && ("Método de Pago" in r ==> l.metodoPago == r["Método de Pago"])
      && ("Usuario" !in r ==> l.usuario == Str("")) && ("Usuario" in r ==> l.usuario == r["Usuario"])
      && ("Creado" !in r ==> l.createdAt == Str("")) && ("Creado" in r ==> l.createdAt == r["Creado"])
  {
  }

  /** The listing ignores the Categoría column: removing it changes nothing. */
  lemma NormalizeIgnoresCategory(r: Record)
    ensures Normalize(r) == Normalize(r - {"Categoría"})
  {
    var r' := r - {"Categoría"};
    assert forall k :: k != "Categoría" ==> (k in r <==> k in r');
    assert MontoOf(r) == MontoOf(r');
  }

  /** The body of GET /api/transactions. */
  datatype Listing = Listing(transactions: seq<Listed>, total: nat)

  /** get_transactions: one listing entry per selected record, in the same
      order, and a total equal to the number of entries. A fault while reading
      answers 503 for missing credentials and 500 otherwise; a record whose
      Monto does not convert answers 500. */
  method GetTransactions(startDate: Option<string>, endDate: Option<string>, fetched: Result<seq<Record>, Fault>)
    returns (resp: Response<Listing>)
    ensures Selected(startDate, endDate, fetched).Err? ==>
      resp == HttpError(StatusOf(Selected(startDate, endDate, fetched).error))
    ensures Selected(startDate, endDate, fetched).Ok? ==>
      var records := Selected(startDate, endDate, fetched).value;
      && (resp.Success? <==> forall i :: 0 <= i < |records| ==> Normalize(records[i]).Ok?)
      && (resp.Success? ==>
            resp.body.total == |resp.body.transactions| == |records|
            && forall i :: 0 <= i < |records| ==> Ok(resp.body.transactions[i]) == Normalize(records[i]))
      && (resp.HttpError? ==> resp.status == 500)
  {
    var selected := Selected(startDate, endDate, fetched);
    if selected.Err? {
      return HttpError(StatusOf(selected.error));
    }
    var records := selected.value;
    var normalized: seq<Listed> := [];
    for i := 0 to |records|
      invariant |normalized| == i
      invariant forall j :: 0 <= j < i ==> Ok(normalized[j]) == Normalize(records[j])
    {
      var entry := Normalize(records[i]);
      if entry.Err? {
        return HttpError(StatusOf(entry.error));
      }
      normalized := normalized + [entry.value];
    }
    return Success(Listing(normalized, |normalized|));
  }

  // ---------------------------------------------------------------------------
  // GET /api/summary
  // ---------------------------------------------------------------------------

  /** r.get("Tipo", "").lower() == "ingreso"; a Tipo that is not a string has
      no lower() (AttributeError). */
  function IsIncome(r: Record): (b: Result<bool, Fault>)
    ensures b.Err? <==> "Tipo" in r && r["Tipo"].Num?
    ensures b.Err? ==> b.error == BadValue
  {
    if "Tipo" !in r then Ok(false)
    else match r["Tipo"]
      case Str(s) => Ok(Lower(s) == "ingreso")
      case Num(_) => Err(BadValue)
  }

  /** A record is income exactly when its Tipo, lowercased, is "ingreso"; any
      other string, and a missing Tipo, makes it an expense. */
  lemma IncomeIff(r: Record)
    ensures IsIncome(r) == Ok(true) <==> "Tipo" in r && r["Tipo"].Str? && Lower(r["Tipo"].s) == "ingreso"
    ensures IsIncome(r) == Ok(false) <==>
      "Tipo" !in r || (r["Tipo"].Str? && Lower(r["Tipo"].s) != "ingreso")
  {
  }

  /** Case does not matter: "INGRESO" and "Ingreso" are income. */
  lemma IncomeIgnoresCase()
    ensures IsIncome(map["Tipo" := Str("INGRESO")]) == Ok(true)
    ensures IsIncome(map["Tipo" := Str("Ingreso")]) == Ok(true)
    ensures IsIncome(map["Tipo" := Str("gasto")]) == Ok(false)
  {
    assert Lower("INGRESO") == "ingreso";
    assert Lower("Ingreso") == "ingreso";
    assert Lower("gasto")[0] != "ingreso"[0];
  }

  /** The income and expense totals of the records, in that order. */
  function Totals(records: seq<Record>): (r: Result<(int, int), Fault>)
    ensures r.Ok? <==> forall i :: 0 <= i < |records| ==> MontoOf(records[i]).Ok? && IsIncome(records[i]).Ok?
  {
    if records == [] then Ok((0, 0))
    else
      var r := records[|records| - 1];
      match Totals(records[..|records| - 1])
      case Err(e) => Err(e)
      case Ok((income, expense)) =>
        match MontoOf(r)
        case Err(e) => Err(e)
        case Ok(monto) =>
          match IsIncome(r)
          case Err(e) => Err(e)
          case Ok(true) => Ok((income + monto, expense))
          case Ok(false) => Ok((income, expense + monto))
  }

  /** The sum of every record's amount, regardless of type. */
  function AmountSum(records: seq<Record>): Result<int, Fault> {
    if records == [] then Ok(0)
    else
      match AmountSum(records[..|records| - 1])
      case Err(e) => Err(e)
      case Ok(sum) =>
        match MontoOf(records[|records| - 1])
        case Err(e) => Err(e)
        case Ok(monto) => Ok(sum + monto)
  }

  /** Every record is counted once, as income or as expense: the two totals
      add up to the sum of all amounts. */
  lemma {:induction false} TotalsPartition(records: seq<Record>)
    requires Totals(records).Ok?
    ensures AmountSum(records) == Ok(Totals(records).value.0 + Totals(records).value.1)
  {
    if records != [] {
      var init := records[..|records| - 1];
      assert Totals(init).Ok?;
      TotalsPartition(init);
    }
  }

  /** The records IsIncome marks as income (wanted == true) or as expense
      (wanted == false), in order. */
  function RecordsOfType(records: seq<Record>, wanted: bool): (r: seq<Record>)
    ensures |r| <= |records|
  {
    if records == [] then []
    else
      var init := RecordsOfType(records[..|records| - 1], wanted);
      var last := records[|records| - 1];
      if IsIncome(last) == Ok(wanted) then init + [last] else init
  }

  /** Exactly the records of the wanted type are kept. */
  lemma {:induction false} RecordsOfTypeMembers(records: seq<Record>, wanted: bool)
    ensures forall r :: r in RecordsOfType(records, wanted) <==> r in records && IsIncome(r) == Ok(wanted)
  {
    if records != [] {
      RecordsOfTypeMembers(records[..|records| - 1], wanted);
      assert records == records[..|records| - 1] + [records[|records| - 1]];
    }
  }

  /** totalIngresos is the sum of the amounts of exactly the income records,
      and totalGastos that of exactly the expense records. */
  lemma TotalsByType(records: seq<Record>)
    requires Totals(records).Ok?
    ensures AmountSum(RecordsOfType(records, true)) == Ok(Totals(records).value.0)
    ensures AmountSum(RecordsOfType(records, false)) == Ok(Totals(records).value.1)
  {
    TotalOfType(records, true);
    TotalOfType(records, false);
  }

  /** The total of one type is the sum over the records of that type. */
  lemma {:induction false} TotalOfType(records: seq<Record>, wanted: bool)
    requires Totals(records).Ok?
    ensures AmountSum(RecordsOfType(records, wanted))
         == Ok(if wanted then Totals(records).value.0 else Totals(records).value.1)
  {
    if records != [] {
      var init, last := records[..|records| - 1], records[|records| - 1];
      TotalsSnoc(records);
      TotalOfType(init, wanted);
      RecordsOfTypeSnoc(records, wanted);
      var prev := if wanted then Totals(init).value.0 else Totals(init).value.1;
      SumStep(RecordsOfType(init, wanted), last, IsIncome(last) == Ok(wanted), prev);
    }
  }

  /** Adding the last record to a selection adds its amount to the sum
      exactly when it is selected. */
  lemma SumStep(selected: seq<Record>, last: Record, keep: bool, prev: int)
    requires AmountSum(selected) == Ok(prev) && MontoOf(last).Ok?
    ensures AmountSum(selected + (if keep then [last] else []))
         == Ok(if keep then prev + MontoOf(last).value else prev)
  {
    if keep {
      AmountSumSnoc(selected, last);
    } else {
      assert selected + [] == selected;
    }
  }

  /** One step of Totals: the last record adds its amount to its own type. */
  lemma TotalsSnoc(records: seq<Record>)
    requires records != [] && Totals(records).Ok?
    ensures var init, last := records[..|records| - 1], records[|records| - 1];
      && Totals(init).Ok? && MontoOf(last).Ok? && IsIncome(last).Ok?
      && Totals(records) == Ok(
        if IsIncome(last).value then (Totals(init).value.0 + MontoOf(last).value, Totals(init).value.1)
        else (Totals(init).value.0, Totals(init).value.1 + MontoOf(last).value))
  {
    assert MontoOf(records[|records| - 1]).Ok? && IsIncome(records[|records| - 1]).Ok?;
  }

  /** One step of RecordsOfType: the last record is kept when it has the
      wanted type. */
  lemma RecordsOfTypeSnoc(records: seq<Record>, wanted: bool)
    requires records != []
    ensures var init, last := records[..|records| - 1], records[|records| - 1];
      RecordsOfType(records, wanted)
        == RecordsOfType(init, wanted) + (if IsIncome(last) == Ok(wanted) then [last] else [])
  {
  }

  /** Appending one record adds its amount to the sum. */
  lemma AmountSumSnoc(records: seq<Record>, last: Record)
    ensures AmountSum(records + [last]) ==
      match AmountSum(records)
      case Err(e) => Err(e)
      case Ok(sum) =>
        match MontoOf(last)
        case Err(e) => Err(e)
        case Ok(monto) => Ok(sum + monto)
  {
    assert (records + [last])[..|records|] == records;
  }

  /** The body of GET /api/summary. */
  datatype Summary = Summary(totalIngresos: int, totalGastos: int, balance: int, transacciones: nat)

  /** get_summary: the income and expense totals of the selected records, the
      balance income - expense, and the number of records. A fault while
      reading answers 503 for missing credentials and 500 otherwise; a record
      whose Monto or Tipo cannot be used answers 500. */
  method GetSummary(startDate: Option<string>, endDate: Option<string>, fetched: Result<seq<Record>, Fault>)
    returns (resp: Response<Summary>)
    ensures Selected(startDate, endDate, fetched).Err? ==>
      resp == HttpError(StatusOf(Selected(startDate, endDate, fetched).error))
    ensures Selected(startDate, endDate, fetched).Ok? ==>
      var records := Selected(startDate, endDate, fetched).value;
      match Totals(records)
      case Err(_) => resp == HttpError(500)
      case Ok((income, expense)) =>
        resp == Success(Summary(income, expense, income - expense, |records|))
  {
    var selected := Selected(startDate, endDate, fetched);
    if selected.Err? {
      return HttpError(StatusOf(selected.error));
    }
    var records := selected.value;
    var totalIngresos, totalGastos := 0, 0;
    for i := 0 to |records|
      invariant Totals(records[..i]) == Ok((totalIngresos, totalGastos))
    {
      assert records[..i + 1][..i] == records[..i];
      var monto := MontoOf(records[i]);
      if monto.Err? {
        return HttpError(StatusOf(monto.error));
      }
      var income := IsIncome(records[i]);
      if income.Err? {
        return HttpError(StatusOf(income.error));
      }
      if income.value {
        totalIngresos := totalIngresos + monto.value;
      } else {
        totalGastos := totalGastos + monto.value;
      }
    }
    assert records[..|records|] == records;
    return Success(Summary(totalIngresos, totalGastos, totalIngresos - totalGastos, |records|));
  }

  /** A single income record of 500 totals 500 income and no expense. */
  lemma SingleIncomeSummary()
    ensures Totals([map["Tipo" := Str("ingreso"), "Monto" := Num(500)]]) == Ok((500, 0))
  {
    var r := map["Tipo" := Str("ingreso"), "Monto" := Num(500)];
    assert [r][..0] == [];
    assert Lower("ingreso") == "ingreso";
  }

  // ---------------------------------------------------------------------------
  // The creation time of synced transactions
  // ---------------------------------------------------------------------------

  /** As written, a transaction sent without createdAt is stored with an empty
      Creado cell: model_dump() gives the key with None, so the default of
      t.get("createdAt", now) never applies. */
  lemma CreatedAtLostAsWritten(raw: RawTransaction, now: string)
    requires Acceptable(raw) && raw.createdAt.Absent?
    ensures RowAsWritten(Dump(ParseTransaction(raw).value), now)[8] == Blank
  {
  }

  /** With the default applied to None as well, every synced row carries a
      creation time: the one sent, or now. */
  lemma CreatedAtStamped(raw: RawTransaction, now: string)
    requires Acceptable(raw)
    ensures NewRow(Dump(ParseTransaction(raw).value), now)[8]
         == Text(if raw.createdAt.Present? then raw.createdAt.value else now)
  {
  }
}
