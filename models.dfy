/** The request model of POST /api/sync: the two enumerations, the field
    constraints of one incoming transaction (TransactionIn) and the batch
    bounds of a sync request (SyncRequest). A request body is accepted exactly
    when every constraint holds; omitted optional fields take their defaults. */
module Models {
  import opened Base
  import opened Strings

  // ---------------------------------------------------------------------------
  // Enumerations
  // ---------------------------------------------------------------------------

  /** TransactionType: income or expense. */
  datatype TransactionType = Ingreso | Gasto

  function TypeValue(t: TransactionType): string {
    match t
    case Ingreso => "ingreso"
    case Gasto => "gasto"
  }

  /** The member whose value is s, if any (the match is exact, case included). */
  function ParseType(s: string): (r: Option<TransactionType>)
    ensures r.Some? <==> s == "ingreso" || s == "gasto"
    ensures r.Some? ==> TypeValue(r.value) == s
  {
    if s == "ingreso" then Some(Ingreso)
    else if s == "gasto" then Some(Gasto)
    else None
  }

  lemma TypeRoundTrip(t: TransactionType)
    ensures ParseType(TypeValue(t)) == Some(t)
  {
  }

  /** PaymentMethod: cash, transfer, card or cheque. */
  datatype PaymentMethod = Efectivo | Transferencia | Tarjeta | Cheque

  function MethodValue(m: PaymentMethod): string {
    match m
    case Efectivo => "efectivo"
    case Transferencia => "transferencia"
    case Tarjeta => "tarjeta"
    case Cheque => "cheque"
  }

  function ParseMethod(s: string): (r: Option<PaymentMethod>)
    ensures r.Some? <==> s in ["efectivo", "transferencia", "tarjeta", "cheque"]
    ensures r.Some? ==> MethodValue(r.value) == s
  {
    if s == "efectivo" then Some(Efectivo)
    else if s == "transferencia" then Some(Transferencia)
    else if s == "tarjeta" then Some(Tarjeta)
    else if s == "cheque" then Some(Cheque)
    else None
  }

  lemma MethodRoundTrip(m: PaymentMethod)
    ensures ParseMethod(MethodValue(m)) == Some(m)
  {
  }

  // ---------------------------------------------------------------------------
  // Field constraints
  // ---------------------------------------------------------------------------

  /** id: at least one character. */
  predicate IdOk(id: string) {
    |id| >= 1
  }

  /** monto: strictly greater than zero. */
  predicate AmountOk(monto: int) {
    monto > 0
  }

  /** fecha: the whole string matches ^\d{4}-\d{2}-\d{2}$ — four digits, a dash,
      two digits, a dash, two digits. Month and day ranges are not checked. */
  predicate DateShaped(s: string) {
    |s| == 10 && s[4] == '-' && s[7] == '-'
    && forall k :: 0 <= k < 10 && k != 4 && k != 7 ==> IsDigit(s[k])
  }

  /** A sync batch holds between 1 and 100 transactions. */
  const MinBatch: nat := 1
  const MaxBatch: nat := 100

  predicate BatchSizeOk(n: nat) {
    MinBatch <= n <= MaxBatch
  }

  // ---------------------------------------------------------------------------
  // Incoming request bodies and validated transactions
  // ---------------------------------------------------------------------------

  /** A JSON field: left out of the object, sent as null, or sent with a value. */
  datatype Field<T> = Absent | Null | Present(value: T)

  /** One transaction object as the client sends it, before validation. */
  datatype RawTransaction = RawTransaction(
    id: Field<string>, tipo: Field<string>, monto: Field<int>, fecha: Field<string>,
    descripcion: Field<string>, metodoPago: Field<string>, usuario: Field<string>,
    createdAt: Field<string>)

  /** A validated transaction (TransactionIn). The enumerations make tipo and
      metodoPago valid by construction; the optional fields may be None. */
  datatype TransactionIn = TransactionIn(
    id: string, tipo: TransactionType, monto: int, fecha: string,
    descripcion: Option<string>, metodoPago: PaymentMethod, usuario: Option<string>,
    createdAt: Option<string>)

  /** The constraints a validated transaction satisfies. */
  predicate Valid(t: TransactionIn) {
    IdOk(t.id) && AmountOk(t.monto) && DateShaped(t.fecha)
  }

  /** The acceptance condition of TransactionIn, field by field: the four
      required fields are present and meet their constraints; metodoPago, if
      sent, is not null and names a payment method. The optional text fields
      accept null. */
  predicate Acceptable(raw: RawTransaction) {
    raw.id.Present? && IdOk(raw.id.value)
    && raw.tipo.Present? && ParseType(raw.tipo.value).Some?
    && raw.monto.Present? && AmountOk(raw.monto.value)
    && raw.fecha.Present? && DateShaped(raw.fecha.value)
    && !raw.metodoPago.Null?
    && (raw.metodoPago.Present? ==> ParseMethod(raw.metodoPago.value).Some?)
  }

  /** An optional text field with a default for when it is left out. */
  function OptionalText(f: Field<string>, default: Option<string>): Option<string> {
    match f
    case Absent => default
    case Null => None
    case Present(s) => Some(s)
  }

  /** Validation of one transaction object. */
  function ParseTransaction(raw: RawTransaction): (r: Option<TransactionIn>)
    ensures r.Some? <==> Acceptable(raw)
    ensures r.Some? ==> Valid(r.value)
  {
    if !Acceptable(raw) then None
    else
      Some(TransactionIn(
        raw.id.value,
        ParseType(raw.tipo.value).value,
        raw.monto.value,
        raw.fecha.value,
        OptionalText(raw.descripcion, Some("")),
        if raw.metodoPago.Present? then ParseMethod(raw.metodoPago.value).value else Efectivo,
        OptionalText(raw.usuario, Some("Usuario")),
        OptionalText(raw.createdAt, None)))
  }

  /** An accepted transaction keeps what was sent, fields sent as null are
      None, and fields left out take their defaults: descripcion "",
      metodoPago efectivo, usuario "Usuario", createdAt None. */
  lemma ParseKeepsAndDefaults(raw: RawTransaction)
    requires Acceptable(raw)
    ensures var t := ParseTransaction(raw).value;
      && t.id == raw.id.value && TypeValue(t.tipo) == raw.tipo.value
      && t.monto == raw.monto.value && t.fecha == raw.fecha.value
      && (raw.descripcion.Absent? ==> t.descripcion == Some(""))
      && (raw.descripcion.Present? ==> t.descripcion == Some(raw.descripcion.value))
      && (raw.metodoPago.Absent? ==> t.metodoPago == Efectivo)
      && (raw.metodoPago.Present? ==> MethodValue(t.metodoPago) == raw.metodoPago.value)
      && (raw.descripcion.Null? ==> t.descripcion == None)
      && (raw.usuario.Absent? ==> t.usuario == Some("Usuario"))
      && (raw.usuario.Present? ==> t.usuario == Some(raw.usuario.value))
      && (raw.usuario.Null? ==> t.usuario == None)
      && (raw.createdAt.Absent? ==> t.createdAt == None)
      && (raw.createdAt.Present? ==> t.createdAt == Some(raw.createdAt.value))
      && (raw.createdAt.Null? ==> t.createdAt == None)
  {
  }

  /** The date pattern checks shape only: "2024-99-99" is accepted. */
  lemma DateShapeIgnoresRanges()
    ensures DateShaped("2024-99-99")
    ensures !DateShaped("2024-1-05") && !DateShaped("2024/01/05")
  {
    assert "2024-1-05"[7] != '-';
    assert "2024/01/05"[4] != '-';
  }

  /** Validation of a sync request: the batch size is within bounds and every
      transaction is accepted. */
  function ParseBatch(raws: seq<RawTransaction>): (r: Option<seq<TransactionIn>>)
    ensures r.Some? <==> BatchSizeOk(|raws|) && forall i :: 0 <= i < |raws| ==> Acceptable(raws[i])
    ensures r.Some? ==> |r.value| == |raws|
    ensures r.Some? ==> forall i :: 0 <= i < |raws| ==> Some(r.value[i]) == ParseTransaction(raws[i])
  {
    if !BatchSizeOk(|raws|) then None else ParseAll(raws)
  }

  /** Every object validated, in order; None if any is rejected. */
  function ParseAll(raws: seq<RawTransaction>): (r: Option<seq<TransactionIn>>)
    ensures r.Some? <==> forall i :: 0 <= i < |raws| ==> Acceptable(raws[i])
    ensures r.Some? ==> |r.value| == |raws|
    ensures r.Some? ==> forall i :: 0 <= i < |raws| ==> Some(r.value[i]) == ParseTransaction(raws[i])
  {
    if raws == [] then Some([])
    else
      match ParseAll(raws[..|raws| - 1])
      case None => None
      case Some(init) =>
        match ParseTransaction(raws[|raws| - 1])
        case None => None
        case Some(t) => Some(init + [t])
  }

  /** Every transaction of an accepted batch is valid; in particular no id
      is empty. */
  lemma AcceptedBatchValid(raws: seq<RawTransaction>)
    requires ParseBatch(raws).Some?
    ensures 1 <= |ParseBatch(raws).value| <= 100
    ensures forall t :: t in ParseBatch(raws).value ==> Valid(t)
  {
    var ts := ParseBatch(raws).value;
    forall t | t in ts ensures Valid(t) {
      var i :| 0 <= i < |ts| && ts[i] == t;
      assert Some(ts[i]) == ParseTransaction(raws[i]);
    }
  }
}
