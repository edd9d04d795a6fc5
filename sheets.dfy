/** The ledger worksheet ("Transacciones"): its row layout, the idempotent
    append of transactions keyed by id, and the date-range query over the
    records read back from it.

    The spreadsheet service is not modelled: the worksheet is the sequence of
    its rows up to the last non-empty one, the first of which is normally the
    header row; whether the sheet could be opened, whether its ID column could
    be read and whether the write succeeded are inputs (Access). */
module Sheets {
  import opened Base
  import opened Strings

  /** Column titles of the worksheet, in column order. */
  const Headers: seq<string> := [
    "ID", "Tipo", "Monto", "Fecha",
    "Descripción", "Categoría", "Método de Pago",
    "Usuario", "Creado"]

  // ---------------------------------------------------------------------------
  // Cells, rows and the ID column
  // ---------------------------------------------------------------------------

  /** One cell: a text, an integer, or empty (a None value writes an empty cell). */
  datatype Cell = Text(s: string) | Number(n: int) | Blank

  type Row = seq<Cell>

  /** The text col_values reads for a cell: numbers in plain decimal, "" for empty. */
  function CellText(c: Cell): string {
    match c
    case Text(s) => s
    case Number(n) => IntToString(n)
    case Blank => ""
  }

  /** The text of a row's first (ID) cell; a row without cells reads as "". */
  function FirstText(row: Row): string {
    if row == [] then "" else CellText(row[0])
  }

  /** sheet.col_values(1): the first-column text of every row, with the trailing
      empty values dropped (the service does not return them). */
  function IdColumn(rows: seq<Row>): (col: seq<string>)
    ensures |col| <= |rows|
    ensures forall k :: 0 <= k < |col| ==> col[k] == FirstText(rows[k])
    ensures forall k :: |col| <= k < |rows| ==> FirstText(rows[k]) == ""
    ensures col == [] || col[|col| - 1] != ""
  {
    if rows == [] then []
    else if FirstText(rows[|rows| - 1]) == "" then IdColumn(rows[..|rows| - 1])
    else seq(|rows|, k requires 0 <= k < |rows| => FirstText(rows[k]))
  }

  /** set(id_column[1:]): the ids already in the sheet, the header cell skipped. */
  function ExistingIds(rows: seq<Row>): set<string> {
    TailIds(IdColumn(rows))
  }

  /** The values of a column below its first cell. */
  function TailIds(col: seq<string>): set<string> {
    set k | 1 <= k < |col| :: col[k]
  }

  /** Columns that agree below their first cell hold the same ids there. */
  lemma TailIdsAgree(c1: seq<string>, c2: seq<string>)
    requires |c1| == |c2| || (|c1| <= 1 && |c2| <= 1)
    requires forall k :: 1 <= k < |c1| ==> c1[k] == c2[k]
    ensures TailIds(c1) == TailIds(c2)
  {
    if |c1| == |c2| {
      forall x | x in TailIds(c1) ensures x in TailIds(c2) {
        var k :| 1 <= k < |c1| && c1[k] == x;
        assert c2[k] in TailIds(c2);
      }
      forall x | x in TailIds(c2) ensures x in TailIds(c1) {
        var k :| 1 <= k < |c2| && c2[k] == x;
        assert c1[k] in TailIds(c1);
      }
    }
  }

  /** A non-empty id is among the existing ids exactly when some row below the
      first one has it in its ID cell. */
  lemma ExistingIdsExact(rows: seq<Row>, id: string)
    requires id != ""
    ensures id in ExistingIds(rows) <==> exists k :: 1 <= k < |rows| && FirstText(rows[k]) == id
  {
    var col := IdColumn(rows);
    if k :| 1 <= k < |rows| && FirstText(rows[k]) == id {
      assert k < |col|;
      assert col[k] in TailIds(col);
    }
  }

  /** Two sheets that differ at most in their first row have ID columns of the
      same length once either reaches below the first row. */
  lemma ColumnLengthBelowHeader(rows1: seq<Row>, rows2: seq<Row>)
    requires |rows1| == |rows2| >= 1 && rows1[1..] == rows2[1..]
    ensures |IdColumn(rows1)| >= 2 ==> |IdColumn(rows2)| == |IdColumn(rows1)|
  {
    var c1, c2 := IdColumn(rows1), IdColumn(rows2);
    if |c1| >= 2 {
      var n := |c1| - 1;
      assert rows1[n] == rows1[1..][n - 1] == rows2[n];
      assert n < |c2|;
    }
  }

  /** Below the first row, two such sheets have the same ID cells. */
  lemma ColumnAgreesBelowHeader(rows1: seq<Row>, rows2: seq<Row>)
    requires |rows1| == |rows2| >= 1 && rows1[1..] == rows2[1..]
    requires |IdColumn(rows1)| == |IdColumn(rows2)|
    ensures forall k :: 1 <= k < |IdColumn(rows1)| ==> IdColumn(rows1)[k] == IdColumn(rows2)[k]
  {
    forall k | 1 <= k < |IdColumn(rows1)| ensures IdColumn(rows1)[k] == IdColumn(rows2)[k] {
      assert rows1[k] == rows1[1..][k - 1] == rows2[k];
    }
  }

  /** The first row never contributes an id: whatever the header row holds,
      the existing ids are the same. */
  lemma HeaderExcluded(header1: Row, header2: Row, body: seq<Row>)
    ensures ExistingIds([header1] + body) == ExistingIds([header2] + body)
  {
    var rows1, rows2 := [header1] + body, [header2] + body;
    assert rows1[1..] == body == rows2[1..];
    ColumnLengthBelowHeader(rows1, rows2);
    ColumnLengthBelowHeader(rows2, rows1);
    if |IdColumn(rows1)| >= 2 {
      ColumnAgreesBelowHeader(rows1, rows2);
    }
    TailIdsAgree(IdColumn(rows1), IdColumn(rows2));
  }

  // ---------------------------------------------------------------------------
  // Transactions and the rows built from them
  // ---------------------------------------------------------------------------

  /** The value a dictionary holds for an optional key: no such key, the key
      with None, or the key with a text. */
  datatype Entry = Missing | NoneValue | Given(s: string)

  /** A transaction dictionary as append_transactions receives it: id, tipo,
      monto and fecha are always there; the other keys are optional. */
  datatype TxDict = TxDict(
    id: string, tipo: string, monto: int, fecha: string,
    descripcion: Entry, categoria: Entry, metodoPago: Entry, usuario: Entry,
    createdAt: Entry)

  /** The cell written for t.get(key, default). */
  function GetCell(e: Entry, default: string): Cell {
    match e
    case Missing => Text(default)
    case NoneValue => Blank
    case Given(s) => Text(s)
  }

  /** A row in Headers order, with the given Creado cell. */
  function RowWith(t: TxDict, created: Cell): Row {
    [Text(t.id), Text(t.tipo), Number(t.monto), Text(t.fecha),
     GetCell(t.descripcion, ""), GetCell(t.categoria, "general"),
     GetCell(t.metodoPago, "efectivo"), GetCell(t.usuario, "Usuario"),
     created]
  }

  /** The row exactly as written in the source: the Creado cell is
      t.get("createdAt", now), so a createdAt key holding None writes an empty
      cell instead of the current time. */
  function RowAsWritten(t: TxDict, now: string): (r: Row)
    ensures |r| == |Headers|
    ensures t.createdAt.NoneValue? ==> r[8] == Blank
  {
    RowWith(t, GetCell(t.createdAt, now))
  }

  /** The time a transaction is stamped with: the one it carries, or now when
      it carries none (key missing or None). */
  function CreatedAtOr(e: Entry, now: string): string {
    if e.Given? then e.s else now
  }

  /** The row appended for a transaction: nine cells in Headers order, the
      transaction's id in the ID column, and a creation time in Creado even
      when the transaction brought none. */
  function NewRow(t: TxDict, now: string): (r: Row)
    ensures |r| == |Headers|
    ensures r[0] == Text(t.id) && FirstText(r) == t.id
    ensures r[8] == Text(CreatedAtOr(t.createdAt, now))
    ensures r[8] != Blank
  {
    RowWith(t, Text(CreatedAtOr(t.createdAt, now)))
  }

  /** Keys the dictionary leaves out are filled with the defaults: "" for
      descripcion, "general" for categoria, "efectivo" for metodoPago, "Usuario"
      for usuario; keys it has are copied, and a key holding None writes an
      empty cell. */
  lemma NewRowDefaults(t: TxDict, now: string)
    ensures var r := NewRow(t, now);
      && r[1] == Text(t.tipo) && r[2] == Number(t.monto) && r[3] == Text(t.fecha)
      && (t.descripcion.Missing? ==> r[4] == Text(""))
      && (t.categoria.Missing? ==> r[5] == Text("general"))
      && (t.metodoPago.Missing? ==> r[6] == Text("efectivo"))
      && (t.usuario.Missing? ==> r[7] == Text("Usuario"))
      && (t.descripcion.Given? ==> r[4] == Text(t.descripcion.s))
      && (t.categoria.Given? ==> r[5] == Text(t.categoria.s))
      && (t.metodoPago.Given? ==> r[6] == Text(t.metodoPago.s))
      && (t.usuario.Given? ==> r[7] == Text(t.usuario.s))
      && (t.descripcion.NoneValue? ==> r[4] == Blank)
      && (t.categoria.NoneValue? ==> r[5] == Blank)
      && (t.metodoPago.NoneValue? ==> r[6] == Blank)
      && (t.usuario.NoneValue? ==> r[7] == Blank)
  {
  }

  // ---------------------------------------------------------------------------
  // Which transactions are appended
  // ---------------------------------------------------------------------------

  /** The transactions whose id is not among the existing ids, in input order.
      Two transactions of one batch with the same new id are both kept: the
      existing ids are fixed before the batch is scanned. */
  function Fresh(existing: set<string>, txs: seq<TxDict>): (r: seq<TxDict>)
    ensures |r| <= |txs|
  {
    if txs == [] then []
    else
      var init := Fresh(existing, txs[..|txs| - 1]);
      var t := txs[|txs| - 1];
      if t.id in existing then init else init + [t]
  }

  /** The selected transactions are exactly the input transactions whose id is
      new. */
  lemma {:induction false} FreshMembers(existing: set<string>, txs: seq<TxDict>)
    ensures forall t :: t in Fresh(existing, txs) <==> t in txs && t.id !in existing
  {
    if txs != [] {
      FreshMembers(existing, txs[..|txs| - 1]);
      assert txs == txs[..|txs| - 1] + [txs[|txs| - 1]];
    }
  }

  /** The rows built for the fresh transactions, one each, in order. */
  function RowsToAdd(existing: set<string>, txs: seq<TxDict>, now: string): (rows: seq<Row>)
    ensures |rows| == |Fresh(existing, txs)|
    ensures forall k :: 0 <= k < |rows| ==> rows[k] == NewRow(Fresh(existing, txs)[k], now)
  {
    if txs == [] then []
    else
      var init := RowsToAdd(existing, txs[..|txs| - 1], now);
      var t := txs[|txs| - 1];
      if t.id in existing then init else init + [NewRow(t, now)]
  }

  /** Selecting from a concatenation selects from each part, in order. */
  lemma {:induction false} FreshAppend(existing: set<string>, a: seq<TxDict>, b: seq<TxDict>)
    ensures Fresh(existing, a + b) == Fresh(existing, a) + Fresh(existing, b)
    decreases |b|
  {
    if b == [] {
      assert a + b == a;
    } else {
      var b' := b[..|b| - 1];
      FreshAppend(existing, a, b');
      assert (a + b)[..|a + b| - 1] == a + b';
    }
  }

  /** Each transaction is kept as many times as it occurs in the input when its
      id is new, and dropped otherwise: duplicates within a batch are not
      filtered against each other. */
  lemma {:induction false} FreshCount(existing: set<string>, txs: seq<TxDict>, t: TxDict)
    ensures multiset(Fresh(existing, txs))[t] == if t.id in existing then 0 else multiset(txs)[t]
  {
    if txs != [] {
      var init := txs[..|txs| - 1];
      FreshCount(existing, init, t);
      assert txs == init + [txs[|txs| - 1]];
    }
  }

  /** Nothing is selected exactly when every id is already present. */
  lemma NothingFreshIff(existing: set<string>, txs: seq<TxDict>)
    ensures Fresh(existing, txs) == [] <==> forall t :: t in txs ==> t.id in existing
  {
    FreshMembers(existing, txs);
    if Fresh(existing, txs) != [] {
      assert Fresh(existing, txs)[0] in Fresh(existing, txs);
    }
  }

  /** With no existing ids (the ID column could not be read) every transaction
      is selected. */
  lemma {:induction false} NoExistingIdsKeepsAll(txs: seq<TxDict>)
    ensures Fresh({}, txs) == txs
  {
    if txs != [] {
      NoExistingIdsKeepsAll(txs[..|txs| - 1]);
      assert txs == txs[..|txs| - 1] + [txs[|txs| - 1]];
    }
  }

  /** After the fresh rows of a batch are appended below a header row, every
      non-empty id of the batch is among the sheet's existing ids. */
  lemma AppendedIdsExist(rows: seq<Row>, txs: seq<TxDict>, now: string)
    requires |rows| >= 1
    requires forall t :: t in txs ==> t.id != ""
    ensures var after := rows + RowsToAdd(ExistingIds(rows), txs, now);
      forall t :: t in txs ==> t.id in ExistingIds(after)
  {
    var existing := ExistingIds(rows);
    var added := RowsToAdd(existing, txs, now);
    var after := rows + added;
    var selected := Fresh(existing, txs);
    FreshMembers(existing, txs);
    forall t | t in txs ensures t.id in ExistingIds(after) {
      ExistingIdsExact(after, t.id);
      if t.id in existing {
        ExistingIdsExact(rows, t.id);
        var k :| 1 <= k < |rows| && FirstText(rows[k]) == t.id;
        assert after[k] == rows[k];
      } else {
        var j :| 0 <= j < |selected| && selected[j] == t;
        assert after[|rows| + j] == added[j] == NewRow(t, now);
      }
    }
  }

  /** Re-sending a batch that was just appended selects nothing. */
  lemma RepushSelectsNothing(rows: seq<Row>, txs: seq<TxDict>, now: string)
    requires |rows| >= 1
    requires forall t :: t in txs ==> t.id != ""
    ensures Fresh(ExistingIds(rows + RowsToAdd(ExistingIds(rows), txs, now)), txs) == []
  {
    AppendedIdsExist(rows, txs, now);
    NothingFreshIff(ExistingIds(rows + RowsToAdd(ExistingIds(rows), txs, now)), txs);
  }

  /** Without a header row the first appended row is taken for the header on
      the next read, so re-sending it appends it again. */
  lemma HeaderlessSheetRepeats(t: TxDict, now: string)
    ensures var after := [] + RowsToAdd(ExistingIds([]), [t], now);
      |after| == 1 && Fresh(ExistingIds(after), [t]) == [t]
  {
    var after := [] + RowsToAdd(ExistingIds([]), [t], now);
    assert [t][..0] == [];
    assert IdColumn(after) == [t.id] || IdColumn(after) == [];
  }

  // ---------------------------------------------------------------------------
  // The worksheet and the append
  // ---------------------------------------------------------------------------

  /** The worksheet: its rows, first the header row, then one row per
      transaction. */
  class Worksheet {
    var rows: seq<Row>

    constructor (initial: seq<Row>)
      ensures rows == initial
    {
      rows := initial;
    }

    /** append_rows: the given rows are added after the last row. */
    method AppendRows(newRows: seq<Row>)
      modifies this
      ensures rows == old(rows) + newRows
    {
      rows := rows + newRows;
    }
  }

  /** How the spreadsheet service behaves during one append: whether opening the
      sheet raises (and with what), whether the ID column can be read, whether
      writing the rows raises, and, when it does, whether the rows had already
      been stored (a reply lost after the service committed the write). */
  datatype Access = Access(opening: Option<Fault>, idsReadable: bool, write: Option<Fault>, writeLanded: bool)

  /** The ids the append compares against: none when the ID column cannot be
      read. */
  function KnownIds(rows: seq<Row>, access: Access): set<string> {
    if access.idsReadable then ExistingIds(rows) else {}
  }

  /** append_transactions: the transactions whose id is not yet in the sheet
      are appended, in order, as new rows after the existing ones, and their
      number is returned. Nothing else in the sheet changes. If the ID column
      cannot be read, every transaction is appended; if nothing is to be added,
      the sheet is not written; if opening or writing fails, the failure is
      returned, and the sheet holds the new rows only when the failing write
      had already stored them. */
  method AppendTransactions(sheet: Worksheet, transactions: seq<TxDict>, access: Access, now: string)
    returns (outcome: Result<nat, Fault>)
    modifies sheet
    ensures access.opening.Some? ==> outcome == Err(access.opening.value) && sheet.rows == old(sheet.rows)
    ensures access.opening.None? ==>
      var added := RowsToAdd(KnownIds(old(sheet.rows), access), transactions, now);
      if added != [] && access.write.Some? then
        outcome == Err(access.write.value)
        && sheet.rows == old(sheet.rows) + (if access.writeLanded then added else [])
      else
        outcome == Ok(|added|) && sheet.rows == old(sheet.rows) + added
  {
    if access.opening.Some? {
      return Err(access.opening.value);
    }
    var existing: set<string> := {};
    if access.idsReadable {
      existing := ExistingIds(sheet.rows);
    }
    var rowsToAdd: seq<Row> := [];
    for i := 0 to |transactions|
      invariant rowsToAdd == RowsToAdd(existing, transactions[..i], now)
    {
      var t := transactions[i];
      assert transactions[..i + 1][..i] == transactions[..i];
      if t.id in existing {
        continue;
      }
      rowsToAdd := rowsToAdd + [NewRow(t, now)];
    }
    assert transactions[..|transactions|] == transactions;
    if rowsToAdd != [] {
      if access.write.Some? {
        if access.writeLanded {
          sheet.AppendRows(rowsToAdd);
        }
        return Err(access.write.value);
      }
      sheet.AppendRows(rowsToAdd);
    }
    return Ok(|rowsToAdd|);
  }

  // ---------------------------------------------------------------------------
  // Records read back and the date-range query
  // ---------------------------------------------------------------------------

  /** A cell value as get_all_records returns it: numeric-looking cells come
      back as numbers, every other cell (an empty one included) as text. */
  datatype Value = Str(s: string) | Num(n: int)

  /** One record: column title to value. */
  type Record = map<string, Value>

  /** r.get("Fecha", "") as a string; a numeric Fecha cannot be compared with a
      string (TypeError). */
  function FechaOf(r: Record): (f: Result<string, Fault>)
    ensures f.Err? <==> "Fecha" in r && r["Fecha"].Num?
    ensures f.Err? ==> f.error == BadValue
    ensures "Fecha" !in r ==> f == Ok("")
    ensures "Fecha" in r && r["Fecha"].Str? ==> f == Ok(r["Fecha"].s)
  {
    if "Fecha" !in r then Ok("")
    else match r["Fecha"]
      case Str(s) => Ok(s)
      case Num(_) => Err(BadValue)
  }

  /** start <= Fecha <= end, both bounds inclusive, in Python's string order. */
  predicate InRange(r: Record, start: string, end: string) {
    FechaOf(r).Ok? && LessEq(start, FechaOf(r).value) && LessEq(FechaOf(r).value, end)
  }

  /** Both bounds are inclusive, and a record can be in range only when the
      range is not empty. */
  lemma InRangeInclusive(r: Record, start: string, end: string)
    requires FechaOf(r).Ok?
    ensures LessEq(start, end) && (FechaOf(r).value == start || FechaOf(r).value == end)
      ==> InRange(r, start, end)
    ensures InRange(r, start, end) ==> LessEq(start, end)
  {
    LessEqReflexive(start);
    LessEqReflexive(end);
    if InRange(r, start, end) {
      LessEqTransitive(start, FechaOf(r).value, end);
    }
  }

  /** get_transactions_by_date_range over the records read from the sheet: the
      records whose Fecha lies within [start, end], in their original order. A
      record whose Fecha is not a string makes the whole query fail. */
  function FilterByDate(records: seq<Record>, start: string, end: string): (r: Result<seq<Record>, Fault>)
    ensures r.Ok? <==> forall i :: 0 <= i < |records| ==> FechaOf(records[i]).Ok?
    ensures r.Err? ==> r.error == BadValue
    ensures r.Ok? ==> |r.value| <= |records|
  {
    if records == [] then Ok([])
    else
      var x := records[|records| - 1];
      match FilterByDate(records[..|records| - 1], start, end)
      case Err(e) => Err(e)
      case Ok(init) =>
        if FechaOf(x).Err? then Err(BadValue)
        else if InRange(x, start, end) then Ok(init + [x])
        else Ok(init)
  }

  /** The records kept are exactly those whose Fecha lies within the range. */
  lemma {:induction false} FilterByDateMembers(records: seq<Record>, start: string, end: string)
    requires FilterByDate(records, start, end).Ok?
    ensures forall x :: x in FilterByDate(records, start, end).value <==> x in records && InRange(x, start, end)
  {
    if records != [] {
      var init, x := records[..|records| - 1], records[|records| - 1];
      FilterByDateMembers(init, start, end);
      assert records == init + [x];
    }
  }

  /** Filtering a concatenation filters each part and keeps their order. */
  lemma {:induction false} FilterAppend(a: seq<Record>, b: seq<Record>, start: string, end: string)
    requires FilterByDate(a, start, end).Ok? && FilterByDate(b, start, end).Ok?
    ensures FilterByDate(a + b, start, end)
         == Ok(FilterByDate(a, start, end).value + FilterByDate(b, start, end).value)
    decreases |b|
  {
    if b == [] {
      assert a + b == a;
      assert FilterByDate(b, start, end).value == [];
      assert FilterByDate(a, start, end).value + [] == FilterByDate(a, start, end).value;
    } else {
      var b', x := b[..|b| - 1], b[|b| - 1];
      assert b == b' + [x];
      assert FilterByDate(b', start, end).Ok?;
      FilterAppend(a, b', start, end);
      assert (a + b)[..|a + b| - 1] == a + b';
      assert (a + b)[|a + b| - 1] == x;
      var fa, fb' := FilterByDate(a, start, end).value, FilterByDate(b', start, end).value;
      if InRange(x, start, end) {
        assert FilterByDate(b, start, end).value == fb' + [x];
        assert FilterByDate(a + b, start, end) == Ok((fa + fb') + [x]);
        assert (fa + fb') + [x] == fa + (fb' + [x]);
      } else {
        assert FilterByDate(b, start, end).value == fb';
      }
    }
  }

  /** A range whose start comes after its end selects nothing. */
  lemma EmptyRangeSelectsNothing(records: seq<Record>, start: string, end: string)
    requires !LessEq(start, end)
    requires FilterByDate(records, start, end).Ok?
    ensures FilterByDate(records, start, end).value == []
  {
    var out := FilterByDate(records, start, end).value;
    FilterByDateMembers(records, start, end);
    if out != [] {
      var x := out[0];
      assert x in out;
      LessEqTransitive(start, FechaOf(x).value, end);
    }
  }
}
