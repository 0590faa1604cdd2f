/**
 * data/csv_repo.py, the older record store over the same two files. Its
 * reads are strict (a numeric cell that does not convert drops the row, with
 * no default to 0) and a missing column stops the whole read; its records
 * are the rows themselves with the numeric cells converted in place; its
 * appends write the caller's record as given; its update and delete rewrite
 * the whole product file.
 */
module CsvRepo {
  import opened Values
  import opened CsvFile
  import opened NegocioRecords

  /** A row dictionary after the in-place conversions: numeric cells hold numbers, the others text. */
  type Record = map<string, Value>

  datatype Kind = IntKind | FloatKind

  /** `int(cell)` or `float(cell)`; None models the ValueError. */
  function ParseCell(kind: Kind, s: string): (r: Option<Value>)
    ensures r.Some? && kind == IntKind ==> r.value.Int? && ParseInt(s) == Some(r.value.i)
    ensures r.Some? && kind == FloatKind ==> r.value.Dec? && ParseCents(s) == Some(r.value.cents)
    ensures r.None? <==> (if kind == IntKind then ParseInt(s).None? else ParseCents(s).None?)
  {
    match kind
    case IntKind => (match ParseInt(s) case Some(n) => Some(Int(n)) case None => None)
    case FloatKind => (match ParseCents(s) case Some(c) => Some(Dec(c)) case None => None)
  }

  /** The cells a read converts, in the order it converts them. */
  type Steps = seq<(string, Kind)>

  const ProductSteps: Steps := [("id", IntKind), ("precio_unitario", FloatKind), ("stock", IntKind)]
  const SaleSteps: Steps :=
    [("id_venta", IntKind), ("id_producto", IntKind), ("cantidad", IntKind), ("precio_unitario_venta", FloatKind)]

  function StepKeys(steps: Steps): seq<string>
  {
    seq(|steps|, i requires 0 <= i < |steps| => steps[i].0)
  }

  predicate DistinctSteps(steps: Steps)
  {
    forall i, j :: 0 <= i < j < |steps| ==> steps[i].0 != steps[j].0
  }

  lemma StepsDistinct()
    ensures DistinctSteps(ProductSteps) && DistinctSteps(SaleSteps)
  {
  }

  /** The column of one step is present in the row and its cell parses. */
  predicate StepConverts(r: Row, step: (string, Kind))
  {
    step.0 in r && ParseCell(step.1, r[step.0]).Some?
  }

  /** Every listed cell is present and converts. */
  predicate Converts(r: Row, steps: Steps)
  {
    forall j :: 0 <= j < |steps| ==> StepConverts(r, steps[j])
  }

  /** What the `try` block of leer_* makes of one row. */
  datatype Conversion =
    | Keep(rec: Record)   // every listed cell converted
    | Skip                // ValueError or TypeError: the row is ignored
    | Abort               // KeyError: not caught there, it ends the whole read

  function TextRecord(r: Row): Record
  {
    map k | k in r :: Text(r[k])
  }

  /** The conversions of one row, in the order of `steps`; ConvertKept and ConvertFails say what comes out. */
  function Convert(r: Row, steps: Steps): (c: Conversion)
    requires DistinctSteps(steps)
    decreases |steps|
  {
    if steps == [] then Keep(TextRecord(r))
    else
      var k := steps[0].0;
      assert DistinctSteps(steps[1..]) by {
        assert forall j :: 1 <= j < |steps| ==> steps[j] == steps[1..][j - 1];
      }
      if k !in r then Abort
      else
        match ParseCell(steps[0].1, r[k])
        case None => Skip
        case Some(v) =>
          match Convert(r, steps[1..])
          case Keep(rec) => Keep(rec[k := v])
          case other => other
  }

  lemma TailDistinct(steps: Steps)
    requires DistinctSteps(steps) && steps != []
    ensures DistinctSteps(steps[1..])
    ensures forall j :: 1 <= j < |steps| ==> steps[j] == steps[1..][j - 1]
    ensures steps[0].0 !in StepKeys(steps[1..])
    ensures StepKeys(steps) == [steps[0].0] + StepKeys(steps[1..])
  {
    forall j | 0 <= j < |steps| - 1 ensures StepKeys(steps[1..])[j] != steps[0].0 {
      assert steps[j + 1].0 != steps[0].0;
    }
  }

  /**
   * A row is kept exactly when every listed cell is present and converts; the
   * kept record has the row's columns, the converted numbers in the listed
   * ones and the text in the others.
   */
  lemma {:induction false} ConvertKept(r: Row, steps: Steps)
    requires DistinctSteps(steps)
    ensures Convert(r, steps).Keep? <==> Converts(r, steps)
    ensures Convert(r, steps).Keep? ==> Convert(r, steps).rec.Keys == r.Keys
    ensures Convert(r, steps).Keep? ==> forall j :: 0 <= j < |steps| ==>
      steps[j].0 in r && ParseCell(steps[j].1, r[steps[j].0]) == Some(Convert(r, steps).rec[steps[j].0])
    ensures Convert(r, steps).Keep? ==>
      forall k :: k in r && k !in StepKeys(steps) ==> Convert(r, steps).rec[k] == Text(r[k])
  {
    if steps != [] {
      TailDistinct(steps);
      ConvertKept(r, steps[1..]);
    }
  }

  /**
   * A row that is not kept is decided by the first listed cell that is
   * missing or malformed: a missing one aborts the read, a malformed one
   * skips the row.
   */
  lemma {:induction false} ConvertFails(r: Row, steps: Steps)
    requires DistinctSteps(steps) && !Convert(r, steps).Keep?
    ensures exists i :: FailsFirstAt(r, steps, i, Convert(r, steps).Abort?)
  {
    TailDistinct(steps);
    var c := Convert(r, steps);
    if steps[0].0 !in r || ParseCell(steps[0].1, r[steps[0].0]).None? {
      assert Converts(r, steps[..0]) && !Converts(r, steps[..1]);
      assert FailsFirstAt(r, steps, 0, c.Abort?);
    } else {
      ConvertFails(r, steps[1..]);
      ConvertFailure(r, steps, c.Abort?);
    }
  }

  /**
   * Step `i` is the first that fails: the steps before it convert, it does
   * not, and `abort` says whether its column is missing.
   */
  predicate FailsFirstAt(r: Row, steps: Steps, i: int, abort: bool)
  {
    && 0 <= i < |steps|
    && Converts(r, steps[..i]) && !Converts(r, steps[..i + 1])
    && (abort <==> steps[i].0 !in r)
  }

  /** The first failure of the tail, shifted by one, is the first failure of the whole. */
  lemma ConvertFailure(r: Row, steps: Steps, abort: bool)
    requires |steps| > 0 && StepConverts(r, steps[0])
    requires exists i :: FailsFirstAt(r, steps[1..], i, abort)
    ensures exists i :: FailsFirstAt(r, steps, i, abort)
  {
    var rest := steps[1..];
    var i :| FailsFirstAt(r, rest, i, abort);
    assert steps[..i + 1] == [steps[0]] + rest[..i];
    assert steps[..i + 2] == [steps[0]] + rest[..i + 1];
    ConvertsCons(r, steps[0], rest[..i]);
    ConvertsCons(r, steps[0], rest[..i + 1]);
    assert steps[i + 1] == rest[i];
    assert FailsFirstAt(r, steps, i + 1, abort);
  }

  /** A list of steps converts when its first step does and the remaining ones do. */
  lemma ConvertsCons(r: Row, s: (string, Kind), t: Steps)
    ensures Converts(r, [s] + t) <==> StepConverts(r, s) && Converts(r, t)
  {
    var u := [s] + t;
    assert u[0] == s;
    assert forall j :: 0 <= j < |t| ==> u[j + 1] == t[j];
    if StepConverts(r, s) && Converts(r, t) {
      forall j | 0 <= j < |u|
        ensures StepConverts(r, u[j])
      {
        if j > 0 {
          assert u[j] == t[j - 1];
        }
      }
    }
  }

  /** leer_* on the rows of a file: the kept records, in file order, up to the first row that aborts. */
  function ReadRecords(rows: seq<Row>, steps: Steps): (recs: seq<Record>)
    requires DistinctSteps(steps)
    ensures |recs| <= |rows|
  {
    if rows == [] then []
    else
      match Convert(rows[0], steps)
      case Abort => []
      case Skip => ReadRecords(rows[1..], steps)
      case Keep(rec) => [rec] + ReadRecords(rows[1..], steps)
  }

  /** A row that aborts hides every row after it. */
  lemma {:induction false} AbortStops(rows: seq<Row>, steps: Steps, i: nat)
    requires DistinctSteps(steps) && i < |rows| && Convert(rows[i], steps).Abort?
    ensures ReadRecords(rows, steps) == ReadRecords(rows[..i], steps)
  {
    if i == 0 {
    } else {
      assert rows[..i][1..] == rows[1..][..i - 1];
      AbortStops(rows[1..], steps, i - 1);
    }
  }

  /** Without a row that aborts, the read keeps every row that converts, in order. */
  lemma {:induction false} ReadKeepsConverting(rows: seq<Row>, steps: Steps, rec: Record)
    requires DistinctSteps(steps)
    requires forall i :: 0 <= i < |rows| ==> !Convert(rows[i], steps).Abort?
    ensures rec in ReadRecords(rows, steps) <==> exists i :: 0 <= i < |rows| && Convert(rows[i], steps) == Keep(rec)
  {
    if rows != [] {
      assert forall i :: 1 <= i < |rows| ==> rows[i] == rows[1..][i - 1];
      ReadKeepsConverting(rows[1..], steps, rec);
      if rec in ReadRecords(rows[1..], steps) {
        var i :| 0 <= i < |rows[1..]| && Convert(rows[1..][i], steps) == Keep(rec);
        assert Convert(rows[i + 1], steps) == Keep(rec);
      }
    }
  }

  /** Reading rows without an abort and then more rows gives the two results one after the other. */
  lemma {:induction false} ReadAppend(a: seq<Row>, b: seq<Row>, steps: Steps)
    requires DistinctSteps(steps)
    requires forall i :: 0 <= i < |a| ==> !Convert(a[i], steps).Abort?
    ensures ReadRecords(a + b, steps) == ReadRecords(a, steps) + ReadRecords(b, steps)
  {
    if a == [] {
      assert a + b == b;
    } else {
      assert (a + b)[0] == a[0];
      assert (a + b)[1..] == a[1..] + b;
      assert forall i :: 1 <= i < |a| ==> a[i] == a[1..][i - 1];
      ReadAppend(a[1..], b, steps);
    }
  }

  /** One more row after rows without an abort adds its record at the end when it is kept, and nothing otherwise. */
  lemma ReadSnoc(rows: seq<Row>, r: Row, steps: Steps)
    requires DistinctSteps(steps)
    requires forall i :: 0 <= i < |rows| ==> !Convert(rows[i], steps).Abort?
    ensures ReadRecords(rows + [r], steps)
         == ReadRecords(rows, steps) + (if Convert(r, steps).Keep? then [Convert(r, steps).rec] else [])
  {
    ReadAppend(rows, [r], steps);
    ReadOne(r, steps);
  }

  lemma ReadOne(r: Row, steps: Steps)
    requires DistinctSteps(steps)
    ensures ReadRecords([r], steps) == if Convert(r, steps).Keep? then [Convert(r, steps).rec] else []
  {
    assert [r][1..] == [];
  }

  /** The record a row gives when it is kept. */
  function KeptRecord(steps: Steps, r: Row): Option<Record>
  {
    if DistinctSteps(steps) && Convert(r, steps).Keep? then Some(Convert(r, steps).rec) else None
  }

  /**
   * Without an abort the strict read is the lossy read: the records of the
   * kept rows, in file order, one per kept row.
   */
  lemma {:induction false} ReadFilters(rows: seq<Row>, steps: Steps)
    requires DistinctSteps(steps)
    requires forall i :: 0 <= i < |rows| ==> !Convert(rows[i], steps).Abort?
    ensures ReadRecords(rows, steps) == FilterMap(rows, r => KeptRecord(steps, r))
  {
    if rows != [] {
      var init, last := rows[..|rows| - 1], rows[|rows| - 1];
      assert rows == init + [last];
      ReadFilters(init, steps);
      ReadSnoc(init, last, steps);
    }
  }

  // ---------------------------------------------------------------------
  // Strict reads against the lenient reads of negocio.py
  // ---------------------------------------------------------------------

  /** The product read of leer_productos, written out: `id`, then `precio_unitario`, then `stock`. */
  lemma ProductConversion(r: Row)
    ensures DistinctSteps(ProductSteps)
    ensures Convert(r, ProductSteps) ==
      if "id" !in r then Abort
      else if ParseInt(r["id"]).None? then Skip
      else if "precio_unitario" !in r then Abort
      else if ParseCents(r["precio_unitario"]).None? then Skip
      else if "stock" !in r then Abort
      else if ParseInt(r["stock"]).None? then Skip
      else Keep(TextRecord(r)["stock" := Int(ParseInt(r["stock"]).value)]
                             ["precio_unitario" := Dec(ParseCents(r["precio_unitario"]).value)]
                             ["id" := Int(ParseInt(r["id"]).value)])
  {
    StepsDistinct();
    assert ProductSteps[1..] == [("precio_unitario", FloatKind), ("stock", IntKind)];
    assert ProductSteps[1..][1..] == [("stock", IntKind)];
    assert ProductSteps[1..][1..][1..] == [];
  }

  /** The sale read of leer_ventas, written out: `id_venta`, `id_producto`, `cantidad`, then the price. */
  lemma SaleConversion(r: Row)
    ensures DistinctSteps(SaleSteps)
    ensures Convert(r, SaleSteps) ==
      if "id_venta" !in r then Abort
      else if ParseInt(r["id_venta"]).None? then Skip
      else if "id_producto" !in r then Abort
      else if ParseInt(r["id_producto"]).None? then Skip
      else if "cantidad" !in r then Abort
      else if ParseInt(r["cantidad"]).None? then Skip
      else if "precio_unitario_venta" !in r then Abort
      else if ParseCents(r["precio_unitario_venta"]).None? then Skip
      else Keep(TextRecord(r)["precio_unitario_venta" := Dec(ParseCents(r["precio_unitario_venta"]).value)]
                             ["cantidad" := Int(ParseInt(r["cantidad"]).value)]
                             ["id_producto" := Int(ParseInt(r["id_producto"]).value)]
                             ["id_venta" := Int(ParseInt(r["id_venta"]).value)])
  {
    StepsDistinct();
    assert SaleSteps[1..] == [("id_producto", IntKind), ("cantidad", IntKind), ("precio_unitario_venta", FloatKind)];
    assert SaleSteps[1..][1..] == [("cantidad", IntKind), ("precio_unitario_venta", FloatKind)];
    assert SaleSteps[1..][1..][1..] == [("precio_unitario_venta", FloatKind)];
    assert SaleSteps[1..][1..][1..][1..] == [];
  }

  lemma EmptyCellsDoNotParse()
    ensures ParseInt("").None? && ParseCents("").None?
  {
    assert Trim("") == "";
  }

  /** A product row the strict read keeps is read by negocio.py too, with the same numbers. */
  lemma StrictProductIsLenient(r: Row)
    requires DistinctSteps(ProductSteps) && Convert(r, ProductSteps).Keep?
    ensures ParseProductRow(r).Some?
    ensures Convert(r, ProductSteps).rec["id"] == Int(ParseProductRow(r).value.id)
    ensures Convert(r, ProductSteps).rec["precio_unitario"] == Dec(ParseProductRow(r).value.price)
    ensures Convert(r, ProductSteps).rec["stock"] == Int(ParseProductRow(r).value.stock)
  {
    ProductConversion(r);
    EmptyCellsDoNotParse();
  }

  /** A sale row the strict read keeps is read by negocio.py too, with the same numbers. */
  lemma StrictSaleIsLenient(r: Row)
    requires DistinctSteps(SaleSteps) && Convert(r, SaleSteps).Keep?
    ensures ParseSaleRow(r).Some?
    ensures Convert(r, SaleSteps).rec["id_venta"] == Int(ParseSaleRow(r).value.id)
    ensures Convert(r, SaleSteps).rec["id_producto"] == Int(ParseSaleRow(r).value.productId)
    ensures Convert(r, SaleSteps).rec["cantidad"] == Int(ParseSaleRow(r).value.quantity)
    ensures Convert(r, SaleSteps).rec["precio_unitario_venta"] == Dec(ParseSaleRow(r).value.price)
  {
    var rec := Convert(r, SaleSteps).rec;
    ConvertKept(r, SaleSteps);
    assert SaleSteps[0].0 == "id_venta" && SaleSteps[1].0 == "id_producto";
    assert SaleSteps[2].0 == "cantidad" && SaleSteps[3].0 == "precio_unitario_venta";
    assert ParseCell(IntKind, r["id_venta"]) == Some(rec["id_venta"]);
    assert ParseCell(IntKind, r["id_producto"]) == Some(rec["id_producto"]);
    assert ParseCell(IntKind, r["cantidad"]) == Some(rec["cantidad"]);
    assert ParseCell(FloatKind, r["precio_unitario_venta"]) == Some(rec["precio_unitario_venta"]);
    EmptyCellsDoNotParse();
    assert r["precio_unitario_venta"] != "";
  }

  /** An empty stock cell drops the row here, while negocio.py reads it as stock 0. */
  lemma EmptyStockDiverges(r: Row)
    requires "id" in r && ParseInt(r["id"]).Some?
    requires "precio_unitario" in r && ParseCents(r["precio_unitario"]).Some?
    requires "stock" in r && r["stock"] == ""
    ensures DistinctSteps(ProductSteps) && Convert(r, ProductSteps) == Skip
    ensures ParseProductRow(r).Some? && ParseProductRow(r).value.stock == 0
  {
    ProductConversion(r);
    EmptyCellsDoNotParse();
  }

  /** A file without an `id` column ends the read at its first row, while negocio.py reads the id as 0. */
  lemma MissingIdColumnAborts(rows: seq<Row>)
    requires rows != [] && "id" !in rows[0]
    ensures DistinctSteps(ProductSteps) && ReadRecords(rows, ProductSteps) == []
    ensures IntCell(rows[0], "id") == Some(0)
  {
    ProductConversion(rows[0]);
  }

  // ---------------------------------------------------------------------
  // Writing records back
  // ---------------------------------------------------------------------

  /** `{k: str(v) for k, v in p.items()}` */
  function RecordRow(rec: Record): Row
  {
    map k | k in rec :: Str(rec[k])
  }

  function RecordRows(recs: seq<Record>): seq<Row>
  {
    seq(|recs|, i requires 0 <= i < |recs| => RecordRow(recs[i]))
  }

  /** DictWriter accepts a record only when every key is a header column (extrasaction='raise'). */
  predicate Clean(rec: Record, fields: seq<string>)
  {
    forall k :: k in rec ==> k in fields
  }

  /** The records DictWriter.writerows writes before the first one it refuses. */
  function CleanPrefix(recs: seq<Record>, fields: seq<string>): (r: seq<Record>)
    ensures |r| <= |recs| && r == recs[..|r|]
    ensures forall i :: 0 <= i < |r| ==> Clean(r[i], fields)
    ensures |r| < |recs| ==> !Clean(recs[|r|], fields)
  {
    if recs == [] || !Clean(recs[0], fields) then []
    else
      var rest := CleanPrefix(recs[1..], fields);
      assert forall i :: 1 <= i < |recs| ==> recs[i] == recs[1..][i - 1];
      [recs[0]] + rest
  }

  /** The data rows of the file after `_escribir_todos_los_productos`-style rewriting of `recs`. */
  function WrittenRows(recs: seq<Record>, fields: seq<string>): seq<Row>
  {
    ProjectRows(RecordRows(CleanPrefix(recs, fields)), fields)
  }

  /** A record of the read's shape: numbers in the listed cells, text elsewhere. */
  predicate Typed(rec: Record, steps: Steps)
  {
    && (forall j :: 0 <= j < |steps| ==>
         (steps[j].0 in rec
          && (steps[j].1 == IntKind ==> rec[steps[j].0].Int?)
          && (steps[j].1 == FloatKind ==> rec[steps[j].0].Dec?)))
    && (forall k :: k in rec && k !in StepKeys(steps) ==> rec[k].Text?)
  }

  /** Every record the read keeps has the read's shape. */
  lemma KeptIsTyped(r: Row, steps: Steps)
    requires DistinctSteps(steps) && Convert(r, steps).Keep?
    ensures Typed(Convert(r, steps).rec, steps)
  {
    ConvertKept(r, steps);
  }

  /** Every listed cell of a written record converts back to the number it held. */
  lemma RecordRowCells(rec: Record, steps: Steps)
    requires Typed(rec, steps)
    ensures Converts(RecordRow(rec), steps)
    ensures forall j :: 0 <= j < |steps| ==> ParseCell(steps[j].1, RecordRow(rec)[steps[j].0]) == Some(rec[steps[j].0])
  {
    var row := RecordRow(rec);
    forall j | 0 <= j < |steps| ensures ParseCell(steps[j].1, row[steps[j].0]) == Some(rec[steps[j].0]) {
      var v := rec[steps[j].0];
      if steps[j].1 == IntKind {
        ParseFormatInt(v.i);
      } else {
        ParseFormatCents(v.cents);
      }
    }
  }

  /** A record written out and read back is the same record. */
  lemma RecordRoundTrip(rec: Record, steps: Steps)
    requires DistinctSteps(steps) && Typed(rec, steps)
    ensures Convert(RecordRow(rec), steps) == Keep(rec)
  {
    var row := RecordRow(rec);
    RecordRowCells(rec, steps);
    ConvertKept(row, steps);
    var c := Convert(row, steps).rec;
    forall k | k in rec ensures c[k] == rec[k] {
      if k in StepKeys(steps) {
        var j :| 0 <= j < |steps| && StepKeys(steps)[j] == k;
        assert steps[j].0 == k;
        assert ParseCell(steps[j].1, row[k]) == Some(c[k]);
      } else {
        assert c[k] == Text(row[k]);
      }
    }
    assert c.Keys == rec.Keys;
  }

  /** Records of the read's shape with exactly the header's columns are read back as written. */
  lemma {:induction false} ReadBack(recs: seq<Record>, fields: seq<string>, steps: Steps)
    requires DistinctSteps(steps)
    requires forall i :: 0 <= i < |recs| ==> Typed(recs[i], steps) && recs[i].Keys == set k | k in fields
    ensures WrittenRows(recs, fields) == RecordRows(recs)
    ensures ReadRecords(WrittenRows(recs, fields), steps) == recs
  {
    if recs != [] {
      ReadBack(recs[1..], fields, steps);
      assert CleanPrefix(recs, fields) == recs by {
        assert Clean(recs[0], fields);
        assert CleanPrefix(recs[1..], fields) == recs[1..];
      }
      forall i | 0 <= i < |recs| ensures Project(RecordRow(recs[i]), fields) == RecordRow(recs[i]) {
        ProjectExact(RecordRow(recs[i]), fields);
      }
      var rows := RecordRows(recs);
      assert rows[1..] == RecordRows(recs[1..]);
      RecordRoundTrip(recs[0], steps);
    } else {
      assert CleanPrefix(recs, fields) == [];
    }
  }

  /** A first record with a key outside the header leaves the file with the header only. */
  lemma OffSchemaFirstRecordEmptiesFile(recs: seq<Record>, fields: seq<string>)
    requires recs != [] && exists k :: k in recs[0] && k !in fields
    ensures WrittenRows(recs, fields) == []
  {
  }

  // ---------------------------------------------------------------------
  // actualizar_producto and eliminar_producto on the records read
  // ---------------------------------------------------------------------

  /** `producto['id'] == id_producto` */
  predicate HasId(rec: Record, id: Value)
  {
    PyEq(Get(rec, "id", Null), id)
  }

  /** The entries of `datos` whose key is a column of the schema, `id` among them. */
  function SchemaPart(datos: Record, fields: seq<string>): (d: Record)
    ensures forall k :: k in d <==> k in datos && k in fields
    ensures forall k :: k in d ==> d[k] == datos[k]
  {
    map k | k in datos && k in fields :: datos[k]
  }

  /** The position of the first record with the id. */
  function FindRecord(recs: seq<Record>, id: Value): (r: Option<nat>)
    ensures r.Some? ==> r.value < |recs| && HasId(recs[r.value], id)
    ensures r.Some? ==> forall j :: 0 <= j < r.value ==> !HasId(recs[j], id)
    ensures r.None? <==> forall j :: 0 <= j < |recs| ==> !HasId(recs[j], id)
  {
    if recs == [] then None
    else if HasId(recs[0], id) then Some(0)
    else
      assert forall j :: 1 <= j < |recs| ==> recs[j] == recs[1..][j - 1];
      match FindRecord(recs[1..], id)
      case None => None
      case Some(k) => Some(k + 1)
  }

  /**
   * The records actualizar_producto rewrites: the first record with the id
   * gets the schema entries of `datos`, every other record is kept. None
   * (False, no write) when no record has the id.
   */
  function UpdateRecords(recs: seq<Record>, id: Value, datos: Record): (r: Option<seq<Record>>)
    ensures r.None? <==> forall j :: 0 <= j < |recs| ==> !HasId(recs[j], id)
    ensures r.Some? ==> |r.value| == |recs|
    ensures r.Some? ==>
      var i := FindRecord(recs, id).value;
      && r.value[i] == recs[i] + SchemaPart(datos, ProductFields)
      && forall j :: 0 <= j < |recs| && j != i ==> r.value[j] == recs[j]
  {
    match FindRecord(recs, id)
    case None => None
    case Some(i) => Some(recs[i := recs[i] + SchemaPart(datos, ProductFields)])
  }

  /** `[p for p in productos if p['id'] != id_producto]` */
  function RemoveRecords(recs: seq<Record>, id: Value): (r: seq<Record>)
    ensures |r| <= |recs|
    ensures forall i :: 0 <= i < |r| ==> !HasId(r[i], id)
    ensures |r| == |recs| <==> forall j :: 0 <= j < |recs| ==> !HasId(recs[j], id)
    ensures |r| == |recs| ==> r == recs
  {
    if recs == [] then []
    else
      var init, last := recs[..|recs| - 1], recs[|recs| - 1];
      assert recs == init + [last];
      RemoveRecords(init, id) + (if HasId(last, id) then [] else [last])
  }

  /** Removing keeps the surviving records in their order. */
  lemma {:induction false} RemoveAppend(a: seq<Record>, b: seq<Record>, id: Value)
    ensures RemoveRecords(a + b, id) == RemoveRecords(a, id) + RemoveRecords(b, id)
  {
    if b == [] {
      assert a + b == a;
    } else {
      var b' := b[..|b| - 1];
      assert (a + b)[..|a + b| - 1] == a + b';
      assert (a + b)[|a + b| - 1] == b[|b| - 1];
      RemoveAppend(a, b', id);
    }
  }

  /** Removing only drops records. */
  lemma {:induction false} RemoveFromRecords(recs: seq<Record>, id: Value)
    ensures forall i :: 0 <= i < |RemoveRecords(recs, id)| ==> RemoveRecords(recs, id)[i] in recs
  {
    if recs != [] {
      var init := recs[..|recs| - 1];
      RemoveFromRecords(init, id);
      assert forall rec :: rec in init ==> rec in recs;
    }
  }

  /** After a delete there is no record with the id left, so a second delete removes nothing. */
  lemma RemoveTwice(recs: seq<Record>, id: Value)
    ensures RemoveRecords(RemoveRecords(recs, id), id) == RemoveRecords(recs, id)
  {
  }

  // ---------------------------------------------------------------------
  // The operations on the files
  // ---------------------------------------------------------------------

  /** leer_*: make sure the file exists, then convert its rows until one aborts. */
  method ReadTable(t: Table, steps: Steps) returns (recs: seq<Record>)
    requires t.Valid() && DistinctSteps(steps)
    modifies t
    ensures t.Valid()
    ensures t.present == (old(t.present) || t.writable)
    ensures t.rows == old(t.rows) && t.writable == old(t.writable)
    ensures recs == ReadRecords(t.rows, steps)
  {
    var ok := t.Ensure();
    if !ok {
      return [];
    }
    recs := [];
    var rows := t.rows;
    var i := 0;
    while i < |rows|
      invariant 0 <= i <= |rows|
      invariant ReadRecords(rows, steps) == recs + ReadRecords(rows[i..], steps)
    {
      assert rows[i..][1..] == rows[i + 1..];
      match Convert(rows[i], steps) {
        case Abort =>
          assert recs + [] == recs;
          return;
        case Skip =>
        case Keep(rec) =>
          recs := recs + [rec];
      }
      i := i + 1;
    }
    assert recs + [] == recs;
  }

  /**
   * `_escribir_todos_los_productos`: make sure the file exists, truncate it
   * and write the header and the records, stopping with False at the first
   * record with a key outside the header.
   */
  method RewriteTable(t: Table, fields: seq<string>, recs: seq<Record>) returns (ok: bool)
    requires t.Valid()
    modifies t
    ensures t.Valid() && t.writable == old(t.writable)
    ensures t.present == (old(t.present) || t.writable)
    ensures ok == (t.writable && CleanPrefix(recs, fields) == recs)
    ensures t.rows == if t.writable then WrittenRows(recs, fields) else old(t.rows)
  {
    var ready := t.Ensure();
    if !ready {
      return false;
    }
    var rows: seq<Row> := [];
    var i := 0;
    while i < |recs| && Clean(recs[i], fields)
      invariant 0 <= i <= |CleanPrefix(recs, fields)|
      invariant rows == ProjectRows(RecordRows(recs[..i]), fields)
    {
      assert recs[..i + 1] == recs[..i] + [recs[i]];
      assert ProjectRows(RecordRows(recs[..i + 1]), fields)
          == ProjectRows(RecordRows(recs[..i]), fields) + [Project(RecordRow(recs[i]), fields)];
      if i == |CleanPrefix(recs, fields)| {
        assert false;
      }
      rows := rows + [Project(RecordRow(recs[i]), fields)];
      i := i + 1;
    }
    assert i == |CleanPrefix(recs, fields)|;
    assert recs[..i] == CleanPrefix(recs, fields);
    var written := t.Overwrite(rows);
    ok := written && i == |recs|;
  }

  /**
   * agregar_producto and guardar_venta: make sure the file exists, then add
   * the record as one row after the others; False, and nothing added, when a
   * key is outside the header.
   */
  method AppendTable(t: Table, fields: seq<string>, rec: Record) returns (ok: bool)
    requires t.Valid()
    modifies t
    ensures t.Valid() && t.writable == old(t.writable)
    ensures t.present == (old(t.present) || t.writable)
    ensures ok == (t.writable && Clean(rec, fields))
    ensures t.rows == if ok then old(t.rows) + [Project(RecordRow(rec), fields)] else old(t.rows)
  {
    var ready := t.Ensure();
    if !ready {
      return false;
    }
    if !t.writable {
      return false;
    }
    if !Clean(rec, fields) {
      return false;
    }
    ok := t.Append(Project(RecordRow(rec), fields));
  }

  /** `for key, value in nuevos_datos.items(): if key in PRODUCTOS_FIELDS: producto[key] = value` */
  method Overlay(rec: Record, datos: Record, fields: seq<string>) returns (r: Record)
    ensures r == rec + SchemaPart(datos, fields)
  {
    r := rec;
    var todo := datos.Keys;
    while todo != {}
      invariant todo <= datos.Keys
      invariant r == rec + map k | k in datos && k !in todo && k in fields :: datos[k]
      decreases |todo|
    {
      var k :| k in todo;
      if k in fields {
        r := r[k := datos[k]];
      }
      todo := todo - {k};
    }
    assert (map k | k in datos && k !in todo && k in fields :: datos[k]) == SchemaPart(datos, fields);
  }

  /** The loop of actualizar_producto with its `actualizado` flag: the first record with the id gets the edit. */
  method EditFirst(recs: seq<Record>, id: Value, datos: Record) returns (edited: Option<seq<Record>>)
    ensures edited == UpdateRecords(recs, id, datos)
  {
    var result := recs;
    var updated := false;
    var i := 0;
    while i < |recs| && !updated
      invariant 0 <= i <= |recs|
      invariant !updated ==> forall j :: 0 <= j < i ==> !HasId(recs[j], id)
      invariant updated ==> i > 0 && HasId(recs[i - 1], id) && (forall j :: 0 <= j < i - 1 ==> !HasId(recs[j], id))
      invariant updated ==> result == recs[i - 1 := recs[i - 1] + SchemaPart(datos, ProductFields)]
    {
      if HasId(recs[i], id) {
        var r := Overlay(recs[i], datos, ProductFields);
        result := recs[i := r];
        updated := true;
      }
      i := i + 1;
    }
    if !updated {
      return None;
    }
    assert FindRecord(recs, id) == Some(i - 1) by {
      var f := FindRecord(recs, id);
      assert f.Some? && HasId(recs[f.value], id);
      assert !(f.value < i - 1) && !(i - 1 < f.value);
    }
    edited := Some(result);
  }

  /** The two files as data/csv_repo.py sees them. */
  class Repo {
    const products: Table
    const sales: Table

    ghost predicate Valid()
      reads this, products, sales
    {
      products != sales && products.Valid() && sales.Valid()
    }

    constructor (products: Table, sales: Table)
      requires products != sales && products.Valid() && sales.Valid()
      ensures Valid()
      ensures this.products == products && this.sales == sales
    {
      this.products := products;
      this.sales := sales;
    }

    /** leer_productos */
    method ReadProducts() returns (recs: seq<Record>)
      requires Valid()
      modifies products
      ensures Valid()
      ensures products.present == (old(products.present) || products.writable)
      ensures products.rows == old(products.rows) && products.writable == old(products.writable)
      ensures recs == ReadRecords(products.rows, ProductSteps)
    {
      StepsDistinct();
      recs := ReadTable(products, ProductSteps);
    }

    /** `_escribir_todos_los_productos` */
    method RewriteProducts(recs: seq<Record>) returns (ok: bool)
      requires Valid()
      modifies products
      ensures Valid() && products.writable == old(products.writable)
      ensures products.present == (old(products.present) || products.writable)
      ensures ok == (products.writable && CleanPrefix(recs, ProductFields) == recs)
      ensures products.rows == if products.writable then WrittenRows(recs, ProductFields) else old(products.rows)
    {
      ok := RewriteTable(products, ProductFields, recs);
    }

    /** agregar_producto: the record, as given and without an id of its own, appended as one row. */
    method AddProduct(producto: Record) returns (ok: bool)
      requires Valid()
      modifies products
      ensures Valid() && products.writable == old(products.writable)
      ensures products.present == (old(products.present) || products.writable)
      ensures ok == (products.writable && Clean(producto, ProductFields))
      ensures products.rows ==
        if ok then old(products.rows) + [Project(RecordRow(producto), ProductFields)] else old(products.rows)
    {
      ok := AppendTable(products, ProductFields, producto);
    }

    /**
     * actualizar_producto: the loop with the `actualizado` flag edits the
     * first record whose id equals `id`; the file is rewritten only then.
     */
    method UpdateProduct(id: Value, datos: Record) returns (ok: bool)
      requires Valid()
      modifies products
      ensures Valid() && products.writable == old(products.writable)
      ensures products.present == (old(products.present) || products.writable)
      ensures
        var plan := UpdateRecords(ReadRecords(old(products.rows), ProductSteps), id, datos);
        && ok == (plan.Some? && products.writable && CleanPrefix(plan.value, ProductFields) == plan.value)
        && products.rows == if plan.Some? && products.writable then WrittenRows(plan.value, ProductFields) else old(products.rows)
    {
      var recs := ReadProducts();
      var edited := EditFirst(recs, id, datos);
      if edited.None? {
        return false;
      }
      ok := RewriteProducts(edited.value);
    }

    /** eliminar_producto: every record with the id dropped; the file is rewritten only when one was. */
    method DeleteProduct(id: Value) returns (ok: bool)
      requires Valid()
      modifies products
      ensures Valid() && products.writable == old(products.writable)
      ensures products.present == (old(products.present) || products.writable)
      ensures
        var recs := ReadRecords(old(products.rows), ProductSteps);
        var kept := RemoveRecords(recs, id);
        && ok == (|kept| < |recs| && products.writable && CleanPrefix(kept, ProductFields) == kept)
        && products.rows == if |kept| < |recs| && products.writable then WrittenRows(kept, ProductFields) else old(products.rows)
    {
      var recs := ReadProducts();
      var kept := RemoveRecords(recs, id);
      if |kept| < |recs| {
        ok := RewriteProducts(kept);
      } else {
        ok := false;
      }
    }

    /** leer_ventas */
    method ReadSales() returns (recs: seq<Record>)
      requires Valid()
      modifies sales
      ensures Valid()
      ensures sales.present == (old(sales.present) || sales.writable)
      ensures sales.rows == old(sales.rows) && sales.writable == old(sales.writable)
      ensures recs == ReadRecords(sales.rows, SaleSteps)
    {
      StepsDistinct();
      recs := ReadTable(sales, SaleSteps);
    }

    /** guardar_venta: the record, as given, appended to the ledger as one row. */
    method SaveSale(registro: Record) returns (ok: bool)
      requires Valid()
      modifies sales
      ensures Valid() && sales.writable == old(sales.writable)
      ensures sales.present == (old(sales.present) || sales.writable)
      ensures ok == (sales.writable && Clean(registro, SaleFields))
      ensures sales.rows ==
        if ok then old(sales.rows) + [Project(RecordRow(registro), SaleFields)] else old(sales.rows)
    {
      ok := AppendTable(sales, SaleFields, registro);
    }
  }

  /**
   * After a delete that wrote, the file holds exactly the kept records: any
   * row that did not convert before is gone, and reading it again gives the
   * kept records back.
   */
  lemma DeleteLeavesOnlyKept(rows: seq<Row>, id: Value)
    requires forall i :: 0 <= i < |rows| ==> rows[i].Keys == set k | k in ProductFields
    ensures
      var kept := RemoveRecords(ReadRecords(rows, ProductSteps), id);
      && WrittenRows(kept, ProductFields) == RecordRows(kept)
      && ReadRecords(WrittenRows(kept, ProductFields), ProductSteps) == kept
  {
    StepsDistinct();
    var recs := ReadRecords(rows, ProductSteps);
    var kept := RemoveRecords(recs, id);
    ReadShape(rows, ProductSteps, ProductFields);
    RemoveFromRecords(recs, id);
    forall i | 0 <= i < |kept| ensures Typed(kept[i], ProductSteps) && kept[i].Keys == set k | k in ProductFields {
      assert kept[i] in kept;
    }
    ReadBack(kept, ProductFields, ProductSteps);
  }

  /** Every record read from rows with the header's columns is of the read's shape with those columns. */
  lemma {:induction false} ReadShape(rows: seq<Row>, steps: Steps, fields: seq<string>)
    requires DistinctSteps(steps)
    requires forall i :: 0 <= i < |rows| ==> rows[i].Keys == set k | k in fields
    ensures forall rec :: rec in ReadRecords(rows, steps) ==> Typed(rec, steps) && rec.Keys == set k | k in fields
  {
    if rows != [] {
      assert forall i :: 1 <= i < |rows| ==> rows[i] == rows[1..][i - 1];
      ReadShape(rows[1..], steps, fields);
      if Convert(rows[0], steps).Keep? {
        KeptIsTyped(rows[0], steps);
        ConvertKept(rows[0], steps);
      }
    }
  }
}
