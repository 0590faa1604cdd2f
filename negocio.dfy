/**
 * negocio.py over its two CSV files: `_leer_csv` and `_escribir_csv`, and the
 * public operations as methods of a Store holding the product table and the
 * sales ledger. Every operation reads the table afresh and, when it writes,
 * rewrites the whole file; each is proved to do exactly what the plan
 * functions of NegocioProducts, NegocioSales and NegocioReports decide.
 */
module Negocio {
  import opened Values
  import opened CsvFile
  import opened NegocioRecords
  import opened NegocioProducts
  import opened NegocioSales
  import opened NegocioReports

  /** `_leer_csv`: make sure the file exists, then return its data rows ([] when it cannot be created). */
  method ReadCsv(t: Table) returns (rows: seq<Row>)
    requires t.Valid()
    modifies t
    ensures t.Valid()
    ensures t.present == (old(t.present) || t.writable)
    ensures t.rows == old(t.rows) && t.writable == old(t.writable)
    ensures rows == t.rows
  {
    var ok := t.Ensure();
    if !ok {
      return [];
    }
    rows := t.rows;
  }

  /**
   * `_escribir_csv`: make sure the file exists, then write the header and
   * each row reduced to the header's columns ("" for a missing one).
   */
  method WriteCsv(t: Table, fields: seq<string>, rows: seq<Row>) returns (ok: bool)
    requires t.Valid()
    modifies t
    ensures t.Valid() && t.writable == old(t.writable)
    ensures ok == t.writable
    ensures ok ==> t.present && t.rows == ProjectRows(rows, fields)
    ensures !ok ==> t.present == old(t.present) && t.rows == old(t.rows)
  {
    var ready := t.Ensure();
    if !ready {
      return false;
    }
    var safe: seq<Row> := [];
    for i := 0 to |rows|
      invariant safe == ProjectRows(rows[..i], fields)
    {
      assert ProjectRows(rows[..i + 1], fields) == ProjectRows(rows[..i], fields) + [Project(rows[i], fields)];
      safe := safe + [Project(rows[i], fields)];
    }
    assert rows[..|rows|] == rows;
    ok := t.Overwrite(safe);
  }

  /**
   * `[p for p in productos if p['id'] != int(id_producto)]`: int() is applied
   * once per product, so it raises (None) only on a non-empty catalog.
   */
  method KeepOthers(ps: seq<Product>, id: Value) returns (kept: Option<seq<Product>>)
    ensures kept.None? <==> ps != [] && ToInt(id).None?
    ensures ps == [] ==> kept == Some([])
    ensures ps != [] && kept.Some? ==> kept.value == Without(ps, ToInt(id).value)
  {
    var acc: seq<Product> := [];
    for i := 0 to |ps|
      invariant i > 0 ==> ToInt(id).Some? && acc == Without(ps[..i], ToInt(id).value)
      invariant i == 0 ==> acc == []
    {
      match ToInt(id) {
        case None =>
          return None;
        case Some(n) =>
          assert ps[..i + 1][..i] == ps[..i];
          assert i == 0 ==> Without(ps[..i], n) == [];
          if ps[i].id != n {
            acc := acc + [ps[i]];
          }
      }
    }
    assert ps[..|ps|] == ps;
    kept := Some(acc);
  }

  /**
   * The loop of actualizar_producto: the first product whose id is
   * `int(id)` gets the edit and the `found` flag ends the loop. int() is
   * applied once per product compared, so it raises only on a non-empty
   * catalog.
   */
  method EditFirstProduct(ps: seq<Product>, id: Value, datos: Draft) returns (edited: Option<seq<Product>>)
    ensures edited == UpdatePlan(ps, id, datos)
  {
    var qs := ps;
    var found := false;
    var i := 0;
    while i < |ps| && !found
      invariant 0 <= i <= |ps|
      invariant i > 0 ==> ToInt(id).Some?
      invariant !found ==> forall j :: 0 <= j < i ==> ps[j].id != ToInt(id).value
      invariant found ==> i > 0 && ps[i - 1].id == ToInt(id).value
      invariant found ==> EditedProduct(ps[i - 1], datos).Some? && qs == ps[i - 1 := EditedProduct(ps[i - 1], datos).value]
      invariant found ==> forall j :: 0 <= j < i - 1 ==> ps[j].id != ToInt(id).value
    {
      match ToInt(id) {
        case None =>
          return None;
        case Some(n) =>
          if ps[i].id == n {
            match EditedProduct(ps[i], datos) {
              case None =>
                assert FindProduct(ps, n) == Some(i) by {
                  var f := FindProduct(ps, n);
                  assert f.Some? && ps[f.value].id == n;
                  assert !(f.value < i) && !(i < f.value);
                }
                return None;
              case Some(q) =>
                qs := ps[i := q];
                found := true;
            }
          }
      }
      i := i + 1;
    }
    if !found {
      return None;
    }
    UpdateFound(ps, id, datos, i - 1);
    edited := Some(qs);
  }

  /** The product table and the sales ledger the operations work on. */
  class Store {
    const products: Table
    const sales: Table

    ghost predicate Valid()
      reads this, products, sales
    {
      products != sales && products.Valid() && sales.Valid()
    }

    constructor (products: Table, sales: Table)
      requires products != sales && products.Valid() && sales.Valid()
      ensures Valid()
      ensures this.products == products && this.sales == sales
    {
      this.products := products;
      this.sales := sales;
    }

    /** listar_productos: the rows of the product file that convert, in file order. */
    method ListProducts() returns (ps: seq<Product>)
      requires Valid()
      modifies products
      ensures Valid()
      ensures products.present == (old(products.present) || products.writable)
      ensures products.rows == old(products.rows) && products.writable == old(products.writable)
      ensures ps == ParseProducts(products.rows)
    {
      var raw := ReadCsv(products);
      ps := [];
      for i := 0 to |raw|
        invariant ps == FilterMap(raw[..i], ParseProductRow)
      {
        assert raw[..i + 1][..i] == raw[..i];
        match ParseProductRow(raw[i]) {
          case Some(p) => ps := ps + [p];
          case None =>
        }
      }
      assert raw[..|raw|] == raw;
    }

    /**
     * agregar_producto: the catalog rewritten with the new product appended.
     * True exactly when the product converts and the file accepts the write;
     * the products listed afterwards are then the plan's catalog.
     */
    method AddProduct(draft: Draft) returns (ok: bool)
      requires Valid()
      modifies products
      ensures Valid()
      ensures products.present == (old(products.present) || products.writable)
      ensures products.writable == old(products.writable)
      ensures ok == (AddPlan(ParseProducts(old(products.rows)), draft).Some? && products.writable)
      ensures ok ==> products.rows == ProductRows(AddPlan(ParseProducts(old(products.rows)), draft).value)
      ensures ok ==> ParseProducts(products.rows) == AddPlan(ParseProducts(old(products.rows)), draft).value
      ensures !ok ==> products.rows == old(products.rows)
    {
      var ps := ListProducts();
      match AddPlan(ps, draft) {
        case None =>
          ok := false;
        case Some(qs) =>
          ok := WriteCsv(products, ProductFields, ProductRows(qs));
          ProductRowsProjected(qs);
          ProductsRoundTrip(qs);
      }
    }

    /**
     * actualizar_producto: the loop looks for the first product whose id is
     * `int(id)` and edits it in place; the catalog is rewritten only when one
     * was found and edited.
     */
    method UpdateProduct(id: Value, datos: Draft) returns (ok: bool)
      requires Valid()
      modifies products
      ensures Valid()
      ensures products.present == (old(products.present) || products.writable)
      ensures products.writable == old(products.writable)
      ensures ok == (UpdatePlan(ParseProducts(old(products.rows)), id, datos).Some? && products.writable)
      ensures ok ==> products.rows == ProductRows(UpdatePlan(ParseProducts(old(products.rows)), id, datos).value)
      ensures ok ==> ParseProducts(products.rows) == UpdatePlan(ParseProducts(old(products.rows)), id, datos).value
      ensures !ok ==> products.rows == old(products.rows)
    {
      var ps := ListProducts();
      var edited := EditFirstProduct(ps, id, datos);
      if edited.None? {
        return false;
      }
      var qs := edited.value;
      ok := WriteCsv(products, ProductFields, ProductRows(qs));
      ProductRowsProjected(qs);
      ProductsRoundTrip(qs);
    }

    /**
     * eliminar_producto: keeps the products whose id is not `int(id)` and
     * rewrites the catalog only when that removed at least one.
     */
    method DeleteProduct(id: Value) returns (ok: bool)
      requires Valid()
      modifies products
      ensures Valid()
      ensures products.present == (old(products.present) || products.writable)
      ensures products.writable == old(products.writable)
      ensures ok == (DeletePlan(ParseProducts(old(products.rows)), id).Some? && products.writable)
      ensures ok ==> products.rows == ProductRows(DeletePlan(ParseProducts(old(products.rows)), id).value)
      ensures ok ==> ParseProducts(products.rows) == DeletePlan(ParseProducts(old(products.rows)), id).value
      ensures !ok ==> products.rows == old(products.rows)
    {
      var ps := ListProducts();
      var filtered := KeepOthers(ps, id);
      if filtered.None? || |filtered.value| == |ps| {
        return false;
      }
      var kept := filtered.value;
      assert DeletePlan(ps, id) == Some(kept);
      ok := WriteCsv(products, ProductFields, ProductRows(kept));
      ProductRowsProjected(kept);
      ProductsRoundTrip(kept);
    }

    /** listar_ventas: the rows of the ledger that convert, in file order. */
    method ListSales() returns (vs: seq<Sale>)
      requires Valid()
      modifies sales
      ensures Valid()
      ensures sales.present == (old(sales.present) || sales.writable)
      ensures sales.rows == old(sales.rows) && sales.writable == old(sales.writable)
      ensures vs == ParseSales(sales.rows)
    {
      var raw := ReadCsv(sales);
      vs := [];
      for i := 0 to |raw|
        invariant vs == FilterMap(raw[..i], ParseSaleRow)
      {
        assert raw[..i + 1][..i] == raw[..i];
        match ParseSaleRow(raw[i]) {
          case Some(v) => vs := vs + [v];
          case None =>
        }
      }
      assert raw[..|raw|] == raw;
    }

    /**
     * registrar_venta, with `now` standing for the clock. The answer is the
     * Outcome of the SalePlan; the ledger is rewritten with the new sale
     * appended, and only after that succeeds is the catalog rewritten with
     * the decremented stock, whose own success is not looked at.
     */
    method RecordSale(venta: Draft, now: string) returns (r: SaleResult)
      requires Valid()
      modifies products, sales
      ensures Valid()
      ensures products.writable == old(products.writable) && sales.writable == old(sales.writable)
      ensures products.present == (old(products.present) || products.writable)
      ensures sales.present ==
        if CheckSale(ParseProducts(old(products.rows)), venta).Accepted? then old(sales.present) || sales.writable
        else old(sales.present)
      ensures
        var plan := SalePlan(ParseProducts(old(products.rows)), ParseSales(old(sales.rows)), venta, now);
        && r == Outcome(plan, sales.writable)
        && sales.rows == (if plan.Commit? && sales.writable
                          then SaleRows(ParseSales(old(sales.rows)) + [plan.sale])
                          else old(sales.rows))
        && products.rows == (if plan.Commit? && sales.writable && products.writable
                             then ProductRows(plan.catalog)
                             else old(products.rows))
      ensures
        var plan := SalePlan(ParseProducts(old(products.rows)), ParseSales(old(sales.rows)), venta, now);
        plan.Commit? && sales.writable ==> ParseSales(sales.rows) == ParseSales(old(sales.rows)) + [plan.sale]
    {
      var ps := ListProducts();
      var check := CheckSale(ps, venta);
      if check.Rejected? {
        return check.result;
      }
      r := RecordAccepted(ps, check.index, check.quantity, venta, now);
    }

    /**
     * registrar_venta once the checks have passed: the ledger is read, the
     * sale built and, when that works, Save writes both files.
     */
    method RecordAccepted(ps: seq<Product>, i: nat, q: int, venta: Draft, now: string) returns (r: SaleResult)
      requires Valid()
      requires ps == ParseProducts(products.rows)
      requires CheckSale(ps, venta) == Accepted(i, q)
      modifies products, sales
      ensures Valid()
      ensures products.writable == old(products.writable) && sales.writable == old(sales.writable)
      ensures products.present == old(products.present)
      ensures sales.present == (old(sales.present) || sales.writable)
      ensures
        var plan := SalePlan(ps, ParseSales(old(sales.rows)), venta, now);
        && r == Outcome(plan, sales.writable)
        && sales.rows == (if plan.Commit? && sales.writable
                          then SaleRows(ParseSales(old(sales.rows)) + [plan.sale])
                          else old(sales.rows))
        && products.rows == (if plan.Commit? && sales.writable && products.writable
                             then ProductRows(plan.catalog)
                             else old(products.rows))
      ensures
        var plan := SalePlan(ps, ParseSales(old(sales.rows)), venta, now);
        plan.Commit? && sales.writable ==> ParseSales(sales.rows) == ParseSales(old(sales.rows)) + [plan.sale]
    {
      var vs := ListSales();
      var built := NewSale(ps[i], q, venta, NextSaleId(vs), now);
      if built.None? {
        assert SalePlan(ps, vs, venta, now) == Broken;
        return InternalError;
      }
      var s := built.value;
      var catalog := ps[i := ps[i].(stock := ps[i].stock - q)];
      assert SalePlan(ps, vs, venta, now) == Commit(s, catalog);
      var written := Save(vs + [s], catalog);
      r := if written then Recorded(s.id) else SaveFailed;
    }

    /** The writes of registrar_venta: the ledger, then, only if that succeeded, the catalog. */
    method Save(ledger: seq<Sale>, catalog: seq<Product>) returns (written: bool)
      requires Valid()
      modifies products, sales
      ensures Valid()
      ensures products.writable == old(products.writable) && sales.writable == old(sales.writable)
      ensures written == sales.writable
      ensures products.present == (old(products.present) || (sales.writable && products.writable))
      ensures sales.present == (old(sales.present) || sales.writable)
      ensures sales.rows == if written then SaleRows(ledger) else old(sales.rows)
      ensures written ==> ParseSales(sales.rows) == ledger
      ensures products.rows == if written && products.writable then ProductRows(catalog) else old(products.rows)
    {
      written := WriteCsv(sales, SaleFields, SaleRows(ledger));
      SaleRowsProjected(ledger);
      SalesRoundTrip(ledger);
      if written {
        var _ := WriteCsv(products, ProductFields, ProductRows(catalog));
        ProductRowsProjected(catalog);
      }
    }

    /** productos_mas_vendidos: the tally of the listed sales, sorted and cut. */
    method BestSellers(topN: int) returns (r: Counts)
      requires Valid()
      modifies sales
      ensures Valid()
      ensures sales.present == (old(sales.present) || sales.writable)
      ensures sales.rows == old(sales.rows) && sales.writable == old(sales.writable)
      ensures r == TopSellers(ParseSales(sales.rows), topN)
    {
      var vs := ListSales();
      var c := Tally(vs);
      r := PySlice(SortByTotal(c), topN);
    }

    /** generar_reporte_ventas, with `parse` standing for datetime.fromisoformat. */
    method SalesReport(from: Option<string>, to: Option<string>, parse: string -> Option<int>) returns (report: Report)
      requires Valid()
      modifies sales
      ensures Valid()
      ensures sales.present == (old(sales.present) || sales.writable)
      ensures sales.rows == old(sales.rows) && sales.writable == old(sales.writable)
      ensures report.totalCents == Revenue(CountedSales(ParseSales(sales.rows), from, to, parse))
      ensures report.byProduct == TallyOf(CountedSales(ParseSales(sales.rows), from, to, parse))
    {
      var vs := ListSales();
      report := Summarize(vs, from, to, parse);
    }
  }
}
