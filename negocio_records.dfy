/**
 * The typed records of negocio.py (a product of the catalog, a sale of the
 * ledger), how a CSV row converts to one, how one is written back as a row,
 * and how fresh ids are assigned.
 */
module NegocioRecords {
  import opened Values
  import opened CsvFile

  /** PRODUCTOS_FIELDS, the header of productos.csv. */
  const ProductFields: seq<string> := ["id", "nombre", "categoria", "precio_unitario", "stock", "unidad"]

  /** VENTAS_FIELDS, the header of ventas.csv. */
  const SaleFields: seq<string> := ["id_venta", "fecha", "id_producto", "cantidad", "precio_unitario_venta", "forma_pago"]

  /** A product as listar_productos returns it; `price` is precio_unitario in cents. */
  datatype Product = Product(id: int, name: string, category: string, price: int, stock: int, unit: string)

  /** A sale as listar_ventas returns it; `price` is precio_unitario_venta in cents. */
  datatype Sale = Sale(id: int, date: string, productId: int, quantity: int, price: int, payment: string)

  // ---------------------------------------------------------------------
  // Reading a cell
  // ---------------------------------------------------------------------

  /** `int(r.get(k, 0))`: an absent column reads as 0, an empty or malformed cell does not convert. */
  function IntCell(r: Row, k: string): Option<int>
  {
    if k in r then ParseInt(r[k]) else Some(0)
  }

  /** `int(r.get(k, 0) or 0)`: an absent column or an empty cell reads as 0. */
  function IntCellOrZero(r: Row, k: string): Option<int>
  {
    if k !in r || r[k] == "" then Some(0) else ParseInt(r[k])
  }

  /** `float(r.get(k, 0) or 0)`: an absent column or an empty cell reads as 0.0. */
  function FloatCellOrZero(r: Row, k: string): Option<int>
  {
    if k !in r || r[k] == "" then Some(0) else ParseCents(r[k])
  }

  /** `r.get(k, '') or ''` */
  function TextCell(r: Row, k: string): string
  {
    Get(r, k, "")
  }

  /** A cell holding a written integer reads back as that integer. */
  lemma IntCellOf(r: Row, k: string, n: int)
    requires k in r && r[k] == FormatInt(n)
    ensures IntCell(r, k) == Some(n) && IntCellOrZero(r, k) == Some(n)
  {
    ParseFormatInt(n);
    assert r[k] != "" by {
      if n < 0 { assert r[k][0] == '-'; } else { assert |FormatNat(n)| > 0; }
    }
  }

  /** A cell holding a written price reads back as that price. */
  lemma FloatCellOf(r: Row, k: string, c: int)
    requires k in r && r[k] == FormatCents(c)
    ensures FloatCellOrZero(r, k) == Some(c)
  {
    ParseFormatCents(c);
    assert r[k] != "" by {
      if c < 0 { assert r[k][0] == '-'; } else { assert |CentsText(c)| > 0; }
    }
  }

  // ---------------------------------------------------------------------
  // Products
  // ---------------------------------------------------------------------

  /** The body of the loop of listar_productos: the product a row converts to, None for a corrupt row. */
  function ParseProductRow(r: Row): Option<Product>
  {
    match (IntCell(r, "id"), FloatCellOrZero(r, "precio_unitario"), IntCellOrZero(r, "stock"))
    case (Some(id), Some(price), Some(stock)) =>
      Some(Product(id, TextCell(r, "nombre"), TextCell(r, "categoria"), price, stock, TextCell(r, "unidad")))
    case _ => None
  }

  /** `{k: str(v) for k, v in prod.items()}`: the row a product is written as. */
  function ProductRow(p: Product): Row
  {
    map["id" := FormatInt(p.id), "nombre" := p.name, "categoria" := p.category,
        "precio_unitario" := FormatCents(p.price), "stock" := FormatInt(p.stock), "unidad" := p.unit]
  }

  /** listar_productos on the rows of the file: the lossy, order-preserving read. */
  function ParseProducts(rows: seq<Row>): seq<Product>
  {
    FilterMap(rows, ParseProductRow)
  }

  function ProductRows(ps: seq<Product>): seq<Row>
  {
    seq(|ps|, i requires 0 <= i < |ps| => ProductRow(ps[i]))
  }

  /** A row whose id, price and stock cells convert is a product with those fields and its text cells. */
  lemma ParseProductRowOf(r: Row, id: int, price: int, stock: int)
    requires IntCell(r, "id") == Some(id) && FloatCellOrZero(r, "precio_unitario") == Some(price)
    requires IntCellOrZero(r, "stock") == Some(stock)
    ensures ParseProductRow(r)
         == Some(Product(id, TextCell(r, "nombre"), TextCell(r, "categoria"), price, stock, TextCell(r, "unidad")))
  {
  }

  /** A product's row has exactly the header's columns. */
  lemma ProductRowKeys(p: Product)
    ensures ProductRow(p).Keys == set k | k in ProductFields
  {
  }

  /** The numeric cells of a product's row. */
  lemma ProductRowNumbers(p: Product)
    ensures ProductRow(p)["id"] == FormatInt(p.id) && ProductRow(p)["stock"] == FormatInt(p.stock)
    ensures ProductRow(p)["precio_unitario"] == FormatCents(p.price)
  {
  }

  /** The text cells of a product's row. */
  lemma ProductRowTexts(p: Product)
    ensures ProductRow(p)["nombre"] == p.name && ProductRow(p)["categoria"] == p.category
    ensures ProductRow(p)["unidad"] == p.unit
  {
  }

  /** Writing a product and reading its row back gives the same product. */
  lemma ProductRowRoundTrip(p: Product)
    ensures ParseProductRow(ProductRow(p)) == Some(p)
  {
    var r := ProductRow(p);
    ProductRowNumbers(p);
    ProductRowTexts(p);
    IntCellOf(r, "id", p.id);
    FloatCellOf(r, "precio_unitario", p.price);
    IntCellOf(r, "stock", p.stock);
    ParseProductRowOf(r, p.id, p.price, p.stock);
  }

  /** Rewriting the catalog and listing it again gives the same products, in order. */
  lemma ProductsRoundTrip(ps: seq<Product>)
    ensures ParseProducts(ProductRows(ps)) == ps
  {
    forall i | 0 <= i < |ps| ensures ParseProductRow(ProductRow(ps[i])) == Some(ps[i]) {
      ProductRowRoundTrip(ps[i]);
    }
    FilterMapInverts(ProductRows(ps), ps, ParseProductRow);
  }

  /** An empty `id` cell drops the row. */
  lemma EmptyIdDropsProduct(r: Row)
    requires "id" in r && r["id"] == ""
    ensures ParseProductRow(r) == None
  {
    assert Trim("") == "";
  }

  /** Empty or absent price and stock cells default to 0 and keep the row. */
  lemma EmptyPriceAndStockDefault(r: Row, id: int)
    requires IntCell(r, "id") == Some(id)
    requires "precio_unitario" !in r || r["precio_unitario"] == ""
    requires "stock" !in r || r["stock"] == ""
    ensures ParseProductRow(r).Some?
    ensures ParseProductRow(r).value.id == id
    ensures ParseProductRow(r).value.price == 0 && ParseProductRow(r).value.stock == 0
  {
  }

  // ---------------------------------------------------------------------
  // Sales
  // ---------------------------------------------------------------------

  /** The body of the loop of listar_ventas: the sale a row converts to, None for a corrupt row. */
  function ParseSaleRow(r: Row): Option<Sale>
  {
    match (IntCell(r, "id_venta"), IntCell(r, "id_producto"), IntCell(r, "cantidad"),
           FloatCellOrZero(r, "precio_unitario_venta"))
    case (Some(id), Some(pid), Some(q), Some(price)) =>
      Some(Sale(id, Get(r, "fecha", ""), pid, q, price, Get(r, "forma_pago", "")))
    case _ => None
  }

  /** `{k: str(v) for k, v in vrow.items()}`: the row a sale is written as. */
  function SaleRow(s: Sale): Row
  {
    map["id_venta" := FormatInt(s.id), "fecha" := s.date, "id_producto" := FormatInt(s.productId),
        "cantidad" := FormatInt(s.quantity), "precio_unitario_venta" := FormatCents(s.price),
        "forma_pago" := s.payment]
  }

  /** listar_ventas on the rows of the file: the lossy, order-preserving read. */
  function ParseSales(rows: seq<Row>): seq<Sale>
  {
    FilterMap(rows, ParseSaleRow)
  }

  function SaleRows(vs: seq<Sale>): seq<Row>
  {
    seq(|vs|, i requires 0 <= i < |vs| => SaleRow(vs[i]))
  }

  /** A row whose id, product, quantity and price cells convert is a sale with those fields and its text cells. */
  lemma ParseSaleRowOf(r: Row, id: int, pid: int, q: int, price: int)
    requires IntCell(r, "id_venta") == Some(id) && IntCell(r, "id_producto") == Some(pid)
    requires IntCell(r, "cantidad") == Some(q) && FloatCellOrZero(r, "precio_unitario_venta") == Some(price)
    ensures ParseSaleRow(r) == Some(Sale(id, Get(r, "fecha", ""), pid, q, price, Get(r, "forma_pago", "")))
  {
  }

  /** A sale's row has exactly the header's columns. */
  lemma SaleRowKeys(s: Sale)
    ensures SaleRow(s).Keys == set k | k in SaleFields
  {
  }

  /** The numeric cells of a sale's row. */
  lemma SaleRowNumbers(s: Sale)
    ensures SaleRow(s)["id_venta"] == FormatInt(s.id) && SaleRow(s)["id_producto"] == FormatInt(s.productId)
    ensures SaleRow(s)["cantidad"] == FormatInt(s.quantity)
  {
  }

  /** The price and text cells of a sale's row. */
  lemma SaleRowTexts(s: Sale)
    ensures SaleRow(s)["precio_unitario_venta"] == FormatCents(s.price)
    ensures SaleRow(s)["fecha"] == s.date && SaleRow(s)["forma_pago"] == s.payment
  {
  }

  /** Writing a sale and reading its row back gives the same sale. */
  lemma SaleRowRoundTrip(s: Sale)
    ensures ParseSaleRow(SaleRow(s)) == Some(s)
  {
    var r := SaleRow(s);
    SaleRowNumbers(s);
    SaleRowTexts(s);
    IntCellOf(r, "id_venta", s.id);
    IntCellOf(r, "id_producto", s.productId);
    IntCellOf(r, "cantidad", s.quantity);
    FloatCellOf(r, "precio_unitario_venta", s.price);
    ParseSaleRowOf(r, s.id, s.productId, s.quantity, s.price);
  }

  /** Rewriting the ledger and listing it again gives the same sales, in order. */
  lemma SalesRoundTrip(vs: seq<Sale>)
    ensures ParseSales(SaleRows(vs)) == vs
  {
    forall i | 0 <= i < |vs| ensures ParseSaleRow(SaleRow(vs[i])) == Some(vs[i]) {
      SaleRowRoundTrip(vs[i]);
    }
    FilterMapInverts(SaleRows(vs), vs, ParseSaleRow);
  }

  /** Unlike the price, an empty quantity cell is not read as 0: the sale is dropped. */
  lemma EmptyQuantityDropsSale(r: Row)
    requires "cantidad" in r && r["cantidad"] == ""
    ensures ParseSaleRow(r) == None
  {
    assert Trim("") == "";
  }

  // ---------------------------------------------------------------------
  // Writing rows: `_escribir_csv` projects every row onto the header
  // ---------------------------------------------------------------------

  function ProjectRows(rows: seq<Row>, fields: seq<string>): seq<Row>
  {
    seq(|rows|, i requires 0 <= i < |rows| => Project(rows[i], fields))
  }

  /** A product row already has exactly the header's columns, so projecting it changes nothing. */
  lemma ProductRowsProjected(ps: seq<Product>)
    ensures ProjectRows(ProductRows(ps), ProductFields) == ProductRows(ps)
  {
    forall i | 0 <= i < |ps| ensures Project(ProductRow(ps[i]), ProductFields) == ProductRow(ps[i]) {
      ProductRowKeys(ps[i]);
      ProjectExact(ProductRow(ps[i]), ProductFields);
    }
  }

  /** A sale row already has exactly the header's columns, so projecting it changes nothing. */
  lemma SaleRowsProjected(vs: seq<Sale>)
    ensures ProjectRows(SaleRows(vs), SaleFields) == SaleRows(vs)
  {
    forall i | 0 <= i < |vs| ensures Project(SaleRow(vs[i]), SaleFields) == SaleRow(vs[i]) {
      SaleRowKeys(vs[i]);
      ProjectExact(SaleRow(vs[i]), SaleFields);
    }
  }

  // ---------------------------------------------------------------------
  // Fresh ids
  // ---------------------------------------------------------------------

  /** `max(ids)` */
  function MaxOf(ids: seq<int>): (m: int)
    requires ids != []
    ensures m in ids
    ensures forall i :: 0 <= i < |ids| ==> ids[i] <= m
  {
    if |ids| == 1 then ids[0]
    else
      var m := MaxOf(ids[1..]);
      assert forall i :: 1 <= i < |ids| ==> ids[i] == ids[1..][i - 1];
      if ids[0] > m then ids[0] else m
  }

  /** `(max(ids) + 1) if ids else 1`: larger than every id in use; 1 on an empty table. */
  function NextId(ids: seq<int>): (r: int)
    ensures ids == [] ==> r == 1
    ensures ids != [] ==> r - 1 in ids
    ensures forall i :: 0 <= i < |ids| ==> ids[i] < r
  {
    if ids == [] then 1 else MaxOf(ids) + 1
  }

  function ProductIds(ps: seq<Product>): seq<int>
  {
    seq(|ps|, i requires 0 <= i < |ps| => ps[i].id)
  }

  function SaleIds(vs: seq<Sale>): seq<int>
  {
    seq(|vs|, i requires 0 <= i < |vs| => vs[i].id)
  }

  /** `_siguiente_id_productos`: a fresh product id, above every listed one. */
  function NextProductId(ps: seq<Product>): (r: int)
    ensures ps == [] ==> r == 1
    ensures ps != [] ==> exists i :: 0 <= i < |ps| && ps[i].id == r - 1
    ensures forall i :: 0 <= i < |ps| ==> ps[i].id < r
  {
    var ids := ProductIds(ps);
    assert forall i :: 0 <= i < |ps| ==> ids[i] == ps[i].id;
    NextId(ids)
  }

  /** `_siguiente_id_venta`: a fresh sale id, above every listed one. */
  function NextSaleId(vs: seq<Sale>): (r: int)
    ensures vs == [] ==> r == 1
    ensures vs != [] ==> exists i :: 0 <= i < |vs| && vs[i].id == r - 1
    ensures forall i :: 0 <= i < |vs| ==> vs[i].id < r
  {
    var ids := SaleIds(vs);
    assert forall i :: 0 <= i < |vs| ==> ids[i] == vs[i].id;
    NextId(ids)
  }
}
