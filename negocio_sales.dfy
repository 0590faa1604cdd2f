/**
 * registrar_venta of negocio.py as a decision on the listed products and
 * sales: the checks in their fixed order, the sale it builds, and the
 * catalog with the decremented stock that it writes after the ledger.
 */
module NegocioSales {
  import opened Values
  import opened NegocioRecords
  import opened NegocioProducts

  /** What registrar_venta reports; `Ok` and `Message` give its {'ok', 'mensaje'} dictionary. */
  datatype SaleResult =
    | Recorded(saleId: int)
    | ProductNotFound
    | InvalidQuantity
    | InsufficientStock(available: int)
    | SaveFailed
    | InternalError

  predicate Ok(r: SaleResult)
  {
    r.Recorded?
  }

  function Message(r: SaleResult): string
  {
    match r
    case Recorded(id) => "Venta registrada (id " + FormatInt(id) + ")."
    case ProductNotFound => "Producto no encontrado."
    case InvalidQuantity => "Cantidad inválida."
    case InsufficientStock(n) => "Stock insuficiente. Disponible: " + FormatInt(n)
    case SaveFailed => "Fallo al guardar la venta."
    case InternalError => "Error interno al registrar venta."
  }

  /** The outcome of the three checks: the position of the product and the quantity, or the refusal. */
  datatype Check = Accepted(index: nat, quantity: int) | Rejected(result: SaleResult)

  /** `int(venta.get('id_producto'))`: an absent key is None, which int() refuses. */
  function RequestedProduct(venta: Draft): Option<int>
  {
    ToInt(Get(venta, "id_producto", Null))
  }

  /**
   * The checks of registrar_venta, in the source's order: the product (the
   * first one with the id), then `cantidad > 0`, then enough stock. The id is
   * converted only while a product is being compared, so an empty catalog is
   * "not found" whatever the request holds.
   */
  function CheckSale(ps: seq<Product>, venta: Draft): (c: Check)
    ensures c.Accepted? ==> c.index < |ps| && RequestedProduct(venta) == Some(ps[c.index].id)
    ensures c.Accepted? ==> forall j :: 0 <= j < c.index ==> ps[j].id != ps[c.index].id
    ensures c.Accepted? ==> DraftInt(venta, "cantidad") == Some(c.quantity)
    ensures c.Accepted? ==> 0 < c.quantity <= ps[c.index].stock
    ensures c.Rejected? ==> !Ok(c.result) && c.result != SaveFailed
    ensures c.Accepted? <==>
      && ps != [] && RequestedProduct(venta).Some?
      && FindProduct(ps, RequestedProduct(venta).value).Some?
      && DraftInt(venta, "cantidad").Some?
      && 0 < DraftInt(venta, "cantidad").value <= ps[FindProduct(ps, RequestedProduct(venta).value).value].stock
  {
    if ps == [] then Rejected(ProductNotFound)
    else
      match RequestedProduct(venta)
      case None => Rejected(InternalError)
      case Some(n) =>
        match FindProduct(ps, n)
        case None => Rejected(ProductNotFound)
        case Some(i) =>
          match DraftInt(venta, "cantidad")
          case None => Rejected(InternalError)
          case Some(q) =>
            if q <= 0 then Rejected(InvalidQuantity)
            else if ps[i].stock < q then Rejected(InsufficientStock(ps[i].stock))
            else Accepted(i, q)
  }

  /** Each refusal, as the condition that causes it; together with CheckSale's contract they fix the order. */
  lemma RejectionOrder(ps: seq<Product>, venta: Draft)
    ensures CheckSale(ps, venta) == Rejected(ProductNotFound)
        <==> ps == [] || (RequestedProduct(venta).Some? && FindProduct(ps, RequestedProduct(venta).value).None?)
    ensures CheckSale(ps, venta) == Rejected(InvalidQuantity)
        <==> ps != [] && RequestedProduct(venta).Some? && FindProduct(ps, RequestedProduct(venta).value).Some?
             && DraftInt(venta, "cantidad").Some? && DraftInt(venta, "cantidad").value <= 0
    ensures CheckSale(ps, venta).Rejected? && CheckSale(ps, venta).result.InsufficientStock?
        <==> ps != [] && RequestedProduct(venta).Some? && FindProduct(ps, RequestedProduct(venta).value).Some?
             && DraftInt(venta, "cantidad").Some? && DraftInt(venta, "cantidad").value > 0
             && ps[FindProduct(ps, RequestedProduct(venta).value).value].stock < DraftInt(venta, "cantidad").value
    ensures CheckSale(ps, venta).Rejected? && CheckSale(ps, venta).result.InsufficientStock? ==>
      CheckSale(ps, venta).result.available == ps[FindProduct(ps, RequestedProduct(venta).value).value].stock
    ensures CheckSale(ps, venta) == Rejected(InternalError)
        <==> ps != [] && (RequestedProduct(venta).None?
             || (FindProduct(ps, RequestedProduct(venta).value).Some? && DraftInt(venta, "cantidad").None?))
  {
  }

  /**
   * The sale registrar_venta builds for `q` units of product `p` under the
   * fresh id `id`; `now` is datetime.now().isoformat(). None when float() of
   * a supplied price raises.
   */
  function NewSale(p: Product, q: int, venta: Draft, id: int, now: string): (r: Option<Sale>)
    ensures r.Some? <==> ToFloat(Get(venta, "precio_unitario_venta", Dec(p.price))).Some?
    ensures r.Some? ==> r.value.id == id && r.value.productId == p.id && r.value.quantity == q
    ensures r.Some? ==> Some(r.value.price) == ToFloat(Get(venta, "precio_unitario_venta", Dec(p.price)))
    ensures r.Some? && !Truthy(Get(venta, "fecha", Null)) ==> r.value.date == now
    ensures r.Some? && Truthy(Get(venta, "fecha", Null)) ==> r.value.date == Str(venta["fecha"])
    ensures r.Some? ==> r.value.payment == Str(Get(venta, "forma_pago", Text("")))
  {
    match ToFloat(Get(venta, "precio_unitario_venta", Dec(p.price)))
    case None => None
    case Some(price) =>
      var fecha := Get(venta, "fecha", Null);
      var date := if Truthy(fecha) then Str(fecha) else now;
      Some(Sale(id, date, p.id, q, price, Str(Get(venta, "forma_pago", Text("")))))
  }

  /** A request without a price sells at the product's current price. */
  lemma DefaultPrice(p: Product, q: int, venta: Draft, id: int, now: string)
    requires "precio_unitario_venta" !in venta
    ensures NewSale(p, q, venta, id, now).Some?
    ensures NewSale(p, q, venta, id, now).value.price == p.price
  {
    assert Get(venta, "precio_unitario_venta", Dec(p.price)) == Dec(p.price);
  }

  /** An explicit None price is not defaulted: float(None) raises. */
  lemma NullPriceFails(p: Product, q: int, venta: Draft, id: int, now: string)
    requires "precio_unitario_venta" in venta && venta["precio_unitario_venta"] == Null
    ensures NewSale(p, q, venta, id, now).None?
  {
  }

  /** What registrar_venta decides before it writes. */
  datatype Plan =
    | Refused(result: SaleResult)          // a check failed; the ledger is not read
    | Broken                               // the sale could not be built; the ledger was read
    | Commit(sale: Sale, catalog: seq<Product>)

  /**
   * The decision of registrar_venta on the listed products and sales: a
   * refusal, or the new sale (id above every listed sale id) and the catalog
   * in which exactly the matched product lost exactly the sold quantity.
   */
  function SalePlan(ps: seq<Product>, vs: seq<Sale>, venta: Draft, now: string): (r: Plan)
    ensures r.Refused? <==> CheckSale(ps, venta).Rejected?
    ensures r.Refused? ==> r.result == CheckSale(ps, venta).result
    ensures r.Commit? ==> r.sale.id == NextSaleId(vs)
    ensures r.Commit? ==> (CheckSale(ps, venta).Accepted?
      && Some(r.sale) == NewSale(ps[CheckSale(ps, venta).index], CheckSale(ps, venta).quantity, venta, NextSaleId(vs), now))
    ensures r.Broken? <==> (CheckSale(ps, venta).Accepted?
      && NewSale(ps[CheckSale(ps, venta).index], CheckSale(ps, venta).quantity, venta, NextSaleId(vs), now).None?)
    ensures r.Commit? ==> forall j :: 0 <= j < |vs| ==> vs[j].id < r.sale.id
    ensures r.Commit? ==> |r.catalog| == |ps|
    ensures r.Commit? ==>
      var i := CheckSale(ps, venta).index;
      && CheckSale(ps, venta).Accepted?
      && r.sale.productId == ps[i].id
      && r.sale.quantity == CheckSale(ps, venta).quantity > 0
      && r.catalog[i] == ps[i].(stock := ps[i].stock - r.sale.quantity)
      && r.catalog[i].stock >= 0
      && forall j :: 0 <= j < |ps| && j != i ==> r.catalog[j] == ps[j]
  {
    match CheckSale(ps, venta)
    case Rejected(res) => Refused(res)
    case Accepted(i, q) =>
      match NewSale(ps[i], q, venta, NextSaleId(vs), now)
      case None => Broken
      case Some(s) => Commit(s, ps[i := ps[i].(stock := ps[i].stock - q)])
  }

  /** The answer registrar_venta gives for a plan, given whether the ledger file accepts the write. */
  function Outcome(plan: Plan, ledgerWritable: bool): (r: SaleResult)
    ensures plan.Commit? && ledgerWritable ==> r == Recorded(plan.sale.id)
    ensures plan.Commit? && !ledgerWritable ==> r == SaveFailed
    ensures plan.Broken? ==> r == InternalError
    ensures plan.Refused? ==> r == plan.result
  {
    match plan
    case Refused(res) => res
    case Broken => InternalError
    case Commit(s, _) => if ledgerWritable then Recorded(s.id) else SaveFailed
  }

  /** registrar_venta answers ok exactly when every check passed, the sale was built and the ledger was written. */
  lemma OkIffCommitted(ps: seq<Product>, vs: seq<Sale>, venta: Draft, now: string, ledgerWritable: bool)
    ensures Ok(Outcome(SalePlan(ps, vs, venta, now), ledgerWritable))
        <==> SalePlan(ps, vs, venta, now).Commit? && ledgerWritable
  {
  }

  // ---------------------------------------------------------------------
  // Examples
  // ---------------------------------------------------------------------

  /** Selling 3 of a product with stock 5 succeeds: stock 2, first sale id 1. */
  lemma SellThreeOfFive(p: Product, now: string)
    requires p.id == 1 && p.stock == 5
    ensures var plan := SalePlan([p], [], map["id_producto" := Int(1), "cantidad" := Int(3)], now);
      && plan.Commit?
      && plan.sale.id == 1 && plan.sale.productId == 1 && plan.sale.quantity == 3
      && plan.sale.price == p.price && plan.sale.date == now
      && plan.catalog == [p.(stock := 2)]
  {
    var venta := map["id_producto" := Int(1), "cantidad" := Int(3)];
    assert RequestedProduct(venta) == Some(1);
    assert DraftInt(venta, "cantidad") == Some(3);
    assert CheckSale([p], venta) == Accepted(0, 3);
    DefaultPrice(p, 3, venta, 1, now);
  }

  /** Selling 10 of a product with stock 5 is refused with the available stock, and nothing is written. */
  lemma SellTenOfFive(p: Product, now: string)
    requires p.id == 1 && p.stock == 5
    ensures SalePlan([p], [], map["id_producto" := Int(1), "cantidad" := Int(10)], now) == Refused(InsufficientStock(5))
  {
    var venta := map["id_producto" := Int(1), "cantidad" := Int(10)];
    assert RequestedProduct(venta) == Some(1);
    assert DraftInt(venta, "cantidad") == Some(10);
  }

  /** The refusal message names the available stock. */
  lemma InsufficientStockMessage()
    ensures Message(InsufficientStock(5)) == "Stock insuficiente. Disponible: 5"
  {
    assert FormatInt(5) == "5";
  }
}
