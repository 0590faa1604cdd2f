/**
 * The product operations of negocio.py, as what each one does to the list
 * of products that listar_productos returned: the product agregar_producto
 * appends, the edit actualizar_producto applies to the first product with
 * the id, the filter eliminar_producto applies. None stands for every path
 * on which the operation returns False without writing.
 */
module NegocioProducts {
  import opened Values
  import opened NegocioRecords

  /** A caller's dictionary: a new product, or the changes to one. */
  type Draft = map<string, Value>

  /** `float(d.get(k, 0) or 0)` */
  function DraftFloat(d: Draft, k: string): Option<int>
  {
    ToFloat(OrZero(Get(d, k, Int(0))))
  }

  /** `int(d.get(k, 0) or 0)` */
  function DraftInt(d: Draft, k: string): Option<int>
  {
    ToInt(OrZero(Get(d, k, Int(0))))
  }

  /** `str(d.get(k, '')).strip()` */
  function DraftText(d: Draft, k: string): (r: string)
    ensures Unpadded(r)
  {
    TrimUnpads(Str(Get(d, k, Text(""))));
    Trim(Str(Get(d, k, Text(""))))
  }

  // ---------------------------------------------------------------------
  // agregar_producto
  // ---------------------------------------------------------------------

  /**
   * The product agregar_producto builds under the fresh id `id`; None when
   * float() of the price or int() of the stock raises.
   */
  function NewProduct(draft: Draft, id: int): (r: Option<Product>)
    ensures r.Some? <==> DraftFloat(draft, "precio_unitario").Some? && DraftInt(draft, "stock").Some?
    ensures r.Some? ==> r.value.id == id
    ensures r.Some? ==> r.value.name == DraftText(draft, "nombre")
    ensures r.Some? ==> r.value.category == DraftText(draft, "categoria")
    ensures r.Some? ==> r.value.unit == DraftText(draft, "unidad")
    ensures r.Some? ==> Unpadded(r.value.name) && Unpadded(r.value.category) && Unpadded(r.value.unit)
    ensures r.Some? ==> r.value.price == DraftFloat(draft, "precio_unitario").value
    ensures r.Some? ==> r.value.stock == DraftInt(draft, "stock").value
  {
    match (DraftFloat(draft, "precio_unitario"), DraftInt(draft, "stock"))
    case (Some(price), Some(stock)) =>
      Some(Product(id, DraftText(draft, "nombre"), DraftText(draft, "categoria"), price, stock, DraftText(draft, "unidad")))
    case _ => None
  }

  /** A draft without price and stock gives a product with price 0 and stock 0. */
  lemma NewProductDefaults(draft: Draft, id: int)
    requires "precio_unitario" !in draft && "stock" !in draft
    ensures NewProduct(draft, id).Some?
    ensures NewProduct(draft, id).value.price == 0 && NewProduct(draft, id).value.stock == 0
  {
    assert DraftFloat(draft, "precio_unitario") == Some(0);
    assert DraftInt(draft, "stock") == Some(0);
  }

  /** An empty price or stock text counts as 0; a text that does not parse makes the operation fail. */
  lemma NewProductNumericText(draft: Draft, id: int, s: string)
    requires Get(draft, "precio_unitario", Int(0)) == Text("") && Get(draft, "stock", Int(0)) == Text(s)
    ensures s == "" ==> NewProduct(draft, id).Some? && NewProduct(draft, id).value.price == 0
    ensures s != "" && ParseInt(s).None? ==> NewProduct(draft, id).None?
  {
  }

  /**
   * The catalog agregar_producto writes: the listed products followed by the
   * product built from the draft under the id max + 1 (1 on an empty catalog),
   * which is above every listed id.
   */
  function AddPlan(ps: seq<Product>, draft: Draft): (r: Option<seq<Product>>)
    ensures r.Some? <==> NewProduct(draft, NextProductId(ps)).Some?
    ensures r.Some? ==> r.value == ps + [NewProduct(draft, NextProductId(ps)).value]
    ensures r.Some? ==> |r.value| == |ps| + 1 && r.value[..|ps|] == ps
    ensures r.Some? ==> r.value[|ps|].id == NextProductId(ps)
    ensures r.Some? ==> forall i :: 0 <= i < |ps| ==> ps[i].id < r.value[|ps|].id
    ensures r.Some? && ps == [] ==> r.value[0].id == 1
  {
    match NewProduct(draft, NextProductId(ps))
    case Some(p) =>
      assert (ps + [p])[..|ps|] == ps;
      Some(ps + [p])
    case None => None
  }

  // ---------------------------------------------------------------------
  // actualizar_producto
  // ---------------------------------------------------------------------

  /** The position of the first product with id `n`. */
  function FindProduct(ps: seq<Product>, n: int): (r: Option<nat>)
    ensures r.Some? ==> r.value < |ps| && ps[r.value].id == n
    ensures r.Some? ==> forall j :: 0 <= j < r.value ==> ps[j].id != n
    ensures r.None? <==> forall j :: 0 <= j < |ps| ==> ps[j].id != n
  {
    if ps == [] then None
    else if ps[0].id == n then Some(0)
    else
      match FindProduct(ps[1..], n)
      case None =>
        assert forall j :: 1 <= j < |ps| ==> ps[j] == ps[1..][j - 1];
        None
      case Some(k) =>
        assert forall j :: 1 <= j < |ps| ==> ps[j] == ps[1..][j - 1];
        Some(k + 1)
  }

  /** One editable field: its coerced new value when `datos` names it, the old value otherwise. */
  function EditedNumber(datos: Draft, k: string, current: int, coerce: Value -> Option<int>): (r: Option<int>)
    ensures k !in datos ==> r == Some(current)
    ensures k in datos ==> r == coerce(OrZero(datos[k]))
  {
    if k in datos then coerce(OrZero(datos[k])) else Some(current)
  }

  /**
   * The product after the loop over the five editable columns: each one
   * `datos` names is replaced (price through float(), stock through int(),
   * text through str() without strip); every other field, the id among them,
   * is kept. None when a conversion raises.
   */
  function EditedProduct(p: Product, datos: Draft): (r: Option<Product>)
    ensures r.None? <==>
      (("precio_unitario" in datos && ToFloat(OrZero(datos["precio_unitario"])).None?)
      || ("stock" in datos && ToInt(OrZero(datos["stock"])).None?))
    ensures r.Some? ==> r.value.id == p.id
    ensures r.Some? ==> r.value.name == (if "nombre" in datos then Str(datos["nombre"]) else p.name)
    ensures r.Some? ==> r.value.category == (if "categoria" in datos then Str(datos["categoria"]) else p.category)
    ensures r.Some? ==> r.value.unit == (if "unidad" in datos then Str(datos["unidad"]) else p.unit)
    ensures r.Some? && "precio_unitario" !in datos ==> r.value.price == p.price
    ensures r.Some? && "stock" !in datos ==> r.value.stock == p.stock
    ensures r.Some? && "precio_unitario" in datos ==> Some(r.value.price) == ToFloat(OrZero(datos["precio_unitario"]))
    ensures r.Some? && "stock" in datos ==> Some(r.value.stock) == ToInt(OrZero(datos["stock"]))
  {
    match (EditedNumber(datos, "precio_unitario", p.price, ToFloat), EditedNumber(datos, "stock", p.stock, ToInt))
    case (Some(price), Some(stock)) =>
      var name := if "nombre" in datos then Str(datos["nombre"]) else p.name;
      var category := if "categoria" in datos then Str(datos["categoria"]) else p.category;
      var unit := if "unidad" in datos then Str(datos["unidad"]) else p.unit;
      Some(Product(p.id, name, category, price, stock, unit))
    case _ => None
  }

  /** A change set that names none of the five columns leaves the product as it is. */
  lemma EditNothing(p: Product, datos: Draft)
    requires forall k :: k in datos ==> k !in ProductFields[1..]
    ensures EditedProduct(p, datos) == Some(p)
  {
    assert ProductFields[1..] == ["nombre", "categoria", "precio_unitario", "stock", "unidad"];
    assert "nombre" !in datos && "categoria" !in datos && "unidad" !in datos;
    assert "precio_unitario" !in datos && "stock" !in datos;
  }

  /**
   * The catalog actualizar_producto writes: only the first product whose id
   * is `int(id)` is edited, all others are kept in place. None (False, no
   * write) when int(id) raises, when no product has the id, or when the edit
   * raises.
   */
  function UpdatePlan(ps: seq<Product>, id: Value, datos: Draft): (r: Option<seq<Product>>)
    ensures ToInt(id).None? ==> r.None?
    ensures ToInt(id).Some? && (forall j :: 0 <= j < |ps| ==> ps[j].id != ToInt(id).value) ==> r.None?
    ensures r.Some? ==> |r.value| == |ps|
    ensures r.Some? ==>
      exists i :: (0 <= i < |ps| && ps[i].id == ToInt(id).value
        && (forall j :: 0 <= j < i ==> ps[j].id != ToInt(id).value)
        && Some(r.value[i]) == EditedProduct(ps[i], datos)
        && (forall j :: 0 <= j < |ps| && j != i ==> r.value[j] == ps[j]))
  {
    match ToInt(id)
    case None => None
    case Some(n) =>
      match FindProduct(ps, n)
      case None => None
      case Some(i) =>
        match EditedProduct(ps[i], datos)
        case None => None
        case Some(q) =>
          var qs := ps[i := q];
          assert qs[i] == q;
          Some(qs)
  }

  /** When the product with the id exists and the edit converts, the update goes ahead. */
  lemma UpdateFound(ps: seq<Product>, id: Value, datos: Draft, i: nat)
    requires ToInt(id).Some? && i < |ps| && ps[i].id == ToInt(id).value
    requires EditedProduct(ps[i], datos).Some?
    requires forall j :: 0 <= j < i ==> ps[j].id != ToInt(id).value
    ensures UpdatePlan(ps, id, datos) == Some(ps[i := EditedProduct(ps[i], datos).value])
  {
    var n := ToInt(id).value;
    var f := FindProduct(ps, n);
    assert f.Some? && ps[f.value].id == n;
    assert !(f.value < i) && !(i < f.value);
  }

  // ---------------------------------------------------------------------
  // eliminar_producto
  // ---------------------------------------------------------------------

  /** `[p for p in ps if p['id'] != n]` */
  function Without(ps: seq<Product>, n: int): (r: seq<Product>)
    ensures |r| <= |ps|
    ensures forall i :: 0 <= i < |r| ==> r[i].id != n
    ensures forall p :: p in r <==> p in ps && p.id != n
    ensures |r| == |ps| <==> forall i :: 0 <= i < |ps| ==> ps[i].id != n
    ensures |r| == |ps| ==> r == ps
  {
    if ps == [] then []
    else
      var init, last := ps[..|ps| - 1], ps[|ps| - 1];
      assert ps == init + [last];
      var w := Without(init, n);
      if last.id != n then w + [last] else w
  }

  /** Filtering two stretches one after the other gives the two results one after the other: order is kept. */
  lemma {:induction false} WithoutAppend(a: seq<Product>, b: seq<Product>, n: int)
    ensures Without(a + b, n) == Without(a, n) + Without(b, n)
  {
    if b == [] {
      assert a + b == a;
    } else {
      var b' := b[..|b| - 1];
      assert (a + b)[..|a + b| - 1] == a + b';
      assert (a + b)[|a + b| - 1] == b[|b| - 1];
      WithoutAppend(a, b', n);
    }
  }

  /**
   * The catalog eliminar_producto writes: every product with id `int(id)`
   * removed, the others kept in order. None (False, no write) when int(id)
   * raises on a non-empty catalog or when no product has the id.
   */
  function DeletePlan(ps: seq<Product>, id: Value): (r: Option<seq<Product>>)
    ensures r.Some? <==> ToInt(id).Some? && exists i :: 0 <= i < |ps| && ps[i].id == ToInt(id).value
    ensures r.Some? ==> r.value == Without(ps, ToInt(id).value) && |r.value| < |ps|
  {
    match ToInt(id)
    case None => None
    case Some(n) =>
      var kept := Without(ps, n);
      if |kept| == |ps| then None else Some(kept)
  }

  /** Deleting an id a second time finds nothing to delete. */
  lemma DeleteTwice(ps: seq<Product>, id: Value)
    requires DeletePlan(ps, id).Some?
    ensures DeletePlan(DeletePlan(ps, id).value, id).None?
  {
    var qs := DeletePlan(ps, id).value;
    assert forall i :: 0 <= i < |qs| ==> qs[i].id != ToInt(id).value;
  }
}
