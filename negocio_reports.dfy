/**
 * The aggregations of negocio.py: calcular_total_venta over caller items,
 * and, over the listed sales, the per-product tally of
 * productos_mas_vendidos (sorted, stable, cut with Python slicing) and the
 * date-filtered summary of generar_reporte_ventas. Amounts are in cents.
 */
module NegocioReports {
  import opened Values
  import opened NegocioRecords
  import opened NegocioProducts

  // ---------------------------------------------------------------------
  // calcular_total_venta
  // ---------------------------------------------------------------------

  /** `int(it.get('cantidad', 0) or 0) * float(it.get('precio_unitario', 0) or 0)`; None when a conversion raises. */
  function ItemAmount(it: Draft): Option<int>
  {
    match (DraftInt(it, "cantidad"), DraftFloat(it, "precio_unitario"))
    case (Some(c), Some(pu)) => Some(c * pu)
    case _ => None
  }

  /** The sum of the amounts of `items`; None exactly when some item is malformed. */
  function ItemsTotal(items: seq<Draft>): (r: Option<int>)
    ensures r.None? <==> exists i :: 0 <= i < |items| && ItemAmount(items[i]).None?
  {
    if items == [] then Some(0)
    else
      var init := items[..|items| - 1];
      assert forall i :: 0 <= i < |init| ==> init[i] == items[i];
      match (ItemsTotal(init), ItemAmount(items[|items| - 1]))
      case (Some(t), Some(a)) => Some(t + a)
      case _ => None
  }

  /** calcular_total_venta: the sum of quantity times price over the items, 0 when any item is malformed. */
  method SaleTotal(items: seq<Draft>) returns (total: int)
    ensures ItemsTotal(items).Some? ==> total == ItemsTotal(items).value
    ensures ItemsTotal(items).None? ==> total == 0
  {
    total := 0;
    var i := 0;
    while i < |items|
      invariant 0 <= i <= |items|
      invariant ItemsTotal(items[..i]) == Some(total)
    {
      assert items[..i + 1][..i] == items[..i];
      match ItemAmount(items[i]) {
        case None =>
          return 0;
        case Some(a) =>
          total := total + a;
      }
      i := i + 1;
    }
    assert items[..i] == items;
  }

  // ---------------------------------------------------------------------
  // The per-product tally: an insertion-ordered defaultdict(int)
  // ---------------------------------------------------------------------

  /** `conteo.items()`: (product id, quantity) pairs in insertion order. */
  type Counts = seq<(int, int)>

  function KeysOf(c: Counts): seq<int>
  {
    seq(|c|, i requires 0 <= i < |c| => c[i].0)
  }

  predicate Distinct(xs: seq<int>)
  {
    forall i, j :: 0 <= i < j < |xs| ==> xs[i] != xs[j]
  }

  /** `conteo[k]`: 0 for a key never bumped. */
  function Lookup(c: Counts, k: int): int
  {
    if c == [] then 0 else if c[0].0 == k then c[0].1 else Lookup(c[1..], k)
  }

  /** `conteo[k] += q`: the entry of `k` grows by `q`; a new key goes last. */
  function Bump(c: Counts, k: int, q: int): Counts
  {
    if c == [] then [(k, q)]
    else if c[0].0 == k then [(k, c[0].1 + q)] + c[1..]
    else [c[0]] + Bump(c[1..], k, q)
  }

  lemma {:induction false} BumpKeys(c: Counts, k: int, q: int)
    ensures KeysOf(Bump(c, k, q)) == if k in KeysOf(c) then KeysOf(c) else KeysOf(c) + [k]
  {
    if c != [] {
      assert KeysOf(c) == [c[0].0] + KeysOf(c[1..]);
      if c[0].0 != k {
        BumpKeys(c[1..], k, q);
        assert KeysOf(Bump(c, k, q)) == [c[0].0] + KeysOf(Bump(c[1..], k, q));
      } else {
        assert KeysOf(Bump(c, k, q)) == [k] + KeysOf(c[1..]);
      }
    }
  }

  lemma {:induction false} BumpLookup(c: Counts, k: int, q: int, x: int)
    ensures Lookup(Bump(c, k, q), x) == Lookup(c, x) + (if x == k then q else 0)
  {
    if c != [] && c[0].0 != k {
      BumpLookup(c[1..], k, q, x);
      assert Bump(c, k, q)[1..] == Bump(c[1..], k, q);
    } else if c != [] {
      assert Bump(c, k, q)[1..] == c[1..];
    }
  }

  /** With distinct keys, an entry's quantity is what looking its key up gives. */
  lemma {:induction false} LookupEntry(c: Counts, i: nat)
    requires Distinct(KeysOf(c)) && i < |c|
    ensures Lookup(c, c[i].0) == c[i].1
  {
    if i > 0 {
      assert KeysOf(c)[0] != KeysOf(c)[i];
      assert KeysOf(c[1..]) == KeysOf(c)[1..];
      LookupEntry(c[1..], i - 1);
    }
  }

  /** The product ids of the sales, in ledger order. */
  function SaleProducts(sales: seq<Sale>): seq<int>
  {
    seq(|sales|, i requires 0 <= i < |sales| => sales[i].productId)
  }

  /** Each id once, at its first appearance. */
  function Dedup(xs: seq<int>): (r: seq<int>)
    ensures Distinct(r)
    ensures forall x :: x in r <==> x in xs
  {
    if xs == [] then []
    else
      var init := xs[..|xs| - 1];
      assert xs == init + [xs[|xs| - 1]];
      var d := Dedup(init);
      if xs[|xs| - 1] in d then d else d + [xs[|xs| - 1]]
  }

  /** The quantity sold of product `k`: the sum over its sales. */
  function SoldOf(sales: seq<Sale>, k: int): int
  {
    if sales == [] then 0
    else
      var last := sales[|sales| - 1];
      SoldOf(sales[..|sales| - 1], k) + (if last.productId == k then last.quantity else 0)
  }

  /** The tally the loop of productos_mas_vendidos builds. */
  function TallyOf(sales: seq<Sale>): Counts
  {
    if sales == [] then []
    else
      var last := sales[|sales| - 1];
      Bump(TallyOf(sales[..|sales| - 1]), last.productId, last.quantity)
  }

  /** The tally has one entry per sold product, in order of first sale, holding the quantity sold. */
  lemma {:induction false} TallyCorrect(sales: seq<Sale>)
    ensures KeysOf(TallyOf(sales)) == Dedup(SaleProducts(sales))
    ensures forall x :: Lookup(TallyOf(sales), x) == SoldOf(sales, x)
  {
    if sales != [] {
      var init, last := sales[..|sales| - 1], sales[|sales| - 1];
      TallyCorrect(init);
      assert SaleProducts(sales)[..|sales| - 1] == SaleProducts(init);
      BumpKeys(TallyOf(init), last.productId, last.quantity);
      forall x ensures Lookup(TallyOf(sales), x) == SoldOf(sales, x) {
        BumpLookup(TallyOf(init), last.productId, last.quantity, x);
      }
    }
  }

  /** Every tally entry is a sold product with its total quantity, and no product appears twice. */
  lemma TallyEntries(sales: seq<Sale>)
    ensures Distinct(KeysOf(TallyOf(sales)))
    ensures forall i :: 0 <= i < |TallyOf(sales)| ==>
      TallyOf(sales)[i].1 == SoldOf(sales, TallyOf(sales)[i].0) && TallyOf(sales)[i].0 in SaleProducts(sales)
  {
    var t := TallyOf(sales);
    TallyCorrect(sales);
    forall i | 0 <= i < |t| ensures t[i].1 == SoldOf(sales, t[i].0) && t[i].0 in SaleProducts(sales) {
      LookupEntry(t, i);
      assert KeysOf(t)[i] == t[i].0;
    }
  }

  /** The loop of productos_mas_vendidos (and the tally of generar_reporte_ventas). */
  method Tally(sales: seq<Sale>) returns (c: Counts)
    ensures c == TallyOf(sales)
  {
    c := [];
    for i := 0 to |sales|
      invariant c == TallyOf(sales[..i])
    {
      assert sales[..i + 1][..i] == sales[..i];
      c := Bump(c, sales[i].productId, sales[i].quantity);
    }
    assert sales[..|sales|] == sales;
  }

  // ---------------------------------------------------------------------
  // sorted(conteo.items(), key=lambda x: x[1], reverse=True)
  // ---------------------------------------------------------------------

  predicate NonIncreasing(s: Counts)
  {
    forall i, j :: 0 <= i < j < |s| ==> s[i].1 >= s[j].1
  }

  /** Places `x` after every entry whose total is at least its own. */
  function Insert(s: Counts, x: (int, int)): (r: Counts)
    ensures multiset(r) == multiset(s) + multiset{x}
  {
    if s == [] then [x]
    else if s[0].1 < x.1 then [x] + s
    else
      assert s == [s[0]] + s[1..];
      [s[0]] + Insert(s[1..], x)
  }

  lemma {:induction false} InsertSorted(s: Counts, x: (int, int))
    requires NonIncreasing(s)
    ensures NonIncreasing(Insert(s, x))
  {
    if s != [] && s[0].1 >= x.1 {
      InsertSorted(s[1..], x);
      var r := Insert(s[1..], x);
      forall y | y in r ensures y.1 <= s[0].1 {
        assert y in multiset(r);
      }
      assert Insert(s, x) == [s[0]] + r;
      forall i | 0 < i < |Insert(s, x)| ensures Insert(s, x)[i].1 <= s[0].1 {
        assert Insert(s, x)[i] == r[i - 1];
      }
    }
  }

  /** The stable descending sort by total, as insertion of each entry in turn. */
  function SortByTotal(c: Counts): (r: Counts)
    ensures multiset(r) == multiset(c)
  {
    if c == [] then []
    else
      var init, last := c[..|c| - 1], c[|c| - 1];
      assert c == init + [last];
      Insert(SortByTotal(init), last)
  }

  /** The sort orders by non-increasing total and only rearranges. */
  lemma {:induction false} SortSorted(c: Counts)
    ensures NonIncreasing(SortByTotal(c))
    ensures |SortByTotal(c)| == |c|
  {
    assert |multiset(SortByTotal(c))| == |multiset(c)|;
    if c != [] {
      SortSorted(c[..|c| - 1]);
      InsertSorted(SortByTotal(c[..|c| - 1]), c[|c| - 1]);
    }
  }

  /** The entries whose total is `t`, in order. */
  function Tier(s: Counts, t: int): Counts
  {
    if s == [] then [] else (if s[0].1 == t then [s[0]] else []) + Tier(s[1..], t)
  }

  lemma {:induction false} TierAppend(a: Counts, b: Counts, t: int)
    ensures Tier(a + b, t) == Tier(a, t) + Tier(b, t)
  {
    if a != [] {
      assert (a + b)[1..] == a[1..] + b;
      TierAppend(a[1..], b, t);
    } else {
      assert a + b == b;
    }
  }

  lemma {:induction false} TierAbove(s: Counts, t: int)
    requires forall i :: 0 <= i < |s| ==> s[i].1 < t
    ensures Tier(s, t) == []
  {
    if s != [] {
      TierAbove(s[1..], t);
    }
  }

  /** Inserting `x` into a sorted list puts it last among the entries with its total. */
  lemma {:induction false} InsertTier(s: Counts, x: (int, int), t: int)
    requires NonIncreasing(s)
    ensures Tier(Insert(s, x), t) == Tier(s, t) + Tier([x], t)
  {
    if s == [] {
      assert Tier(s, t) == [];
    } else if s[0].1 < x.1 {
      InsertTierFront(s, x, t);
    } else {
      SortedTail(s);
      InsertTier(s[1..], x, t);
      assert Insert(s, x) == [s[0]] + Insert(s[1..], x);
      TierCons(s[0], Insert(s[1..], x), t);
    }
  }

  lemma SortedTail(s: Counts)
    requires s != [] && NonIncreasing(s)
    ensures NonIncreasing(s[1..])
  {
    forall i, j | 0 <= i < j < |s[1..]| ensures s[1..][i].1 >= s[1..][j].1 {
      assert s[1..][i] == s[i + 1] && s[1..][j] == s[j + 1];
    }
  }

  /** An entry with a larger total than the first goes in front, where no entry shares its total. */
  lemma InsertTierFront(s: Counts, x: (int, int), t: int)
    requires NonIncreasing(s) && s != [] && s[0].1 < x.1
    ensures Tier(Insert(s, x), t) == Tier(s, t) + Tier([x], t)
  {
    assert Insert(s, x) == [x] + s;
    TierAppend([x], s, t);
    if x.1 == t {
      TierAbove(s, t);
    } else {
      assert [x][1..] == [];
    }
  }

  /** The tier of a list with a given first entry. */
  lemma TierCons(h: (int, int), r: Counts, t: int)
    ensures Tier([h] + r, t) == (if h.1 == t then [h] else []) + Tier(r, t)
  {
    assert ([h] + r)[1..] == r;
  }

  /** Ties keep their order: in every tier the sort lists the entries as the tally does. */
  lemma {:induction false} SortStable(c: Counts, t: int)
    ensures Tier(SortByTotal(c), t) == Tier(c, t)
  {
    if c != [] {
      var init := c[..|c| - 1];
      SortStable(init, t);
      SortSorted(init);
      InsertTier(SortByTotal(init), c[|c| - 1], t);
      assert c == init + [c[|c| - 1]];
      TierAppend(init, [c[|c| - 1]], t);
    }
  }

  /** `s[:n]` */
  function PySlice<T>(s: seq<T>, n: int): (r: seq<T>)
    ensures n >= 0 ==> |r| == if n < |s| then n else |s|
    ensures n < 0 ==> |r| == if |s| + n > 0 then |s| + n else 0
    ensures r == s[..|r|]
  {
    if n >= 0 then (if n < |s| then s[..n] else s)
    else if |s| + n > 0 then s[..|s| + n] else []
  }

  /** productos_mas_vendidos on the listed sales. */
  function TopSellers(sales: seq<Sale>, topN: int): Counts
  {
    PySlice(SortByTotal(TallyOf(sales)), topN)
  }

  /**
   * The best sellers: at most `topN` entries (for `topN >= 0`), in
   * non-increasing order of total, each a sold product with its total
   * quantity, no product twice, and ties in order of first sale.
   */
  lemma TopSellersSpec(sales: seq<Sale>, topN: int)
    ensures topN >= 0 ==> |TopSellers(sales, topN)| <= topN
    ensures NonIncreasing(TopSellers(sales, topN))
    ensures forall i :: 0 <= i < |TopSellers(sales, topN)| ==>
      TopSellers(sales, topN)[i].1 == SoldOf(sales, TopSellers(sales, topN)[i].0)
      && TopSellers(sales, topN)[i].0 in SaleProducts(sales)
    ensures forall i, j :: 0 <= i < j < |TopSellers(sales, topN)| ==> TopSellers(sales, topN)[i].0 != TopSellers(sales, topN)[j].0
    ensures TopSellers(sales, topN) == SortByTotal(TallyOf(sales))[..|TopSellers(sales, topN)|]
    ensures forall t :: Tier(SortByTotal(TallyOf(sales)), t) == Tier(TallyOf(sales), t)
  {
    var c := TallyOf(sales);
    var s := SortByTotal(c);
    var r := TopSellers(sales, topN);
    SortSorted(c);
    TallyEntries(sales);
    forall i | 0 <= i < |r| ensures r[i] in c {
      assert r[i] == s[i];
      assert s[i] in multiset(c);
    }
    forall i | 0 <= i < |r| ensures r[i].1 == SoldOf(sales, r[i].0) && r[i].0 in SaleProducts(sales) {
      var j :| 0 <= j < |c| && c[j] == r[i];
    }
    forall i, j | 0 <= i < j < |r| ensures r[i].0 != r[j].0 {
      DistinctEntries(s, c, i, j);
    }
    forall t ensures Tier(s, t) == Tier(c, t) {
      SortStable(c, t);
    }
  }

  /** A permutation of entries with distinct keys has distinct keys. */
  lemma DistinctEntries(s: Counts, c: Counts, i: nat, j: nat)
    requires multiset(s) == multiset(c) && Distinct(KeysOf(c))
    requires i < j < |s|
    ensures s[i].0 != s[j].0
  {
    assert s[i] in multiset(c) && s[j] in multiset(c);
    var a :| 0 <= a < |c| && c[a] == s[i];
    var b :| 0 <= b < |c| && c[b] == s[j];
    if s[i].0 == s[j].0 {
      assert KeysOf(c)[a] == KeysOf(c)[b];
      assert a == b;
      assert s[i] == s[j];
      assert multiset(s)[s[i]] >= 2 by {
        assert s == s[..i] + [s[i]] + s[i + 1..j] + [s[j]] + s[j + 1..];
      }
      MultiplicityOne(c, a);
      assert false;
    }
  }

  /** With distinct keys, each entry occurs once. */
  lemma {:induction false} MultiplicityOne(c: Counts, a: nat)
    requires Distinct(KeysOf(c)) && a < |c|
    ensures multiset(c)[c[a]] == 1
  {
    if |c| == 1 {
    } else {
      var init := c[..|c| - 1];
      assert c == init + [c[|c| - 1]];
      assert KeysOf(init) == KeysOf(c)[..|c| - 1];
      if a < |c| - 1 {
        MultiplicityOne(init, a);
        assert KeysOf(c)[a] != KeysOf(c)[|c| - 1];
      } else {
        assert c[a] !in init by {
          forall k | 0 <= k < |init| ensures init[k] != c[a] {
            assert KeysOf(c)[k] != KeysOf(c)[a];
          }
        }
      }
    }
  }

  /** A tie: products 1 and 2 both sold 5; product 1 sold first, so it leads. */
  lemma TopSellerTie(s1: Sale, s2: Sale, s3: Sale)
    requires s1.productId == 1 && s1.quantity == 3
    requires s2.productId == 2 && s2.quantity == 5
    requires s3.productId == 1 && s3.quantity == 2
    ensures TopSellers([s1, s2, s3], 1) == [(1, 5)]
  {
    TieTally(s1, s2, s3);
    TieSort();
  }

  lemma TieTally(s1: Sale, s2: Sale, s3: Sale)
    requires s1.productId == 1 && s1.quantity == 3
    requires s2.productId == 2 && s2.quantity == 5
    requires s3.productId == 1 && s3.quantity == 2
    ensures TallyOf([s1, s2, s3]) == [(1, 5), (2, 5)]
  {
    assert [s1, s2, s3][..2] == [s1, s2] && [s1, s2][..1] == [s1] && [s1][..0] == [];
    assert TallyOf([s1]) == [(1, 3)];
    assert [(1, 3)][1..] == [];
    assert Bump([(1, 3)], 2, 5) == [(1, 3), (2, 5)];
    assert TallyOf([s1, s2]) == [(1, 3), (2, 5)];
  }

  lemma TieSort()
    ensures SortByTotal([(1, 5), (2, 5)]) == [(1, 5), (2, 5)]
  {
    var c := [(1, 5), (2, 5)];
    assert c[..1] == [(1, 5)];
    assert SortByTotal([(1, 5)]) == [(1, 5)];
  }

  // ---------------------------------------------------------------------
  // generar_reporte_ventas
  // ---------------------------------------------------------------------

  /** A bound that Python treats as true: given and not the empty string. */
  predicate Given(b: Option<string>)
  {
    b.Some? && b.value != ""
  }

  /**
   * Whether the report counts sale `s`. `parse` is datetime.fromisoformat
   * onto a totally ordered instant, None where it raises. Without bounds every
   * sale counts; with bounds, a sale with an empty date still counts, and a
   * dated sale counts when its date and every given bound parse and the date
   * lies within them (inclusive).
   */
  predicate Counted(s: Sale, from: Option<string>, to: Option<string>, parse: string -> Option<int>)
  {
    if !(Given(from) || Given(to)) || s.date == "" then true
    else
      match parse(s.date)
      case None => false
      case Some(d) =>
        (!Given(from) || (parse(from.value).Some? && parse(from.value).value <= d))
        && (!Given(to) || (parse(to.value).Some? && d <= parse(to.value).value))
  }

  /** The sales the report counts, in ledger order. */
  function CountedSales(sales: seq<Sale>, from: Option<string>, to: Option<string>, parse: string -> Option<int>): (r: seq<Sale>)
    ensures |r| <= |sales|
  {
    if sales == [] then []
    else
      var init, last := sales[..|sales| - 1], sales[|sales| - 1];
      CountedSales(init, from, to, parse) + (if Counted(last, from, to, parse) then [last] else [])
  }

  /** The counted sales are exactly the sales the report counts. */
  lemma {:induction false} CountedMembers(sales: seq<Sale>, from: Option<string>, to: Option<string>, parse: string -> Option<int>)
    ensures forall s :: s in CountedSales(sales, from, to, parse) <==> s in sales && Counted(s, from, to, parse)
  {
    if sales != [] {
      var init, last := sales[..|sales| - 1], sales[|sales| - 1];
      CountedMembers(init, from, to, parse);
      assert sales == init + [last];
    }
  }

  /** The sum of price times quantity, in cents. */
  function Revenue(sales: seq<Sale>): int
  {
    if sales == [] then 0
    else Revenue(sales[..|sales| - 1]) + sales[|sales| - 1].price * sales[|sales| - 1].quantity
  }

  /** The dictionary generar_reporte_ventas returns. */
  datatype Report = Report(totalCents: int, byProduct: Counts)

  /** The body of the loop of generar_reporte_ventas: false where the source `continue`s. */
  method Admits(v: Sale, from: Option<string>, to: Option<string>, parse: string -> Option<int>) returns (keep: bool)
    ensures keep == Counted(v, from, to, parse)
  {
    keep := true;
    if (Given(from) || Given(to)) && v.date != "" {
      match parse(v.date) {
        case None =>
          keep := false;
        case Some(d) =>
          if Given(from) {
            match parse(from.value) {
              case None => keep := false;
              case Some(f) => if d < f { keep := false; }
            }
          }
          if keep && Given(to) {
            match parse(to.value) {
              case None => keep := false;
              case Some(t) => if d > t { keep := false; }
            }
          }
      }
    }
  }

  /** One more sale adds its amount and its quantity when it counts, and nothing otherwise. */
  lemma SummaryStep(s: seq<Sale>, v: Sale, from: Option<string>, to: Option<string>, parse: string -> Option<int>)
    ensures Revenue(CountedSales(s + [v], from, to, parse))
        == Revenue(CountedSales(s, from, to, parse)) + (if Counted(v, from, to, parse) then v.price * v.quantity else 0)
    ensures TallyOf(CountedSales(s + [v], from, to, parse))
        == if Counted(v, from, to, parse) then Bump(TallyOf(CountedSales(s, from, to, parse)), v.productId, v.quantity)
           else TallyOf(CountedSales(s, from, to, parse))
  {
    var before := CountedSales(s, from, to, parse);
    CountedSnoc(s, v, from, to, parse);
    if Counted(v, from, to, parse) {
      RevenueSnoc(before, v);
      TallySnoc(before, v);
    } else {
      assert before + [] == before;
    }
  }

  lemma CountedSnoc(s: seq<Sale>, v: Sale, from: Option<string>, to: Option<string>, parse: string -> Option<int>)
    ensures CountedSales(s + [v], from, to, parse)
        == CountedSales(s, from, to, parse) + (if Counted(v, from, to, parse) then [v] else [])
  {
    assert (s + [v])[..|s|] == s;
  }

  /** The filter works piece by piece: the counted sales are a sub-list of the ledger, in ledger order. */
  lemma {:induction false} CountedAppend(a: seq<Sale>, b: seq<Sale>, from: Option<string>, to: Option<string>, parse: string -> Option<int>)
    ensures CountedSales(a + b, from, to, parse) == CountedSales(a, from, to, parse) + CountedSales(b, from, to, parse)
  {
    if b == [] {
      assert a + b == a;
    } else {
      var init, last := b[..|b| - 1], b[|b| - 1];
      assert (a + b)[..|a + b| - 1] == a + init;
      assert (a + b)[|a + b| - 1] == last;
      CountedAppend(a, init, from, to, parse);
    }
  }

  lemma TallySnoc(s: seq<Sale>, v: Sale)
    ensures TallyOf(s + [v]) == Bump(TallyOf(s), v.productId, v.quantity)
  {
    assert (s + [v])[..|s|] == s;
  }

  lemma RevenueSnoc(s: seq<Sale>, v: Sale)
    ensures Revenue(s + [v]) == Revenue(s) + v.price * v.quantity
  {
    assert (s + [v])[..|s|] == s;
  }

  /** The loop of generar_reporte_ventas. */
  method Summarize(sales: seq<Sale>, from: Option<string>, to: Option<string>, parse: string -> Option<int>)
    returns (report: Report)
    ensures report.totalCents == Revenue(CountedSales(sales, from, to, parse))
    ensures report.byProduct == TallyOf(CountedSales(sales, from, to, parse))
  {
    var total := 0;
    var counts: Counts := [];
    for i := 0 to |sales|
      invariant total == Revenue(CountedSales(sales[..i], from, to, parse))
      invariant counts == TallyOf(CountedSales(sales[..i], from, to, parse))
    {
      var v := sales[i];
      var keep := Admits(v, from, to, parse);
      assert sales[..i + 1] == sales[..i] + [v];
      SummaryStep(sales[..i], v, from, to, parse);
      if keep {
        total := total + v.price * v.quantity;
        counts := Bump(counts, v.productId, v.quantity);
      }
    }
    assert sales[..|sales|] == sales;
    report := Report(total, counts);
  }

  /** Without bounds every sale counts. */
  lemma {:induction false} NoBoundsCountsAll(sales: seq<Sale>, from: Option<string>, to: Option<string>, parse: string -> Option<int>)
    requires !Given(from) && !Given(to)
    ensures CountedSales(sales, from, to, parse) == sales
  {
    if sales != [] {
      NoBoundsCountsAll(sales[..|sales| - 1], from, to, parse);
      assert sales == sales[..|sales| - 1] + [sales[|sales| - 1]];
    }
  }

  /** With both bounds parsing, a dated sale counts exactly when its date parses and lies in the closed range. */
  lemma InRange(s: Sale, from: string, to: string, parse: string -> Option<int>)
    requires from != "" && to != "" && s.date != ""
    requires parse(from).Some? && parse(to).Some?
    ensures Counted(s, Some(from), Some(to), parse)
        <==> parse(s.date).Some? && parse(from).value <= parse(s.date).value <= parse(to).value
  {
  }

  /** A lower bound that does not parse keeps only the undated sales. */
  lemma BadLowerBound(s: Sale, from: string, to: Option<string>, parse: string -> Option<int>)
    requires from != "" && parse(from).None?
    ensures Counted(s, Some(from), to, parse) <==> s.date == ""
  {
  }

  /** The item calcular_total_venta would be given for a sale. */
  function ItemOf(s: Sale): Draft
  {
    map["cantidad" := Int(s.quantity), "precio_unitario" := Dec(s.price)]
  }

  /** The report's total is calcular_total_venta of the counted sales taken as items. */
  lemma {:induction false} RevenueIsTotal(sales: seq<Sale>)
    ensures ItemsTotal(seq(|sales|, i requires 0 <= i < |sales| => ItemOf(sales[i]))) == Some(Revenue(sales))
  {
    if sales != [] {
      var init := sales[..|sales| - 1];
      var items := seq(|sales|, i requires 0 <= i < |sales| => ItemOf(sales[i]));
      assert items[..|items| - 1] == seq(|init|, i requires 0 <= i < |init| => ItemOf(init[i]));
      RevenueIsTotal(init);
      var s := sales[|sales| - 1];
      assert DraftInt(ItemOf(s), "cantidad") == Some(s.quantity);
      assert DraftFloat(ItemOf(s), "precio_unitario") == Some(s.price);
    }
  }
}
