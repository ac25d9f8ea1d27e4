/** The statistics page (`Estadisticas.jsx`): the day's revenue, the completed
    and pending figures, and the best-selling wing styles. */
module Estadisticas {
  import opened Wrappers
  import opened Seqs
  import opened Orders
  import Landing

  // ---------------------------------------------------------------------------
  // Revenue and order figures
  // ---------------------------------------------------------------------------

  /** The amount an order contributes: its total, or 0 when it has none. */
  function OrderAmount(o: Order): int {
    o.total.GetOr(0)
  }

  /** The sum of the orders' amounts. */
  function TotalsSum(orders: seq<Order>): int
    decreases |orders|
  {
    if orders == [] then 0 else TotalsSum(orders[..|orders| - 1]) + OrderAmount(orders[|orders| - 1])
  }

  /** The revenue of two lists of orders together is the sum of their revenues. */
  lemma {:induction false} TotalsSumAppend(a: seq<Order>, b: seq<Order>)
    ensures TotalsSum(a + b) == TotalsSum(a) + TotalsSum(b)
    decreases |b|
  {
    if b == [] {
      assert a + b == a;
    } else {
      var ab := a + b;
      assert ab[..|ab| - 1] == a + b[..|b| - 1];
      TotalsSumAppend(a, b[..|b| - 1]);
    }
  }

  /** Orders without a total add nothing to the revenue. */
  lemma {:induction false} MissingTotalsAddNothing(orders: seq<Order>)
    requires forall i :: 0 <= i < |orders| ==> orders[i].total.None?
    ensures TotalsSum(orders) == 0
    decreases |orders|
  {
    if orders != [] {
      MissingTotalsAddNothing(orders[..|orders| - 1]);
    }
  }

  /** The revenue is never negative when no total is. */
  lemma {:induction false} TotalsSumNonNegative(orders: seq<Order>)
    requires forall i :: 0 <= i < |orders| ==> OrderAmount(orders[i]) >= 0
    ensures TotalsSum(orders) >= 0
    decreases |orders|
  {
    if orders != [] {
      TotalsSumNonNegative(orders[..|orders| - 1]);
    }
  }

  /** `ingresosTotales`: the orders' totals added up from left to right, a
      missing total counting as 0. */
  method IngresosTotales(orders: seq<Order>) returns (acc: int)
    ensures acc == TotalsSum(orders)
  {
    acc := 0;
    var i := 0;
    while i < |orders|
      invariant 0 <= i <= |orders|
      invariant acc == TotalsSum(orders[..i])
    {
      assert orders[..i + 1][..i] == orders[..i];
      acc := acc + OrderAmount(orders[i]);
      i := i + 1;
    }
    assert orders[..i] == orders;
  }

  /** The page's summary figures. */
  datatype Figures = Figures(totalPedidos: nat, pedidosCompletados: nat, pedidosPendientes: nat, ingresosTotales: int)

  /** The summary figures: every order of the day is counted as completed and
      none as pending, whatever its done flag says. */
  method ComputeFigures(orders: seq<Order>) returns (f: Figures)
    ensures f.totalPedidos == |orders|
    ensures f.pedidosCompletados == f.totalPedidos && f.pedidosPendientes == 0
    ensures f.ingresosTotales == TotalsSum(orders)
  {
    var revenue := IngresosTotales(orders);
    f := Figures(|orders|, |orders|, 0, revenue);
  }

  /** Against the kitchen dashboard's counts, the completed figure is never
      lower and the pending figure never higher; they agree exactly when every
      order is marked done. */
  lemma FiguresAgainstDashboard(orders: seq<Order>)
    ensures Landing.Completados(orders) <= |orders|
    ensures 0 <= Landing.Pendientes(orders)
    ensures Landing.Completados(orders) == |orders| <==> forall i :: 0 <= i < |orders| ==> orders[i].completado
  {
    Landing.CountsAddUp(orders);
    var pending := Filter(orders, Landing.IsPending);
    if Landing.Completados(orders) == |orders| {
      assert |pending| == 0;
      assert forall i :: 0 <= i < |orders| ==> orders[i] in orders;
    } else {
      assert |pending| > 0;
      assert pending[0] in pending;
      var k :| 0 <= k < |orders| && orders[k] == pending[0];
      assert !orders[k].completado;
    }
  }

  // ---------------------------------------------------------------------------
  // contadorProductos: sales per wing style
  // ---------------------------------------------------------------------------

  const UnknownProduct: string := "Desconocido"

  /** The name a combo is counted under: its wing style, or "Desconocido" when
      it has none or the empty one. */
  function ProductKey(c: Combo): (k: string)
    ensures k != ""
    ensures c.tipoAlitas.Some? && c.tipoAlitas.value != "" ==> k == c.tipoAlitas.value
    ensures c.tipoAlitas.None? || c.tipoAlitas == Some("") ==> k == UnknownProduct
  {
    match c.tipoAlitas
    case Some(t) => if t != "" then t else UnknownProduct
    case None => UnknownProduct
  }

  /** The names of the combos, in visiting order. */
  function Keys(cs: seq<Combo>): seq<string>
  {
    seq(|cs|, i requires 0 <= i < |cs| => ProductKey(cs[i]))
  }

  /** One entry of the counter object: a name and the combos counted under it. */
  datatype Entry = Entry(name: string, sales: nat)

  /** How many times `k` occurs in `ks`. */
  function Occurrences(ks: seq<string>, k: string): nat
    decreases |ks|
  {
    if ks == [] then 0 else Occurrences(ks[..|ks| - 1], k) + (if ks[|ks| - 1] == k then 1 else 0)
  }

  /** The count stored under `k`, or 0 when there is no entry for `k`. */
  function SalesOf(t: seq<Entry>, k: string): nat
    decreases |t|
  {
    if t == [] then 0 else if t[0].name == k then t[0].sales else SalesOf(t[1..], k)
  }

  /** The sum of all counts. */
  function TotalSales(t: seq<Entry>): nat
    decreases |t|
  {
    if t == [] then 0 else t[0].sales + TotalSales(t[1..])
  }

  /** The names of the entries, in order. */
  function Names(t: seq<Entry>): (ns: seq<string>)
    ensures |ns| == |t|
    ensures forall i :: 0 <= i < |t| ==> ns[i] == t[i].name
    decreases |t|
  {
    if t == [] then [] else [t[0].name] + Names(t[1..])
  }

  /** No two entries share a name, and every entry counts at least once: the
      shape of an object filled by `counter[key] = (counter[key] || 0) + 1`. */
  ghost predicate WellFormedTally(t: seq<Entry>) {
    && (forall i, j :: 0 <= i < j < |t| ==> t[i].name != t[j].name)
    && (forall i :: 0 <= i < |t| ==> t[i].sales >= 1)
  }

  /** One increment of the counter under `k`: the entry named `k` goes up by
      one, or a new entry with count 1 is added at the end, which is where an
      object puts a property it did not have. Names keep their places. */
  function Bump(t: seq<Entry>, k: string): (r: seq<Entry>)
    ensures k in Names(t) ==> Names(r) == Names(t)
    ensures k !in Names(t) ==> r == t + [Entry(k, 1)]
    decreases |t|
  {
    if t == [] then [Entry(k, 1)]
    else if t[0].name == k then
      var r := [t[0].(sales := t[0].sales + 1)] + t[1..];
      assert Names(r) == Names(t);
      r
    else
      var rest := Bump(t[1..], k);
      assert Names(t) == [t[0].name] + Names(t[1..]);
      var r := [t[0]] + rest;
      assert r[1..] == rest;
      assert Names(r) == [t[0].name] + Names(rest);
      r
  }

  /** An increment adds one to the count of its name and leaves every other
      count alone. */
  lemma {:induction false} BumpSales(t: seq<Entry>, k: string, x: string)
    ensures SalesOf(Bump(t, k), x) == SalesOf(t, x) + (if x == k then 1 else 0)
    decreases |t|
  {
    if t != [] && t[0].name != k {
      BumpSales(t[1..], k, x);
      assert Bump(t, k)[1..] == Bump(t[1..], k);
    }
  }

  /** An increment adds one to the total. */
  lemma {:induction false} BumpTotal(t: seq<Entry>, k: string)
    ensures TotalSales(Bump(t, k)) == TotalSales(t) + 1
    decreases |t|
  {
    if t == [] {
    } else if t[0].name == k {
      assert Bump(t, k)[1..] == t[1..];
    } else {
      BumpTotal(t[1..], k);
      assert Bump(t, k)[1..] == Bump(t[1..], k);
    }
  }

  /** After an increment the names are the old ones and `k`. */
  lemma BumpNames(t: seq<Entry>, k: string, x: string)
    ensures x in Names(Bump(t, k)) <==> x in Names(t) || x == k
  {
    if k !in Names(t) {
      var r := t + [Entry(k, 1)];
      assert Names(r) == Names(t) + [k];
    }
  }

  /** Incrementing keeps the counter well formed. */
  lemma BumpKeepsWellFormed(t: seq<Entry>, k: string)
    requires WellFormedTally(t)
    ensures WellFormedTally(Bump(t, k))
  {
    var r := Bump(t, k);
    if k in Names(t) {
      BumpKeepsCountsPositive(t, k);
      assert forall i :: 0 <= i < |r| ==> r[i].name == Names(r)[i];
    } else {
      assert r == t + [Entry(k, 1)];
      forall i, j | 0 <= i < j < |r|
        ensures r[i].name != r[j].name
      {
        if j == |t| {
          assert r[i].name == Names(t)[i];
        }
      }
    }
  }

  /** Incrementing keeps every count at least one. */
  lemma {:induction false} BumpKeepsCountsPositive(t: seq<Entry>, k: string)
    requires forall i :: 0 <= i < |t| ==> t[i].sales >= 1
    ensures forall i :: 0 <= i < |Bump(t, k)| ==> Bump(t, k)[i].sales >= 1
    decreases |t|
  {
    if t != [] && t[0].name != k {
      BumpKeepsCountsPositive(t[1..], k);
      assert Bump(t, k) == [t[0]] + Bump(t[1..], k);
    }
  }

  /** `contadorProductos`: the counter after visiting the names in order. */
  function Tally(ks: seq<string>): (t: seq<Entry>)
    decreases |ks|
  {
    if ks == [] then [] else Bump(Tally(ks[..|ks| - 1]), ks[|ks| - 1])
  }

  /** The counter stays well formed while it is filled. */
  lemma {:induction false} TallyWellFormed(ks: seq<string>)
    ensures WellFormedTally(Tally(ks))
    decreases |ks|
  {
    if ks != [] {
      TallyWellFormed(ks[..|ks| - 1]);
      BumpKeepsWellFormed(Tally(ks[..|ks| - 1]), ks[|ks| - 1]);
    }
  }

  /** The counter holds, under each name, the number of times it was met. */
  lemma {:induction false} TallySales(ks: seq<string>, x: string)
    ensures SalesOf(Tally(ks), x) == Occurrences(ks, x)
    decreases |ks|
  {
    if ks != [] {
      TallySales(ks[..|ks| - 1], x);
      BumpSales(Tally(ks[..|ks| - 1]), ks[|ks| - 1], x);
    }
  }

  /** The counter's names are exactly the names met. */
  lemma {:induction false} TallyNames(ks: seq<string>, x: string)
    ensures x in Names(Tally(ks)) <==> x in ks
    decreases |ks|
  {
    if ks != [] {
      var init, k := ks[..|ks| - 1], ks[|ks| - 1];
      TallyNames(init, x);
      assert Tally(ks) == Bump(Tally(init), k);
      BumpNames(Tally(init), k, x);
      InInitOrLast(ks, x);
    }
  }

  /** The counts add up to the number of names met. */
  lemma {:induction false} TallyTotal(ks: seq<string>)
    ensures TotalSales(Tally(ks)) == |ks|
    decreases |ks|
  {
    if ks != [] {
      TallyTotal(ks[..|ks| - 1]);
      BumpTotal(Tally(ks[..|ks| - 1]), ks[|ks| - 1]);
    }
  }

  /** In a counter whose names are distinct, the count looked up under an
      entry's name is that entry's count. */
  lemma {:induction false} SalesOfEntry(t: seq<Entry>, i: nat)
    requires WellFormedTally(t) && i < |t|
    ensures SalesOf(t, t[i].name) == t[i].sales
    decreases |t|
  {
    if i > 0 {
      assert WellFormedTally(t[1..]) by {
        assert forall a :: 0 <= a < |t[1..]| ==> t[1..][a] == t[a + 1];
      }
      SalesOfEntry(t[1..], i - 1);
      assert t[0].name != t[i].name;
    }
  }

  /** `contadorProductos` for the day's orders: one entry per wing style met,
      each holding the number of combos of that style, the entries adding up
      to the number of combos. */
  lemma ProductCounts(orders: seq<Order>)
    ensures var ks := Keys(AllCombos(orders));
      var t := Tally(ks);
      && WellFormedTally(t)
      && (forall x :: x in Names(t) <==> x in ks)
      && (forall i :: 0 <= i < |t| ==> t[i].sales == Occurrences(ks, t[i].name))
      && TotalSales(t) == |AllCombos(orders)|
  {
    var ks := Keys(AllCombos(orders));
    var t := Tally(ks);
    TallyWellFormed(ks);
    forall x
      ensures x in Names(t) <==> x in ks
    {
      TallyNames(ks, x);
    }
    TallyTotal(ks);
    forall i | 0 <= i < |t|
      ensures t[i].sales == Occurrences(ks, t[i].name)
    {
      SalesOfEntry(t, i);
      TallySales(ks, t[i].name);
    }
  }

  // ---------------------------------------------------------------------------
  // topProducts
  // ---------------------------------------------------------------------------

  /** Estimated revenue per combo sold. */
  const PricePerCombo: int := 25000

  /** How many products the ranking shows. */
  const TopCount: nat := 5

  datatype Product = Product(name: string, sales: nat, revenue: int)

  /** One product per counter entry, in the counter's order, priced at the
      flat estimate. */
  function Products(t: seq<Entry>): seq<Product>
  {
    seq(|t|, i requires 0 <= i < |t| => Product(t[i].name, t[i].sales, t[i].sales * PricePerCombo))
  }

  function NegSales(p: Product): int {
    -(p.sales as int)
  }

  /** All products, best-selling first. */
  function Ranking(t: seq<Entry>): (r: seq<Product>)
    ensures multiset(r) == multiset(Products(t)) && |r| == |t|
    ensures forall i, j :: 0 <= i < j < |r| ==> r[i].sales >= r[j].sales
  {
    var r := SortBy(Products(t), NegSales);
    SortBySortsAndPermutes(Products(t), NegSales);
    assert forall i, j :: 0 <= i < j < |r| ==> NegSales(r[i]) <= NegSales(r[j]);
    r
  }

  /** Every ranked product is one of the counter's products, priced at the
      flat estimate. */
  lemma RankingMembers(t: seq<Entry>)
    ensures forall p :: p in Ranking(t) ==> p in Products(t) && p.revenue == p.sales * PricePerCombo
  {
    var r := Ranking(t);
    forall p | p in r
      ensures p in Products(t) && p.revenue == p.sales * PricePerCombo
    {
      assert p in multiset(r);
      assert p in multiset(Products(t));
      var k :| 0 <= k < |t| && Products(t)[k] == p;
    }
  }

  /** `topProducts`: the first five of the ranking, or all of it when there
      are fewer products. */
  function TopProducts(t: seq<Entry>): (top: seq<Product>)
    ensures |top| <= TopCount
    ensures |top| == if |t| < TopCount then |t| else TopCount
    ensures forall i, j :: 0 <= i < j < |top| ==> top[i].sales >= top[j].sales
    ensures forall i :: 0 <= i < |top| ==> top[i] in Products(t) && top[i].revenue == top[i].sales * PricePerCombo
    ensures multiset(top) <= multiset(Products(t))
    ensures |t| <= TopCount ==> multiset(top) == multiset(Products(t))
  {
    var n := if |t| < TopCount then |t| else TopCount;
    RankingPrefixSorted(t, n);
    RankingPrefixMembers(t, n);
    Ranking(t)[..n]
  }

  /** Any prefix of the ranking is best-selling first and takes no product
      more often than the counter has it; the whole ranking takes each exactly
      as often. */
  lemma RankingPrefixSorted(t: seq<Entry>, n: nat)
    requires n <= |t|
    ensures var top := Ranking(t)[..n];
      && (forall i, j :: 0 <= i < j < |top| ==> top[i].sales >= top[j].sales)
      && multiset(top) <= multiset(Products(t))
      && (n == |t| ==> multiset(top) == multiset(Products(t)))
  {
    var r := Ranking(t);
    PrefixSubMultiset(r, n);
    assert forall i :: 0 <= i < n ==> r[..n][i] == r[i];
  }

  /** Every product in a prefix of the ranking is a counter product priced at
      the flat estimate. */
  lemma RankingPrefixMembers(t: seq<Entry>, n: nat)
    requires n <= |t|
    ensures var top := Ranking(t)[..n];
      forall i :: 0 <= i < |top| ==> top[i] in Products(t) && top[i].revenue == top[i].sales * PricePerCombo
  {
    var r := Ranking(t);
    RankingMembers(t);
    forall i | 0 <= i < n
      ensures r[..n][i] in r
    {
      assert r[..n][i] == r[i];
    }
  }

  /** The ranking lists every product once, so the products left out of the
      top five are the rest of it; none of them sold more than the last one
      listed. */
  lemma OmittedSellNoMore(t: seq<Entry>)
    requires |t| > TopCount
    ensures var top := TopProducts(t);
      && Ranking(t)[..TopCount] == top
      && multiset(top) + multiset(Ranking(t)[TopCount..]) == multiset(Products(t))
      && forall p :: p in Ranking(t)[TopCount..] ==> p.sales <= top[TopCount - 1].sales
  {
    var r := Ranking(t);
    assert r == r[..TopCount] + r[TopCount..];
    forall p | p in r[TopCount..]
      ensures p.sales <= r[TopCount - 1].sales
    {
      var k :| 0 <= k < |r[TopCount..]| && r[TopCount..][k] == p;
      assert r[TopCount + k] == p;
    }
  }
}
