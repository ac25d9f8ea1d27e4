/** The order documents the back end serves at `/pedidos-dia`, as the admin pages
    read them. Only the properties some page reads are modelled. */
module Orders {
  import opened Wrappers

  /** One combo of an order: the wing style, whether vegetables are included,
      the chosen sauces and the drink. */
  datatype Combo = Combo(
    tipoAlitas: Option<string>,
    vegetales: bool,
    salsas: seq<string>,
    bebida: Option<string>)

  /** One order of the day. `total` is absent on documents saved without one;
      `completado` is the kitchen's done flag and `estado` its display label. */
  datatype Order = Order(
    id: string,
    combos: seq<Combo>,
    total: Option<int>,
    completado: bool,
    estado: string,
    horaEntrega: Option<string>)

  /** The combos of all orders, order by order, in the order the pages' nested
      `forEach` loops visit them. */
  function AllCombos(orders: seq<Order>): seq<Combo>
    decreases |orders|
  {
    if orders == [] then []
    else AllCombos(orders[..|orders| - 1]) + orders[|orders| - 1].combos
  }

  /** Combos are counted order by order: those of `a` come before those of `b`. */
  lemma {:induction false} AllCombosAppend(a: seq<Order>, b: seq<Order>)
    ensures AllCombos(a + b) == AllCombos(a) + AllCombos(b)
    decreases |b|
  {
    if b != [] {
      var ab := a + b;
      assert ab[..|ab| - 1] == a + b[..|b| - 1];
      AllCombosAppend(a, b[..|b| - 1]);
    } else {
      assert a + b == a;
    }
  }
}
