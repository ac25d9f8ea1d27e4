/** The manual orders page (`PedidosManuales.jsx`): orders taken by phone or at
    the counter, kept in the page's memory only. */
module PedidosManuales {
  import opened Seqs

  /** The amount of a manual order. The two sample orders carry a number; an
      order entered through the form keeps the text of its number input. */
  datatype Amount = Number(value: int) | Typed(text: string)

  datatype ManualOrder = ManualOrder(id: int, customer: string, items: string, total: Amount, date: string)

  /** The entry form: the raw text of its three inputs. */
  datatype ManualForm = ManualForm(customer: string, items: string, total: string)

  const EmptyForm := ManualForm("", "", "")

  datatype ManualPage = ManualPage(orders: seq<ManualOrder>, form: ManualForm)

  /** The page as it opens: two sample orders with ids 1 and 2 and an empty form. */
  const InitialPage := ManualPage(
    [ ManualOrder(1, "Teléfono: 1234-5678", "Alitas BBQ x2, Papas", Number(45000), "2024-01-15 14:30"),
      ManualOrder(2, "Contador: Marta", "Combo Especial x3", Number(135000), "2024-01-15 13:45") ],
    EmptyForm)

  /** The form is complete when none of its fields is empty. */
  predicate Complete(f: ManualForm) {
    f.customer != "" && f.items != "" && f.total != ""
  }

  /** The ids in use, in list order. */
  function Ids(orders: seq<ManualOrder>): seq<int>
  {
    seq(|orders|, i requires 0 <= i < |orders| => orders[i].id)
  }

  /** No two orders share an id. */
  ghost predicate UniqueIds(orders: seq<ManualOrder>) {
    forall i, j :: 0 <= i < j < |orders| ==> orders[i].id != orders[j].id
  }

  /** `handleDeleteOrder(id)`: the orders whose id differs from `id`, in order. */
  function DeleteOrder(page: ManualPage, id: int): (r: ManualPage)
    ensures r.form == page.form
    ensures forall o :: o in r.orders ==> o.id != id && o in page.orders
    ensures forall o :: o in page.orders && o.id != id ==> o in r.orders
    ensures IsSubseq(r.orders, page.orders)
  {
    var kept := Filter(page.orders, (o: ManualOrder) => o.id != id);
    FilterIsSubseq(page.orders, (o: ManualOrder) => o.id != id);
    ManualPage(kept, page.form)
  }

  /** Deleting an id no order has changes nothing. */
  lemma DeleteAbsentId(page: ManualPage, id: int)
    requires forall o :: o in page.orders ==> o.id != id
    ensures DeleteOrder(page, id) == page
  {
    FilterKeepsAll(page.orders, (o: ManualOrder) => o.id != id);
  }

  /** Deleting removes exactly the orders with that id: the length falls by
      their number. */
  lemma DeleteRemovesMatches(page: ManualPage, id: int)
    ensures |DeleteOrder(page, id).orders| + |Filter(page.orders, (o: ManualOrder) => o.id == id)| == |page.orders|
  {
    FilterSplitsMultiset(page.orders, (o: ManualOrder) => o.id != id, (o: ManualOrder) => o.id == id);
    assert |multiset(DeleteOrder(page, id).orders)| + |multiset(Filter(page.orders, (o: ManualOrder) => o.id == id))|
        == |multiset(page.orders)|;
  }

  // ---------------------------------------------------------------------------
  // handleAddOrder, as written and as intended
  // ---------------------------------------------------------------------------

  /** `handleAddOrder`, as written. `now` is the current date and time as
      `toLocaleString` renders it. Nothing happens unless the form is complete;
      otherwise the form's contents go at the end of the list under the id
      "number of orders + 1", and the form is cleared. */
  function AddOrderAsWritten(page: ManualPage, now: string): (r: ManualPage)
    ensures !Complete(page.form) ==> r == page
    ensures Complete(page.form) ==>
      && |r.orders| == |page.orders| + 1
      && r.orders[..|page.orders|] == page.orders
      && r.orders[|page.orders|] == ManualOrder(|page.orders| + 1, page.form.customer, page.form.items, Typed(page.form.total), now)
      && r.form == EmptyForm
  {
    if Complete(page.form) then
      var f := page.form;
      ManualPage(page.orders + [ManualOrder(|page.orders| + 1, f.customer, f.items, Typed(f.total), now)], EmptyForm)
    else page
  }

  /** The id "number of orders + 1" is already taken once an earlier order
      was deleted: from the sample orders, deleting order 1 and adding one
      more gives two orders with id 2. Deleting either then deletes both. */
  lemma AddAfterDeleteDuplicatesId(customer: string, items: string, total: string, now: string)
    requires customer != "" && items != "" && total != ""
    ensures var p := DeleteOrder(InitialPage, 1).(form := ManualForm(customer, items, total));
      var q := AddOrderAsWritten(p, now);
      && Ids(q.orders) == [2, 2]
      && !UniqueIds(q.orders)
      && DeleteOrder(q, 2).orders == []
  {
    var p := DeleteOrder(InitialPage, 1).(form := ManualForm(customer, items, total));
    assert p.orders == [InitialPage.orders[1]];
    var q := AddOrderAsWritten(p, now);
    assert q.orders[0].id == q.orders[1].id == 2;
    var d := DeleteOrder(q, 2).orders;
    assert forall o :: o in q.orders ==> o.id == 2;
    assert forall o :: o in d ==> o.id != 2 && o in q.orders;
  }

  /** The largest id in use, 0 for an empty list. */
  function MaxId(orders: seq<ManualOrder>): (m: int)
    ensures m >= 0
    ensures forall o :: o in orders ==> o.id <= m
    decreases |orders|
  {
    if orders == [] then 0
    else
      var rest := MaxId(orders[..|orders| - 1]);
      var last := orders[|orders| - 1].id;
      assert forall o :: o in orders ==> o in orders[..|orders| - 1] || o == orders[|orders| - 1];
      if last > rest then last else rest
  }

  /** `handleAddOrder` with the id the code evidently intends, one above every
      id in use, so that ids stay unique when orders have been deleted. */
  function AddOrder(page: ManualPage, now: string): (r: ManualPage)
    ensures !Complete(page.form) ==> r == page
    ensures Complete(page.form) ==>
      && |r.orders| == |page.orders| + 1
      && r.orders[..|page.orders|] == page.orders
      && r.form == EmptyForm
      && (var o := r.orders[|page.orders|];
          && o == ManualOrder(o.id, page.form.customer, page.form.items, Typed(page.form.total), now)
          && (forall p :: p in page.orders ==> p.id < o.id))
  {
    if Complete(page.form) then
      var f := page.form;
      ManualPage(page.orders + [ManualOrder(MaxId(page.orders) + 1, f.customer, f.items, Typed(f.total), now)], EmptyForm)
    else page
  }

  /** On a list without deletions, where ids run 1, 2, …, the intended id
      is the one the code computes. */
  lemma AddOrderAgreesWithoutDeletes(page: ManualPage, now: string)
    requires forall i :: 0 <= i < |page.orders| ==> page.orders[i].id == i + 1
    ensures AddOrder(page, now) == AddOrderAsWritten(page, now)
  {
    if page.orders != [] {
      var last := page.orders[|page.orders| - 1];
      assert last in page.orders;
      assert MaxId(page.orders) >= |page.orders|;
      forall o | o in page.orders
        ensures o.id <= |page.orders|
      {
        var i :| 0 <= i < |page.orders| && page.orders[i] == o;
      }
      MaxIdIsAnId(page.orders);
    }
  }

  /** The largest id of a non-empty list belongs to one of its orders. */
  lemma {:induction false} MaxIdIsAnId(orders: seq<ManualOrder>)
    requires orders != []
    requires forall i :: 0 <= i < |orders| ==> orders[i].id >= 0
    ensures exists o :: o in orders && o.id == MaxId(orders)
    decreases |orders|
  {
    var init := orders[..|orders| - 1];
    var last := orders[|orders| - 1];
    if init == [] || last.id > MaxId(init) {
      assert last in orders;
    } else {
      MaxIdIsAnId(init);
      var o :| o in init && o.id == MaxId(init);
      assert o in orders;
    }
  }

  /** Adding keeps ids unique, whatever was deleted before. */
  lemma AddOrderKeepsIdsUnique(page: ManualPage, now: string)
    requires UniqueIds(page.orders)
    ensures UniqueIds(AddOrder(page, now).orders)
  {
    var r := AddOrder(page, now).orders;
    if Complete(page.form) {
      forall i, j | 0 <= i < j < |r|
        ensures r[i].id != r[j].id
      {
        if j == |page.orders| {
          assert r[i] == page.orders[i];
          assert r[i] in page.orders;
        } else {
          assert r[i] == page.orders[i] && r[j] == page.orders[j];
        }
      }
    }
  }

  /** Deleting keeps ids unique. */
  lemma DeleteOrderKeepsIdsUnique(page: ManualPage, id: int)
    requires UniqueIds(page.orders)
    ensures UniqueIds(DeleteOrder(page, id).orders)
  {
    SubseqKeepsDistinct(DeleteOrder(page, id).orders, page.orders);
  }

  /** A subsequence of a list with unique ids has unique ids. */
  lemma {:induction false} SubseqKeepsDistinct(a: seq<ManualOrder>, b: seq<ManualOrder>)
    requires IsSubseq(a, b) && UniqueIds(b)
    ensures UniqueIds(a)
    decreases |b|
  {
    if a != [] {
      assert UniqueIds(b[1..]) by {
        forall i, j | 0 <= i < j < |b[1..]|
          ensures b[1..][i].id != b[1..][j].id
        {
          assert b[1..][i] == b[i + 1] && b[1..][j] == b[j + 1];
        }
      }
      if IsSubseq(a, b[1..]) {
        SubseqKeepsDistinct(a, b[1..]);
      } else {
        SubseqKeepsDistinct(a[1..], b[1..]);
        SubseqMembers(a[1..], b[1..]);
        forall i, j | 0 <= i < j < |a|
          ensures a[i].id != a[j].id
        {
          if i == 0 {
            assert a[j] == a[1..][j - 1];
            assert a[j] in b[1..];
            var k :| 0 <= k < |b[1..]| && b[1..][k] == a[j];
            assert b[k + 1] == a[j];
          } else {
            assert a[i] == a[1..][i - 1] && a[j] == a[1..][j - 1];
          }
        }
      }
    }
  }
}
