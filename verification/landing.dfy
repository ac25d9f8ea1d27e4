/** The kitchen dashboard (`Landing.jsx`): the day's orders sorted by delivery
    time, a done/pending toggle per order, the done and pending counts, and the
    table order that puts pending orders first. */
module Landing {
  import opened Wrappers
  import opened Seqs
  import opened Text
  import opened Orders

  // ---------------------------------------------------------------------------
  // toggleStatus
  // ---------------------------------------------------------------------------

  /** The label of an order whose done flag is `completado`. */
  function StatusLabel(completado: bool): string {
    if completado then "Completado" else "Pendiente"
  }

  /** The order with its done flag flipped and its label set from the old
      flag: a done order becomes "Pendiente", a pending one "Completado". */
  function Flip(o: Order): Order {
    o.(completado := !o.completado, estado := if o.completado then "Pendiente" else "Completado")
  }

  /** `toggleStatus(id)`: every order whose id is `id` has its done flag flipped
      and its label set to match the new flag; every other order is kept as it
      is, in place. */
  function ToggleStatus(orders: seq<Order>, id: string): (r: seq<Order>)
    ensures |r| == |orders|
    ensures forall i :: 0 <= i < |r| && orders[i].id != id ==> r[i] == orders[i]
    ensures forall i :: 0 <= i < |r| && orders[i].id == id ==>
      && r[i].completado == !orders[i].completado
      && r[i].estado == StatusLabel(r[i].completado)
      && r[i].(completado := orders[i].completado, estado := orders[i].estado) == orders[i]
  {
    seq(|orders|, i requires 0 <= i < |orders| => if orders[i].id == id then Flip(orders[i]) else orders[i])
  }

  /** Toggling twice restores every done flag, and restores every order whose
      label already matched its flag. */
  lemma ToggleTwice(orders: seq<Order>, id: string)
    ensures var r := ToggleStatus(ToggleStatus(orders, id), id);
      && |r| == |orders|
      && (forall i :: 0 <= i < |r| ==> r[i].completado == orders[i].completado)
      && (forall i :: 0 <= i < |r| && orders[i].estado == StatusLabel(orders[i].completado) ==> r[i] == orders[i])
  {
  }

  // ---------------------------------------------------------------------------
  // Counts and table order
  // ---------------------------------------------------------------------------

  predicate IsCompleted(o: Order) {
    o.completado
  }

  predicate IsPending(o: Order) {
    !o.completado
  }

  /** `completados`: the orders marked done. */
  function Completados(orders: seq<Order>): (n: nat)
    ensures n <= |orders|
  {
    |Filter(orders, IsCompleted)|
  }

  /** `pendientes`, computed by the page as `pedidosHoy - completados`. */
  function Pendientes(orders: seq<Order>): int {
    |orders| - Completados(orders)
  }

  /** The pending count is the number of orders not marked done; with the done
      count it adds up to the day's orders. */
  lemma CountsAddUp(orders: seq<Order>)
    ensures Pendientes(orders) == |Filter(orders, IsPending)|
    ensures Completados(orders) + Pendientes(orders) == |orders|
    ensures 0 <= Pendientes(orders)
  {
    FilterSplitsMultiset(orders, IsCompleted, IsPending);
    assert |multiset(Filter(orders, IsCompleted))| + |multiset(Filter(orders, IsPending))| == |multiset(orders)|;
  }

  /** `ordenados`: the pending orders, then the done ones. */
  function Ordenados(orders: seq<Order>): seq<Order> {
    Filter(orders, IsPending) + Filter(orders, IsCompleted)
  }

  /** The table order is a permutation of the day's orders. */
  lemma OrdenadosIsPermutation(orders: seq<Order>)
    ensures multiset(Ordenados(orders)) == multiset(orders)
  {
    FilterSplitsMultiset(orders, IsPending, IsCompleted);
  }

  /** In the table order every pending order comes before every done one: the
      first `Pendientes` rows are pending and the rest are done. */
  lemma OrdenadosPendingFirst(orders: seq<Order>)
    ensures var r := Ordenados(orders);
      && |r| == |orders|
      && (forall i :: 0 <= i < Pendientes(orders) ==> !r[i].completado)
      && (forall i :: Pendientes(orders) <= i < |r| ==> r[i].completado)
      && (forall i, j :: 0 <= i < |r| && 0 <= j < |r| && !r[i].completado && r[j].completado ==> i < j)
  {
    var pending := Filter(orders, IsPending);
    var done := Filter(orders, IsCompleted);
    var r := pending + done;
    CountsAddUp(orders);
    assert forall i :: 0 <= i < |pending| ==> r[i] == pending[i] && IsPending(pending[i]);
    assert forall i :: |pending| <= i < |r| ==> r[i] == done[i - |pending|] && IsCompleted(done[i - |pending|]);
  }

  /** Each group keeps the relative order the orders were loaded in. */
  lemma OrdenadosKeepsGroupOrder(orders: seq<Order>)
    ensures 0 <= Pendientes(orders) <= |Ordenados(orders)|
    ensures IsSubseq(Ordenados(orders)[..Pendientes(orders)], orders)
    ensures IsSubseq(Ordenados(orders)[Pendientes(orders)..], orders)
  {
    var pending := Filter(orders, IsPending);
    var done := Filter(orders, IsCompleted);
    CountsAddUp(orders);
    FilterIsSubseq(orders, IsPending);
    FilterIsSubseq(orders, IsCompleted);
    assert (pending + done)[..|pending|] == pending;
    assert (pending + done)[|pending|..] == done;
  }

  // ---------------------------------------------------------------------------
  // Delivery and preparation times
  // ---------------------------------------------------------------------------

  const MinutesPerDay: int := 1440

  /** Preparation starts this many minutes before delivery. */
  const PreparationLead: int := 20

  predicate IsTimeChar(c: char) {
    IsDigit(c) || c == ':'
  }

  /** `parseTime(hora)`, in minutes after today's midnight. A missing or empty
      time is midnight. Otherwise only the digits and colons are kept, the
      text before the first colon is the hour and the text after it (up to a
      second colon) the minutes; no colon means minute 0, and an empty part
      reads as 0. The page sets today's hours and minutes to these numbers,
      so hours beyond 23 and minutes beyond 59 run on into later days. */
  function ParseTime(hora: Option<string>): (minutes: int)
    ensures hora.None? || hora == Some("") ==> minutes == 0
    ensures minutes >= 0
  {
    match hora
    case None => 0
    case Some(h) =>
      if h == "" then 0
      else
        var kept := Filter(h, IsTimeChar);
        var parts := Split(kept, ':');
        AllPartsDigits(kept, parts);
        DecimalValue(parts[0]) * 60 + (if |parts| > 1 then DecimalValue(parts[1]) else 0)
  }

  /** The pieces of a string of digits and colons, split at colons, are all
      digits. */
  lemma AllPartsDigits(kept: string, parts: seq<string>)
    requires forall i :: 0 <= i < |kept| ==> IsTimeChar(kept[i])
    requires parts == Split(kept, ':')
    ensures forall p :: 0 <= p < |parts| ==> AllDigits(parts[p])
  {
    JoinSplit(kept, ':');
    forall p | 0 <= p < |parts|
      ensures AllDigits(parts[p])
    {
      PartOfJoin(parts, ':', p);
      forall i | 0 <= i < |parts[p]|
        ensures IsDigit(parts[p][i])
      {
        var c := parts[p][i];
        assert c in kept;
        var k :| 0 <= k < |kept| && kept[k] == c;
        assert IsTimeChar(kept[k]);
      }
    }
  }

  /** Every character of a piece occurs in the joined string. */
  lemma {:induction false} PartOfJoin(parts: seq<string>, sep: char, p: nat)
    requires p < |parts|
    ensures forall c :: c in parts[p] ==> c in Join(parts, sep)
    decreases |parts|
  {
    if p > 0 {
      PartOfJoin(parts[1..], sep, p - 1);
      assert parts[1..][p - 1] == parts[p];
    }
  }

  /** A time written "HH:MM" with two-digit hour and minute reads back as
      that many minutes after midnight. */
  lemma ParseClockTime(h: nat, m: nat)
    requires h < 24 && m < 60
    ensures ParseTime(Some(TwoDigits(h) + ":" + TwoDigits(m))) == h * 60 + m
  {
    var s := TwoDigits(h) + ":" + TwoDigits(m);
    FilterKeepsAll(s, IsTimeChar);
    assert ':' !in TwoDigits(h) && ':' !in TwoDigits(m);
    SplitAtFirst(TwoDigits(h), ':', TwoDigits(m));
    SplitWithoutSeparator(TwoDigits(m), ':');
    TwoDigitsRoundTrip(h);
    TwoDigitsRoundTrip(m);
  }

  /** A time with no colon is a number of hours: the minutes default to 0. */
  lemma HourOnly(a: string)
    requires AllDigits(a) && a != ""
    ensures ParseTime(Some(a)) == DecimalValue(a) * 60
  {
    FilterKeepsAll(a, IsTimeChar);
    assert ':' !in a;
    SplitWithoutSeparator(a, ':');
  }

  /** A time "H:M" with digit runs of any length on either side reads as H
      hours and M minutes; an empty side reads as 0. */
  lemma HourAndMinute(a: string, b: string)
    requires AllDigits(a) && AllDigits(b)
    ensures ParseTime(Some(a + [':'] + b)) == DecimalValue(a) * 60 + DecimalValue(b)
  {
    var s := a + [':'] + b;
    FilterKeepsAll(s, IsTimeChar);
    assert ':' !in a && ':' !in b;
    SplitAtFirst(a, ':', b);
    SplitWithoutSeparator(b, ':');
  }

  /** Characters other than digits and colons are ignored: "08:30 pm" is read
      as "08:30". */
  lemma ParseIgnoresOtherCharacters(h: string)
    ensures ParseTime(Some(h)) == ParseTime(Some(Filter(h, IsTimeChar)))
  {
    var kept := Filter(h, IsTimeChar);
    FilterKeepsAll(kept, IsTimeChar);
  }

  /** The delivery time of an order, as the sort key. */
  function DeliveryKey(o: Order): int {
    ParseTime(o.horaEntrega)
  }

  /** The orders as the page stores them after loading: sorted by delivery
      time, earliest first. */
  function SortByDelivery(orders: seq<Order>): (r: seq<Order>)
    ensures |r| == |orders| && multiset(r) == multiset(orders)
    ensures forall i, j :: 0 <= i < j < |r| ==> ParseTime(r[i].horaEntrega) <= ParseTime(r[j].horaEntrega)
  {
    var r := SortBy(orders, DeliveryKey);
    SortBySortsAndPermutes(orders, DeliveryKey);
    assert forall i, j :: 0 <= i < j < |r| ==> DeliveryKey(r[i]) <= DeliveryKey(r[j]);
    r
  }

  /** A time of day on a 24-hour clock. */
  datatype Clock = Clock(hour: int, minute: int)

  /** `calcularHoraPreparacion`: the clock time twenty minutes before the
      delivery time; before 00:20 it falls on the previous day. */
  function PreparationClock(hora: Option<string>): (c: Clock)
    ensures 0 <= c.hour < 24 && 0 <= c.minute < 60
    ensures (c.hour * 60 + c.minute + PreparationLead - ParseTime(hora)) % MinutesPerDay == 0
  {
    var x := ParseTime(hora) - PreparationLead;
    ClockOfMinutes(x);
    var t := x % MinutesPerDay;
    Clock(t / 60, t % 60)
  }

  /** Minute `x` of any day, counted from some midnight, falls at hour
      `t / 60` and minute `t % 60` of its own day, where `t` is `x` reduced
      modulo a day. */
  lemma ClockOfMinutes(x: int)
    ensures var t := x % MinutesPerDay;
      && 0 <= t / 60 < 24 && 0 <= t % 60 < 60
      && (t / 60 * 60 + t % 60 - x) % MinutesPerDay == 0
  {
    var t := x % MinutesPerDay;
    var k := x / MinutesPerDay;
    assert x == k * MinutesPerDay + t;
    assert t / 60 * 60 + t % 60 == t;
    assert t - x == (-k) * MinutesPerDay;
  }

  /** `calcularHoraPreparacion` as written. For a missing or empty delivery
      time `parseTime` returns the plain number `setHours` yields instead of a
      date, and asking that number for `getTime` throws while the dashboard
      renders; nothing catches it, so the whole dashboard fails to render:
      there is no clock (`None`). For any other time the result is the
      intended one. */
  function PreparationClockAsWritten(hora: Option<string>): (c: Option<Clock>)
    ensures c.None? <==> hora.None? || hora == Some("")
    ensures c.Some? ==> c.value == PreparationClock(hora)
  {
    if hora.None? || hora == Some("") then None
    else Some(PreparationClock(hora))
  }

  /** An order saved without a delivery time has no preparation time as
      written, while the intended reading, delivery at midnight, gives 23:40
      of the previous day. */
  lemma MissingTimeBreaksPreparation()
    ensures PreparationClockAsWritten(None) == None
    ensures PreparationClock(None) == Clock(23, 40)
  {
  }

  /** A delivery in the first twenty minutes of the day, "00:MM", is prepared
      at 23:(40 + MM) of the previous day. */
  lemma PreparationWrapsToPreviousDay(m: nat)
    requires m < 20
    ensures PreparationClock(Some(TwoDigits(0) + ":" + TwoDigits(m))) == Clock(23, 40 + m)
  {
    ParseClockTime(0, m);
  }
}
