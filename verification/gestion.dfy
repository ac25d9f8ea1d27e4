/** The production page (`Gestion.jsx`): counters derived from the day's orders,
    and the list of expenses with its entry form. */
module Gestion {
  import opened Wrappers
  import opened Orders

  /** Wings per combo. */
  const WingsPerCombo: nat := 10

  /** The production counters the page shows. */
  datatype Stats = Stats(
    totalCombos: nat,
    alitas: nat,
    papas: nat,
    vegetales: nat,
    salsas: nat,
    frascos: nat,
    gaseosas: nat,
    cervezas: nat,
    cajas: nat)

  // ---------------------------------------------------------------------------
  // Reference counts over a sequence of combos
  // ---------------------------------------------------------------------------

  /** The number of sauces over all combos. */
  function SauceCount(cs: seq<Combo>): nat
    decreases |cs|
  {
    if cs == [] then 0 else SauceCount(cs[..|cs| - 1]) + |cs[|cs| - 1].salsas|
  }

  /** The number of combos that include vegetables. */
  function VegetableCount(cs: seq<Combo>): (n: nat)
    ensures n <= |cs|
    decreases |cs|
  {
    if cs == [] then 0
    else VegetableCount(cs[..|cs| - 1]) + (if cs[|cs| - 1].vegetales then 1 else 0)
  }

  /** The number of combos whose drink is exactly `drink`. */
  function DrinkCount(cs: seq<Combo>, drink: string): (n: nat)
    ensures n <= |cs|
    decreases |cs|
  {
    if cs == [] then 0
    else DrinkCount(cs[..|cs| - 1], drink) + (if cs[|cs| - 1].bebida == Some(drink) then 1 else 0)
  }

  /** A combo has one drink, so two different drinks are counted on disjoint
      sets of combos. */
  lemma {:induction false} DistinctDrinksBounded(cs: seq<Combo>, d1: string, d2: string)
    requires d1 != d2
    ensures DrinkCount(cs, d1) + DrinkCount(cs, d2) <= |cs|
    decreases |cs|
  {
    if cs != [] {
      DistinctDrinksBounded(cs[..|cs| - 1], d1, d2);
    }
  }

  // ---------------------------------------------------------------------------
  // calcularTotales
  // ---------------------------------------------------------------------------

  /** The counters of the given combos, as `calcularTotales` accumulates them. */
  ghost predicate Counts(st: Stats, cs: seq<Combo>) {
    && st.totalCombos == |cs|
    && st.alitas == WingsPerCombo * |cs|
    && st.papas == |cs|
    && st.cajas == |cs|
    && st.salsas == SauceCount(cs)
    && st.vegetales == VegetableCount(cs)
    && st.gaseosas == DrinkCount(cs, "Coca-Cola")
    && st.cervezas == DrinkCount(cs, "Corona")
  }

  /** `calcularTotales`: one pass over every combo of every order. Each combo
      adds one to the combo, fries and box counters, ten wings, its sauces,
      one vegetable portion if it has vegetables, one soda if its drink is
      "Coca-Cola" and one beer if it is "Corona". One sauce jar goes with each
      sauce. */
  method CalcularTotales(orders: seq<Order>) returns (st: Stats)
    ensures Counts(st, AllCombos(orders))
    ensures st.alitas == WingsPerCombo * st.totalCombos
    ensures st.papas == st.totalCombos && st.cajas == st.totalCombos
    ensures st.frascos == st.salsas
    ensures st.vegetales <= st.totalCombos
    ensures st.gaseosas + st.cervezas <= st.totalCombos
  {
    var totalCombos: nat, alitas: nat, papas: nat, vegetales: nat := 0, 0, 0, 0;
    var salsas: nat, gaseosas: nat, cervezas: nat, cajas: nat := 0, 0, 0, 0;
    var i := 0;
    while i < |orders|
      invariant 0 <= i <= |orders|
      invariant Counts(Stats(totalCombos, alitas, papas, vegetales, salsas, salsas, gaseosas, cervezas, cajas),
                       AllCombos(orders[..i]))
    {
      var combos := orders[i].combos;
      ghost var before := AllCombos(orders[..i]);
      var j := 0;
      assert before + combos[..j] == before;
      while j < |combos|
        invariant 0 <= j <= |combos|
        invariant Counts(Stats(totalCombos, alitas, papas, vegetales, salsas, salsas, gaseosas, cervezas, cajas),
                         before + combos[..j])
      {
        var combo := combos[j];
        assert (before + combos[..j + 1])[..|before + combos[..j + 1]| - 1] == before + combos[..j];
        totalCombos := totalCombos + 1;
        alitas := alitas + WingsPerCombo;
        papas := papas + 1;
        cajas := cajas + 1;
        salsas := salsas + |combo.salsas|;
        if combo.vegetales { vegetales := vegetales + 1; }
        if combo.bebida == Some("Coca-Cola") { gaseosas := gaseosas + 1; }
        if combo.bebida == Some("Corona") { cervezas := cervezas + 1; }
        j := j + 1;
      }
      assert combos[..j] == combos;
      assert orders[..i + 1][..i] == orders[..i];
      i := i + 1;
    }
    assert orders[..i] == orders;
    st := Stats(totalCombos, alitas, papas, vegetales, salsas, salsas, gaseosas, cervezas, cajas);
    DistinctDrinksBounded(AllCombos(orders), "Coca-Cola", "Corona");
  }

  // ---------------------------------------------------------------------------
  // Expenses
  // ---------------------------------------------------------------------------

  /** A saved expense as the back end returns it; amounts in whole pesos. */
  datatype Expense = Expense(id: string, description: string, amount: int, date: string)

  /** The expense form: both fields are the raw text of their inputs. */
  datatype ExpenseForm = ExpenseForm(description: string, amount: string)

  const EmptyExpenseForm := ExpenseForm("", "")

  /** The expenses shown and the form being filled in. */
  datatype ExpensePage = ExpensePage(expenses: seq<Expense>, form: ExpenseForm)

  /** The PUT request `handleAddExpense` sends: the form's description and
      the text of its amount (the amount `parseFloat` makes of it is left out). */
  datatype ExpenseRequest = ExpenseRequest(description: string, amount: string)

  /** The form is complete when both fields are filled in. */
  predicate Complete(f: ExpenseForm) {
    f.description != "" && f.amount != ""
  }

  /** `handleAddExpense`, as written. A complete form sends the PUT request.
      The request goes through the `get` helper of `lib/api.js`, which already
      returns the parsed body (or throws), so the handler's own `res.json()`
      call always throws and the `catch` only reports the error: whatever the
      back end answers, the page is left as it was. */
  function AddExpenseAsWritten(page: ExpensePage): (o: (ExpensePage, Option<ExpenseRequest>))
    ensures o.0 == page
    ensures o.1.Some? <==> Complete(page.form)
    ensures o.1.Some? ==> o.1.value == ExpenseRequest(page.form.description, page.form.amount)
  {
    if Complete(page.form) then (page, Some(ExpenseRequest(page.form.description, page.form.amount)))
    else (page, None)
  }

  /** `handleAddExpense` as evidently intended. Nothing happens unless both
      fields are filled in. `saved` is the back end's answer to the save
      request: absent when the request failed, in which case nothing changes
      either. Otherwise the saved expense goes in front of the list and the
      form is cleared. */
  function AddExpense(page: ExpensePage, saved: Option<Expense>): (r: ExpensePage)
    ensures !Complete(page.form) ==> r == page
    ensures saved.None? ==> r == page
    ensures Complete(page.form) && saved.Some? ==>
      && |r.expenses| == |page.expenses| + 1
      && r.expenses[0] == saved.value
      && r.expenses[1..] == page.expenses
      && r.form == EmptyExpenseForm
  {
    if Complete(page.form) then
      match saved
      case Some(e) => ExpensePage([e] + page.expenses, EmptyExpenseForm)
      case None => page
    else page
  }

  /** With a complete form and a successful save the intended handler lists
      the new expense, while the handler as written sends the request and
      still shows the old list and the filled-in form. */
  lemma SavedExpenseNeverShown(page: ExpensePage, e: Expense)
    requires Complete(page.form)
    ensures AddExpenseAsWritten(page).1.Some?
    ensures AddExpenseAsWritten(page).0.expenses == page.expenses
    ensures e in AddExpense(page, Some(e)).expenses
    ensures |AddExpense(page, Some(e)).expenses| == |AddExpenseAsWritten(page).0.expenses| + 1
  {
    assert AddExpense(page, Some(e)).expenses[0] == e;
  }

  /** A successful add clears the form, so adding again at once, whatever the
      back end answers, changes nothing: one click lists one expense. */
  lemma AddExpenseOnce(page: ExpensePage, first: Option<Expense>, second: Option<Expense>)
    requires Complete(page.form) && first.Some?
    ensures var p := AddExpense(page, first);
      && !Complete(p.form)
      && AddExpense(p, second) == p
  {
  }
}
