/** The menu settings page (`Configuracion.jsx`): editable lists of names
    (sauces, fries, drinks) and a table of prices. */
module Configuracion {
  import opened Seqs

  /** The settings document. `lists` holds its array-valued properties by
      name ("salsas", "papas", "bebidas", …) and `precios` its price table. */
  datatype Config = Config(lists: map<string, seq<string>>, precios: map<string, int>)

  /** The page renders a table for `field` only when the document has that
      list, so the list handlers below are only reachable for such fields. */
  predicate HasList(c: Config, field: string) {
    field in c.lists
  }

  /** Everything in `c` other than the list `field` is as in `d`. */
  ghost predicate OthersAsIn(c: Config, d: Config, field: string) {
    && c.precios == d.precios
    && c.lists.Keys == d.lists.Keys
    && forall f :: f in c.lists && f != field ==> c.lists[f] == d.lists[f]
  }

  /** `handleChangeArray(field, index, value)`: the row edited in place. */
  function ChangeArray(c: Config, field: string, index: nat, value: string): (r: Config)
    requires HasList(c, field) && index < |c.lists[field]|
    ensures HasList(r, field) && OthersAsIn(r, c, field)
    ensures |r.lists[field]| == |c.lists[field]|
    ensures r.lists[field][index] == value
    ensures forall j :: 0 <= j < |c.lists[field]| && j != index ==> r.lists[field][j] == c.lists[field][j]
  {
    c.(lists := c.lists[field := c.lists[field][index := value]])
  }

  /** Writing back the old text of a row undoes an edit. */
  lemma ChangeArrayUndo(c: Config, field: string, index: nat, value: string)
    requires HasList(c, field) && index < |c.lists[field]|
    ensures var d := ChangeArray(c, field, index, value);
      ChangeArray(d, field, index, c.lists[field][index]) == c
  {
    var d := ChangeArray(c, field, index, value);
    var e := ChangeArray(d, field, index, c.lists[field][index]);
    assert e.lists[field] == c.lists[field];
    assert e.lists == c.lists;
  }

  /** `handleAddArrayItem(field)`: an empty row appended to the list. */
  function AddArrayItem(c: Config, field: string): (r: Config)
    requires HasList(c, field)
    ensures HasList(r, field) && OthersAsIn(r, c, field)
    ensures |r.lists[field]| == |c.lists[field]| + 1
    ensures r.lists[field][..|c.lists[field]|] == c.lists[field]
    ensures r.lists[field][|c.lists[field]|] == ""
  {
    c.(lists := c.lists[field := c.lists[field] + [""]])
  }

  /** `handleRemoveArrayItem(field, index)`: the list without the row at
      `index`; an index that names no row leaves the list as it is. */
  function RemoveArrayItem(c: Config, field: string, index: int): (r: Config)
    requires HasList(c, field)
    ensures HasList(r, field) && OthersAsIn(r, c, field)
    ensures 0 <= index < |c.lists[field]| ==>
      && |r.lists[field]| == |c.lists[field]| - 1
      && r.lists[field][..index] == c.lists[field][..index]
      && r.lists[field][index..] == c.lists[field][index + 1..]
    ensures !(0 <= index < |c.lists[field]|) ==> r.lists[field] == c.lists[field]
  {
    c.(lists := c.lists[field := RemoveAt(c.lists[field], index)])
  }

  /** Adding a row and removing the last row gives the settings back. */
  lemma AddThenRemoveLast(c: Config, field: string)
    requires HasList(c, field)
    ensures RemoveArrayItem(AddArrayItem(c, field), field, |c.lists[field]|) == c
  {
    var d := AddArrayItem(c, field);
    var e := RemoveArrayItem(d, field, |c.lists[field]|);
    assert e.lists[field] == c.lists[field];
    assert e.lists == c.lists;
  }

  /** `handleChangePrecio`: the price called `name` set to `amount`, the
      number `Number` makes of the input's text; every other price and every
      list stay as they are. A name not yet in the table is added. */
  function ChangePrecio(c: Config, name: string, amount: int): (r: Config)
    ensures name in r.precios && r.precios[name] == amount
    ensures r.lists == c.lists
    ensures r.precios.Keys == c.precios.Keys + {name}
    ensures forall k :: k in c.precios && k != name ==> r.precios[k] == c.precios[k]
  {
    c.(precios := c.precios[name := amount])
  }

  /** Of two price edits to the same name the later one wins. */
  lemma ChangePrecioLastWins(c: Config, name: string, a: int, b: int)
    ensures ChangePrecio(ChangePrecio(c, name, a), name, b) == ChangePrecio(c, name, b)
  {
    var d := ChangePrecio(ChangePrecio(c, name, a), name, b);
    var e := ChangePrecio(c, name, b);
    assert d.precios == e.precios;
  }

  /** Edits to different prices commute. */
  lemma ChangePrecioCommutes(c: Config, n1: string, a: int, n2: string, b: int)
    requires n1 != n2
    ensures ChangePrecio(ChangePrecio(c, n1, a), n2, b) == ChangePrecio(ChangePrecio(c, n2, b), n1, a)
  {
    var d := ChangePrecio(ChangePrecio(c, n1, a), n2, b);
    var e := ChangePrecio(ChangePrecio(c, n2, b), n1, a);
    assert d.precios == e.precios;
  }
}
