/** `RecipeViewSet.download_shopping_cart`: the user's shopping list,
    folded into one entry per ingredient name and written as one text line
    per name in name order. */
module ShoppingCart {
  import opened Text

  /** One ingredient row of a recipe in the cart, as the export reads it:
      the ingredient's name and unit and the row's amount. */
  datatype CartItem = CartItem(name: string, unit: string, amount: nat)

  /** What the export keeps per name: a unit and a running amount. */
  datatype Entry = Entry(unit: string, amount: nat)

  /** The ingredient rows of all the cart's recipes, recipe by recipe. */
  function Flatten(cart: seq<seq<CartItem>>): seq<CartItem> {
    if cart == [] then [] else Flatten(cart[..|cart| - 1]) + cart[|cart| - 1]
  }

  /** One turn of the inner loop, as written: a name seen for the first time
      gets the row's unit and no amount, and the missing amount defaults to
      the row's own, so the row is added to itself. */
  function Step(totals: map<string, Entry>, item: CartItem): (r: map<string, Entry>)
    ensures item.name in r
    ensures item.name in totals ==> r[item.name].unit == totals[item.name].unit
    ensures item.name !in totals ==> r[item.name] == Entry(item.unit, 2 * item.amount)
  {
    if item.name in totals then
      totals[item.name := Entry(totals[item.name].unit, totals[item.name].amount + item.amount)]
    else
      totals[item.name := Entry(item.unit, item.amount + item.amount)]
  }

  function Names(items: seq<CartItem>): set<string> {
    set x | x in items :: x.name
  }

  /** A turn touches no other name. */
  lemma StepLeavesOthers(totals: map<string, Entry>, item: CartItem)
    ensures Step(totals, item).Keys == totals.Keys + {item.name}
    ensures forall n :: n in totals && n != item.name ==> Step(totals, item)[n] == totals[n]
  {
  }

  /** The dictionary after folding the rows in order. */
  function Aggregate(items: seq<CartItem>): (totals: map<string, Entry>)
    ensures items != [] ==> items[|items| - 1].name in totals
  {
    if items == [] then map[] else Step(Aggregate(items[..|items| - 1]), items[|items| - 1])
  }

  /** The dictionary has exactly one key per distinct ingredient name: rows
      are grouped by name alone, whatever their ingredient ids or units. */
  lemma {:induction false} AggregateKeys(items: seq<CartItem>)
    ensures Aggregate(items).Keys == Names(items)
  {
    if items != [] {
      var front := items[..|items| - 1];
      AggregateKeys(front);
      StepLeavesOthers(Aggregate(front), items[|items| - 1]);
      assert items == front + [items[|items| - 1]];
      assert Names(items) == Names(front) + {items[|items| - 1].name};
    }
  }

  /** The sum of the amounts of the rows with this name: nothing for a name
      no row carries. */
  function AmountOf(items: seq<CartItem>, name: string): (total: nat)
    ensures (forall x :: x in items ==> x.name != name) ==> total == 0
  {
    if items == [] then 0
    else
      var front := items[..|items| - 1];
      assert forall x :: x in front ==> x in items;
      AmountOf(front, name) + (if items[|items| - 1].name == name then items[|items| - 1].amount else 0)
  }

  /** `i` is the first row with its name. */
  predicate FirstWithName(items: seq<CartItem>, i: int) {
    0 <= i < |items| && forall j :: 0 <= j < i ==> items[j].name != items[i].name
  }

  /** A name's entry has the unit of the first row with that name, and as
      amount the sum over all its rows plus the first row's amount once more. */
  lemma {:induction false} AggregateEntry(items: seq<CartItem>, i: int)
    requires FirstWithName(items, i)
    ensures items[i].name in Aggregate(items)
    ensures Aggregate(items)[items[i].name]
         == Entry(items[i].unit, AmountOf(items, items[i].name) + items[i].amount)
  {
    var n := |items| - 1;
    var front, last := items[..n], items[n];
    var name := items[i].name;
    if i < n {
      assert FirstWithName(front, i) && front[i] == items[i];
      AggregateEntry(front, i);
    } else {
      assert forall x :: x in front ==> x.name != name;
      AggregateKeys(front);
      assert AmountOf(front, name) == 0;
    }
  }

  /** Whatever rows follow, a name keeps the unit of its first row. */
  lemma UnitFixedByFirstRow(items: seq<CartItem>, more: seq<CartItem>, i: int)
    requires FirstWithName(items, i)
    ensures items[i].name in Aggregate(items + more)
    ensures Aggregate(items + more)[items[i].name].unit == items[i].unit
  {
    assert FirstWithName(items + more, i) && (items + more)[i] == items[i];
    AggregateEntry(items + more, i);
  }

  /** Strictly ascending, hence without repeats. */
  predicate Sorted(names: seq<string>) {
    forall i, j :: 0 <= i < j < |names| ==> LexLess(names[i], names[j])
  }

  lemma SortedDistinct(names: seq<string>)
    requires Sorted(names)
    ensures forall i, j :: 0 <= i < j < |names| ==> names[i] != names[j]
  {
    forall i, j | 0 <= i < j < |names| ensures names[i] != names[j] {
      LexIrreflexive(names[i]);
    }
  }

  /** The least name of a non-empty set. */
  method Least(names: set<string>) returns (m: string)
    requires names != {}
    ensures m in names
    ensures forall x :: x in names && x != m ==> LexLess(m, x)
  {
    m :| m in names;
    var rest := names - {m};
    while rest != {}
      invariant rest <= names && m in names && m !in rest
      invariant forall x :: x in names - rest && x != m ==> LexLess(m, x)
      decreases |rest|
    {
      var x :| x in rest;
      if LexLess(x, m) {
        forall y | y in names - rest && y != m ensures LexLess(x, y) {
          LexTransitive(x, m, y);
        }
        LexIrreflexive(x);
        m := x;
      } else {
        LexTotal(x, m);
      }
      rest := rest - {x};
    }
  }

  /** `sorted` on the dictionary's keys. */
  method SortNames(keys: set<string>) returns (names: seq<string>)
    ensures Sorted(names)
    ensures forall x :: x in names <==> x in keys
  {
    names := [];
    var rest := keys;
    while rest != {}
      invariant rest <= keys
      invariant forall x :: x in names <==> x in keys - rest
      invariant Sorted(names)
      invariant forall a, b :: a in names && b in rest ==> LexLess(a, b)
      decreases |rest|
    {
      var m := Least(rest);
      names := names + [m];
      rest := rest - {m};
    }
  }

  /** One line of the file: the capitalized name, the unit in brackets, the amount. */
  function RenderLine(name: string, e: Entry): (line: string)
    ensures |name| <= |line| && line[..|name|] == Capitalize(name)
    ensures EndsWith(line, ";\n")
  {
    Capitalize(name) + " (" + e.unit + ") - " + NatToDecimal(e.amount) + ";\n"
  }

  /** The amount in an exported line reads back as the entry's total: the
      text after the line's last `") - "` and before its closing `";\n"` is a
      decimal numeral of `e.amount`. */
  lemma RenderLineAmountReadsBack(name: string, e: Entry)
    ensures var line := RenderLine(name, e);
      var amount := LastPiece(line[..|line| - 2], ") - ");
      && (forall i :: 0 <= i < |amount| ==> '0' <= amount[i] <= '9')
      && DecimalValue(amount) == e.amount
  {
    var sep := ") - ";
    var digits := NatToDecimal(e.amount);
    var line := RenderLine(name, e);
    var head := Capitalize(name) + " (" + e.unit;
    assert line == head + sep + digits + ";\n";
    assert line[..|line| - 2] == head + sep + digits;
    forall k | 0 <= k <= |digits| - |sep| ensures !OccursAt(digits, sep, k) {
      assert digits[k..k + |sep|][0] == digits[k];
    }
    LastPieceAfterFinalSep(head, sep, digits);
    DecimalRoundTrip(e.amount);
  }

  /** The body: the lines of the listed names, in order, and nothing else. */
  function Render(names: seq<string>, totals: map<string, Entry>): (body: string)
    requires forall x :: x in names ==> x in totals
    ensures names == [] <==> body == ""
  {
    if names == [] then ""
    else Render(names[..|names| - 1], totals) + RenderLine(names[|names| - 1], totals[names[|names| - 1]])
  }

  /** There is no header: the body opens with the first name's line. */
  lemma {:induction false} RenderStartsWithFirstLine(names: seq<string>, totals: map<string, Entry>)
    requires forall x :: x in names ==> x in totals
    ensures names != [] ==>
      var first := RenderLine(names[0], totals[names[0]]);
      |first| <= |Render(names, totals)| && Render(names, totals)[..|first|] == first
  {
    if names != [] {
      var front := names[..|names| - 1];
      var line := RenderLine(names[|names| - 1], totals[names[|names| - 1]]);
      var first := RenderLine(names[0], totals[names[0]]);
      assert Render(names, totals) == Render(front, totals) + line;
      if front != [] {
        RenderStartsWithFirstLine(front, totals);
        assert front[0] == names[0];
        PrefixOfConcat(Render(front, totals), line, |first|);
      } else {
        assert Render(names, totals) == line;
      }
    }
  }

  lemma PrefixOfConcat(a: string, b: string, k: nat)
    requires k <= |a|
    ensures (a + b)[..k] == a[..k]
  {
  }

  lemma FlattenExtend(cart: seq<seq<CartItem>>, i: int)
    requires 0 <= i < |cart|
    ensures Flatten(cart[..i + 1]) == Flatten(cart[..i]) + cart[i]
  {
    assert cart[..i + 1][..i] == cart[..i];
  }

  lemma AggregateExtend(done: seq<CartItem>, row: seq<CartItem>, j: int)
    requires 0 <= j < |row|
    ensures Aggregate(done + row[..j + 1]) == Step(Aggregate(done + row[..j]), row[j])
  {
    var s := done + row[..j + 1];
    assert s[..|s| - 1] == done + row[..j];
  }

  lemma RenderExtend(names: seq<string>, totals: map<string, Entry>, i: int)
    requires 0 <= i < |names| && forall x :: x in names ==> x in totals
    ensures Render(names[..i + 1], totals) == Render(names[..i], totals) + RenderLine(names[i], totals[names[i]])
  {
    assert names[..i + 1][..i] == names[..i];
  }

  /** The export: fold every row of every cart recipe into the dictionary,
      then write one line per name in ascending name order. `cart` holds,
      per shopping-list row of the user, the ingredient rows of its recipe. */
  method DownloadShoppingCart(cart: seq<seq<CartItem>>)
    returns (totals: map<string, Entry>, names: seq<string>, body: string)
    ensures totals == Aggregate(Flatten(cart))
    ensures Sorted(names) && forall x :: x in names <==> x in totals
    ensures body == Render(names, totals)
  {
    totals := map[];
    for i := 0 to |cart|
      invariant totals == Aggregate(Flatten(cart[..i]))
    {
      ghost var done := Flatten(cart[..i]);
      assert done + cart[i][..0] == done;
      for j := 0 to |cart[i]|
        invariant totals == Aggregate(done + cart[i][..j])
      {
        var item := cart[i][j];
        AggregateExtend(done, cart[i], j);
        if item.name in totals {
          totals := totals[item.name := Entry(totals[item.name].unit, totals[item.name].amount + item.amount)];
        } else {
          totals := totals[item.name := Entry(item.unit, item.amount + item.amount)];
        }
      }
      assert cart[i][..|cart[i]|] == cart[i];
      FlattenExtend(cart, i);
    }
    assert cart[..|cart|] == cart;

    names := SortNames(totals.Keys);
    body := "";
    for i := 0 to |names|
      invariant body == Render(names[..i], totals)
    {
      RenderExtend(names, totals, i);
      body := body + RenderLine(names[i], totals[names[i]]);
    }
    assert names[..|names|] == names;
  }

  /** The body is empty exactly when the dictionary is, in particular for
      an empty cart or one whose recipes have no ingredients. */
  lemma BodyEmptyIffNoEntries(names: seq<string>, totals: map<string, Entry>)
    requires forall x :: x in names <==> x in totals
    ensures Render(names, totals) == "" <==> totals == map[]
  {
    RenderStartsWithFirstLine(names, totals);
    if names != [] {
      assert names[0] in totals;
    }
    if totals != map[] {
      var k :| k in totals;
      assert k in names;
    }
  }

  /** As written, a single row of 200 g of sugar followed by one of 50 g is
      exported as 450 g, not 250 g. */
  lemma FirstRowCountedTwice()
    ensures var items := [CartItem("sugar", "g", 200), CartItem("sugar", "g", 50)];
      Aggregate(items)["sugar"] == Entry("g", 450) && AmountOf(items, "sugar") == 250
  {
    var items := [CartItem("sugar", "g", 200), CartItem("sugar", "g", 50)];
    assert items[..1] == [CartItem("sugar", "g", 200)];
    assert items[..1][..0] == [];
  }

  /** The evidently intended turn of the loop: a new name starts at the
      row's own amount. */
  function IntendedStep(totals: map<string, Entry>, item: CartItem): map<string, Entry> {
    if item.name in totals then
      totals[item.name := Entry(totals[item.name].unit, totals[item.name].amount + item.amount)]
    else
      totals[item.name := Entry(item.unit, item.amount)]
  }

  function IntendedAggregate(items: seq<CartItem>): map<string, Entry> {
    if items == [] then map[] else IntendedStep(IntendedAggregate(items[..|items| - 1]), items[|items| - 1])
  }

  /** With the intended step every name's amount is the sum of its rows. */
  lemma {:induction false} IntendedAggregateSums(items: seq<CartItem>)
    ensures IntendedAggregate(items).Keys == Names(items)
    ensures forall name :: name in IntendedAggregate(items) ==>
      IntendedAggregate(items)[name].amount == AmountOf(items, name)
  {
    if items != [] {
      var front := items[..|items| - 1];
      var last := items[|items| - 1];
      IntendedAggregateSums(front);
      assert items == front + [last];
      assert Names(items) == Names(front) + {last.name};
      if last.name !in Names(front) {
        assert AmountOf(front, last.name) == 0;
      }
    }
  }

  /** The two folds agree on units and keys; the written one is ahead of the
      intended one by exactly the first row's amount. */
  lemma {:induction false} AggregateOvercounts(items: seq<CartItem>, i: int)
    requires FirstWithName(items, i)
    ensures items[i].name in Aggregate(items) && items[i].name in IntendedAggregate(items)
    ensures var name := items[i].name;
      Aggregate(items)[name].amount == IntendedAggregate(items)[name].amount + items[i].amount
  {
    AggregateEntry(items, i);
    IntendedAggregateSums(items);
    assert items[i] in items;
  }
}
