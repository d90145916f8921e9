/** The home screen's table of average price per course. */
module HomeScreen {
  import opened Wrappers
  import opened MenuContext

  /** `items.reduce((s, it) => s + it.price, 0)`: prices added left to right, starting from 0. */
  function SumPrices(items: seq<MenuItem>): real {
    if items == [] then 0.0 else SumPrices(items[..|items| - 1]) + items[|items| - 1].price
  }

  /** The entry for course `c`: `null` exactly when no item has that course, else the mean of their prices. */
  function Average(menuItems: seq<MenuItem>, c: Course): (r: Option<real>)
    ensures r.None? <==> forall x :: x in menuItems ==> x.course != c
  {
    var items := OfCourse(menuItems, c);
    if |items| == 0 then None else Some(SumPrices(items) / (|items| as real))
  }

  /**
   * The `averages` memo: one entry per course of `Courses`, filled in a loop
   * over the courses; `menuItems` is a value and is left as it is.
   */
  method ComputeAverages(menuItems: seq<MenuItem>) returns (averages: map<Course, Option<real>>)
    ensures forall c: Course :: c in averages && averages[c] == Average(menuItems, c)
  {
    averages := map[];
    for k := 0 to |Courses|
      invariant forall j :: 0 <= j < k ==> Courses[j] in averages
      invariant forall c :: c in averages ==> averages[c] == Average(menuItems, c)
    {
      var c := Courses[k];
      var items := OfCourse(menuItems, c);
      if |items| == 0 {
        averages := averages[c := None];
      } else {
        var sum := SumPrices(items);
        averages := averages[c := Some(sum / (|items| as real))];
      }
    }
    forall c: Course ensures c in averages {
      CoursesEnumerated(c);
    }
  }

  /** A course has no average exactly when no item on the menu has that course. */
  lemma AverageAbsentIff(menuItems: seq<MenuItem>, c: Course)
    ensures Average(menuItems, c).None? <==> forall i :: 0 <= i < |menuItems| ==> menuItems[i].course != c
  {
    var items := OfCourse(menuItems, c);
    if |items| != 0 {
      assert items[0] in items;
    } else {
      forall i | 0 <= i < |menuItems| ensures menuItems[i].course != c {
        assert menuItems[i] in menuItems;
      }
    }
  }

  /** On an empty menu every course shows no average. */
  lemma AverageOfEmptyMenu(c: Course)
    ensures Average([], c) == None
  {
  }

  /** The sum of `n` prices that each lie in `[lo, hi]` lies in `[n * lo, n * hi]`. */
  lemma {:induction false} SumPricesBounds(items: seq<MenuItem>, lo: real, hi: real)
    requires forall i :: 0 <= i < |items| ==> lo <= items[i].price <= hi
    ensures (|items| as real) * lo <= SumPrices(items) <= (|items| as real) * hi
  {
    if items != [] {
      var init := items[..|items| - 1];
      SumPricesBounds(init, lo, hi);
      StepBounds(|init| as real, SumPrices(init), items[|items| - 1].price, lo, hi);
    }
  }

  /** One more price within `[lo, hi]` keeps a sum of `n` such prices within bounds for `n + 1`. */
  lemma StepBounds(n: real, s: real, p: real, lo: real, hi: real)
    requires n * lo <= s <= n * hi && lo <= p <= hi
    ensures (n + 1.0) * lo <= s + p <= (n + 1.0) * hi
  {
  }

  /** Every item the course filter keeps has a price within bounds that hold for that course. */
  lemma OfCourseWithinBounds(menuItems: seq<MenuItem>, c: Course, lo: real, hi: real)
    requires forall i :: 0 <= i < |menuItems| && menuItems[i].course == c ==> lo <= menuItems[i].price <= hi
    ensures forall i :: 0 <= i < |OfCourse(menuItems, c)| ==> lo <= OfCourse(menuItems, c)[i].price <= hi
  {
    var items := OfCourse(menuItems, c);
    forall i | 0 <= i < |items| ensures lo <= items[i].price <= hi {
      assert items[i] in items;
    }
  }

  /** The mean of prices that each lie in `[lo, hi]` lies in `[lo, hi]`. */
  lemma MeanWithinBounds(items: seq<MenuItem>, lo: real, hi: real)
    requires items != []
    requires forall i :: 0 <= i < |items| ==> lo <= items[i].price <= hi
    ensures lo <= SumPrices(items) / (|items| as real) <= hi
  {
    SumPricesBounds(items, lo, hi);
    DivisionBounds(SumPrices(items), |items| as real, lo, hi);
  }

  /** A course's average lies between the cheapest and dearest price of that course. */
  lemma AverageWithinBounds(menuItems: seq<MenuItem>, c: Course, lo: real, hi: real)
    requires forall i :: 0 <= i < |menuItems| && menuItems[i].course == c ==> lo <= menuItems[i].price <= hi
    requires Average(menuItems, c).Some?
    ensures lo <= Average(menuItems, c).value <= hi
  {
    OfCourseWithinBounds(menuItems, c, lo, hi);
    MeanWithinBounds(OfCourse(menuItems, c), lo, hi);
  }

  /** For `n > 0`, `n * lo <= s <= n * hi` puts `s / n` in `[lo, hi]`. */
  lemma DivisionBounds(s: real, n: real, lo: real, hi: real)
    requires n > 0.0 && n * lo <= s <= n * hi
    ensures lo <= s / n <= hi
  {
    assert s / n * n == s;
  }

  /** Adding an item of another course leaves a course's average as it was. */
  lemma AverageIgnoresAddedOtherCourse(menuItems: seq<MenuItem>, item: NewItem, id: string, c: Course)
    requires item.course != c
    ensures Average(Prepended(menuItems, item, id), c) == Average(menuItems, c)
  {
    assert Prepended(menuItems, item, id)[1..] == menuItems;
  }

  /** Removing an id that no item of course `c` carries leaves that course's average as it was. */
  lemma AverageIgnoresRemovedOtherCourse(menuItems: seq<MenuItem>, id: string, c: Course)
    requires forall i :: 0 <= i < |menuItems| && menuItems[i].id == id ==> menuItems[i].course != c
    ensures Average(WithoutId(menuItems, id), c) == Average(menuItems, c)
  {
    OfCourseWithoutOtherId(menuItems, id, c);
  }

  /** Two Mains at 100 and 200: Mains averages 150 and every other course has no average. */
  lemma TwoMainsExample(a: string, b: string)
    ensures var menu := [MenuItem(a, "A", "A", Mains, 100.0), MenuItem(b, "B", "B", Mains, 200.0)];
      Average(menu, Mains) == Some(150.0) &&
      Average(menu, Starters) == None && Average(menu, Desserts) == None && Average(menu, Beverages) == None
  {
    var menu := [MenuItem(a, "A", "A", Mains, 100.0), MenuItem(b, "B", "B", Mains, 200.0)];
    OfCourseOfUniform(menu, Mains);
    AverageAbsentIff(menu, Starters);
    AverageAbsentIff(menu, Desserts);
    AverageAbsentIff(menu, Beverages);
    assert SumPrices(menu[..1]) == 100.0 by {
      assert menu[..1][..0] == [];
    }
    assert SumPrices(menu) == 300.0;
  }
}
