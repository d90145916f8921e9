/**
 * The shared menu state: the four courses, the menu item record, the two
 * list transformations the provider applies (prepend on add, filter on remove)
 * and the provider itself, a store holding one ordered list of items.
 */
module MenuContext {
  import opened Sequences

  /** The fixed set of courses a dish belongs to. */
  datatype Course = Starters | Mains | Desserts | Beverages

  /** `COURSES`: every course once, in display order. */
  const Courses: seq<Course> := [Starters, Mains, Desserts, Beverages]

  /** The course list names every course exactly once (its order is that of the constant `Courses`). */
  lemma CoursesEnumerated(c: Course)
    ensures c in Courses
    ensures |Courses| == 4
    ensures forall i, j :: 0 <= i < j < |Courses| ==> Courses[i] != Courses[j]
  {
  }

  /** One dish on the menu. */
  datatype MenuItem = MenuItem(id: string, name: string, description: string, course: Course, price: real)

  /** `Omit<MenuItem, 'id'>`: what `addItem` is given. */
  datatype NewItem = NewItem(name: string, description: string, course: Course, price: real)

  /** `{ ...item, id }`: the stored record keeps every field of `item` and carries `id`. */
  function WithId(item: NewItem, id: string): (m: MenuItem)
    ensures Fields(m) == item && m.id == id
  {
    MenuItem(id, item.name, item.description, item.course, item.price)
  }

  /** The fields of `m` other than its id. */
  function Fields(m: MenuItem): NewItem {
    NewItem(m.name, m.description, m.course, m.price)
  }

  /** `[newItem, ...prev]`: the new item first, the old list unchanged behind it. */
  function Prepended(prev: seq<MenuItem>, item: NewItem, id: string): (r: seq<MenuItem>)
    ensures |r| == |prev| + 1
    ensures r[0].id == id && Fields(r[0]) == item
    ensures r[1..] == prev
  {
    [WithId(item, id)] + prev
  }

  /** `prev.filter(i => i.id !== id)`: every item whose id differs from `id`, in their original order. */
  function WithoutId(prev: seq<MenuItem>, id: string): (r: seq<MenuItem>)
    ensures |r| <= |prev|
    ensures forall x :: x in r <==> x in prev && x.id != id
  {
    if prev == [] then []
    else if prev[0].id != id then [prev[0]] + WithoutId(prev[1..], id)
    else WithoutId(prev[1..], id)
  }

  /** How many items of `s` carry `id`. */
  function CountId(s: seq<MenuItem>, id: string): nat {
    if s == [] then 0 else (if s[0].id == id then 1 else 0) + CountId(s[1..], id)
  }

  /** Removal keeps the other items in their original relative order. */
  lemma {:induction false} WithoutIdSubsequence(prev: seq<MenuItem>, id: string)
    ensures IsSubsequence(WithoutId(prev, id), prev)
  {
    if prev != [] {
      WithoutIdSubsequence(prev[1..], id);
      var r := WithoutId(prev, id);
      if prev[0].id != id {
        assert r[1..] == WithoutId(prev[1..], id);
      }
    }
  }

  /** Removal drops every copy of an item with `id` and keeps every copy of any other item. */
  lemma {:induction false} WithoutIdMultiplicity(prev: seq<MenuItem>, id: string, x: MenuItem)
    ensures multiset(WithoutId(prev, id))[x] == if x.id == id then 0 else multiset(prev)[x]
  {
    if prev != [] {
      WithoutIdMultiplicity(prev[1..], id, x);
      var rest := WithoutId(prev[1..], id);
      assert prev == [prev[0]] + prev[1..];
      assert multiset(prev) == multiset{prev[0]} + multiset(prev[1..]);
      if prev[0].id != id {
        assert WithoutId(prev, id) == [prev[0]] + rest;
        assert multiset([prev[0]] + rest) == multiset{prev[0]} + multiset(rest);
      } else {
        assert WithoutId(prev, id) == rest;
      }
    }
  }

  /** Removal shortens the list by exactly the number of items sharing `id`. */
  lemma {:induction false} WithoutIdLength(prev: seq<MenuItem>, id: string)
    ensures |WithoutId(prev, id)| == |prev| - CountId(prev, id)
  {
    if prev != [] {
      WithoutIdLength(prev[1..], id);
    }
  }

  /** Removing an id no item carries leaves the list as it was. */
  lemma {:induction false} WithoutAbsentId(prev: seq<MenuItem>, id: string)
    requires forall i :: 0 <= i < |prev| ==> prev[i].id != id
    ensures WithoutId(prev, id) == prev
  {
    if prev != [] {
      WithoutAbsentId(prev[1..], id);
    }
  }

  /** Removing the same id twice is removing it once. */
  lemma WithoutIdIdempotent(prev: seq<MenuItem>, id: string)
    ensures WithoutId(WithoutId(prev, id), id) == WithoutId(prev, id)
  {
    var r := WithoutId(prev, id);
    assert forall i :: 0 <= i < |r| ==> r[i] in r;
    WithoutAbsentId(r, id);
  }

  /** The `i.course === c` filter applied by the home and filter screens. */
  function OfCourse(items: seq<MenuItem>, c: Course): (r: seq<MenuItem>)
    ensures forall x :: x in r <==> x in items && x.course == c
  {
    if items == [] then []
    else if items[0].course == c then [items[0]] + OfCourse(items[1..], c)
    else OfCourse(items[1..], c)
  }

  /** The course filter keeps its items in their original relative order. */
  lemma {:induction false} OfCourseSubsequence(items: seq<MenuItem>, c: Course)
    ensures IsSubsequence(OfCourse(items, c), items)
  {
    if items != [] {
      OfCourseSubsequence(items[1..], c);
      var r := OfCourse(items, c);
      if items[0].course == c {
        assert r[1..] == OfCourse(items[1..], c);
      }
    }
  }

  /** The course filter keeps every copy of an item of that course and no copy of any other. */
  lemma {:induction false} OfCourseMultiplicity(items: seq<MenuItem>, c: Course, x: MenuItem)
    ensures multiset(OfCourse(items, c))[x] == if x.course == c then multiset(items)[x] else 0
  {
    if items != [] {
      OfCourseMultiplicity(items[1..], c, x);
      var rest := OfCourse(items[1..], c);
      assert items == [items[0]] + items[1..];
      assert multiset(items) == multiset{items[0]} + multiset(items[1..]);
      if items[0].course == c {
        assert multiset(OfCourse(items, c)) == multiset{items[0]} + multiset(rest);
      }
    }
  }

  /** A list whose items all have course `c` passes the course filter unchanged. */
  lemma {:induction false} OfCourseOfUniform(items: seq<MenuItem>, c: Course)
    requires forall i :: 0 <= i < |items| ==> items[i].course == c
    ensures OfCourse(items, c) == items
  {
    if items != [] {
      OfCourseOfUniform(items[1..], c);
    }
  }

  /** Removing an id none of whose items has course `c` leaves that course's items as they were. */
  lemma {:induction false} OfCourseWithoutOtherId(items: seq<MenuItem>, id: string, c: Course)
    requires forall i :: 0 <= i < |items| && items[i].id == id ==> items[i].course != c
    ensures OfCourse(WithoutId(items, id), c) == OfCourse(items, c)
  {
    if items != [] {
      OfCourseWithoutOtherId(items[1..], id, c);
    }
  }

  /**
   * `MenuProvider`: the in-memory list of menu items, newest first.
   * `menuItems` is the list the provider shares; the methods are its only writers.
   */
  class MenuStore {
    var menuItems: seq<MenuItem>

    /** The provider starts with no items. */
    constructor ()
      ensures menuItems == []
    {
      menuItems := [];
    }

    /** `addItem`: the item, stamped with `id`, becomes the first entry; the old list follows it unchanged. */
    method AddItem(item: NewItem, id: string)
      modifies this
      ensures menuItems == Prepended(old(menuItems), item, id)
      ensures |menuItems| == |old(menuItems)| + 1
      ensures menuItems[0] == WithId(item, id) && menuItems[1..] == old(menuItems)
    {
      menuItems := Prepended(menuItems, item, id);
    }

    /** `removeItem`: every item carrying `id` goes, every other item stays in order. */
    method RemoveItem(id: string)
      modifies this
      ensures menuItems == WithoutId(old(menuItems), id)
      ensures forall x :: x in menuItems <==> x in old(menuItems) && x.id != id
      ensures |menuItems| == |old(menuItems)| - CountId(old(menuItems), id)
    {
      WithoutIdLength(menuItems, id);
      menuItems := WithoutId(menuItems, id);
    }

    /** `setAll`: the list becomes exactly `items`. */
    method SetAll(items: seq<MenuItem>)
      modifies this
      ensures menuItems == items
    {
      menuItems := items;
    }
  }
}
