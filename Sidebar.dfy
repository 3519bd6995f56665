/**
 * The lesson sidebar (Sidebar.tsx): the distinct categories in order of
 * first appearance, one group of lessons per category, and for every
 * lesson whether it is highlighted and whether it carries the check mark.
 *
 * The grouping is also what the progress page counts per category, so the
 * partition facts live here.
 */
module Sidebar {

  import opened Lessons
  import OrderedSet

  /** `lessons.map(l => l.category)`. */
  function CategoryList(ls: seq<Lesson>): seq<string> {
    seq(|ls|, i requires 0 <= i < |ls| => ls[i].category)
  }

  /**
   * `Array.from(new Set(lessons.map(l => l.category)))`: each category of
   * the lessons exactly once.
   */
  function Categories(ls: seq<Lesson>): (r: seq<string>)
    ensures OrderedSet.NoDup(r)
    ensures forall c :: c in r <==> exists i :: 0 <= i < |ls| && ls[i].category == c
  {
    CategoryListHolds(ls);
    OrderedSet.FromSeq(CategoryList(ls))
  }

  lemma CategoryListHolds(ls: seq<Lesson>)
    ensures forall c :: c in CategoryList(ls) <==> exists i :: 0 <= i < |ls| && ls[i].category == c
  {
    forall c | c in CategoryList(ls)
      ensures exists i :: 0 <= i < |ls| && ls[i].category == c
    {
      var i :| 0 <= i < |ls| && CategoryList(ls)[i] == c;
    }
    forall c | exists i :: 0 <= i < |ls| && ls[i].category == c
      ensures c in CategoryList(ls)
    {
      var i :| 0 <= i < |ls| && ls[i].category == c;
      assert CategoryList(ls)[i] == c;
    }
  }

  /** `lessons.filter(lesson => lesson.category === category)`. */
  function InCategory(ls: seq<Lesson>, c: string): (r: seq<Lesson>)
    ensures |r| <= |ls|
    ensures forall l :: l in r ==> l in ls && l.category == c
    ensures forall i :: 0 <= i < |ls| && ls[i].category == c ==> ls[i] in r
  {
    if ls == [] then []
    else
      var init, l := ls[..|ls| - 1], ls[|ls| - 1];
      InCategory(init, c) + (if l.category == c then [l] else [])
  }

  /** Filtering one more lesson. */
  lemma InCategorySnoc(ls: seq<Lesson>, l: Lesson, c: string)
    ensures InCategory(ls + [l], c) == InCategory(ls, c) + (if l.category == c then [l] else [])
  {
    assert (ls + [l])[..|ls|] == ls;
  }

  /**
   * A group keeps the lessons' order: the group of a concatenation is the
   * concatenation of the groups.
   */
  lemma {:induction false} InCategoryAppend(a: seq<Lesson>, b: seq<Lesson>, c: string)
    ensures InCategory(a + b, c) == InCategory(a, c) + InCategory(b, c)
  {
    if b != [] {
      var init, l := b[..|b| - 1], b[|b| - 1];
      assert a + b == (a + init) + [l];
      assert b == init + [l];
      InCategoryAppend(a, init, c);
      InCategorySnoc(a + init, l, c);
      InCategorySnoc(init, l, c);
    } else {
      assert a + b == a;
    }
  }

  /**
   * The categories are listed in the order in which they first appear: the
   * first lesson of an earlier category comes before any lesson of a later
   * one.
   */
  lemma CategoriesInFirstAppearanceOrder(ls: seq<Lesson>, i: nat, j: nat, k: nat)
    requires i < j < |Categories(ls)| && k < |ls| && ls[k].category == Categories(ls)[j]
    ensures exists k' :: 0 <= k' < k && ls[k'].category == Categories(ls)[i]
  {
    var cs, r := CategoryList(ls), Categories(ls);
    assert r == OrderedSet.FromSeq(cs);
    OrderedSet.FromSeqFirstAppearance(cs);
    assert cs[k] == r[j];
    var fi, fj := OrderedSet.FirstIndex(cs, r[i]), OrderedSet.FirstIndex(cs, r[j]);
    assert fi < fj <= k;
    assert ls[fi].category == r[i];
  }

  /** Every lesson is in the group of its own category and in no other group. */
  lemma LessonInExactlyOneGroup(ls: seq<Lesson>, i: nat)
    requires i < |ls|
    ensures var cs := Categories(ls);
      && (exists k :: 0 <= k < |cs| && cs[k] == ls[i].category && ls[i] in InCategory(ls, cs[k]))
      && forall k :: 0 <= k < |cs| && ls[i] in InCategory(ls, cs[k]) ==> cs[k] == ls[i].category
  {
    var cs := Categories(ls);
    assert ls[i].category in cs;
    var k :| 0 <= k < |cs| && cs[k] == ls[i].category;
    assert ls[i] in InCategory(ls, cs[k]);
  }

  // ---------------------------------------------------------------------
  // The groups partition the lessons
  // ---------------------------------------------------------------------

  /** How often `c` occurs in `cs`. */
  function Occurrences(cs: seq<string>, c: string): nat {
    if cs == [] then 0 else (if cs[0] == c then 1 else 0) + Occurrences(cs[1..], c)
  }

  lemma {:induction false} OccursOnce(cs: seq<string>, c: string)
    requires OrderedSet.NoDup(cs) && c in cs
    ensures Occurrences(cs, c) == 1
  {
    if cs[0] == c {
      NotOccurring(cs[1..], c);
    } else {
      OccursOnce(cs[1..], c);
    }
  }

  lemma {:induction false} NotOccurring(cs: seq<string>, c: string)
    requires c !in cs
    ensures Occurrences(cs, c) == 0
  {
    if cs != [] {
      NotOccurring(cs[1..], c);
    }
  }

  /** The sizes of the groups of the categories `cs`, summed. */
  function GroupSizes(ls: seq<Lesson>, cs: seq<string>): nat {
    if cs == [] then 0 else |InCategory(ls, cs[0])| + GroupSizes(ls, cs[1..])
  }

  lemma {:induction false} GroupSizesSnoc(ls: seq<Lesson>, l: Lesson, cs: seq<string>)
    ensures GroupSizes(ls + [l], cs) == GroupSizes(ls, cs) + Occurrences(cs, l.category)
  {
    if cs != [] {
      InCategorySnoc(ls, l, cs[0]);
      GroupSizesSnoc(ls, l, cs[1..]);
    }
  }

  /**
   * Over duplicate-free categories that include every lesson's category,
   * the group sizes add up to the number of lessons.
   */
  lemma {:induction false} GroupSizesPartition(ls: seq<Lesson>, cs: seq<string>)
    requires OrderedSet.NoDup(cs)
    requires forall i :: 0 <= i < |ls| ==> ls[i].category in cs
    ensures GroupSizes(ls, cs) == |ls|
  {
    if ls == [] {
      ZeroGroups(cs);
    } else {
      var init, l := ls[..|ls| - 1], ls[|ls| - 1];
      assert ls == init + [l];
      GroupSizesPartition(init, cs);
      GroupSizesSnoc(init, l, cs);
      OccursOnce(cs, l.category);
    }
  }

  lemma {:induction false} ZeroGroups(cs: seq<string>)
    ensures GroupSizes([], cs) == 0
  {
    if cs != [] {
      ZeroGroups(cs[1..]);
    }
  }

  /** The sidebar's groups hold every lesson exactly once. */
  lemma GroupsCoverLessons(ls: seq<Lesson>)
    ensures GroupSizes(ls, Categories(ls)) == |ls|
  {
    GroupSizesPartition(ls, Categories(ls));
  }

  // ---------------------------------------------------------------------
  // The entries
  // ---------------------------------------------------------------------

  /** One button: the lesson it selects, its title, and its two marks. */
  datatype Item = Item(id: int, title: string, highlighted: bool, completed: bool)

  /** One category heading with its buttons. */
  datatype Group = Group(category: string, items: seq<Item>)

  /** The button of a lesson (Sidebar.tsx:38-64). */
  function ItemOf(l: Lesson, currentId: int, completed: seq<int>): Item {
    Item(l.id, l.title, currentId == l.id, l.id in completed)
  }

  /** The buttons of a group, in the group's order. */
  function Items(ls: seq<Lesson>, currentId: int, completed: seq<int>): seq<Item> {
    seq(|ls|, i requires 0 <= i < |ls| => ItemOf(ls[i], currentId, completed))
  }

  /** The whole navigation (Sidebar.tsx:29-72). */
  function Nav(ls: seq<Lesson>, currentId: int, completed: seq<int>): (r: seq<Group>)
    ensures |r| == |Categories(ls)|
    ensures forall k :: 0 <= k < |r| ==> r[k].category == Categories(ls)[k]
    ensures forall k :: 0 <= k < |r| ==> |r[k].items| == |InCategory(ls, r[k].category)|
    ensures forall k, m :: 0 <= k < |r| && 0 <= m < |r[k].items| ==>
      r[k].items[m].id == InCategory(ls, r[k].category)[m].id
  {
    var cs := Categories(ls);
    seq(|cs|, k requires 0 <= k < |cs| => Group(cs[k], Items(InCategory(ls, cs[k]), currentId, completed)))
  }

  /**
   * Every button belongs to a lesson of its group's category; it is
   * highlighted exactly when that lesson is the current one, checked exactly
   * when the lesson's id is in the completed set, and clicking it selects
   * the lesson's id.
   */
  lemma NavItem(ls: seq<Lesson>, currentId: int, completed: seq<int>, k: nat, m: nat)
    requires k < |Nav(ls, currentId, completed)| && m < |Nav(ls, currentId, completed)[k].items|
    ensures var g := Nav(ls, currentId, completed)[k];
      var it := g.items[m];
      && (exists l :: l in ls && l.category == g.category && l.id == it.id && l.title == it.title)
      && (it.highlighted <==> it.id == currentId)
      && (it.completed <==> it.id in completed)
  {
    var cs := Categories(ls);
    var group := InCategory(ls, cs[k]);
    assert group[m] in group;
  }

  /**
   * With distinct lesson ids, the navigation shows every lesson's button in
   * the group of its category, and no two groups hold a button with its id.
   */
  lemma NavLessonInExactlyOneGroup(ls: seq<Lesson>, currentId: int, completed: seq<int>, i: nat)
    requires i < |ls| && forall a, b :: 0 <= a < b < |ls| ==> ls[a].id != ls[b].id
    ensures var r := Nav(ls, currentId, completed);
      && (exists k :: 0 <= k < |r| && r[k].category == ls[i].category
            && ItemOf(ls[i], currentId, completed) in r[k].items)
      && forall k, k', m, m' ::
           (0 <= k < |r| && 0 <= k' < |r| && 0 <= m < |r[k].items| && 0 <= m' < |r[k'].items|
            && r[k].items[m].id == ls[i].id && r[k'].items[m'].id == ls[i].id) ==> k == k'
  {
    var r, cs := Nav(ls, currentId, completed), Categories(ls);
    assert ls[i].category in cs;
    var k :| 0 <= k < |cs| && cs[k] == ls[i].category;
    var group := InCategory(ls, cs[k]);
    assert ls[i] in group;
    var m :| 0 <= m < |group| && group[m] == ls[i];
    assert r[k].items[m] == ItemOf(ls[i], currentId, completed);
    forall k, m | 0 <= k < |r| && 0 <= m < |r[k].items| && r[k].items[m].id == ls[i].id
      ensures r[k].category == ls[i].category
    {
      NavItemCategory(ls, currentId, completed, i, k, m);
    }
  }

  /** A button with a lesson's id sits in the group of that lesson's category. */
  lemma NavItemCategory(ls: seq<Lesson>, currentId: int, completed: seq<int>, i: nat, k: nat, m: nat)
    requires i < |ls| && forall a, b :: 0 <= a < b < |ls| ==> ls[a].id != ls[b].id
    requires k < |Nav(ls, currentId, completed)| && m < |Nav(ls, currentId, completed)[k].items|
    requires Nav(ls, currentId, completed)[k].items[m].id == ls[i].id
    ensures Nav(ls, currentId, completed)[k].category == ls[i].category
  {
    var r := Nav(ls, currentId, completed);
    var group := InCategory(ls, r[k].category);
    assert group[m] in group;
    var j :| 0 <= j < |ls| && ls[j] == group[m];
    assert j == i;
  }
}
