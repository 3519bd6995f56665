/**
 * The progress page (ProgressPage.tsx): how many lessons are completed and
 * how many remain, the completed and total counts per category, and the
 * list of all lessons with their completion marks. The percentages are
 * floating-point and are not part of the model.
 */
module ProgressPage {

  import opened Lessons
  import OrderedSet
  import Sidebar

  /** `lessons.map(l => l.id)`. */
  function Ids(ls: seq<Lesson>): seq<int> {
    seq(|ls|, i requires 0 <= i < |ls| => ls[i].id)
  }

  /** No two lessons share an id. */
  predicate DistinctIds(ls: seq<Lesson>) {
    forall i, j :: 0 <= i < j < |ls| ==> ls[i].id != ls[j].id
  }

  /** Every id of the set names one of the lessons. */
  predicate KnownIds(ls: seq<Lesson>, completed: seq<int>) {
    forall id :: id in completed ==> exists i :: 0 <= i < |ls| && ls[i].id == id
  }

  /** `completedLessons.size`: the completed set is duplicate-free. */
  function CompletedCount(completed: seq<int>): nat {
    |completed|
  }

  /** `totalLessons - completedCount` (ProgressPage.tsx:83). */
  function Remaining(ls: seq<Lesson>, completed: seq<int>): int {
    |ls| - CompletedCount(completed)
  }

  /** When the set only holds ids of lessons, nothing remains below zero. */
  lemma RemainingNotNegative(ls: seq<Lesson>, completed: seq<int>)
    requires OrderedSet.NoDup(completed) && KnownIds(ls, completed)
    ensures 0 <= Remaining(ls, completed)
  {
    forall id | id in completed ensures id in Ids(ls) {
      var i :| 0 <= i < |ls| && ls[i].id == id;
      assert Ids(ls)[i] == id;
    }
    OrderedSet.IncludedNoLonger(completed, Ids(ls));
  }

  /**
   * Nothing else keeps it from going below zero: once every lesson is
   * completed, one more id that names no lesson makes it negative.
   */
  lemma RemainingCanBeNegative(ls: seq<Lesson>, completed: seq<int>, x: int)
    requires DistinctIds(ls) && OrderedSet.NoDup(completed)
    requires forall i :: 0 <= i < |ls| ==> ls[i].id in completed
    requires x in completed && x !in Ids(ls)
    ensures Remaining(ls, completed) < 0
  {
    var known := Ids(ls) + [x];
    assert OrderedSet.NoDup(known) by {
      forall i, j | 0 <= i < j < |known| ensures known[i] != known[j] {
        if j == |ls| {
          assert known[i] in Ids(ls);
        }
      }
    }
    forall y | y in known ensures y in completed {
      if y != x {
        var i :| 0 <= i < |known| && known[i] == y;
        assert ls[i].id == y;
      }
    }
    OrderedSet.IncludedNoLonger(known, completed);
  }

  /** `filter(l => completedLessons.has(l.id))`. */
  function CompletedIn(ls: seq<Lesson>, completed: seq<int>): (r: seq<Lesson>)
    ensures |r| <= |ls|
    ensures forall l :: l in r <==> l in ls && l.id in completed
  {
    if ls == [] then []
    else
      var init, l := ls[..|ls| - 1], ls[|ls| - 1];
      CompletedIn(init, completed) + (if l.id in completed then [l] else [])
  }

  /** The two numbers shown for a category. */
  datatype CategoryProgress = CategoryProgress(total: nat, completed: nat)

  /**
   * getCategoryProgress without its percentage: the size of the category's
   * group, and how many of its lessons are completed.
   */
  function GetCategoryProgress(ls: seq<Lesson>, completed: seq<int>, c: string): (p: CategoryProgress)
    ensures p.completed <= p.total <= |ls|
  {
    var group := Sidebar.InCategory(ls, c);
    CategoryProgress(|group|, |CompletedIn(group, completed)|)
  }

  /** The completed counts of the categories `cs`, summed. */
  function CompletedTally(ls: seq<Lesson>, completed: seq<int>, cs: seq<string>): nat {
    if cs == [] then 0
    else GetCategoryProgress(ls, completed, cs[0]).completed + CompletedTally(ls, completed, cs[1..])
  }

  /** The totals of the categories `cs`, summed. */
  function TotalTally(ls: seq<Lesson>, completed: seq<int>, cs: seq<string>): nat {
    if cs == [] then 0
    else GetCategoryProgress(ls, completed, cs[0]).total + TotalTally(ls, completed, cs[1..])
  }

  lemma {:induction false} TotalTallyIsGroupSizes(ls: seq<Lesson>, completed: seq<int>, cs: seq<string>)
    ensures TotalTally(ls, completed, cs) == Sidebar.GroupSizes(ls, cs)
  {
    if cs != [] {
      TotalTallyIsGroupSizes(ls, completed, cs[1..]);
    }
  }

  /** The category totals add up to the number of lessons. */
  lemma TotalsCoverLessons(ls: seq<Lesson>, completed: seq<int>)
    ensures TotalTally(ls, completed, Sidebar.Categories(ls)) == |ls|
  {
    TotalTallyIsGroupSizes(ls, completed, Sidebar.Categories(ls));
    Sidebar.GroupsCoverLessons(ls);
  }

  lemma CompletedInSnoc(ls: seq<Lesson>, l: Lesson, completed: seq<int>)
    ensures CompletedIn(ls + [l], completed) == CompletedIn(ls, completed) + (if l.id in completed then [l] else [])
  {
    assert (ls + [l])[..|ls|] == ls;
  }

  /** One more lesson counts in its own category, and only if completed. */
  lemma CategoryCompletedSnoc(ls: seq<Lesson>, l: Lesson, completed: seq<int>, c: string)
    ensures GetCategoryProgress(ls + [l], completed, c).completed
      == GetCategoryProgress(ls, completed, c).completed + (if l.category == c && l.id in completed then 1 else 0)
  {
    Sidebar.InCategorySnoc(ls, l, c);
    if l.category == c {
      var group := Sidebar.InCategory(ls, c);
      assert Sidebar.InCategory(ls + [l], c) == group + [l];
      CompletedInSnoc(group, l, completed);
      if l.id !in completed {
        assert CompletedIn(group, completed) + [] == CompletedIn(group, completed);
      }
    } else {
      assert Sidebar.InCategory(ls, c) + [] == Sidebar.InCategory(ls, c);
    }
  }

  lemma {:induction false} CompletedTallySnoc(ls: seq<Lesson>, l: Lesson, completed: seq<int>, cs: seq<string>)
    ensures CompletedTally(ls + [l], completed, cs)
      == CompletedTally(ls, completed, cs) + (if l.id in completed then Sidebar.Occurrences(cs, l.category) else 0)
  {
    if cs != [] {
      CategoryCompletedSnoc(ls, l, completed, cs[0]);
      CompletedTallySnoc(ls, l, completed, cs[1..]);
    }
  }

  lemma {:induction false} NoCompletedInGroups(completed: seq<int>, cs: seq<string>)
    ensures CompletedTally([], completed, cs) == 0
  {
    if cs != [] {
      NoCompletedInGroups(completed, cs[1..]);
    }
  }

  /**
   * Over duplicate-free categories that include every lesson's category,
   * the per-category completed counts add up to the completed lessons.
   */
  lemma {:induction false} CompletedTallyPartition(ls: seq<Lesson>, completed: seq<int>, cs: seq<string>)
    requires OrderedSet.NoDup(cs)
    requires forall i :: 0 <= i < |ls| ==> ls[i].category in cs
    ensures CompletedTally(ls, completed, cs) == |CompletedIn(ls, completed)|
  {
    if ls == [] {
      NoCompletedInGroups(completed, cs);
    } else {
      var init, l := ls[..|ls| - 1], ls[|ls| - 1];
      assert ls == init + [l];
      CompletedTallyPartition(init, completed, cs);
      CompletedTallySnoc(init, l, completed, cs);
      CompletedInSnoc(init, l, completed);
      Sidebar.OccursOnce(cs, l.category);
    }
  }

  lemma IdsSnoc(ls: seq<Lesson>, l: Lesson)
    ensures Ids(ls + [l]) == Ids(ls) + [l.id]
  {
  }

  /** Lessons with distinct ids keep them distinct when filtered. */
  lemma {:induction false} CompletedInDistinct(ls: seq<Lesson>, completed: seq<int>)
    requires DistinctIds(ls)
    ensures OrderedSet.NoDup(Ids(CompletedIn(ls, completed)))
  {
    if ls != [] {
      var init, l := ls[..|ls| - 1], ls[|ls| - 1];
      assert ls == init + [l];
      CompletedInDistinct(init, completed);
      CompletedInSnoc(init, l, completed);
      var r := CompletedIn(init, completed);
      if l.id in completed {
        IdsSnoc(r, l);
        forall k | 0 <= k < |r| ensures Ids(r)[k] != l.id {
          assert r[k] in init;
          var i :| 0 <= i < |init| && init[i] == r[k];
          assert ls[i] == r[k];
        }
        assert Ids(r) + [l.id] == OrderedSet.Add(Ids(r), l.id);
      } else {
        assert r + [] == r;
      }
    }
  }

  /**
   * With distinct lesson ids and a set of known ids, the completed lessons
   * are as many as the set's elements.
   */
  lemma CompletedInCount(ls: seq<Lesson>, completed: seq<int>)
    requires DistinctIds(ls) && OrderedSet.NoDup(completed) && KnownIds(ls, completed)
    ensures |CompletedIn(ls, completed)| == CompletedCount(completed)
  {
    var r := CompletedIn(ls, completed);
    CompletedInDistinct(ls, completed);
    forall id | id in Ids(r) ensures id in completed {
      var k :| 0 <= k < |r| && Ids(r)[k] == id;
      assert r[k] in r;
    }
    forall id | id in completed ensures id in Ids(r) {
      var i :| 0 <= i < |ls| && ls[i].id == id;
      assert ls[i] in r;
      var k :| 0 <= k < |r| && r[k] == ls[i];
      assert Ids(r)[k] == id;
    }
    OrderedSet.IncludedNoLonger(Ids(r), completed);
    OrderedSet.IncludedNoLonger(completed, Ids(r));
  }

  /**
   * The category cards agree with the headline: with distinct lesson ids
   * and a set of known ids, the completed counts of the categories add up
   * to the set's size.
   */
  lemma CategoryCountsAgree(ls: seq<Lesson>, completed: seq<int>)
    requires DistinctIds(ls) && OrderedSet.NoDup(completed) && KnownIds(ls, completed)
    ensures CompletedTally(ls, completed, Sidebar.Categories(ls)) == CompletedCount(completed)
  {
    CompletedTallyPartition(ls, completed, Sidebar.Categories(ls));
    CompletedInCount(ls, completed);
  }

  // ---------------------------------------------------------------------
  // The lesson list
  // ---------------------------------------------------------------------

  /** One row of the lesson list. */
  datatype Row = Row(id: int, category: string, title: string, description: string, completed: bool)

  /** The row of a lesson (ProgressPage.tsx:139-183). */
  function RowOf(l: Lesson, completed: seq<int>): Row {
    Row(l.id, l.category, l.title, l.description, l.id in completed)
  }

  /** All rows, in the lessons' order. */
  function Rows(ls: seq<Lesson>, completed: seq<int>): seq<Row> {
    seq(|ls|, i requires 0 <= i < |ls| => RowOf(ls[i], completed))
  }

  /** How many rows carry the completion mark. */
  function MarkedRows(rows: seq<Row>): (n: nat)
    ensures n <= |rows|
  {
    if rows == [] then 0
    else MarkedRows(rows[..|rows| - 1]) + (if rows[|rows| - 1].completed then 1 else 0)
  }

  /** The marked rows are exactly the completed lessons, in number. */
  lemma {:induction false} MarkedRowsAreCompleted(ls: seq<Lesson>, completed: seq<int>)
    ensures MarkedRows(Rows(ls, completed)) == |CompletedIn(ls, completed)|
  {
    if ls != [] {
      var init := ls[..|ls| - 1];
      MarkedRowsAreCompleted(init, completed);
      assert Rows(ls, completed)[..|ls| - 1] == Rows(init, completed);
    }
  }

  /**
   * The list marks as many rows as the headline counts completed lessons,
   * when the lesson ids are distinct and the set holds only their ids.
   */
  lemma MarksAgreeWithCount(ls: seq<Lesson>, completed: seq<int>)
    requires DistinctIds(ls) && OrderedSet.NoDup(completed) && KnownIds(ls, completed)
    ensures MarkedRows(Rows(ls, completed)) == CompletedCount(completed)
  {
    MarkedRowsAreCompleted(ls, completed);
    CompletedInCount(ls, completed);
  }

  /** What the page asks of the application. */
  datatype Callback = SelectLesson(id: int) | NavigateToLesson

  /** Clicking a row: select its lesson, then go to the lesson page (ProgressPage.tsx:144-147). */
  function RowClick(r: Row): (cbs: seq<Callback>)
    ensures |cbs| == 2 && cbs[0].SelectLesson? && cbs[0].id == r.id && cbs[1].NavigateToLesson?
  {
    [SelectLesson(r.id), NavigateToLesson]
  }
}
