/**
 * The application shell (App.tsx): which lesson is current, which page is
 * shown, and the set of completed lessons, which only grows and is written
 * to storage as `Array.from` of the set after every change.
 *
 * The completed set is an `OrderedSet` sequence, so the stored array is the
 * sequence itself. Storage is the field `stored`; reading it back at start
 * up is not part of the model.
 */
module App {

  import opened Wrappers
  import opened Lessons
  import OrderedSet
  import PP = ProgressPage

  /** The two pages of the header's switch. */
  datatype Page = LessonPage | ProgressPage

  /** `lessons.find(lesson => lesson.id === id)`: the first lesson with that id. */
  function Find(ls: seq<Lesson>, id: int): (r: Option<Lesson>)
    ensures r.None? <==> forall i :: 0 <= i < |ls| ==> ls[i].id != id
    ensures r.Some? ==> r.value.id == id
    ensures r.Some? ==> exists i :: 0 <= i < |ls| && ls[i] == r.value && forall j :: 0 <= j < i ==> ls[j].id != id
  {
    if ls == [] then None
    else if ls[0].id == id then Some(ls[0])
    else
      var r := Find(ls[1..], id);
      if r.Some? then
        var i :| 0 <= i < |ls| - 1 && ls[1..][i] == r.value
          && (forall j :: 0 <= j < i ==> ls[1..][j].id != id);
        assert ls[i + 1] == r.value;
        r
      else r
  }

  /** Among lessons with distinct ids, the lesson found is the one with that id. */
  lemma FindDistinct(ls: seq<Lesson>, i: nat)
    requires i < |ls| && forall j, k :: 0 <= j < k < |ls| ==> ls[j].id != ls[k].id
    ensures Find(ls, ls[i].id) == Some(ls[i])
  {
    var r := Find(ls, ls[i].id);
    var k :| 0 <= k < |ls| && ls[k] == r.value
      && (forall j :: 0 <= j < k ==> ls[j].id != ls[i].id);
    assert !(i < k) && !(k < i);
  }

  /** In the catalogue, the ids 1 to 10 and no others find a lesson, the lesson with that id. */
  lemma CatalogueLookup(id: int)
    ensures Find(Catalogue, id).Some? <==> 1 <= id <= 10
    ensures 1 <= id <= 10 ==> Find(Catalogue, id) == Some(Catalogue[id - 1])
  {
    CatalogueShape();
    if 1 <= id <= 10 {
      CatalogueIdsDistinct();
      FindDistinct(Catalogue, id - 1);
    }
  }

  /** App.tsx's state. */
  class Application {
    const lessons: seq<Lesson>
    var currentLessonId: int
    var currentPage: Page
    /** `completedLessons`, in insertion order. */
    var completed: seq<int>
    /** What `localStorage` holds under "completedLessons", once written. */
    var stored: Option<seq<int>>

    /** The set has no duplicates, and storage holds it whenever it was written. */
    ghost predicate Valid()
      reads this
    {
      OrderedSet.NoDup(completed) && (stored.Some? ==> stored.value == completed)
    }

    /** The initial state: lesson 1, the lesson page, nothing completed. */
    constructor ()
      ensures Valid()
      ensures lessons == Catalogue && currentLessonId == 1 && currentPage == LessonPage
      ensures completed == [] && stored == None
    {
      lessons := Catalogue;
      currentLessonId := 1;
      currentPage := LessonPage;
      completed := [];
      stored := None;
    }

    /** `currentLesson`. */
    function CurrentLesson(): Option<Lesson>
      reads this
    {
      Find(lessons, currentLessonId)
    }

    /** The lesson content and the editor are shown: the lesson page, with a current lesson. */
    predicate ShowsEditor()
      reads this
    {
      currentPage == LessonPage && CurrentLesson().Some?
    }

    /** The code the editor starts from: the current lesson's example. */
    function EditorCode(): (code: string)
      requires ShowsEditor()
      reads this
      ensures exists i :: 0 <= i < |lessons| && lessons[i].id == currentLessonId && lessons[i].example == code
    {
      CurrentLesson().value.example
    }

    /**
     * markLessonComplete: the new set is the old one with `id` added (a copy;
     * the old contents stay its prefix), and storage receives it.
     */
    method MarkLessonComplete(id: int)
      requires Valid()
      modifies this
      ensures Valid()
      ensures completed == OrderedSet.Add(old(completed), id)
      ensures forall x :: x in completed <==> x in old(completed) || x == id
      ensures completed[..|old(completed)|] == old(completed)
      ensures id in old(completed) ==> completed == old(completed)
      ensures stored == Some(completed)
      ensures currentLessonId == old(currentLessonId) && currentPage == old(currentPage)
    {
      var newCompleted := OrderedSet.Add(completed, id);
      completed := newCompleted;
      stored := Some(newCompleted);
    }

    /** The editor's `onComplete`: the current lesson is marked completed. */
    method OnRunComplete()
      requires Valid()
      modifies this
      ensures Valid()
      ensures completed == OrderedSet.Add(old(completed), old(currentLessonId))
      ensures old(currentLessonId) in completed
      ensures stored == Some(completed)
      ensures currentLessonId == old(currentLessonId) && currentPage == old(currentPage)
    {
      MarkLessonComplete(currentLessonId);
    }

    /** `setCurrentLessonId`, given to the sidebar and the progress page. */
    method SelectLesson(id: int)
      modifies this
      ensures currentLessonId == id
      ensures currentPage == old(currentPage) && completed == old(completed) && stored == old(stored)
    {
      currentLessonId := id;
    }

    /** `setCurrentPage`, given to the header. */
    method ChangePage(p: Page)
      modifies this
      ensures currentPage == p
      ensures currentLessonId == old(currentLessonId) && completed == old(completed) && stored == old(stored)
    {
      currentPage := p;
    }

    /** The progress page's `onNavigateToLesson`. */
    method NavigateToLesson()
      modifies this
      ensures currentPage == LessonPage
      ensures currentLessonId == old(currentLessonId) && completed == old(completed) && stored == old(stored)
    {
      currentPage := LessonPage;
    }

    /** One request of the progress page, run on the application's state. */
    method Perform(cb: PP.Callback)
      modifies this
      ensures cb.SelectLesson? ==> currentLessonId == cb.id && currentPage == old(currentPage)
      ensures cb.NavigateToLesson? ==> currentPage == LessonPage && currentLessonId == old(currentLessonId)
      ensures completed == old(completed) && stored == old(stored)
    {
      if cb.SelectLesson? {
        SelectLesson(cb.id);
      } else {
        NavigateToLesson();
      }
    }

    /**
     * A click on a progress row: the page's requests, run in order, select
     * the row's lesson and then show the lesson page, which shows the editor
     * exactly when that lesson exists; among lessons with distinct ids it is
     * the clicked row's lesson.
     */
    method OnProgressRowClick(l: Lesson, c: seq<int>)
      modifies this
      ensures currentLessonId == l.id && currentPage == LessonPage
      ensures ShowsEditor() <==> Find(lessons, l.id).Some?
      ensures l in lessons && PP.DistinctIds(lessons) ==> ShowsEditor() && CurrentLesson() == Some(l)
      ensures completed == old(completed) && stored == old(stored)
    {
      var cbs := PP.RowClick(PP.RowOf(l, c));
      Perform(cbs[0]);
      Perform(cbs[1]);
      if l in lessons && PP.DistinctIds(lessons) {
        var i :| 0 <= i < |lessons| && lessons[i] == l;
        FindDistinct(lessons, i);
      }
    }
  }

  /** At start up the lesson page shows lesson 1 and its example. */
  lemma StartShowsFirstLesson(a: Application)
    requires a.lessons == Catalogue && a.currentLessonId == 1 && a.currentPage == LessonPage
    ensures a.ShowsEditor() && a.CurrentLesson() == Some(Catalogue[0])
    ensures a.EditorCode() == Example1
  {
    CatalogueLookup(1);
  }
}
