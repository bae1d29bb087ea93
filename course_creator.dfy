/** The course being edited in CourseCreatorScreen.tsx: its title and its
    list of elements, the element opened in the editor, and the checks
    made before the course is written to the store. */
module CourseCreator {
  import opened Results
  import opened Json
  import opened Text
  import opened Accounts

  /** `ElementType`; `'question'` is the open question element. */
  datatype ElementType = Article | Video | FunFact | Quiz | OpenQuestion

  /** One glossary entry of an article. */
  datatype Term = Term(term: string, definition: string)

  /** `CourseElement`: `content` holds JSON for a quiz and text otherwise;
      `glossary` is only present once an article has been saved. */
  datatype Element = Element(
    id: string,
    kind: ElementType,
    title: string,
    content: Document,
    order: int,
    glossary: Option<seq<Term>>)

  /** The document `saveCourse` writes, without the timestamps' text form
      and the icon and colour, which are copied as chosen. */
  datatype CourseRecord = CourseRecord(
    id: string,
    title: string,
    elements: seq<Element>,
    userId: string,
    creatorId: string,
    isPublic: bool,
    published: bool,
    creatorName: string,
    views: nat,
    likes: nat,
    totalElements: nat,
    updatedAt: int)

  datatype SaveOutcome =
    | TitleMissing          // "Please enter a course title"
    | NotLoggedIn           // "You must be logged in to save a course"
    | Saved(record: CourseRecord)

  /** No element of `es` has the id `id`. */
  predicate Absent(es: seq<Element>, id: string) {
    forall j :: 0 <= j < |es| ==> es[j].id != id
  }

  /** `es.findIndex(e => e.id === id)`: the first element with that id, or
      -1. */
  function IndexById(es: seq<Element>, id: string): (k: int)
    ensures -1 <= k < |es|
    ensures k == -1 <==> Absent(es, id)
    ensures 0 <= k ==> es[k].id == id && Absent(es[..k], id)
  {
    if es == [] then -1
    else if es[0].id == id then 0
    else
      var k := IndexById(es[1..], id);
      if k == -1 then -1
      else
        assert es[..k + 1] == [es[0]] + es[1..][..k];
        k + 1
  }

  /** The element list after `saveElement(e)`: `e` replaces the first
      element with its id, or is appended when no element has it. */
  function Upsert(es: seq<Element>, e: Element): (r: seq<Element>)
    ensures Absent(es, e.id) ==> r == es + [e]
    ensures !Absent(es, e.id) ==> |r| == |es|
    ensures forall j :: 0 <= j < |es| && j != IndexById(es, e.id) ==> r[j] == es[j]
    ensures IndexById(r, e.id) >= 0 && r[IndexById(r, e.id)] == e
  {
    var i := IndexById(es, e.id);
    if i == -1 then
      var r := es + [e];
      assert r[..|es|] == es;
      var m := IndexById(r, e.id);
      assert r[|es|].id == e.id;
      assert m == |es|;
      r
    else
      var r := es[i := e];
      assert r[..i] == es[..i];
      var m := IndexById(r, e.id);
      assert r[i].id == e.id;
      assert m == i;
      r
  }

  /** Saving the same element twice is saving it once. */
  lemma UpsertIdempotent(es: seq<Element>, e: Element)
    ensures Upsert(Upsert(es, e), e) == Upsert(es, e)
  {
    var r := Upsert(es, e);
    var i := IndexById(r, e.id);
    assert !Absent(r, e.id);
    assert Upsert(r, e) == r[i := e];
  }

  /** When no two elements share an id, none do after a save. */
  lemma UpsertKeepsIdsUnique(es: seq<Element>, e: Element)
    requires forall a, b :: 0 <= a < b < |es| ==> es[a].id != es[b].id
    ensures var r := Upsert(es, e);
            forall a, b :: 0 <= a < b < |r| ==> r[a].id != r[b].id
  {
    var r := Upsert(es, e);
    var i := IndexById(es, e.id);
    forall a, b | 0 <= a < b < |r| ensures r[a].id != r[b].id {
      if i == -1 {
        if b == |es| { assert r[a] == es[a]; }
        else { assert r[a] == es[a] && r[b] == es[b]; }
      } else if a == i {
        assert r[b] == es[b];
      } else if b == i {
        assert r[a] == es[a];
      } else {
        assert r[a] == es[a] && r[b] == es[b];
      }
    }
  }

  /** The course state of the creator screen. */
  class CourseDraft {
    const id: string
    var title: string
    var elements: seq<Element>
    var updatedAt: int
    /** The element open in the editor (`currentElement`). */
    var current: Option<Element>

    /** The `course` state the screen starts with. The caller resolves the
        `existingCourse?.field || default` fallbacks: `now` is the existing
        course's `updatedAt`, or the current time. */
    constructor(id: string, title: string, elements: seq<Element>, now: int)
      ensures this.id == id && this.title == title && this.elements == elements
      ensures updatedAt == now && current == None
    {
      this.id := id;
      this.title := title;
      this.elements := elements;
      updatedAt := now;
      current := None;
    }

    /** `addElement(type)`: opens a new, empty element placed after the
        existing ones; `id` is the time-stamp the source takes. */
    method AddElement(kind: ElementType, id: string)
      modifies this
      ensures current == Some(Element(id, kind, "", Unparsable(""), |elements|, None))
      ensures title == old(title) && elements == old(elements) && updatedAt == old(updatedAt)
    {
      current := Some(Element(id, kind, "", Unparsable(""), |elements|, None));
    }

    /** The `findIndex` loop. */
    static method FindIndex(es: seq<Element>, id: string) returns (k: int)
      ensures k == IndexById(es, id)
    {
      k := 0;
      while k < |es|
        invariant 0 <= k <= |es|
        invariant Absent(es[..k], id)
      {
        if es[k].id == id {
          return;
        }
        assert es[..k + 1] == es[..k] + [es[k]];
        k := k + 1;
      }
      assert es[..k] == es;
      k := -1;
    }

    /** `saveElement(e)`: upserts by id, stamps the course and closes the
        editor. */
    method SaveElement(e: Element, now: int)
      modifies this
      ensures elements == Upsert(old(elements), e)
      ensures updatedAt == now && current == None && title == old(title)
    {
      var i := FindIndex(elements, e.id);
      if i == -1 {
        elements := elements + [e];
      } else {
        elements := elements[i := e];
      }
      updatedAt := now;
      current := None;
    }

    /** `saveCourse`: a title that is blank once trimmed is refused before
        the user is even looked up; without a signed-in user nothing is
        written; otherwise the record handed to the store. */
    method SaveCourse(user: Option<User>, now: int) returns (outcome: SaveOutcome)
      ensures IsBlank(title) <==> outcome == TitleMissing
      ensures !IsBlank(title) && user.None? ==> outcome == NotLoggedIn
      ensures outcome.Saved? ==> user.Some? && outcome.record.title == title && outcome.record.elements == elements
      ensures outcome.Saved? ==> outcome.record.userId == user.value.uid && outcome.record.creatorId == user.value.uid
      ensures outcome.Saved? ==> outcome.record.isPublic && !outcome.record.published
      ensures outcome.Saved? ==> outcome.record.totalElements == |elements| && outcome.record.views == 0 && outcome.record.likes == 0
      ensures outcome.Saved? ==> outcome.record.creatorName == NameOrAnonymous(user.value)
      ensures outcome.Saved? ==> outcome.record.id == id && outcome.record.updatedAt == now
    {
      TrimEmptyIffBlank(title);
      if Trim(title) == "" {
        return TitleMissing;
      }
      if user.None? {
        return NotLoggedIn;
      }
      var u := user.value;
      outcome := Saved(CourseRecord(id, title, elements, u.uid, u.uid, true, false,
                                    NameOrAnonymous(u), 0, 0, |elements|, now));
    }
  }
}
