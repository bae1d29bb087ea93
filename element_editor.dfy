/** The element editor of CourseCreatorScreen.tsx (`ElementEditor`): the
    element being edited, the glossary of an article and the questions of
    a quiz, with the handlers that edit them in place and the save that
    writes them back into the element. */
module ElementEditing {
  import opened Results
  import opened Json
  import opened Lists
  import opened QuizModel
  import opened CourseCreator

  /** The question fields `updateQuestion` is called with. */
  datatype QuestionField =
    | QuestionText(text: string)       // 'question'
    | CorrectAnswer(index: int)        // 'correctAnswer'
    | CorrectText(answer: string)      // 'correctText'
    | CaseSensitive(on: bool)          // 'caseSensitive'

  datatype Side = Left | Right

  datatype TermField = TermWord | Definition

  /** The kinds that carry an `options` array. */
  predicate HasOptions(k: Kind) {
    k.MultipleChoice? || k.TrueFalse? || k.MultiSelect?
  }

  /** The answer key of an option kind is left as it was. */
  predicate SameAnswerKey(r: Kind, k: Kind)
    requires HasOptions(k)
  {
    if k.MultiSelect? then r.MultiSelect? && r.correctAnswers == k.correctAnswers
    else (r.MultipleChoice? || r.TrueFalse?) && r.correctAnswer == k.correctAnswer
  }

  /** The same kind with its options replaced and its answer key kept. */
  function WithOptions(k: Kind, opts: seq<string>): (r: Kind)
    requires HasOptions(k)
    ensures Tag(r) == Tag(k) && HasOptions(r) && r.options == opts && SameAnswerKey(r, k)
  {
    if k.MultipleChoice? then MultipleChoice(opts, k.correctAnswer)
    else if k.TrueFalse? then TrueFalse(opts, k.correctAnswer)
    else MultiSelect(opts, k.correctAnswers)
  }

  /** `s.splice(i, 1)` guarded by `s.length > 2`: at most the entry at `i`
      goes, and a list of two or fewer entries is kept whole; an index past
      the end removes nothing. */
  function RemoveGuarded<T>(s: seq<T>, i: nat): (r: seq<T>)
    ensures |s| > 2 && i < |s| ==> |r| == |s| - 1 && r[..i] == s[..i] && r[i..] == s[i + 1..]
    ensures !(|s| > 2 && i < |s|) ==> r == s
    ensures |r| >= 2 || r == s
  {
    if |s| > 2 then WithoutIndex(s, i) else s
  }

  /** The question `addQuestion(tag)` appends, with the defaults of its
      kind; `id` is the time-stamp the source takes. */
  function NewQuestion(tag: string, id: string): (q: Question)
    ensures q.id == id && q.text == "" && Tag(q.kind) == tag && WellTagged(q)
  {
    var kind :=
      if tag == "multipleChoice" then MultipleChoice(["", "", "", ""], 0)
      else if tag == "trueFalse" then TrueFalse(["True", "False"], 0)
      else if tag == "multiSelect" then MultiSelect(["", "", "", ""], [])
      else if tag == "matching" then Matching([Pair("", ""), Pair("", ""), Pair("", "")])
      else if tag == "fillInBlank" then FillInBlank("", false)
      else if tag == "ordering" then Ordering(["", "", ""])
      else Unknown(tag);
    Question(id, "", kind)
  }

  /** A new question of a known kind starts with a correct answer that
      points inside its options, and with lists long enough to keep through
      the guarded removals. */
  lemma NewQuestionDefaults(tag: string, id: string)
    requires tag in KnownTags
    ensures var k := NewQuestion(tag, id).kind;
            && (k.MultipleChoice? ==> |k.options| == 4 && k.correctAnswer == 0)
            && (k.TrueFalse? ==> k.options == ["True", "False"] && k.correctAnswer == 0)
            && (k.MultiSelect? ==> |k.options| == 4 && k.correctAnswers == [])
            && (k.Matching? ==> |k.pairs| == 3)
            && (k.FillInBlank? ==> k.correctText == "" && !k.caseSensitive)
            && (k.Ordering? ==> |k.correctOrder| == 3)
            && !k.Unknown?
  {
  }

  /** `{...q, [field]: value}`. A field the question's kind does not read
      is written by the source as a stray property that decoding ignores,
      so the question the engine sees is unchanged. */
  function WithField(q: Question, f: QuestionField): (r: Question)
    ensures r.id == q.id && Tag(r.kind) == Tag(q.kind)
    ensures f.QuestionText? ==> r.text == f.text && r.kind == q.kind
    ensures !f.QuestionText? ==> r.text == q.text
    ensures f.CorrectAnswer? && (q.kind.MultipleChoice? || q.kind.TrueFalse?) ==>
              (r.kind.MultipleChoice? || r.kind.TrueFalse?) && r.kind.options == q.kind.options && r.kind.correctAnswer == f.index
    ensures f.CorrectText? && q.kind.FillInBlank? ==>
              r.kind.FillInBlank? && r.kind.correctText == f.answer && r.kind.caseSensitive == q.kind.caseSensitive
    ensures f.CaseSensitive? && q.kind.FillInBlank? ==>
              r.kind.FillInBlank? && r.kind.caseSensitive == f.on && r.kind.correctText == q.kind.correctText
    ensures r.kind != q.kind ==>
              (f.CorrectAnswer? && (q.kind.MultipleChoice? || q.kind.TrueFalse?))
              || (!f.QuestionText? && !f.CorrectAnswer? && q.kind.FillInBlank?)
  {
    match f
    case QuestionText(t) => q.(text := t)
    case CorrectAnswer(n) =>
      if q.kind.MultipleChoice? || q.kind.TrueFalse? then q.(kind := q.kind.(correctAnswer := n)) else q
    case CorrectText(t) =>
      if q.kind.FillInBlank? then q.(kind := q.kind.(correctText := t)) else q
    case CaseSensitive(b) =>
      if q.kind.FillInBlank? then q.(kind := q.kind.(caseSensitive := b)) else q
  }

  /** `options[oi] = value` on a question with options. */
  function UpdateOptionOf(k: Kind, oi: nat, value: string): (r: Kind)
    requires HasOptions(k) ==> oi < |k.options|
    ensures Tag(r) == Tag(k)
    ensures !HasOptions(k) ==> r == k
    ensures HasOptions(k) ==> SameAnswerKey(r, k) && |r.options| == |k.options| && r.options[oi] == value
    ensures HasOptions(k) ==> forall j :: 0 <= j < |k.options| && j != oi ==> r.options[j] == k.options[j]
  {
    if HasOptions(k) then WithOptions(k, k.options[oi := value]) else k
  }

  /** `options.push('')`. */
  function AddOptionTo(k: Kind): (r: Kind)
    ensures Tag(r) == Tag(k)
    ensures !HasOptions(k) ==> r == k
    ensures HasOptions(k) ==> SameAnswerKey(r, k) && |r.options| == |k.options| + 1
                              && r.options[..|k.options|] == k.options && r.options[|k.options|] == ""
  {
    if HasOptions(k) then WithOptions(k, k.options + [""]) else k
  }

  /** `options.splice(oi, 1)` when there are more than two options. The
      answer key is not re-indexed. */
  function RemoveOptionFrom(k: Kind, oi: nat): (r: Kind)
    ensures Tag(r) == Tag(k)
    ensures !(HasOptions(k) && |k.options| > 2 && oi < |k.options|) ==> r == k
    ensures HasOptions(k) && |k.options| > 2 && oi < |k.options| ==>
              SameAnswerKey(r, k) && r.options == RemoveAt(k.options, oi)
  {
    if HasOptions(k) then
      var opts := RemoveGuarded(k.options, oi);
      if opts == k.options then k else WithOptions(k, opts)
    else k
  }

  /** Because the key is not re-indexed, removing any option in front of a
      correct one leaves that key in place, so it now names the option that
      followed it, or points past the end when it named the last one. */
  lemma RemoveOptionKeepsStaleKey(k: Kind, oi: nat, key: int)
    requires HasOptions(k) && |k.options| > 2 && oi < key < |k.options|
    requires if k.MultiSelect? then key in k.correctAnswers else key == k.correctAnswer
    ensures var r := RemoveOptionFrom(k, oi);
            && (if r.MultiSelect? then key in r.correctAnswers else key == r.correctAnswer)
            && (key < |r.options| ==> r.options[key] == k.options[key + 1])
            && (key == |k.options| - 1 ==> key == |r.options|)
  {
    var r := RemoveOptionFrom(k, oi);
    assert SameAnswerKey(r, k);
  }

  /** `pairs[pi][side] = value`. */
  function UpdatePairOf(k: Kind, pi: nat, side: Side, value: string): (r: Kind)
    requires k.Matching? ==> pi < |k.pairs|
    ensures !k.Matching? ==> r == k
    ensures k.Matching? ==> r.Matching? && |r.pairs| == |k.pairs|
    ensures k.Matching? ==> forall j :: 0 <= j < |k.pairs| && j != pi ==> r.pairs[j] == k.pairs[j]
    ensures k.Matching? && side == Left ==> r.pairs[pi] == Pair(value, k.pairs[pi].right)
    ensures k.Matching? && side == Right ==> r.pairs[pi] == Pair(k.pairs[pi].left, value)
  {
    if k.Matching? then
      var p := k.pairs[pi];
      Matching(k.pairs[pi := if side == Left then p.(left := value) else p.(right := value)])
    else k
  }

  /** `pairs.push({left: '', right: ''})`. */
  function AddPairTo(k: Kind): (r: Kind)
    ensures !k.Matching? ==> r == k
    ensures k.Matching? ==> r.Matching? && |r.pairs| == |k.pairs| + 1 && r.pairs[..|k.pairs|] == k.pairs && r.pairs[|k.pairs|..] == [Pair("", "")]
  {
    if k.Matching? then Matching(k.pairs + [Pair("", "")]) else k
  }

  /** `pairs.splice(pi, 1)` when there are more than two pairs. */
  function RemovePairFrom(k: Kind, pi: nat): (r: Kind)
    ensures !(k.Matching? && |k.pairs| > 2 && pi < |k.pairs|) ==> r == k
    ensures k.Matching? && |k.pairs| > 2 && pi < |k.pairs| ==> r == Matching(RemoveAt(k.pairs, pi))
    ensures r.Matching? ==> |r.pairs| >= 2 || r == k
  {
    if k.Matching? then Matching(RemoveGuarded(k.pairs, pi)) else k
  }

  /** `correctOrder[ii] = value`. */
  function UpdateItemOf(k: Kind, ii: nat, value: string): (r: Kind)
    requires k.Ordering? ==> ii < |k.correctOrder|
    ensures !k.Ordering? ==> r == k
    ensures k.Ordering? ==> r.Ordering? && |r.correctOrder| == |k.correctOrder| && r.correctOrder[ii] == value
    ensures k.Ordering? ==> forall j :: 0 <= j < |k.correctOrder| && j != ii ==> r.correctOrder[j] == k.correctOrder[j]
  {
    if k.Ordering? then Ordering(k.correctOrder[ii := value]) else k
  }

  /** `correctOrder.push('')`. */
  function AddItemTo(k: Kind): (r: Kind)
    ensures !k.Ordering? ==> r == k
    ensures k.Ordering? ==> r.Ordering? && |r.correctOrder| == |k.correctOrder| + 1 && r.correctOrder[..|k.correctOrder|] == k.correctOrder
                            && r.correctOrder[|k.correctOrder|..] == [""]
  {
    if k.Ordering? then Ordering(k.correctOrder + [""]) else k
  }

  /** `correctOrder.splice(ii, 1)` when there are more than two items. */
  function RemoveItemFrom(k: Kind, ii: nat): (r: Kind)
    ensures !(k.Ordering? && |k.correctOrder| > 2 && ii < |k.correctOrder|) ==> r == k
    ensures k.Ordering? && |k.correctOrder| > 2 && ii < |k.correctOrder| ==>
              r == Ordering(RemoveAt(k.correctOrder, ii))
    ensures r.Ordering? ==> |r.correctOrder| >= 2 || r == k
  {
    if k.Ordering? then Ordering(RemoveGuarded(k.correctOrder, ii)) else k
  }

  /** `toggleMultiSelectAnswer` on a question of kind `before` leaves
      `after`: on a multi-select question, an absent index is appended to
      the answer key and the first occurrence of a present one is removed;
      on another kind the source only writes a stray `correctAnswers`
      property that the engine never reads. */
  predicate Toggled(before: Kind, after: Kind, oi: int) {
    if before.MultiSelect? then
      var cs := before.correctAnswers;
      && after.MultiSelect? && after.options == before.options
      && (oi !in cs ==> after.correctAnswers == cs + [oi])
      && (oi in cs ==> exists i :: 0 <= i < |cs| && cs[i] == oi && oi !in cs[..i]
                                   && after.correctAnswers == RemoveAt(cs, i))
    else after == before
  }

  /** The `indexOf`, `splice` and `push` steps of the toggle. */
  method ToggleAnswerKey(k: Kind, oi: int) returns (r: Kind)
    ensures Toggled(k, r, oi)
  {
    if k.MultiSelect? {
      var cs := Toggle(k.correctAnswers, oi);
      r := MultiSelect(k.options, cs);
    } else {
      r := k;
    }
  }

  /** On an answer key without repeats, the toggle flips membership of
      the toggled index, keeps every other index, and repeats nothing. */
  lemma ToggledFlips(before: Kind, after: Kind, oi: int)
    requires before.MultiSelect? && Toggled(before, after, oi) && NoDup(before.correctAnswers)
    ensures NoDup(after.correctAnswers)
    ensures oi in after.correctAnswers <==> oi !in before.correctAnswers
    ensures forall x :: x != oi ==> (x in after.correctAnswers <==> x in before.correctAnswers)
  {
    var cs := before.correctAnswers;
    if oi in cs {
      var i :| 0 <= i < |cs| && cs[i] == oi && oi !in cs[..i] && after.correctAnswers == RemoveAt(cs, i);
      RemoveAtNoDup(cs, i);
    } else {
      var r := after.correctAnswers;
      forall a, b | 0 <= a < b < |r| ensures r[a] != r[b] {
        if b == |cs| { assert r[a] == cs[a]; }
      }
    }
  }

  /** The questions the editor opens with (the `useState` initialiser): the
      decoded questions of a quiz element, and none when the element is not
      a quiz or its content does not decode. */
  function InitialQuestions(e: Element): (qs: seq<Question>)
    ensures e.kind != Quiz || e.content.Unparsable? ==> qs == []
    ensures forall k :: 0 <= k < |qs| ==> WellTagged(qs[k])
  {
    if e.kind == Quiz then
      match DecodeQuiz(e.content)
      case Ok(qs) => qs
      case Err(_) => []
    else []
  }

  /** The glossary the editor opens with: an article's saved glossary, and
      none otherwise. */
  function InitialGlossary(e: Element): (g: seq<Term>)
    ensures e.kind == Article && e.glossary.Some? ==> g == e.glossary.value
    ensures e.kind != Article || e.glossary.None? ==> g == []
  {
    if e.kind == Article && e.glossary.Some? then e.glossary.value else []
  }

  /** What `handleSave` hands to `onSave`: a quiz carries its questions
      as JSON in `content`, an article carries its glossary, and any other
      element is saved as edited. */
  function SavedElement(e: Element, g: seq<Term>, qs: seq<Question>): (r: Element)
    ensures r.id == e.id && r.kind == e.kind && r.title == e.title && r.order == e.order
    ensures e.kind != Quiz ==> r.content == e.content
    ensures e.kind != Article ==> r.glossary == e.glossary
  {
    if e.kind == Quiz then e.(content := EncodeQuiz(qs))
    else if e.kind == Article then e.(glossary := Some(g))
    else e
  }

  /** Reopening a saved quiz gives back the questions it was saved with. */
  lemma ReopenSavedQuiz(e: Element, g: seq<Term>, qs: seq<Question>)
    requires e.kind == Quiz
    requires forall k :: 0 <= k < |qs| ==> WellTagged(qs[k])
    ensures InitialQuestions(SavedElement(e, g, qs)) == qs
  {
    QuizRoundTrip(qs);
  }

  /** Reopening a saved article gives back its glossary. */
  lemma ReopenSavedArticle(e: Element, g: seq<Term>, qs: seq<Question>)
    requires e.kind == Article
    ensures InitialGlossary(SavedElement(e, g, qs)) == g
  {
  }

  class ElementEditor {
    /** `editedElement`. */
    var element: Element
    var glossary: seq<Term>
    /** `quizQuestions`. */
    var questions: seq<Question>

    /** Every question can be saved and read back. */
    ghost predicate Valid()
      reads this
    {
      forall k :: 0 <= k < |questions| ==> WellTagged(questions[k])
    }

    /** Opens `existing`, or a new empty article with the id `freshId`. */
    constructor(existing: Option<Element>, freshId: string)
      ensures Valid()
      ensures element == (if existing.Some? then existing.value else Element(freshId, Article, "", Unparsable(""), 0, None))
      ensures glossary == InitialGlossary(element) && questions == InitialQuestions(element)
    {
      element := if existing.Some? then existing.value else Element(freshId, Article, "", Unparsable(""), 0, None);
      new;
      glossary := InitialGlossary(element);
      questions := InitialQuestions(element);
    }

    /** `addGlossaryTerm`. */
    method AddGlossaryTerm()
      modifies this
      ensures glossary == old(glossary) + [Term("", "")]
      ensures element == old(element) && questions == old(questions)
    {
      glossary := glossary + [Term("", "")];
    }

    /** `updateGlossaryTerm(i, field, value)`. */
    method UpdateGlossaryTerm(i: nat, field: TermField, value: string)
      requires i < |glossary|
      modifies this
      ensures |glossary| == |old(glossary)|
      ensures forall j :: 0 <= j < |glossary| && j != i ==> glossary[j] == old(glossary)[j]
      ensures field == TermWord ==> glossary[i] == Term(value, old(glossary)[i].definition)
      ensures field == Definition ==> glossary[i] == Term(old(glossary)[i].term, value)
      ensures element == old(element) && questions == old(questions)
    {
      var t := glossary[i];
      glossary := glossary[i := if field == TermWord then t.(term := value) else t.(definition := value)];
    }

    /** `deleteGlossaryTerm(i)`. */
    method DeleteGlossaryTerm(i: int)
      modifies this
      ensures glossary == WithoutIndex(old(glossary), i)
      ensures element == old(element) && questions == old(questions)
    {
      glossary := WithoutIndex(glossary, i);
    }

    /** `addQuestion(tag)`. */
    method AddQuestion(tag: string, id: string)
      requires Valid()
      modifies this
      ensures Valid()
      ensures questions == old(questions) + [NewQuestion(tag, id)]
      ensures element == old(element) && glossary == old(glossary)
    {
      var q := NewQuestion(tag, id);
      questions := questions + [q];
      assert questions[|questions| - 1] == q;
    }

    /** Replaces the kind of question `qi`, keeping its id and text. */
    method SetKind(qi: nat, k: Kind)
      requires Valid() && qi < |questions| && WellTagged(questions[qi].(kind := k))
      modifies this
      ensures Valid()
      ensures questions == old(questions)[qi := old(questions)[qi].(kind := k)]
      ensures element == old(element) && glossary == old(glossary)
    {
      questions := questions[qi := questions[qi].(kind := k)];
      assert questions[qi].kind == k;
    }

    /** `updateQuestion(qi, field, value)`. */
    method UpdateQuestion(qi: nat, f: QuestionField)
      requires Valid() && qi < |questions|
      modifies this
      ensures Valid()
      ensures questions == old(questions)[qi := WithField(old(questions)[qi], f)]
      ensures element == old(element) && glossary == old(glossary)
    {
      questions := questions[qi := WithField(questions[qi], f)];
    }

    /** `updateOption(qi, oi, value)`. */
    method UpdateOption(qi: nat, oi: nat, value: string)
      requires Valid() && qi < |questions|
      requires HasOptions(questions[qi].kind) ==> oi < |questions[qi].kind.options|
      modifies this
      ensures Valid()
      ensures questions == old(questions)[qi := old(questions)[qi].(kind := UpdateOptionOf(old(questions)[qi].kind, oi, value))]
      ensures element == old(element) && glossary == old(glossary)
    {
      SetKind(qi, UpdateOptionOf(questions[qi].kind, oi, value));
    }

    /** `addOption(qi)`. */
    method AddOption(qi: nat)
      requires Valid() && qi < |questions|
      modifies this
      ensures Valid()
      ensures questions == old(questions)[qi := old(questions)[qi].(kind := AddOptionTo(old(questions)[qi].kind))]
      ensures element == old(element) && glossary == old(glossary)
    {
      SetKind(qi, AddOptionTo(questions[qi].kind));
    }

    /** `removeOption(qi, oi)`. */
    method RemoveOption(qi: nat, oi: nat)
      requires Valid() && qi < |questions|
      modifies this
      ensures Valid()
      ensures questions == old(questions)[qi := old(questions)[qi].(kind := RemoveOptionFrom(old(questions)[qi].kind, oi))]
      ensures element == old(element) && glossary == old(glossary)
    {
      SetKind(qi, RemoveOptionFrom(questions[qi].kind, oi));
    }

    /** `toggleMultiSelectAnswer(qi, oi)`. */
    method ToggleMultiSelectAnswer(qi: nat, oi: int)
      requires Valid() && qi < |questions|
      modifies this
      ensures Valid()
      ensures |questions| == |old(questions)|
      ensures questions == old(questions)[qi := old(questions)[qi].(kind := questions[qi].kind)]
      ensures Toggled(old(questions)[qi].kind, questions[qi].kind, oi)
      ensures element == old(element) && glossary == old(glossary)
    {
      var k := ToggleAnswerKey(questions[qi].kind, oi);
      SetKind(qi, k);
    }

    /** `updateMatchingPair(qi, pi, side, value)`. */
    method UpdateMatchingPair(qi: nat, pi: nat, side: Side, value: string)
      requires Valid() && qi < |questions|
      requires questions[qi].kind.Matching? ==> pi < |questions[qi].kind.pairs|
      modifies this
      ensures Valid()
      ensures questions == old(questions)[qi := old(questions)[qi].(kind := UpdatePairOf(old(questions)[qi].kind, pi, side, value))]
      ensures element == old(element) && glossary == old(glossary)
    {
      SetKind(qi, UpdatePairOf(questions[qi].kind, pi, side, value));
    }

    /** `addMatchingPair(qi)`. */
    method AddMatchingPair(qi: nat)
      requires Valid() && qi < |questions|
      modifies this
      ensures Valid()
      ensures questions == old(questions)[qi := old(questions)[qi].(kind := AddPairTo(old(questions)[qi].kind))]
      ensures element == old(element) && glossary == old(glossary)
    {
      SetKind(qi, AddPairTo(questions[qi].kind));
    }

    /** `removeMatchingPair(qi, pi)`. */
    method RemoveMatchingPair(qi: nat, pi: nat)
      requires Valid() && qi < |questions|
      modifies this
      ensures Valid()
      ensures questions == old(questions)[qi := old(questions)[qi].(kind := RemovePairFrom(old(questions)[qi].kind, pi))]
      ensures element == old(element) && glossary == old(glossary)
    {
      SetKind(qi, RemovePairFrom(questions[qi].kind, pi));
    }

    /** `updateOrderingItem(qi, ii, value)`. */
    method UpdateOrderingItem(qi: nat, ii: nat, value: string)
      requires Valid() && qi < |questions|
      requires questions[qi].kind.Ordering? ==> ii < |questions[qi].kind.correctOrder|
      modifies this
      ensures Valid()
      ensures questions == old(questions)[qi := old(questions)[qi].(kind := UpdateItemOf(old(questions)[qi].kind, ii, value))]
      ensures element == old(element) && glossary == old(glossary)
    {
      SetKind(qi, UpdateItemOf(questions[qi].kind, ii, value));
    }

    /** `addOrderingItem(qi)`. */
    method AddOrderingItem(qi: nat)
      requires Valid() && qi < |questions|
      modifies this
      ensures Valid()
      ensures questions == old(questions)[qi := old(questions)[qi].(kind := AddItemTo(old(questions)[qi].kind))]
      ensures element == old(element) && glossary == old(glossary)
    {
      SetKind(qi, AddItemTo(questions[qi].kind));
    }

    /** `removeOrderingItem(qi, ii)`. */
    method RemoveOrderingItem(qi: nat, ii: nat)
      requires Valid() && qi < |questions|
      modifies this
      ensures Valid()
      ensures questions == old(questions)[qi := old(questions)[qi].(kind := RemoveItemFrom(old(questions)[qi].kind, ii))]
      ensures element == old(element) && glossary == old(glossary)
    {
      SetKind(qi, RemoveItemFrom(questions[qi].kind, ii));
    }

    /** `deleteQuestion(i)`. */
    method DeleteQuestion(i: int)
      requires Valid()
      modifies this
      ensures Valid()
      ensures questions == WithoutIndex(old(questions), i)
      ensures element == old(element) && glossary == old(glossary)
    {
      questions := WithoutIndex(questions, i);
    }

    /** `handleSave`. */
    method HandleSave() returns (saved: Element)
      requires Valid()
      ensures saved == SavedElement(element, glossary, questions)
      ensures element.kind == Quiz ==> InitialQuestions(saved) == questions
      ensures element.kind == Article ==> InitialGlossary(saved) == glossary
    {
      saved := SavedElement(element, glossary, questions);
      if element.kind == Quiz {
        ReopenSavedQuiz(element, glossary, questions);
      }
    }
  }
}
