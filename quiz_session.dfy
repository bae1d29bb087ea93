/** The state of one quiz while a learner works through it (`QuizElement`
    in CourseContentScreen.tsx): the current question, the `answers` array,
    the per-question matching, shuffle and ordering maps, and the
    completed flag, with one method per handler. */
module QuizSession {
  import opened Results
  import opened Lists
  import opened Text
  import opened QuizModel
  import opened QuizEval

  /** A right-hand item of a matching question as the screen lists it: the
      pair it comes from, tagged with that pair's index. */
  datatype RightItem = RightItem(left: string, right: string, originalIndex: int)

  /** `pairs.map((pair, idx) => ({...pair, originalIndex: idx}))`. */
  function Tagged(ps: seq<Pair>): (r: seq<RightItem>)
    ensures |r| == |ps|
    ensures forall k :: 0 <= k < |ps| ==> r[k] == RightItem(ps[k].left, ps[k].right, k)
  {
    seq(|ps|, k requires 0 <= k < |ps| => RightItem(ps[k].left, ps[k].right, k))
  }

  /** The right-hand column after shuffling: the tagged pairs in the order
      the caller's index permutation gives. Every pair appears once, with
      its own index. */
  function ShuffleRight(ps: seq<Pair>, perm: seq<int>): (r: seq<RightItem>)
    requires IsIndexPermutation(perm, |ps|)
    ensures multiset(r) == multiset(Tagged(ps))
    ensures forall k :: 0 <= k < |r| ==>
              0 <= r[k].originalIndex < |ps|
              && r[k].left == ps[r[k].originalIndex].left && r[k].right == ps[r[k].originalIndex].right
  {
    PermuteMultiset(Tagged(ps), perm);
    Pick(Tagged(ps), perm)
  }

  /** The items of an ordering question after shuffling. */
  function ShuffleOrder(items: seq<string>, perm: seq<int>): (r: seq<string>)
    requires IsIndexPermutation(perm, |items|)
    ensures multiset(r) == multiset(items)
  {
    PermuteMultiset(items, perm);
    Pick(items, perm)
  }

  /** How many entries the shuffle of a question rearranges. */
  function ShuffleSize(k: Kind): nat {
    match k
    case Matching(ps) => |ps|
    case Ordering(items) => |items|
    case _ => 0
  }

  /** The slot an item moves to: one up or one down. */
  function MoveTarget(from: int, up: bool): int {
    if up then from - 1 else from + 1
  }

  /** `moveOrderingItem` on one list: swap with the neighbour above or
      below when there is one, otherwise leave the list alone. */
  function MoveItem(items: seq<string>, from: nat, up: bool): (r: seq<string>)
    requires from < |items|
    ensures |r| == |items| && multiset(r) == multiset(items)
    ensures var to := MoveTarget(from, up);
            if 0 <= to < |items| then
              r[from] == items[to] && r[to] == items[from]
              && forall k :: 0 <= k < |items| && k != from && k != to ==> r[k] == items[k]
            else r == items
  {
    var to := MoveTarget(from, up);
    if 0 <= to < |items| then Swap(items, from, to) else items
  }

  /** `moveOrderingItem` on the map of lists: the list of question `i`,
      read as empty when it is missing, with item `from` moved; the map
      is written only when the item has a neighbour in that direction. */
  function MoveIn(m: map<nat, seq<string>>, i: nat, from: nat, up: bool): (r: map<nat, seq<string>>)
    requires i in m ==> from < |m[i]|
    ensures i !in m ==> r == m
    ensures i in m ==> r == m[i := MoveItem(m[i], from, up)]
  {
    var items := if i in m then m[i] else [];
    var to := MoveTarget(from, up);
    if 0 <= to < |items| then m[i := Swap(items, from, to)] else m
  }

  /** Moving an item up and then moving it back down restores the list. */
  lemma MoveUpThenDown(items: seq<string>, from: nat)
    requires 0 < from < |items|
    ensures MoveItem(MoveItem(items, from, true), from - 1, false) == items
  {
    var once := MoveItem(items, from, true);
    var twice := MoveItem(once, from - 1, false);
    assert forall k :: 0 <= k < |items| ==> twice[k] == items[k];
  }

  /** Moving the first item up, or the last item down, changes nothing. */
  lemma MoveAtEdgeIsNoOp(items: seq<string>)
    requires items != []
    ensures MoveItem(items, 0, true) == items
    ensures MoveItem(items, |items| - 1, false) == items
  {
  }

  /** A shuffled column belongs to a matching question and holds each of
      its tagged pairs once. */
  predicate ColumnFits(k: Kind, column: seq<RightItem>) {
    k.Matching? && multiset(column) == multiset(Tagged(k.pairs))
  }

  /** An ordering list belongs to an ordering question and holds its items,
      each as often as `correctOrder` does. */
  predicate ListFits(k: Kind, items: seq<string>) {
    k.Ordering? && multiset(items) == multiset(k.correctOrder)
  }

  /** A stored entry of a per-question map, if there is one. */
  function Lookup<V>(m: map<nat, V>, i: nat): (r: Option<V>)
    ensures r.Some? <==> i in m
    ensures r.Some? ==> r.value == m[i]
  {
    if i in m then Some(m[i]) else None
  }

  /** Answer `i`, if there is one, has the shape of question `i`'s kind,
      and a multi-select answer repeats no option. */
  predicate AnswerFitsAt(qs: seq<Question>, answers: seq<Answer>, i: int) {
    0 <= i < |answers| && i < |qs| ==>
      Fits(qs[i].kind, answers[i]) && (answers[i].Selections? ==> NoDup(answers[i].indices))
  }

  /** One answer per question, each fitting its question. */
  ghost predicate AnswersFit(qs: seq<Question>, answers: seq<Answer>) {
    |answers| == |qs| && forall i :: AnswerFitsAt(qs, answers, i)
  }

  /** The shuffled column of question `i`, if there is one, belongs to a
      matching question of the quiz. */
  predicate ColumnFitsAt(qs: seq<Question>, shuffled: map<nat, seq<RightItem>>, i: nat) {
    i in shuffled ==> i < |qs| && ColumnFits(qs[i].kind, shuffled[i])
  }

  /** Every shuffled column belongs to a matching question of the quiz. */
  ghost predicate ColumnsFit(qs: seq<Question>, shuffled: map<nat, seq<RightItem>>) {
    forall i: nat :: ColumnFitsAt(qs, shuffled, i)
  }

  /** The ordering list of question `i`, if there is one, belongs to an
      ordering question of the quiz. */
  predicate ListFitsAt(qs: seq<Question>, ordering: map<nat, seq<string>>, i: nat) {
    i in ordering ==> i < |qs| && ListFits(qs[i].kind, ordering[i])
  }

  /** Every ordering list belongs to an ordering question of the quiz. */
  ghost predicate ListsFit(qs: seq<Question>, ordering: map<nat, seq<string>>) {
    forall i: nat :: ListFitsAt(qs, ordering, i)
  }

  lemma AnswerUpdateFits(qs: seq<Question>, answers: seq<Answer>, i: nat, a: Answer)
    requires AnswersFit(qs, answers) && i < |qs| && Fits(qs[i].kind, a)
    requires a.Selections? ==> NoDup(a.indices)
    ensures AnswersFit(qs, answers[i := a])
  {
    var after := answers[i := a];
    forall j ensures AnswerFitsAt(qs, after, j) {
      assert AnswerFitsAt(qs, answers, j);
    }
  }

  lemma ColumnUpdateFits(qs: seq<Question>, m: map<nat, seq<RightItem>>, i: nat, c: seq<RightItem>)
    requires ColumnsFit(qs, m) && i < |qs| && ColumnFits(qs[i].kind, c)
    ensures ColumnsFit(qs, m[i := c])
  {
    var after := m[i := c];
    forall j: nat ensures ColumnFitsAt(qs, after, j) {
      assert ColumnFitsAt(qs, m, j);
    }
  }

  lemma ListUpdateFits(qs: seq<Question>, m: map<nat, seq<string>>, i: nat, items: seq<string>)
    requires ListsFit(qs, m) && i < |qs| && ListFits(qs[i].kind, items)
    ensures ListsFit(qs, m[i := items])
  {
    var after := m[i := items];
    forall j: nat ensures ListFitsAt(qs, after, j) {
      assert ListFitsAt(qs, m, j);
    }
  }

  class Session {
    const questions: seq<Question>
    var index: nat
    var answers: seq<Answer>
    var matching: map<nat, map<int, int>>
    var selectedLeft: Option<int>
    var shuffled: map<nat, seq<RightItem>>
    var ordering: map<nat, seq<string>>
    var completed: bool
    /** The index the question-change effect last ran for, or -1 before
        its first run. */
    var effectIndex: int

    /** The index stays on a question, there is one answer per question in
        the shape of that question's kind, selections never repeat, and
        the shuffled columns and ordering lists are permutations of what
        their questions define. */
    ghost predicate Valid()
      reads this
    {
      0 < |questions| && index < |questions| && |answers| == |questions|
      && AnswersFit(questions, answers) && ColumnsFit(questions, shuffled) && ListsFit(questions, ordering)
    }

    /** Every question whose right-hand column has been shuffled also has a
        matching map, and so counts as answered. */
    ghost predicate ShownIsAnswered()
      reads this
    {
      forall i :: i in shuffled ==> i in matching
    }

    /** The state the screen starts in and returns to on focus and on
        retake. */
    ghost predicate IsFresh()
      reads this
    {
      index == 0 && answers == seq(|questions|, _ => Unset)
      && matching == map[] && selectedLeft == None && shuffled == map[] && ordering == map[]
      && !completed
    }

    /** The question-change effect is due: React runs it after a render
        whose index differs from the one of its last run, and after the
        first render. */
    predicate EffectPending()
      reads this
    {
      effectIndex != index
    }

    /** What the screen holds about question `i`. */
    function ResponseAt(i: nat): (r: Response)
      reads this
      requires i < |answers|
      ensures r.answer == answers[i]
      ensures r.matching == Lookup(matching, i) && r.ordering == Lookup(ordering, i)
    {
      Response(answers[i], Lookup(matching, i), Lookup(ordering, i))
    }

    function Responses(): (rs: seq<Response>)
      reads this
      ensures |rs| == |answers|
      ensures forall i :: 0 <= i < |answers| ==> rs[i] == ResponseAt(i)
    {
      seq(|answers|, i reads this requires 0 <= i < |answers| => ResponseAt(i))
    }

    /** `isQuestionAnswered()` for the current question. */
    predicate CurrentAnswered()
      reads this
      requires Valid()
    {
      IsAnswered(questions[index].kind, ResponseAt(index))
    }

    /** `isAnswered && checkAnswer()`: the feedback shown under the
        current question. */
    predicate CurrentCorrect()
      reads this
      requires Valid()
    {
      CurrentAnswered() && IsCorrect(questions[index].kind, ResponseAt(index))
    }

    /** Mounting the quiz with its decoded questions: the `useState`
        initial values. */
    constructor (qs: seq<Question>)
      requires 0 < |qs|
      ensures questions == qs
      ensures Valid() && IsFresh() && ShownIsAnswered()
      ensures EffectPending()
    {
      questions := qs;
      index := 0;
      answers := seq(|qs|, _ => Unset);
      matching := map[];
      selectedLeft := None;
      shuffled := map[];
      ordering := map[];
      completed := false;
      effectIndex := -1;
    }

    /** The focus reset, and the Retake button on the completed screen:
        back to the first question with every answer cleared. */
    method Reset()
      modifies this
      requires Valid()
      ensures Valid() && IsFresh() && ShownIsAnswered()
      ensures effectIndex == old(effectIndex)
      ensures EffectPending() <==> old(effectIndex) != 0
    {
      index := 0;
      answers := seq(|questions|, _ => Unset);
      matching := map[];
      selectedLeft := None;
      shuffled := map[];
      ordering := map[];
      completed := false;
    }

    /** React's turn at the effect keyed on `currentQuestionIndex`: when it
        is due it runs, initialising a matching or an ordering question and
        leaving the other kinds alone; otherwise nothing happens. A reset
        while the index is already 0 therefore leaves question 0 without
        its column or list. */
    method InitializeCurrent(perm: seq<int>)
      modifies this
      requires Valid()
      requires IsIndexPermutation(perm, ShuffleSize(questions[index].kind))
      ensures Valid()
      ensures index == old(index) && answers == old(answers) && selectedLeft == old(selectedLeft)
      ensures completed == old(completed)
      ensures !EffectPending()
      ensures !old(EffectPending()) || (!questions[index].kind.Matching? && !questions[index].kind.Ordering?) ==>
                shuffled == old(shuffled) && matching == old(matching) && ordering == old(ordering)
      ensures old(ShownIsAnswered()) ==> ShownIsAnswered()
      ensures old(ShownIsAnswered()) && old(EffectPending())
              && (questions[index].kind.Matching? || questions[index].kind.Ordering?) ==>
                CurrentAnswered()
      ensures old(EffectPending()) && questions[index].kind.Matching? ==>
                && ordering == old(ordering)
                && if index in old(shuffled) then shuffled == old(shuffled) && matching == old(matching)
                   else shuffled == old(shuffled)[index := ShuffleRight(questions[index].kind.pairs, perm)]
                        && matching == (if index in old(matching) then old(matching) else old(matching)[index := map[]])
      ensures old(EffectPending()) && questions[index].kind.Ordering? ==>
                && shuffled == old(shuffled) && matching == old(matching)
                && ordering == if index in old(ordering) then old(ordering)
                               else old(ordering)[index := ShuffleOrder(questions[index].kind.correctOrder, perm)]
    {
      if effectIndex != index {
        effectIndex := index;
        if questions[index].kind.Matching? {
          InitializeMatching(perm);
        } else if questions[index].kind.Ordering? {
          InitializeOrdering(perm);
        }
      }
    }

    /** `initializeMatching`: a matching question without a shuffled
        column gets one, shuffled by `perm`, and an empty matching map
        unless it has one; a question with a column keeps everything. */
    method InitializeMatching(perm: seq<int>)
      modifies this
      requires Valid() && questions[index].kind.Matching?
      requires IsIndexPermutation(perm, |questions[index].kind.pairs|)
      ensures Valid()
      ensures index == old(index) && answers == old(answers) && selectedLeft == old(selectedLeft)
      ensures ordering == old(ordering) && completed == old(completed)
      ensures effectIndex == old(effectIndex)
      ensures if index in old(shuffled) then shuffled == old(shuffled) && matching == old(matching)
              else shuffled == old(shuffled)[index := ShuffleRight(questions[index].kind.pairs, perm)]
                   && matching == (if index in old(matching) then old(matching) else old(matching)[index := map[]])
      ensures old(ShownIsAnswered()) ==> ShownIsAnswered() && index in matching
      ensures index in shuffled
    {
      if index !in shuffled {
        var column := ShuffleRight(questions[index].kind.pairs, perm);
        ColumnUpdateFits(questions, shuffled, index, column);
        shuffled := shuffled[index := column];
        if index !in matching {
          matching := matching[index := map[]];
        }
      }
    }

    /** `initializeOrdering`: an ordering question without a list gets
        its items shuffled by `perm`; one with a list keeps it. */
    method InitializeOrdering(perm: seq<int>)
      modifies this
      requires Valid() && questions[index].kind.Ordering?
      requires IsIndexPermutation(perm, |questions[index].kind.correctOrder|)
      ensures Valid()
      ensures index == old(index) && answers == old(answers) && selectedLeft == old(selectedLeft)
      ensures shuffled == old(shuffled) && matching == old(matching) && completed == old(completed)
      ensures effectIndex == old(effectIndex)
      ensures ordering == if index in old(ordering) then old(ordering)
                          else old(ordering)[index := ShuffleOrder(questions[index].kind.correctOrder, perm)]
      ensures index in ordering
    {
      if index !in ordering {
        var items := ShuffleOrder(questions[index].kind.correctOrder, perm);
        ListUpdateFits(questions, ordering, index, items);
        ordering := ordering[index := items];
      }
    }

    /** Tapping option `choice` of a multiple-choice or true/false question:
        the choice replaces the empty answer, and the options lock. */
    method SelectChoice(choice: nat)
      modifies this
      requires Valid() && !CurrentAnswered()
      requires questions[index].kind.MultipleChoice? || questions[index].kind.TrueFalse?
      requires choice < |questions[index].kind.options|
      ensures Valid()
      ensures answers == old(answers)[index := Choice(choice)]
      ensures index == old(index) && matching == old(matching) && selectedLeft == old(selectedLeft)
      ensures shuffled == old(shuffled) && ordering == old(ordering) && completed == old(completed)
      ensures effectIndex == old(effectIndex)
      ensures CurrentAnswered()
      ensures CurrentCorrect() <==> choice == questions[index].kind.correctAnswer
    {
      AnswerUpdateFits(questions, answers, index, Choice(choice));
      answers := answers[index := Choice(choice)];
    }

    /** Tapping option `option` of a multi-select question: it is added
        when absent and removed when present. As the question counts as
        answered once anything is selected, the options lock after the
        first tap. */
    method ToggleSelection(option: nat)
      modifies this
      requires Valid() && !CurrentAnswered()
      requires questions[index].kind.MultiSelect?
      requires option < |questions[index].kind.options|
      ensures Valid()
      ensures var before := SelectionsOf(old(answers)[index]);
              answers[index].Selections?
              && (option in answers[index].indices <==> option !in before)
              && (forall x :: x != option ==> (x in answers[index].indices <==> x in before))
      ensures answers == old(answers)[index := answers[index]]
      ensures index == old(index) && matching == old(matching) && selectedLeft == old(selectedLeft)
      ensures shuffled == old(shuffled) && ordering == old(ordering) && completed == old(completed)
      ensures effectIndex == old(effectIndex)
      ensures answers[index] == Selections([option])
      ensures CurrentAnswered()
    {
      var before := SelectionsOf(answers[index]);
      var after := Toggle(before, option);
      AnswerUpdateFits(questions, answers, index, Selections(after));
      answers := answers[index := Selections(after)];
    }

    /** Typing into a fill-in-blank question: the text is kept as typed.
        The field locks as soon as the text is not blank. */
    method TypeText(text: string)
      modifies this
      requires Valid() && !CurrentAnswered()
      requires questions[index].kind.FillInBlank?
      ensures Valid()
      ensures answers == old(answers)[index := Typed(text)]
      ensures index == old(index) && matching == old(matching) && selectedLeft == old(selectedLeft)
      ensures shuffled == old(shuffled) && ordering == old(ordering) && completed == old(completed)
      ensures effectIndex == old(effectIndex)
      ensures CurrentAnswered() <==> !IsBlank(text)
    {
      AnswerUpdateFits(questions, answers, index, Typed(text));
      answers := answers[index := Typed(text)];
      TrimEmptyIffBlank(text);
    }

    /** Tapping left item `left` of the shown matching question selects it,
        unless the question is answered. */
    method TapLeft(left: nat)
      modifies this
      requires Valid() && questions[index].kind.Matching? && index in shuffled
      requires left < |questions[index].kind.pairs|
      ensures Valid()
      ensures selectedLeft == if old(CurrentAnswered()) then old(selectedLeft) else Some(left)
      ensures index == old(index) && answers == old(answers) && matching == old(matching)
      ensures shuffled == old(shuffled) && ordering == old(ordering) && completed == old(completed)
      ensures effectIndex == old(effectIndex)
      ensures old(ShownIsAnswered()) ==> selectedLeft == old(selectedLeft)
    {
      if !CurrentAnswered() {
        selectedLeft := Some(left);
      }
    }

    /** Tapping the right item shown at `display`: when a left item is
        selected and the question is not answered, the left item is
        matched to the right item's original index, every other match is
        kept, and the selection is cleared. */
    method TapRight(display: nat)
      modifies this
      requires Valid() && questions[index].kind.Matching? && index in shuffled
      requires display < |shuffled[index]|
      ensures Valid()
      ensures index == old(index) && answers == old(answers)
      ensures shuffled == old(shuffled) && ordering == old(ordering) && completed == old(completed)
      ensures effectIndex == old(effectIndex)
      ensures if !old(CurrentAnswered()) && old(selectedLeft).Some? then
                matching == old(matching)[index := Lookup(old(matching), index).GetOr(map[])
                                                     [old(selectedLeft).value := old(shuffled)[index][display].originalIndex]]
                && selectedLeft == None
              else
                matching == old(matching) && selectedLeft == old(selectedLeft)
      ensures old(ShownIsAnswered()) ==> matching == old(matching)
    {
      if !CurrentAnswered() && selectedLeft.Some? {
        var current := Lookup(matching, index).GetOr(map[]);
        matching := matching[index := current[selectedLeft.value := shuffled[index][display].originalIndex]];
        selectedLeft := None;
      }
    }

    /** The Reset button of an unanswered matching question: a new
        shuffle, an empty matching map and no selection. */
    method ResetMatching(perm: seq<int>)
      modifies this
      requires Valid() && !CurrentAnswered()
      requires questions[index].kind.Matching? && index in shuffled
      requires IsIndexPermutation(perm, |questions[index].kind.pairs|)
      ensures Valid()
      ensures index == old(index) && answers == old(answers)
      ensures ordering == old(ordering) && completed == old(completed)
      ensures effectIndex == old(effectIndex)
      ensures shuffled == old(shuffled)[index := ShuffleRight(questions[index].kind.pairs, perm)]
      ensures matching == old(matching)[index := map[]] && selectedLeft == None
      ensures old(ShownIsAnswered()) ==> ShownIsAnswered()
    {
      var column := ShuffleRight(questions[index].kind.pairs, perm);
      ColumnUpdateFits(questions, shuffled, index, column);
      shuffled, matching, selectedLeft := shuffled[index := column], matching[index := map[]], None;
    }

    /** An ordering question whose list exists counts as answered, so the
        screen never shows its arrows. */
    lemma ListedOrderingIsAnswered()
      requires Valid() && questions[index].kind.Ordering? && index in ordering
      ensures CurrentAnswered()
    {
    }

    /** The up or down arrow beside item `from` of an ordering question.
        The arrows are shown only while the question is unanswered, so an
        item moves only then; a missing list reads as empty. As a listed
        ordering question is always answered, no call changes anything. */
    method MoveOrderingItem(from: nat, up: bool)
      modifies this
      requires Valid() && questions[index].kind.Ordering?
      requires index in ordering ==> from < |ordering[index]|
      ensures Valid()
      ensures index == old(index) && answers == old(answers) && matching == old(matching)
      ensures selectedLeft == old(selectedLeft) && shuffled == old(shuffled) && completed == old(completed)
      ensures effectIndex == old(effectIndex)
      ensures ordering == if old(CurrentAnswered()) then old(ordering) else MoveIn(old(ordering), index, from, up)
      ensures ordering == old(ordering)
    {
      if !CurrentAnswered() {
        ordering := MoveIn(ordering, index, from, up);
      }
    }

    /** The Next (or, on the last question, Finish) button, shown once the
        current question is answered. */
    method Next()
      modifies this
      requires Valid() && !completed && CurrentAnswered()
      ensures Valid()
      ensures if old(index) < |questions| - 1 then index == old(index) + 1 && !completed
              else index == old(index) && completed
      ensures answers == old(answers) && matching == old(matching) && selectedLeft == old(selectedLeft)
      ensures shuffled == old(shuffled) && ordering == old(ordering) && effectIndex == old(effectIndex)
    {
      if index < |questions| - 1 {
        index := index + 1;
      } else {
        completed := true;
      }
    }

    /** The Back button: one question back, nothing on the first. */
    method Previous()
      modifies this
      requires Valid() && !completed
      ensures Valid()
      ensures index == if old(index) > 0 then old(index) - 1 else old(index)
      ensures answers == old(answers) && matching == old(matching) && selectedLeft == old(selectedLeft)
      ensures shuffled == old(shuffled) && ordering == old(ordering) && completed == old(completed)
      ensures effectIndex == old(effectIndex)
    {
      if index > 0 {
        index := index - 1;
      }
    }

    /** The body of the `questions.forEach` in `calculateScore`: question
        `i` judged by the rules written out per kind, which agree with
        `checkAnswer`. */
    method Judge(i: nat) returns (hit: bool)
      requires Valid() && i < |questions|
      ensures hit <==> IsCorrect(questions[i].kind, ResponseAt(i))
    {
      hit := false;
      match questions[i].kind {
        case MultipleChoice(_, c) =>
          hit := answers[i] == Choice(c);
        case TrueFalse(_, c) =>
          hit := answers[i] == Choice(c);
        case MultiSelect(_, cs) =>
          var user := if answers[i].Selections? then answers[i].indices else [];
          hit := |user| == |cs| && forall k :: 0 <= k < |user| ==> user[k] in cs;
        case FillInBlank(t, caseSensitive) =>
          var user := if answers[i].Typed? then answers[i].text else "";
          hit := if caseSensitive then user == t else Lower(user) == Lower(t);
        case Matching(ps) =>
          var m := if i in matching then matching[i] else map[];
          if |m.Keys| == |ps| {
            hit := forall left :: left in m ==> m[left] == left;
          }
        case Ordering(order) =>
          var user := if i in ordering then ordering[i] else [];
          hit := user == order;
        case Unknown(_) =>
      }
    }

    /** `calculateScore`: the right answers counted question by question,
        then the rounded percentage. */
    method CalculateScore() returns (score: int)
      requires Valid()
      ensures score == Score(questions, Responses())
      ensures 0 <= score <= 100
    {
      ghost var rs := Responses();
      assert |rs| == |questions|;
      var correct := 0;
      var i := 0;
      while i < |questions|
        invariant 0 <= i <= |questions|
        invariant correct == CountCorrect(questions[..i], rs[..i])
      {
        var hit := Judge(i);
        assert rs[i] == ResponseAt(i);
        CountCorrectStep(questions, rs, i);
        if hit {
          correct := correct + 1;
        }
        i := i + 1;
      }
      assert questions[..i] == questions && rs[..i] == rs;
      score := Percent(correct, |questions|);
    }
  }
}
