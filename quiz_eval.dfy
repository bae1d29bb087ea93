/** When a quiz question counts as answered and when its answer is right:
    `isQuestionAnswered` and `checkAnswer` in CourseContentScreen.tsx, the
    per-question rules `calculateScore` repeats, and the percentage it
    rounds. */
module QuizEval {
  import opened Results
  import opened Lists
  import opened Text
  import opened QuizModel

  /** One entry of the `answers` array: `null`, the index of the chosen
      option, the array of selected option indices, or the typed text. */
  datatype Answer = Unset | Choice(index: int) | Selections(indices: seq<int>) | Typed(text: string)

  /** What the screen holds about one question: its `answers` entry and
      its entries in `matchingAnswers` (left index to the original index
      of the right item) and `orderingAnswers`, either of which may be
      missing. */
  datatype Response = Response(answer: Answer, matching: Option<map<int, int>>, ordering: Option<seq<string>>)

  /** The answer has the shape the recorder of the question's kind
      writes. */
  predicate Fits(k: Kind, a: Answer) {
    match a
    case Unset => true
    case Choice(_) => k.MultipleChoice? || k.TrueFalse?
    case Selections(_) => k.MultiSelect?
    case Typed(_) => k.FillInBlank?
  }

  /** `answers[i] || []` on a multi-select question. */
  function SelectionsOf(a: Answer): seq<int> {
    if a.Selections? then a.indices else []
  }

  /** `answers[i] || ''` on a fill-in-blank question. */
  function TypedOf(a: Answer): string {
    if a.Typed? then a.text else ""
  }

  /** `isQuestionAnswered`. */
  predicate IsAnswered(k: Kind, r: Response) {
    match k
    case MultipleChoice(_, _) => !r.answer.Unset?
    case TrueFalse(_, _) => !r.answer.Unset?
    case MultiSelect(_, _) => r.answer.Selections? && |r.answer.indices| > 0
    case FillInBlank(_, _) => r.answer.Typed? && |Trim(r.answer.text)| > 0
    case Matching(_) => r.matching.Some?
    case Ordering(_) => r.ordering.Some?
    case Unknown(_) => false
  }

  /** Same length, and every selected index is a correct one. */
  predicate MultiSelectCorrect(user: seq<int>, correct: seq<int>) {
    |user| == |correct| && forall k :: 0 <= k < |user| ==> user[k] in correct
  }

  /** The typed text as entered, compared exactly or after lower-casing
      both sides. */
  predicate FillInBlankCorrect(user: string, correct: string, caseSensitive: bool) {
    if caseSensitive then user == correct else Lower(user) == Lower(correct)
  }

  /** As many matched left items as there are pairs, and each matched to
      the right item that came from its own pair. */
  predicate MatchingCorrect(m: map<int, int>, pairCount: nat) {
    |m.Keys| == pairCount && forall left :: left in m ==> m[left] == left
  }

  /** `checkAnswer`. */
  predicate IsCorrect(k: Kind, r: Response) {
    match k
    case MultipleChoice(_, c) => r.answer == Choice(c)
    case TrueFalse(_, c) => r.answer == Choice(c)
    case MultiSelect(_, cs) => MultiSelectCorrect(SelectionsOf(r.answer), cs)
    case FillInBlank(t, cs) => FillInBlankCorrect(TypedOf(r.answer), t, cs)
    case Matching(ps) => MatchingCorrect(r.matching.GetOr(map[]), |ps|)
    case Ordering(order) => r.ordering.GetOr([]) == order
    case Unknown(_) => false
  }

  /** A question of a kind the engine does not know is never answered and
      never right. */
  lemma UnknownNeverCounts(tag: string, r: Response)
    ensures !IsAnswered(Unknown(tag), r) && !IsCorrect(Unknown(tag), r)
  {
  }

  /** A choice question is right exactly when the chosen option is the
      correct one; no choice at all is wrong. */
  lemma ChoiceCorrect(k: Kind, r: Response)
    requires k.MultipleChoice? || k.TrueFalse?
    ensures IsCorrect(k, r) <==> r.answer.Choice? && r.answer.index == k.correctAnswer
    ensures r.answer.Unset? ==> !IsAnswered(k, r) && !IsCorrect(k, r)
  {
  }

  /** With no repeated index on either side, a multi-select answer is
      right exactly when it selects the set of correct indices. */
  lemma MultiSelectCorrectIffSameSet(user: seq<int>, correct: seq<int>)
    requires NoDup(user) && NoDup(correct)
    ensures MultiSelectCorrect(user, correct) <==> Elements(user) == Elements(correct)
  {
    NoDupCard(user);
    NoDupCard(correct);
    if MultiSelectCorrect(user, correct) {
      assert Elements(user) <= Elements(correct);
      SubsetCardEqual(Elements(user), Elements(correct));
    }
    if Elements(user) == Elements(correct) {
      forall k | 0 <= k < |user| ensures user[k] in correct {
        assert user[k] in Elements(user);
      }
    }
  }

  /** A text accepted case-sensitively is accepted case-insensitively. */
  lemma CaseSensitiveIsStricter(user: string, correct: string)
    ensures FillInBlankCorrect(user, correct, true) ==> FillInBlankCorrect(user, correct, false)
  {
  }

  /** A fill-in-blank question is answered exactly when the typed text is
      not blank. */
  lemma FillInBlankAnswered(t: string, cs: bool, r: Response)
    ensures IsAnswered(FillInBlank(t, cs), r) <==> r.answer.Typed? && !IsBlank(r.answer.text)
  {
    if r.answer.Typed? {
      TrimEmptyIffBlank(r.answer.text);
    }
  }

  /** The identity pairing of `n` left items with their own right items. */
  function IdentityPairing(n: nat): (m: map<int, int>)
    ensures m.Keys == Elements(Range(n))
    ensures forall k :: k in m ==> 0 <= k < n && m[k] == k
  {
    map k | k in Range(n) :: k
  }

  /** When every matched left index is one of the `n` left items, the
      matching is right exactly when it is the identity pairing. */
  lemma MatchingCorrectIffIdentity(m: map<int, int>, n: nat)
    requires forall left :: left in m ==> 0 <= left < n
    ensures MatchingCorrect(m, n) <==> m == IdentityPairing(n)
  {
    var all := Elements(Range(n));
    NoDupCard(Range(n));
    if MatchingCorrect(m, n) {
      assert m.Keys <= all by {
        forall left | left in m ensures left in all {
          assert Range(n)[left] == left;
        }
      }
      SubsetCardEqual(m.Keys, all);
    }
  }

  /** An ordering answer is right exactly when it lists the items of
      `correctOrder` one by one in the same places. */
  lemma OrderingCorrectIffSamePlaces(order: seq<string>, r: Response)
    requires r.ordering.Some?
    ensures IsCorrect(Ordering(order), r) <==>
              |r.ordering.value| == |order| && forall k :: 0 <= k < |order| ==> r.ordering.value[k] == order[k]
  {
  }

  /** What the screen holds about a question nobody has touched: no
      answer, no matching map and no ordering list. */
  const Untouched: Response := Response(Unset, None, None)

  /** The question expects nothing: an empty key, an empty text, no pairs
      or no items. A choice question always expects an option. */
  predicate ExpectsNothing(k: Kind) {
    match k
    case MultiSelect(_, cs) => cs == []
    case FillInBlank(t, _) => t == ""
    case Matching(ps) => ps == []
    case Ordering(order) => order == []
    case _ => false
  }

  /** An untouched question is judged right exactly when it expects
      nothing, since `answers[i] || []`, `|| ''`, `|| {}` and `|| []` then
      supply an empty answer equal to the empty expectation; otherwise,
      and always for a choice or unknown question, it is judged wrong. */
  lemma EmptyExpectationsMatchNoAnswer(k: Kind)
    ensures IsCorrect(k, Untouched) <==> ExpectsNothing(k)
    ensures k.MultipleChoice? || k.TrueFalse? || k.Unknown? ==> !IsCorrect(k, Untouched)
  {
    match k
    case FillInBlank(t, cs) =>
      assert |Lower(t)| == |t|;
    case Matching(ps) =>
      var none: map<int, int> := map[];
      assert none.Keys == {};
    case _ =>
  }

  /** How many of the questions are right. */
  function CountCorrect(qs: seq<Question>, rs: seq<Response>): (c: nat)
    requires |qs| == |rs|
    ensures c <= |qs|
  {
    if qs == [] then 0
    else CountCorrect(qs[..|qs| - 1], rs[..|rs| - 1])
         + (if IsCorrect(qs[|qs| - 1].kind, rs[|rs| - 1]) then 1 else 0)
  }

  /** Every question is right exactly when the count is the number of
      questions, and none is exactly when the count is 0. */
  lemma {:induction false} CountCorrectExtremes(qs: seq<Question>, rs: seq<Response>)
    requires |qs| == |rs|
    ensures CountCorrect(qs, rs) == |qs| <==> forall k :: 0 <= k < |qs| ==> IsCorrect(qs[k].kind, rs[k])
    ensures CountCorrect(qs, rs) == 0 <==> forall k :: 0 <= k < |qs| ==> !IsCorrect(qs[k].kind, rs[k])
  {
    if qs != [] {
      var n := |qs| - 1;
      CountCorrectExtremes(qs[..n], rs[..n]);
      assert forall k :: 0 <= k < n ==> qs[..n][k] == qs[k] && rs[..n][k] == rs[k];
    }
  }

  /** Counting one more question adds one exactly when it is right. */
  lemma CountCorrectStep(qs: seq<Question>, rs: seq<Response>, i: nat)
    requires |qs| == |rs| && i < |qs|
    ensures CountCorrect(qs[..i + 1], rs[..i + 1])
            == CountCorrect(qs[..i], rs[..i]) + (if IsCorrect(qs[i].kind, rs[i]) then 1 else 0)
  {
    assert qs[..i + 1][..i] == qs[..i];
    assert rs[..i + 1][..i] == rs[..i];
  }

  /** `Math.round(correct / total * 100)` on exact numbers: the percentage
      rounded to the nearest integer, halves upwards. */
  function Percent(correct: nat, total: nat): (p: int)
    requires 0 < total && correct <= total
    ensures 0 <= p <= 100
    ensures 2 * total * p <= 200 * correct + total < 2 * total * (p + 1)
  {
    PercentBounds(correct, total);
    (200 * correct + total) / (2 * total)
  }

  lemma PercentBounds(correct: nat, total: nat)
    requires 0 < total && correct <= total
    ensures 0 <= (200 * correct + total) / (2 * total) <= 100
  {
    var n, d := 200 * correct + total, 2 * total;
    var q, r := n / d, n % d;
    assert n == q * d + r && 0 <= r < d;
    assert 0 * d < (q + 1) * d;
    MulStrict(0, q + 1, d);
    assert q * d < 101 * d;
    MulStrict(q, 101, d);
  }

  /** Multiplying by a positive number keeps the order. */
  lemma MulMono(a: int, b: int, d: int)
    requires a <= b && 0 < d
    ensures a * d <= b * d
  {
    var k := b - a;
    assert b * d == a * d + k * d;
  }

  /** Dividing out a positive factor keeps a strict order. */
  lemma MulStrict(a: int, b: int, d: int)
    requires 0 < d && a * d < b * d
    ensures a < b
  {
    if b <= a {
      MulMono(b, a, d);
    }
  }

  lemma DivideExactly(a: int, d: int, q: int, r: int)
    requires 0 <= r < d && a == q * d + r
    ensures a / d == q
  {
    var q', r' := a / d, a % d;
    assert a == q' * d + r' && 0 <= r' < d;
    assert (q - q') * d == r' - r;
    if q' < q {
      MulAtLeast(q - q', d);
    } else if q < q' {
      MulAtLeast(q' - q, d);
    }
  }

  lemma MulAtLeast(x: int, d: int)
    requires 1 <= x && 0 < d
    ensures x * d >= d
  {
  }

  /** All right scores 100 and none right scores 0. */
  lemma PercentExtremes(total: nat)
    requires 0 < total
    ensures Percent(total, total) == 100 && Percent(0, total) == 0
  {
    DivideExactly(201 * total, 2 * total, 100, total);
    DivideExactly(total, 2 * total, 0, total);
  }

  /** More right answers never lower the score. */
  lemma PercentMonotone(c1: nat, c2: nat, total: nat)
    requires 0 < total && c1 <= c2 <= total
    ensures Percent(c1, total) <= Percent(c2, total)
  {
    var p1, p2 := Percent(c1, total), Percent(c2, total);
    assert 200 * c1 <= 200 * c2;
    assert p1 * (2 * total) < (p2 + 1) * (2 * total);
    MulStrict(p1, p2 + 1, 2 * total);
  }

  /** `Percent` is the percentage rounded to the nearest whole number,
      halves up: the one `p` with `p - 1/2 <= 100 * correct / total < p + 1/2`. */
  lemma PercentIsNearest(correct: nat, total: nat, p: int)
    requires 0 < total && correct <= total
    requires 2 * total * p <= 200 * correct + total < 2 * total * (p + 1)
    ensures Percent(correct, total) == p
  {
    var q := Percent(correct, total);
    if q < p {
      MulMono(q + 1, p, 2 * total);
    } else if p < q {
      MulMono(p + 1, q, 2 * total);
    }
  }

  /** A whole percentage is shown as it is, and one that ends in a half is
      rounded up. */
  lemma PercentWholeAndHalves(correct: nat, total: nat, p: int)
    requires 0 < total && correct <= total
    ensures 100 * correct == p * total ==> Percent(correct, total) == p
    ensures 200 * correct == (2 * p + 1) * total ==> Percent(correct, total) == p + 1
  {
    if 100 * correct == p * total {
      assert 2 * total * p == 200 * correct;
      assert 2 * total * (p + 1) == 200 * correct + 2 * total;
      PercentIsNearest(correct, total, p);
    }
    if 200 * correct == (2 * p + 1) * total {
      assert 2 * total * (p + 1) == 200 * correct + total;
      assert 2 * total * (p + 2) == 200 * correct + 3 * total;
      PercentIsNearest(correct, total, p + 1);
    }
  }

  /** The response that gives back the question's own answer key: the
      correct option, the correct selections, the expected text, every
      left item matched to its own right item, the items in the correct
      order; nothing for an unknown kind. */
  function KeyResponse(k: Kind): Response {
    match k
    case MultipleChoice(_, c) => Response(Choice(c), None, None)
    case TrueFalse(_, c) => Response(Choice(c), None, None)
    case MultiSelect(_, cs) => Response(Selections(cs), None, None)
    case FillInBlank(t, _) => Response(Typed(t), None, None)
    case Matching(ps) => Response(Unset, Some(IdentityPairing(|ps|)), None)
    case Ordering(order) => Response(Unset, None, Some(order))
    case Unknown(_) => Untouched
  }

  /** Every kind the engine knows can be answered right: its answer key,
      given back, is judged right. */
  lemma KeyResponseIsCorrect(k: Kind)
    ensures IsCorrect(k, KeyResponse(k)) <==> !k.Unknown?
  {
    match k
    case Matching(ps) =>
      MatchingCorrectIffIdentity(IdentityPairing(|ps|), |ps|);
    case _ =>
  }

  /** A fill-in-blank answer is compared as typed: a text of another length,
      such as the expected one with a blank around it, is never right; the
      lower-cased expected text is right unless the question is case
      sensitive and the text has capitals. */
  lemma FillInBlankRules(user: string, t: string, cs: bool)
    ensures |user| != |t| ==> !FillInBlankCorrect(user, t, cs)
    ensures FillInBlankCorrect(Lower(t), t, cs) <==> !cs || Lower(t) == t
  {
    LowerIdempotent(t);
  }

  /** The score shown when the quiz is completed. */
  function Score(qs: seq<Question>, rs: seq<Response>): (s: int)
    requires 0 < |qs| == |rs|
    ensures 0 <= s <= 100
    ensures (forall k :: 0 <= k < |qs| ==> IsCorrect(qs[k].kind, rs[k])) ==> s == 100
    ensures (forall k :: 0 <= k < |qs| ==> !IsCorrect(qs[k].kind, rs[k])) ==> s == 0
  {
    PercentExtremes(|qs|);
    CountCorrectExtremes(qs, rs);
    Percent(CountCorrect(qs, rs), |qs|)
  }

  /** The answer key of every question, given back. */
  function KeyResponses(qs: seq<Question>): (rs: seq<Response>)
    ensures |rs| == |qs| && forall k :: 0 <= k < |qs| ==> rs[k] == KeyResponse(qs[k].kind)
  {
    seq(|qs|, k requires 0 <= k < |qs| => KeyResponse(qs[k].kind))
  }

  /** A quiz of known kinds answered with its own key scores 100. */
  lemma AnswerKeyScoresFull(qs: seq<Question>)
    requires 0 < |qs| && forall k :: 0 <= k < |qs| ==> !qs[k].kind.Unknown?
    ensures Score(qs, KeyResponses(qs)) == 100
  {
    var rs := KeyResponses(qs);
    forall k | 0 <= k < |qs| ensures IsCorrect(qs[k].kind, rs[k]) {
      KeyResponseIsCorrect(qs[k].kind);
    }
  }

  /** Below 200 questions a score of 100 means every answer is right; from
      200 on, one wrong answer can round up to 100 (199 of 200 is 99.5%). */
  lemma FullScoreMeansAllRight(qs: seq<Question>, rs: seq<Response>)
    requires 0 < |qs| == |rs| < 200
    ensures Score(qs, rs) == 100 <==> forall k :: 0 <= k < |qs| ==> IsCorrect(qs[k].kind, rs[k])
  {
    var c, n := CountCorrect(qs, rs), |qs|;
    CountCorrectExtremes(qs, rs);
    if Score(qs, rs) == 100 {
      assert 2 * n * 100 <= 200 * c + n;
    }
  }
}
