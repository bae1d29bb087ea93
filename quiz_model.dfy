/** The quiz definition carried in a quiz element's `content`: a JSON
    object `{questions: [...]}` whose questions are tagged by
    `questionType` with one of six kinds, each with its own fields
    (CourseContentScreen.tsx, CourseCreatorScreen.tsx). */
module QuizModel {
  import opened Results
  import opened Json

  /** One row of a matching question: `left` matches `right`. */
  datatype Pair = Pair(left: string, right: string)

  /** The kind of a question and the fields that kind reads. A
      `questionType` outside the six known tags is kept as `Unknown`: the
      engine never rejects it, it only never counts as answered. */
  datatype Kind =
    | MultipleChoice(options: seq<string>, correctAnswer: int)
    | TrueFalse(options: seq<string>, correctAnswer: int)
    | MultiSelect(options: seq<string>, correctAnswers: seq<int>)
    | Matching(pairs: seq<Pair>)
    | FillInBlank(correctText: string, caseSensitive: bool)
    | Ordering(correctOrder: seq<string>)
    | Unknown(tag: string)

  datatype Question = Question(id: string, text: string, kind: Kind)

  datatype DecodeError =
    | InvalidJson                    // `JSON.parse` throws
    | MissingQuestions               // no `questions` array in the object
    | MalformedQuestion(index: nat)  // the question at `index` lacks a field of its kind

  const KnownTags: set<string> :=
    {"multipleChoice", "trueFalse", "multiSelect", "matching", "fillInBlank", "ordering"}

  /** The `questionType` discriminator of a kind. */
  function Tag(k: Kind): (t: string)
    ensures !k.Unknown? ==> t in KnownTags
    ensures k.Unknown? ==> t == k.tag
  {
    match k
    case MultipleChoice(_, _) => "multipleChoice"
    case TrueFalse(_, _) => "trueFalse"
    case MultiSelect(_, _) => "multiSelect"
    case Matching(_) => "matching"
    case FillInBlank(_, _) => "fillInBlank"
    case Ordering(_) => "ordering"
    case Unknown(t) => t
  }

  /** An unknown kind does not carry one of the six known tags. */
  predicate WellTagged(q: Question) {
    q.kind.Unknown? ==> q.kind.tag !in KnownTags
  }

  function EncodePair(p: Pair): Json {
    JObject([("left", JString(p.left)), ("right", JString(p.right))])
  }

  function DecodePair(j: Json): (r: Option<Pair>)
  {
    if !j.JObject? then None
    else match (Get(j.fields, "left"), Get(j.fields, "right"))
      case (Some(JString(l)), Some(JString(r))) => Some(Pair(l, r))
      case _ => None
  }

  function EncodePairs(ps: seq<Pair>): (j: Json)
    ensures j.JArray? && |j.items| == |ps|
  {
    JArray(seq(|ps|, k requires 0 <= k < |ps| => EncodePair(ps[k])))
  }

  function DecodePairs(j: Json): (r: Option<seq<Pair>>)
    ensures r.Some? ==> j.JArray? && |r.value| == |j.items|
                        && forall k :: 0 <= k < |j.items| ==> DecodePair(j.items[k]) == Some(r.value[k])
  {
    if j.JArray? && forall k :: 0 <= k < |j.items| ==> DecodePair(j.items[k]).Some?
    then Some(seq(|j.items|, k requires 0 <= k < |j.items| => DecodePair(j.items[k]).value))
    else None
  }

  /** The fields of a kind, in the order the editor creates them. */
  function KindFields(k: Kind): seq<(string, Json)> {
    match k
    case MultipleChoice(opts, c) => [("options", StringArray(opts)), ("correctAnswer", JNumber(c))]
    case TrueFalse(opts, c) => [("options", StringArray(opts)), ("correctAnswer", JNumber(c))]
    case MultiSelect(opts, cs) => [("options", StringArray(opts)), ("correctAnswers", IntArray(cs))]
    case Matching(ps) => [("pairs", EncodePairs(ps))]
    case FillInBlank(t, cs) => [("correctText", JString(t)), ("caseSensitive", JBool(cs))]
    case Ordering(items) => [("correctOrder", StringArray(items))]
    case Unknown(_) => []
  }

  function EncodeQuestion(q: Question): Json {
    JObject([("id", JString(q.id)), ("questionType", JString(Tag(q.kind))), ("question", JString(q.text))]
            + KindFields(q.kind))
  }

  /** Reads the fields the tagged kind needs; a missing or mistyped field
      makes the question malformed. */
  function DecodeKind(tag: string, fs: seq<(string, Json)>): (r: Option<Kind>)
    ensures r.Some? ==> Tag(r.value) == tag
  {
    if tag == "multipleChoice" || tag == "trueFalse" then
      match (Get(fs, "options"), Get(fs, "correctAnswer"))
      case (Some(o), Some(JNumber(c))) =>
        (match AsStrings(o)
         case Some(opts) => Some(if tag == "trueFalse" then TrueFalse(opts, c) else MultipleChoice(opts, c))
         case None => None)
      case _ => None
    else if tag == "multiSelect" then
      match (Get(fs, "options"), Get(fs, "correctAnswers"))
      case (Some(o), Some(c)) =>
        (match (AsStrings(o), AsInts(c))
         case (Some(opts), Some(cs)) => Some(MultiSelect(opts, cs))
         case _ => None)
      case _ => None
    else if tag == "matching" then
      match Get(fs, "pairs")
      case Some(p) => (match DecodePairs(p) case Some(ps) => Some(Matching(ps)) case None => None)
      case None => None
    else if tag == "fillInBlank" then
      match (Get(fs, "correctText"), Get(fs, "caseSensitive"))
      case (Some(JString(t)), Some(JBool(cs))) => Some(FillInBlank(t, cs))
      case _ => None
    else if tag == "ordering" then
      match Get(fs, "correctOrder")
      case Some(o) => (match AsStrings(o) case Some(items) => Some(Ordering(items)) case None => None)
      case None => None
    else
      Some(Unknown(tag))
  }

  function DecodeQuestion(j: Json): (r: Option<Question>)
    ensures r.Some? ==> WellTagged(r.value)
  {
    if !j.JObject? then None
    else match (Get(j.fields, "id"), Get(j.fields, "questionType"), Get(j.fields, "question"))
      case (Some(JString(id)), Some(JString(tag)), Some(JString(text))) =>
        (match DecodeKind(tag, j.fields)
         case Some(k) => Some(Question(id, text, k))
         case None => None)
      case _ => None
  }

  /** Decodes every item with `decode`, or reports the index of the first
      item it rejects. */
  function DecodeEach<T>(items: seq<Json>, decode: Json -> Option<T>): (r: Result<seq<T>, nat>)
    ensures r.Ok? <==> forall k :: 0 <= k < |items| ==> decode(items[k]).Some?
    ensures r.Ok? ==> |r.value| == |items|
                      && forall k :: 0 <= k < |items| ==> decode(items[k]) == Some(r.value[k])
    ensures r.Err? ==> r.error < |items| && decode(items[r.error]).None?
                       && forall k :: 0 <= k < r.error ==> decode(items[k]).Some?
  {
    if items == [] then Ok([])
    else match decode(items[0])
      case None => Err(0)
      case Some(q) =>
        match DecodeEach(items[1..], decode)
        case Ok(rest) => Ok([q] + rest)
        case Err(e) => Err(e + 1)
  }

  /** Decodes every question or none: the first malformed one is reported
      by its index. */
  function DecodeQuestions(items: seq<Json>): (r: Result<seq<Question>, DecodeError>)
    ensures r.Ok? <==> forall k :: 0 <= k < |items| ==> DecodeQuestion(items[k]).Some?
    ensures r.Ok? ==> |r.value| == |items|
                      && forall k :: 0 <= k < |items| ==> DecodeQuestion(items[k]) == Some(r.value[k])
    ensures r.Err? ==> r.error.MalformedQuestion? && r.error.index < |items|
                       && DecodeQuestion(items[r.error.index]).None?
                       && forall k :: 0 <= k < r.error.index ==> DecodeQuestion(items[k]).Some?
  {
    match DecodeEach(items, DecodeQuestion)
    case Ok(qs) => Ok(qs)
    case Err(i) => Err(MalformedQuestion(i))
  }

  /** `JSON.parse(content).questions`. */
  function DecodeQuiz(doc: Document): (r: Result<seq<Question>, DecodeError>)
    ensures doc.Unparsable? ==> r == Err(InvalidJson)
    ensures r.Ok? ==> forall k :: 0 <= k < |r.value| ==> WellTagged(r.value[k])
  {
    match doc
    case Unparsable(_) => Err(InvalidJson)
    case Parsed(JObject(fs)) =>
      (match Get(fs, "questions")
       case Some(JArray(items)) => DecodeQuestions(items)
       case _ => Err(MissingQuestions))
    case Parsed(_) => Err(MissingQuestions)
  }

  /** `JSON.stringify({questions})`. */
  function EncodeQuiz(qs: seq<Question>): Document {
    Parsed(JObject([("questions", JArray(EncodeQuestions(qs)))]))
  }

  lemma PairRoundTrip(p: Pair)
    ensures DecodePair(EncodePair(p)) == Some(p)
  {
    var l, r := ("left", JString(p.left)), ("right", JString(p.right));
    GetLast([], "left", JString(p.left), [r]);
    GetLast([l], "right", JString(p.right), []);
    assert [] + [l] + [r] == [l] + [r] + [] == [l, r];
  }

  lemma PairsRoundTrip(ps: seq<Pair>)
    ensures DecodePairs(EncodePairs(ps)) == Some(ps)
  {
    var j := EncodePairs(ps);
    forall k | 0 <= k < |ps| ensures DecodePair(j.items[k]) == Some(ps[k]) {
      PairRoundTrip(ps[k]);
    }
    var r := DecodePairs(j);
    assert r.Some?;
    assert forall k :: 0 <= k < |ps| ==> r.value[k] == ps[k];
    assert r.value == ps;
  }

  lemma ChoiceRoundTrip(head: seq<(string, Json)>, k: Kind)
    requires k.MultipleChoice? || k.TrueFalse?
    ensures DecodeKind(Tag(k), head + KindFields(k)) == Some(k)
  {
    var kf := KindFields(k);
    GetLast(head, "options", StringArray(k.options), [kf[1]]);
    GetLast(head + [kf[0]], "correctAnswer", JNumber(k.correctAnswer), []);
    assert head + [kf[0]] + [kf[1]] == head + kf;
    StringArrayRoundTrip(k.options);
  }

  lemma MultiSelectRoundTrip(head: seq<(string, Json)>, opts: seq<string>, cs: seq<int>)
    ensures DecodeKind("multiSelect", head + KindFields(MultiSelect(opts, cs))) == Some(MultiSelect(opts, cs))
  {
    var kf := KindFields(MultiSelect(opts, cs));
    GetLast(head, "options", StringArray(opts), [kf[1]]);
    GetLast(head + [kf[0]], "correctAnswers", IntArray(cs), []);
    assert head + [kf[0]] + [kf[1]] == head + kf;
    StringArrayRoundTrip(opts);
    IntArrayRoundTrip(cs);
  }

  lemma MatchingRoundTrip(head: seq<(string, Json)>, ps: seq<Pair>)
    ensures DecodeKind("matching", head + KindFields(Matching(ps))) == Some(Matching(ps))
  {
    GetLast(head, "pairs", EncodePairs(ps), []);
    PairsRoundTrip(ps);
  }

  lemma FillInBlankRoundTrip(head: seq<(string, Json)>, t: string, cs: bool)
    ensures DecodeKind("fillInBlank", head + KindFields(FillInBlank(t, cs))) == Some(FillInBlank(t, cs))
  {
    var kf := KindFields(FillInBlank(t, cs));
    GetLast(head, "correctText", JString(t), [kf[1]]);
    GetLast(head + [kf[0]], "caseSensitive", JBool(cs), []);
    assert head + [kf[0]] + [kf[1]] == head + kf;
  }

  lemma OrderingRoundTrip(head: seq<(string, Json)>, items: seq<string>)
    ensures DecodeKind("ordering", head + KindFields(Ordering(items))) == Some(Ordering(items))
  {
    GetLast(head, "correctOrder", StringArray(items), []);
    StringArrayRoundTrip(items);
  }

  /** The fields of a kind, placed after any other fields, decode back to
      that kind. */
  lemma KindRoundTrip(head: seq<(string, Json)>, k: Kind)
    requires !k.Unknown? || k.tag !in KnownTags
    ensures DecodeKind(Tag(k), head + KindFields(k)) == Some(k)
  {
    match k
    case MultipleChoice(_, _) => ChoiceRoundTrip(head, k);
    case TrueFalse(_, _) => ChoiceRoundTrip(head, k);
    case MultiSelect(opts, cs) => MultiSelectRoundTrip(head, opts, cs);
    case Matching(ps) => MatchingRoundTrip(head, ps);
    case FillInBlank(t, cs) => FillInBlankRoundTrip(head, t, cs);
    case Ordering(items) => OrderingRoundTrip(head, items);
    case Unknown(t) =>
  }

  /** A header field name: none of them is a field of any kind. */
  predicate IsHeaderKey(key: string) {
    key == "id" || key == "questionType" || key == "question"
  }

  /** No kind writes over the header fields of a question. */
  lemma KindFieldsKeys(k: Kind)
    ensures forall i :: 0 <= i < |KindFields(k)| ==> !IsHeaderKey(KindFields(k)[i].0)
  {
  }

  /** The question object as `EncodeQuestion` lays it out: the header,
      then the fields of the kind. */
  function QuestionFields(id: string, tag: string, text: string, kf: seq<(string, Json)>): seq<(string, Json)> {
    [("id", JString(id)), ("questionType", JString(tag)), ("question", JString(text))] + kf
  }

  lemma IdRoundTrip(id: string, tag: string, text: string, kf: seq<(string, Json)>)
    requires Lacks(kf, "id")
    ensures Get(QuestionFields(id, tag, text, kf), "id") == Some(JString(id))
  {
    var h1, h2 := ("questionType", JString(tag)), ("question", JString(text));
    assert h2.0 != "id" && h1.0 != "id";
    ConsLacks(h2, kf, "id");
    ConsLacks(h1, [h2] + kf, "id");
    GetLast([], "id", JString(id), [h1] + ([h2] + kf));
    assert [] + [("id", JString(id))] + ([h1] + ([h2] + kf)) == QuestionFields(id, tag, text, kf);
  }

  lemma TagRoundTrip(id: string, tag: string, text: string, kf: seq<(string, Json)>)
    requires Lacks(kf, "questionType")
    ensures Get(QuestionFields(id, tag, text, kf), "questionType") == Some(JString(tag))
  {
    var h0, h2 := ("id", JString(id)), ("question", JString(text));
    assert h2.0 != "questionType";
    ConsLacks(h2, kf, "questionType");
    GetLast([h0], "questionType", JString(tag), [h2] + kf);
    assert [h0] + [("questionType", JString(tag))] + ([h2] + kf) == QuestionFields(id, tag, text, kf);
  }

  lemma TextRoundTrip(id: string, tag: string, text: string, kf: seq<(string, Json)>)
    requires Lacks(kf, "question")
    ensures Get(QuestionFields(id, tag, text, kf), "question") == Some(JString(text))
  {
    var h0, h1 := ("id", JString(id)), ("questionType", JString(tag));
    GetLast([h0, h1], "question", JString(text), kf);
    assert [h0, h1] + [("question", JString(text))] + kf == QuestionFields(id, tag, text, kf);
  }

  /** Decoding an encoded question gives it back. */
  lemma QuestionRoundTrip(q: Question)
    requires WellTagged(q)
    ensures DecodeQuestion(EncodeQuestion(q)) == Some(q)
  {
    var kf := KindFields(q.kind);
    var fs := QuestionFields(q.id, Tag(q.kind), q.text, kf);
    KindFieldsKeys(q.kind);
    assert Lacks(kf, "id") && Lacks(kf, "questionType") && Lacks(kf, "question");
    IdRoundTrip(q.id, Tag(q.kind), q.text, kf);
    TagRoundTrip(q.id, Tag(q.kind), q.text, kf);
    TextRoundTrip(q.id, Tag(q.kind), q.text, kf);
    KindRoundTrip(fs[..3], q.kind);
    assert fs[..3] + kf == fs;
    assert EncodeQuestion(q) == JObject(fs);
  }

  /** The encoded question objects of a quiz. */
  function EncodeQuestions(qs: seq<Question>): (items: seq<Json>)
    ensures |items| == |qs|
  {
    seq(|qs|, k requires 0 <= k < |qs| => EncodeQuestion(qs[k]))
  }

  lemma QuestionsRoundTrip(qs: seq<Question>)
    requires forall k :: 0 <= k < |qs| ==> WellTagged(qs[k])
    ensures DecodeQuestions(EncodeQuestions(qs)) == Ok(qs)
  {
    var items := EncodeQuestions(qs);
    forall k | 0 <= k < |qs| ensures DecodeQuestion(items[k]) == Some(qs[k]) {
      QuestionRoundTrip(qs[k]);
    }
    var r := DecodeQuestions(items);
    assert r.Ok?;
    assert forall k :: 0 <= k < |qs| ==> r.value[k] == qs[k];
    assert r.value == qs;
  }

  /** What the editor saves is what the quiz screen and the editor read
      back: `JSON.parse(JSON.stringify({questions})).questions` decodes to
      the same questions. */
  lemma QuizRoundTrip(qs: seq<Question>)
    requires forall k :: 0 <= k < |qs| ==> WellTagged(qs[k])
    ensures DecodeQuiz(EncodeQuiz(qs)) == Ok(qs)
  {
    GetLast([], "questions", JArray(EncodeQuestions(qs)), []);
    assert [] + [("questions", JArray(EncodeQuestions(qs)))] + [] == EncodeQuiz(qs).value.fields;
    QuestionsRoundTrip(qs);
  }
}
