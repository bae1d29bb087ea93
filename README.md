# A learning app's course, quiz, forum, onboarding and map logic in Dafny

This project models the behaviour of a React Native learning app. The main
part is the quiz engine that a learner meets inside a course
(`QuizElement` in `src/screens/CourseContentScreen.tsx`):

- **Quiz content.** A quiz element's `content` holds JSON of the form
  `{questions: [...]}`. A question has one of six kinds: multiple choice,
  true/false, multi-select, matching, fill-in-blank and ordering.
- **Session state.** The engine keeps the current question, the `answers`
  array, the per-question matching, shuffle and ordering maps, and the
  completed flag.
- **Rules.** It decides when a question counts as answered and when it is
  right, and it computes the final percentage.

The rest of the model covers:

- the course editor (`CourseCreatorScreen.tsx`) that writes these quizzes;
- the course's element pager;
- the legacy slide player (`CourseSlidesScreen.tsx`);
- the forum service (`forumService.ts`) and the forum screen
  (`ForumScreen.tsx`);
- the onboarding screen's routing and walkthrough;
- the facility search and type filter of the map screen.

Layout, one module per file:

| file | module | what it holds |
|---|---|---|
| `results.dfy` | `Results` | `Option` and `Result` |
| `lists.dfy` | `Lists` | `filter`, `slice`, `splice`, and the `indexOf`/`splice`/`push` toggle |
| `text.dfy` | `Text` | `trim`, ASCII `toLowerCase`, `includes` |
| `json.dfy` | `Json` | parsed JSON values and the `Document` a JSON text field holds |
| `accounts.dfy` | `Accounts` | the signed-in user and the "Anonymous" fallback name |
| `quiz_model.dfy` | `QuizModel` | question datatypes; encoding to JSON and strict decoding, with round-trip proofs |
| `quiz_eval.dfy` | `QuizEval` | `isQuestionAnswered`, `checkAnswer`, the score |
| `quiz_session.dfy` | `QuizSession` | the `Session` class, one method per handler |
| `course_viewer.dfy` | `CourseViewer` | the element pager of the course screen |
| `course_creator.dfy` | `CourseCreator` | the course draft: element upsert, course save |
| `element_editor.dfy` | `ElementEditing` | the element editor: glossary and question edits, save |
| `slide_player.dfy` | `SlidePlayer` | the legacy slide player |
| `forum_service.dfy` | `ForumService` | the forum store: posts, vote records, comments |
| `forum_board.dfy` | `ForumBoard` | the forum screen: sort, search, time labels, new post, likes |
| `onboarding.dfy` | `Onboarding` | start-up routing, the walkthrough and its goal checkboxes |
| `map_screen.dfy` | `MapScreen` | facility search, type filter, marker lookups |

Modelling choices worth knowing when reading the contracts:

- **Shuffles.** The source shuffles with `sort(() => Math.random() - 0.5)`.
  The model takes each shuffle as an index permutation that the caller
  supplies. It claims only that the result is a permutation, tagged with
  the original indices.
- **Handlers.** Every handler is one atomic state transition.
- **Locking.** A question locks once it is answered, because the screen
  disables its inputs. The recorder methods therefore require the current
  question to be unanswered.
- **Matching and ordering start answered.** Such a question counts as
  answered as soon as its column or list is initialised, since
  `matchingAnswers[i]` is set to `{}`. So `TapLeft`/`TapRight` change
  nothing after initialisation (`ShownIsAnswered`). The ordering arrows
  are drawn only while the question is unanswered, so `MoveOrderingItem`
  moves the list only then. A listed ordering question is always answered
  (`Session.ListedOrderingIsAnswered`), so the arrows never show and the
  list never moves.
- **The initialisation effect follows the index.** The effect that
  initialises a matching or ordering question runs when
  `currentQuestionIndex` changes. The session keeps the index it last ran
  for. After a reset or Retake on question 0 the index has not changed, so
  the effect does not run again, and a matching or ordering question 0
  stays without its column or list.
- **Multi-select and fill-in-blank lock early.**
  - A multi-select question locks after its first tap, since one selection
    already makes it answered.
  - A fill-in-blank question locks as soon as its text is not blank.
- **Untouched questions with empty expectations score as right.** The
  scoring falls back to `|| []`, `|| ''` and `|| {}`. So an unanswered
  multi-select with an empty key, a fill-in-blank with an empty
  `correctText`, a matching question with no pairs or an ordering question
  with no items counts as right (`QuizEval.EmptyExpectationsMatchNoAnswer`).
- **Score rounding.** The score is `Math.round((correct / n) * 100)`. The
  model rounds the exact ratio half up (`QuizEval.PercentIsNearest`). The
  source's double arithmetic can give one point less; see "Left out".
- **`removeOption` does not re-index the answer key.** A `correctAnswer`
  or `correctAnswers` entry behind the removed option then points at the
  next option, or past the end (`ElementEditing.RemoveOptionKeepsStaleKey`).
- **Malformed quiz content.** The editor opens it with no questions, so
  saving it back overwrites it.
- **Vote order.** `vote` writes or deletes the vote record before it
  reads the post. On a missing post only the record changes, and the
  outcome is `PostNotFound`.
- **`deleteComment`.** It takes one off the counter even for a comment
  that is not stored. The counters stay in step only when the comment was
  stored.
- **Vote keys.** Vote records are keyed by the pair (post, user). The
  source builds the document id `${postId}_${userId}`, which two different
  pairs can share when ids contain `_`.

## Model

| member | source | states |
|---|---|---|
| Json.Get | src/screens/CourseContentScreen.tsx:45-46 | a property read is missing exactly when no entry has that name, and otherwise returns the value of an entry with that name |
| Json.GetLast | src/screens/CourseContentScreen.tsx:45-46 | in an object the value of the last occurrence of a key is what is read |
| Json.StringArrayRoundTrip | src/screens/CourseCreatorScreen.tsx:334-344 | an array of strings written by `JSON.stringify` reads back as the same strings |
| Json.IntArrayRoundTrip | src/screens/CourseCreatorScreen.tsx:334-344 | an array of numbers written by `JSON.stringify` reads back as the same numbers |
| Json.AsStrings | src/screens/CourseContentScreen.tsx:45-46 | an array reads as strings exactly when every item is a string, keeping the length |
| Json.AsInts | src/screens/CourseContentScreen.tsx:45-46 | an array reads as numbers exactly when every item is a number, keeping the length |
| Text.TrimStart | src/screens/CourseContentScreen.tsx:164 | leading white space is removed, and only white space |
| Text.TrimEnd | src/screens/CourseContentScreen.tsx:164 | trailing white space is removed, and only white space |
| Text.TrimEmptyIffBlank | src/screens/CourseContentScreen.tsx:164 | `trim()` is empty exactly when the text is white space only |
| Text.TrimIsInfix | src/screens/CourseContentScreen.tsx:164 | the trimmed text is a contiguous part of the original |
| Text.Lower | src/screens/CourseContentScreen.tsx:189 | lower-casing keeps the length and maps every character by itself |
| Text.LowerIdempotent | src/screens/CourseContentScreen.tsx:189 | lower-casing twice is lower-casing once |
| Lists.Filter | src/screens/ForumScreen.tsx:257-269 | the kept elements are exactly those of the input that pass, never more of them |
| Lists.FilterIsSubsequence | src/screens/ForumScreen.tsx:257-269 | a filter keeps the order of what it keeps |
| Lists.FilterCounts | src/screens/MapScreen.tsx:90-93 | a filter keeps every passing element as often as it occurs and drops the rest |
| Lists.RemoveAll | src/screens/auth/OnboardingScreen.tsx:189 | `filter(g => g !== x)` removes every copy of `x`, keeps every other element, and changes nothing when `x` is absent |
| Lists.RemoveAllNoDup | src/screens/auth/OnboardingScreen.tsx:187-193 | on a list without repeats, removing a present element shortens it by one and repeats nothing |
| Lists.RemoveAllAppended | src/screens/ForumScreen.tsx:222-246 | appending an absent element and then removing it gives the list back |
| Lists.IndexOf | src/screens/CourseContentScreen.tsx:87 | `indexOf` is the first position of the element, or -1 exactly when it is absent |
| Lists.Toggle | src/screens/CourseContentScreen.tsx:81-94 | an absent element is pushed, a present one spliced out at its first position; others keep their membership; without repeats the element's membership flips |
| Lists.WithoutIndex | src/screens/CourseCreatorScreen.tsx:330-332 | `filter((_, i) => i !== index)` drops exactly the entry at an index inside the list and nothing otherwise |
| Lists.Take | src/screens/MapScreen.tsx:276 | `slice(0, n)` is a prefix of length at most `n` |
| QuizModel.Tag | src/screens/CourseContentScreen.tsx:157 | a known kind has one of the six known tags as its `questionType`; an unknown kind carries its own tag |
| QuizModel.DecodeKind | src/screens/CourseContentScreen.tsx:176-206 | a decoded kind carries the tag it was read under |
| QuizModel.DecodeQuestion | src/screens/CourseContentScreen.tsx:45-46 | every decoded question is well tagged |
| QuizModel.DecodeEach | src/screens/CourseContentScreen.tsx:45-46 | a list decodes exactly when every item does, item by item; otherwise the first rejected item is named |
| QuizModel.DecodeQuestions | src/screens/CourseContentScreen.tsx:45-46 | the list decodes exactly when every item does, one question per item; otherwise the error names an item |
| QuizModel.DecodeQuiz | src/screens/CourseContentScreen.tsx:45-46 | content that is not JSON is an error, and every decoded question is well tagged |
| QuizModel.PairRoundTrip | src/screens/CourseCreatorScreen.tsx:334-344 | a matching pair reads back as written |
| QuizModel.PairsRoundTrip | src/screens/CourseCreatorScreen.tsx:334-344 | a list of pairs reads back as written |
| QuizModel.KindRoundTrip | src/screens/CourseCreatorScreen.tsx:199-236 | the fields of every kind, after any header, decode back to that kind |
| QuizModel.KindFieldsKeys | src/screens/CourseCreatorScreen.tsx:199-236 | no kind's fields overwrite the id, type or text of the question |
| QuizModel.QuestionRoundTrip | src/screens/CourseCreatorScreen.tsx:334-344 | decoding an encoded well-tagged question gives it back |
| QuizModel.QuestionsRoundTrip | src/screens/CourseCreatorScreen.tsx:334-344 | decoding the encoded questions gives them back |
| QuizModel.QuizRoundTrip | src/screens/CourseCreatorScreen.tsx:334-344 | the content the editor saves is read back by the quiz screen as the same questions |
| QuizEval.UnknownNeverCounts | src/screens/CourseContentScreen.tsx:170 | a question of an unknown type is never answered and never right |
| QuizEval.ChoiceCorrect | src/screens/CourseContentScreen.tsx:159-160 | a choice question is right exactly when the chosen option is `correctAnswer`; with no choice it is neither answered nor right |
| QuizEval.MultiSelectCorrectIffSameSet | src/screens/CourseContentScreen.tsx:178-182 | without repeats, the length-and-every check is right exactly when the selected set equals the correct set |
| QuizEval.FillInBlankRules | src/screens/CourseContentScreen.tsx:183-189 | a typed text of another length, such as the key with a blank around it, is never right; the lower-cased key is right exactly when the question is not case-sensitive or the key has no capitals |
| QuizEval.CaseSensitiveIsStricter | src/screens/CourseContentScreen.tsx:183-189 | an answer accepted case-sensitively is accepted case-insensitively |
| QuizEval.FillInBlankAnswered | src/screens/CourseContentScreen.tsx:163-164 | a fill-in-blank question is answered exactly when the typed text is not blank |
| QuizEval.IdentityPairing | src/screens/CourseContentScreen.tsx:190-202 | the identity pairing maps each of the `n` left indices to itself |
| QuizEval.MatchingCorrectIffIdentity | src/screens/CourseContentScreen.tsx:190-202 | a matching of in-range left items is right exactly when it is the identity pairing |
| QuizEval.OrderingCorrectIffSamePlaces | src/screens/CourseContentScreen.tsx:203-206 | an ordering is right exactly when every item is in its `correctOrder` place |
| QuizEval.EmptyExpectationsMatchNoAnswer | src/screens/CourseContentScreen.tsx:179-206 | an untouched question is judged right exactly when it expects nothing (an empty key, text, pair list or item list); an untouched choice or unknown question is always wrong |
| QuizEval.KeyResponseIsCorrect | src/screens/CourseContentScreen.tsx:173-208 | the question's own answer key, given back, is judged right exactly when the kind is a known one |
| QuizEval.CountCorrect | src/screens/CourseContentScreen.tsx:225-264 | the count of right questions is at most the number of questions |
| QuizEval.CountCorrectStep | src/screens/CourseContentScreen.tsx:227-263 | each further question adds one to the count exactly when it is right |
| QuizEval.CountCorrectExtremes | src/screens/CourseContentScreen.tsx:225-264 | the count is the number of questions exactly when all are right, and 0 exactly when none is |
| QuizEval.Percent | src/screens/CourseContentScreen.tsx:265 | the score is the percentage rounded to the nearest integer, halves up, between 0 and 100 |
| QuizEval.PercentExtremes | src/screens/CourseContentScreen.tsx:265 | all right scores 100 and none right scores 0 |
| QuizEval.PercentMonotone | src/screens/CourseContentScreen.tsx:265 | more right answers never lower the score |
| QuizEval.Score | src/screens/CourseContentScreen.tsx:225-266 | the score lies in 0..100, is 100 when every answer is right and 0 when none is |
| QuizEval.PercentIsNearest | src/screens/CourseContentScreen.tsx:265 | the score is the one whole number within half a point of `100 * correct / n`, a half rounded up |
| QuizEval.PercentWholeAndHalves | src/screens/CourseContentScreen.tsx:265 | a whole percentage is shown as it is, and one ending in a half is rounded up |
| QuizEval.AnswerKeyScoresFull | src/screens/CourseContentScreen.tsx:225-266 | a quiz of known kinds answered with its own key scores 100 |
| QuizEval.FullScoreMeansAllRight | src/screens/CourseContentScreen.tsx:225-266 | below 200 questions, 100 is shown exactly when every answer is right |
| QuizSession.Tagged | src/screens/CourseContentScreen.tsx:105-107 | every pair is tagged with its own index |
| QuizSession.ShuffleRight | src/screens/CourseContentScreen.tsx:102-113 | the shuffled column is a permutation of the tagged pairs, and each item carries the pair its index names |
| QuizSession.ShuffleOrder | src/screens/CourseContentScreen.tsx:125-132 | the shuffled list is a permutation of `correctOrder` |
| QuizSession.MoveItem | src/screens/CourseContentScreen.tsx:143-153 | an item swaps with the neighbour in that direction when there is one, and otherwise nothing changes; the list stays a permutation |
| QuizSession.MoveUpThenDown | src/screens/CourseContentScreen.tsx:143-153 | moving an item up and back down restores the list |
| QuizSession.MoveAtEdgeIsNoOp | src/screens/CourseContentScreen.tsx:146 | moving the first item up or the last down changes nothing |
| QuizSession.Lookup | src/screens/CourseContentScreen.tsx:166-168 | a per-question entry is present exactly when the map holds one |
| QuizSession.AnswerUpdateFits | src/screens/CourseContentScreen.tsx:75-100 | storing an answer of the question's own shape, without repeated options, keeps every answer fitting its question |
| QuizSession.ColumnUpdateFits | src/screens/CourseContentScreen.tsx:102-123 | storing a permutation of a matching question's tagged pairs as its column keeps every column a permutation of its question's pairs |
| QuizSession.ListUpdateFits | src/screens/CourseContentScreen.tsx:125-153 | storing a permutation of an ordering question's items as its list keeps every list a permutation of its question's items |
| QuizSession.Session.constructor | src/screens/CourseContentScreen.tsx:48-58 | the quiz starts on question 0 with every answer unset and every map empty, and the initialisation effect still to run |
| QuizSession.Session.Reset | src/screens/CourseContentScreen.tsx:61-71 | focus and Retake restore the starting answers and index; the initialisation effect is due again only when it last ran away from question 0 |
| QuizSession.Session.InitializeCurrent | src/screens/CourseContentScreen.tsx:102-141 | the effect acts only when the index differs from the one it last ran for; then a matching question without a column gets the shuffled column and, if missing, an empty matching, and an ordering question without a list gets the shuffled list; every other question's entries and an existing column or list are kept; the question is then answered; otherwise nothing changes |
| QuizSession.Session.InitializeMatching | src/screens/CourseContentScreen.tsx:102-123 | a column is shuffled only when there is none, with an empty matching unless one exists; otherwise nothing changes |
| QuizSession.Session.InitializeOrdering | src/screens/CourseContentScreen.tsx:125-133 | a list is shuffled only when there is none; otherwise nothing changes |
| QuizSession.Session.SelectChoice | src/screens/CourseContentScreen.tsx:75-79 | the choice is recorded for the current question only; it is then answered, and right exactly when the choice is `correctAnswer` |
| QuizSession.Session.ToggleSelection | src/screens/CourseContentScreen.tsx:81-94 | the option's membership flips, others keep theirs, selections never repeat; from an unanswered state the selection becomes that one option |
| QuizSession.Session.TypeText | src/screens/CourseContentScreen.tsx:96-100 | the text is stored verbatim; the question is then answered exactly when the text is not blank |
| QuizSession.Session.TapLeft | src/screens/CourseContentScreen.tsx:466-471 | a left item is selected only while the question is unanswered |
| QuizSession.Session.TapRight | src/screens/CourseContentScreen.tsx:510-523 | with a selected left item and an unanswered question, that item is matched to the right item's original index, the rest kept, the selection cleared |
| QuizSession.Session.ResetMatching | src/screens/CourseContentScreen.tsx:423-439 | a new shuffle, an empty matching and no selection for the current question |
| QuizSession.Session.MoveOrderingItem | src/screens/CourseContentScreen.tsx:143-153 | the current list moves by `MoveItem` only while the question is unanswered; as a listed question is answered, the list stays as it was |
| QuizSession.MoveIn | src/screens/CourseContentScreen.tsx:143-153 | the question's list moves by `MoveItem` when there is one; with no list nothing changes |
| QuizSession.Session.ListedOrderingIsAnswered | src/screens/CourseContentScreen.tsx:555-563 | an ordering question whose list is present counts as answered (`orderingAnswers[i] !== undefined`), so its arrows are not drawn |
| QuizSession.Session.Next | src/screens/CourseContentScreen.tsx:211-217 | one question forward, or completed on the last question |
| QuizSession.Session.Previous | src/screens/CourseContentScreen.tsx:219-223 | one question back, nothing on the first |
| QuizSession.Session.Judge | src/screens/CourseContentScreen.tsx:228-263 | the per-kind rules `calculateScore` writes out agree with `checkAnswer` on the question |
| QuizSession.Session.CalculateScore | src/screens/CourseContentScreen.tsx:225-266 | the loop's per-kind judgement gives `Score` of the session's responses, between 0 and 100 |
| CourseViewer.NextIndex | src/screens/CourseContentScreen.tsx:806-810 | Next moves one element on, and stays put on the last |
| CourseViewer.BackIndex | src/screens/CourseContentScreen.tsx:812-816 | Back moves one element back, and stays put on the first |
| CourseViewer.StepsUndo | src/screens/CourseContentScreen.tsx:806-816 | Back undoes Next except on the last element, and Next undoes Back except on the first |
| CourseViewer.Forward | src/screens/CourseContentScreen.tsx:806-810 | repeated Next never leaves the course and never goes back |
| CourseViewer.ForwardReachesEnd | src/screens/CourseContentScreen.tsx:806-810 | enough Next presses reach the last element |
| CourseViewer.ElementPager.constructor | src/screens/CourseContentScreen.tsx:802 | the course screen opens on the first element of a non-empty course |
| CourseViewer.ElementPager.Next | src/screens/CourseContentScreen.tsx:806-810 | `handleNext` steps the index as `NextIndex` says |
| CourseViewer.ElementPager.Back | src/screens/CourseContentScreen.tsx:812-816 | `handleBack` steps the index as `BackIndex` says |
| CourseCreator.IndexById | src/screens/CourseCreatorScreen.tsx:70 | `findIndex` is -1 exactly when no element has the id, and otherwise the first element with it |
| CourseCreator.Upsert | src/screens/CourseCreatorScreen.tsx:68-85 | a new id is appended, a known one replaced in place; others unchanged; the element is found under its id afterwards |
| CourseCreator.UpsertIdempotent | src/screens/CourseCreatorScreen.tsx:68-85 | saving the same element twice is saving it once |
| CourseCreator.UpsertKeepsIdsUnique | src/screens/CourseCreatorScreen.tsx:68-85 | element ids stay unique across saves |
| CourseCreator.CourseDraft.constructor | src/screens/CourseCreatorScreen.tsx:36-46 | the draft holds the given id, title and elements (the existing course's or the defaults) and the given `updatedAt`, with no element open |
| CourseCreator.CourseDraft.AddElement | src/screens/CourseCreatorScreen.tsx:55-66 | a new empty element of that type, ordered after the existing ones, is opened |
| CourseCreator.CourseDraft.FindIndex | src/screens/CourseCreatorScreen.tsx:70 | the search loop computes `IndexById` |
| CourseCreator.CourseDraft.SaveElement | src/screens/CourseCreatorScreen.tsx:68-85 | the elements become `Upsert` of the old ones, the course is stamped and the editor closed |
| CourseCreator.CourseDraft.SaveCourse | src/screens/CourseCreatorScreen.tsx:87-133 | a blank title is refused exactly, then a missing user; otherwise a public, unpublished record of the course by that user with zero views and likes, written to the course's own id and stamped with the current time |
| ElementEditing.WithOptions | src/screens/CourseCreatorScreen.tsx:244-266 | replacing options keeps the kind and its answer key |
| ElementEditing.RemoveGuarded | src/screens/CourseCreatorScreen.tsx:260-266 | the entry goes only from a list of more than two, and a list never drops below two |
| ElementEditing.NewQuestion | src/screens/CourseCreatorScreen.tsx:199-236 | a new question has the given id, empty text and the requested type |
| ElementEditing.NewQuestionDefaults | src/screens/CourseCreatorScreen.tsx:199-236 | the defaults of each kind: four blank options, True/False, three pairs, three items, key 0 |
| ElementEditing.WithField | src/screens/CourseCreatorScreen.tsx:238-242 | only the named field changes, and only where the kind reads it |
| ElementEditing.UpdateOptionOf | src/screens/CourseCreatorScreen.tsx:244-250 | exactly that option takes the value; key and other options kept |
| ElementEditing.AddOptionTo | src/screens/CourseCreatorScreen.tsx:252-258 | a blank option is appended; key kept |
| ElementEditing.RemoveOptionFrom | src/screens/CourseCreatorScreen.tsx:260-266 | the option goes only from more than two, and the key is kept as it was |
| ElementEditing.RemoveOptionKeepsStaleKey | src/screens/CourseCreatorScreen.tsx:260-266 | removing any option in front of a correct one keeps that key, which then names the option that followed it, or points past the end |
| ElementEditing.UpdatePairOf | src/screens/CourseCreatorScreen.tsx:282-288 | exactly one side of one pair takes the value |
| ElementEditing.AddPairTo | src/screens/CourseCreatorScreen.tsx:290-296 | an empty pair is appended |
| ElementEditing.RemovePairFrom | src/screens/CourseCreatorScreen.tsx:298-304 | the pair goes only from more than two |
| ElementEditing.UpdateItemOf | src/screens/CourseCreatorScreen.tsx:306-312 | exactly that item takes the value |
| ElementEditing.AddItemTo | src/screens/CourseCreatorScreen.tsx:314-320 | an empty item is appended |
| ElementEditing.RemoveItemFrom | src/screens/CourseCreatorScreen.tsx:322-328 | the item goes only from more than two |
| ElementEditing.ToggleAnswerKey | src/screens/CourseCreatorScreen.tsx:268-280 | the `indexOf`/`splice`/`push` steps remove the first copy of a present index or append an absent one |
| ElementEditing.ToggledFlips | src/screens/CourseCreatorScreen.tsx:268-280 | on a key without repeats the index's membership flips, others are kept, and nothing repeats |
| ElementEditing.InitialQuestions | src/screens/CourseCreatorScreen.tsx:187-197 | a non-quiz or unparsable element opens with no questions; every opened question is well tagged |
| ElementEditing.InitialGlossary | src/screens/CourseCreatorScreen.tsx:165-170 | an article opens with its saved glossary, anything else with none |
| ElementEditing.SavedElement | src/screens/CourseCreatorScreen.tsx:334-344 | the saved element keeps id, type, title and order; only a quiz's content and an article's glossary change |
| ElementEditing.ReopenSavedQuiz | src/screens/CourseCreatorScreen.tsx:187-197 | reopening a saved quiz gives back its questions |
| ElementEditing.ReopenSavedArticle | src/screens/CourseCreatorScreen.tsx:165-170 | reopening a saved article gives back its glossary |
| ElementEditing.ElementEditor.constructor | src/screens/CourseCreatorScreen.tsx:148-197 | the editor opens the element, or a new article, with its initial glossary and questions |
| ElementEditing.ElementEditor.SetKind | src/screens/CourseCreatorScreen.tsx:244-250 | only that question's kind is replaced; its id and text, the other questions, the element and the glossary are kept |
| ElementEditing.ElementEditor.AddGlossaryTerm | src/screens/CourseCreatorScreen.tsx:172-174 | an empty term is appended |
| ElementEditing.ElementEditor.UpdateGlossaryTerm | src/screens/CourseCreatorScreen.tsx:176-180 | one field of one term takes the value |
| ElementEditing.ElementEditor.DeleteGlossaryTerm | src/screens/CourseCreatorScreen.tsx:182-184 | the term at the index is dropped |
| ElementEditing.ElementEditor.AddQuestion | src/screens/CourseCreatorScreen.tsx:199-236 | the new question is appended, and every question stays savable |
| ElementEditing.ElementEditor.UpdateQuestion | src/screens/CourseCreatorScreen.tsx:238-242 | only that question changes, by `WithField` |
| ElementEditing.ElementEditor.UpdateOption | src/screens/CourseCreatorScreen.tsx:244-250 | only that question changes, by `UpdateOptionOf` |
| ElementEditing.ElementEditor.AddOption | src/screens/CourseCreatorScreen.tsx:252-258 | only that question changes, by `AddOptionTo` |
| ElementEditing.ElementEditor.RemoveOption | src/screens/CourseCreatorScreen.tsx:260-266 | only that question changes, by `RemoveOptionFrom` |
| ElementEditing.ElementEditor.ToggleMultiSelectAnswer | src/screens/CourseCreatorScreen.tsx:268-280 | only that question's key changes, as `Toggled` says |
| ElementEditing.ElementEditor.UpdateMatchingPair | src/screens/CourseCreatorScreen.tsx:282-288 | only that question changes, by `UpdatePairOf` |
| ElementEditing.ElementEditor.AddMatchingPair | src/screens/CourseCreatorScreen.tsx:290-296 | only that question changes, by `AddPairTo` |
| ElementEditing.ElementEditor.RemoveMatchingPair | src/screens/CourseCreatorScreen.tsx:298-304 | only that question changes, by `RemovePairFrom` |
| ElementEditing.ElementEditor.UpdateOrderingItem | src/screens/CourseCreatorScreen.tsx:306-312 | only that question changes, by `UpdateItemOf` |
| ElementEditing.ElementEditor.AddOrderingItem | src/screens/CourseCreatorScreen.tsx:314-320 | only that question changes, by `AddItemTo` |
| ElementEditing.ElementEditor.RemoveOrderingItem | src/screens/CourseCreatorScreen.tsx:322-328 | only that question changes, by `RemoveItemFrom` |
| ElementEditing.ElementEditor.DeleteQuestion | src/screens/CourseCreatorScreen.tsx:330-332 | the question at the index is dropped |
| ElementEditing.ElementEditor.HandleSave | src/screens/CourseCreatorScreen.tsx:334-344 | the saved element, from which reopening gives back the questions or the glossary |
| SlidePlayer.Player.constructor | src/screens/CourseSlidesScreen.tsx:19-21 | the player starts on the first slide with nothing answered |
| SlidePlayer.Player.Next | src/screens/CourseSlidesScreen.tsx:38-60 | an unanswered quiz slide blocks; the last slide completes; otherwise one slide on with the answer cleared |
| SlidePlayer.Player.Previous | src/screens/CourseSlidesScreen.tsx:62-68 | one slide back with the answer cleared, nothing on the first |
| SlidePlayer.Player.Answer | src/screens/CourseSlidesScreen.tsx:70-82 | the choice is recorded and locks the slide; the result is whether it is the right one |
| ForumService.VotersAfterSet | src/services/forumService.ts:95-111 | writing a vote record moves the user into that direction's voters of that post only |
| ForumService.VotersAfterDelete | src/services/forumService.ts:89-94 | deleting a vote record takes the user out of that post's voters only |
| ForumService.Tally | src/services/forumService.ts:82-113 | a repeated vote takes one off its counter, a first vote adds one, a switch moves one across; nothing else changes |
| ForumService.VoteTwiceRestores | src/services/forumService.ts:82-113 | voting twice the same way leaves the counters as they were |
| ForumService.Listed | src/services/forumService.ts:45-58 | with no category or "All" every post is listed, otherwise exactly those of the category |
| ForumService.CategoryNarrows | src/services/forumService.ts:52-54 | a category lists part of what "All" lists, and "All" lists what no category lists |
| ForumService.VoteKeepsConsistent | src/services/forumService.ts:82-113 | a vote on a stored post keeps every counter equal to its vote and comment records |
| ForumService.VoteKeepsCounts | src/services/forumService.ts:82-113 | the counters after a vote count the vote records after it; other posts' voters are unchanged |
| ForumService.VoterMember | src/services/forumService.ts:82-113 | a user is a voter of a post in a direction exactly when their record on that post says so |
| ForumService.VoterCountAfter | src/services/forumService.ts:82-113 | a vote adds the user to its direction's voters unless it withdraws, and removes them from the recorded direction unless it is kept |
| ForumService.CreateKeepsConsistent | src/services/forumService.ts:32-42 | a post stored with zero counters under an id no record names keeps every counter equal to its records |
| ForumService.CommentsAfterAdd | src/services/forumService.ts:116-135 | a new comment joins its post's comments only |
| ForumService.CommentsAfterDelete | src/services/forumService.ts:150-165 | a deleted comment leaves its post's comments only |
| ForumService.AddCommentKeepsConsistent | src/services/forumService.ts:116-135 | a comment stored with its post's counter increment keeps every counter equal to its records |
| ForumService.DeleteCommentKeepsConsistent | src/services/forumService.ts:150-165 | a stored comment deleted with its post's counter decrement keeps every counter equal to its records |
| ForumService.ForumStore.constructor | src/services/forumService.ts:31-33 | the store starts with no posts, votes or comments, and is consistent |
| ForumService.ForumStore.CreatePost | src/services/forumService.ts:32-42 | the post is stored with zero counters and both time-stamps; consistency is kept |
| ForumService.ForumStore.Vote | src/services/forumService.ts:82-113 | same direction deletes the record, otherwise it is written; a stored post gets `Tally`, a missing one is reported; consistency is kept |
| ForumService.ForumStore.AddComment | src/services/forumService.ts:116-135 | the comment and the counter increment happen together exactly when the post exists; the stored comment is stamped with the current time |
| ForumService.ForumStore.DeleteComment | src/services/forumService.ts:150-165 | the deletion and the counter decrement happen together exactly when the post exists; consistency is kept for a stored comment |
| ForumBoard.SortNewestFirst | src/screens/ForumScreen.tsx:81-85 | the posts are put newest first in place, as a permutation of what was received |
| ForumBoard.Insert | src/screens/ForumScreen.tsx:81-85 | one insertion step extends the sorted run by one, as a permutation |
| ForumBoard.Visible | src/screens/ForumScreen.tsx:257-269 | a blank query shows everything; otherwise exactly the posts whose content or author contains the lower-cased query, in order |
| ForumBoard.SearchIsUntrimmed | src/screens/ForumScreen.tsx:255-269 | a non-blank query with a trailing space shows only posts the query without it shows, each with a space in its content or author name |
| ForumBoard.FormatTime | src/screens/ForumScreen.tsx:274-285 | the label is the largest whole unit elapsed, with its bounds |
| ForumBoard.FormatTimeMonotone | src/screens/ForumScreen.tsx:274-285 | a post's label never gets younger as time goes on |
| Accounts.NameOrAnonymous | src/screens/ForumScreen.tsx:193 | `displayName || 'Anonymous'`: the display name when it is not empty, "Anonymous" otherwise, so the stored name is never empty |
| ForumBoard.NewPost | src/screens/ForumScreen.tsx:164-215 | nothing to post exactly for blank text without an image, then a missing user; otherwise the written record with trimmed text |
| ForumBoard.Liked | src/screens/ForumScreen.tsx:222-246 | a present like is removed with the counter decremented, an absent one appended with it incremented |
| ForumBoard.LikeKeepsCount | src/screens/ForumScreen.tsx:222-246 | a counter equal to a list without repeats stays so |
| ForumBoard.LikeTwiceRestores | src/screens/ForumScreen.tsx:222-246 | liking then unliking leaves the post as it was |
| ForumBoard.Board.constructor | src/screens/ForumScreen.tsx:50-62 | the board starts with no posts and an empty query |
| ForumBoard.Board.Receive | src/screens/ForumScreen.tsx:70-90 | the received posts are kept newest first |
| ForumBoard.Board.Search | src/screens/ForumScreen.tsx:389 | the query becomes the typed text, and the posts are kept |
| ForumBoard.Board.Shown | src/screens/ForumScreen.tsx:257-269 | the posts on screen are a subsequence of the posts |
| ForumBoard.Board.HandleLike | src/screens/ForumScreen.tsx:222-246 | without a user nothing changes; otherwise only that post changes, by `Liked`, and the order stays newest first |
| Onboarding.Decide | src/screens/auth/OnboardingScreen.tsx:84-98 | main tabs exactly for status "true" with a token; the walkthrough exactly for a token without a status; sign-in otherwise, including on a storage error |
| Onboarding.DecideTable | src/screens/auth/OnboardingScreen.tsx:84-98 | sign-in exactly for a failed read, a missing or empty token, or a stored non-empty status other than "true" |
| Onboarding.SlideDeck.constructor | src/screens/auth/OnboardingScreen.tsx:119-122 | the walkthrough opens on the first slide with no goal chosen |
| Onboarding.SlideDeck.ShowsBack | src/screens/auth/OnboardingScreen.tsx:298 | Back is shown exactly past the first slide, which is exactly when `goToPrevSlide` moves (`SlideDeck.Previous`) |
| Onboarding.SlideDeck.ShowsNext | src/screens/auth/OnboardingScreen.tsx:306 | Next is shown exactly before the last slide, which is exactly when `goToNextSlide` moves (`SlideDeck.Next`) |
| Onboarding.SlideDeck.Next | src/screens/auth/OnboardingScreen.tsx:142-147 | one slide on, except on the last; the index changes exactly when the Next button is shown |
| Onboarding.SlideDeck.Previous | src/screens/auth/OnboardingScreen.tsx:149-154 | one slide back, except on the first; the index changes exactly when the Back button is shown |
| Onboarding.SlideDeck.ToggleGoal | src/screens/auth/OnboardingScreen.tsx:187-193 | a chosen goal is dropped, another appended; other goals keep their membership and nothing repeats |
| MapScreen.MarkerColor | src/screens/MapScreen.tsx:355-357 | a known type's table colour, "#007AFF" otherwise |
| MapScreen.MarkerIcon | src/screens/MapScreen.tsx:359-361 | a known type's table icon, the medical symbol otherwise |
| MapScreen.MarkerLookups | src/screens/MapScreen.tsx:26-33 | known types have distinct colours, an unknown type looks like a clinic, and hospitals and clinics share an icon |
| MapScreen.SearchResults | src/screens/MapScreen.tsx:264-276 | nothing below two characters; otherwise the first ten facilities, in order, whose lower-cased name or type contains the lower-cased text |
| MapScreen.SearchIsCompleteWhenFew | src/screens/MapScreen.tsx:271-276 | with at most ten matches every match is listed |
| MapScreen.SearchFindsByType | src/screens/MapScreen.tsx:263-275 | a query of two or more characters that occurs in a facility's type, typed in any case, makes the facility a match, so a list of that facility alone finds it |
| MapScreen.SearchIgnoresQueryCase | src/screens/MapScreen.tsx:263-275 | the results do not depend on the letter case of the query |
| MapScreen.Shown | src/screens/MapScreen.tsx:90-93 | exactly the facilities of a visible type, in order; all of them when every type is visible |
| MapScreen.ToggleType | src/screens/MapScreen.tsx:345-353 | the type's visibility flips and no other type's changes |
| MapScreen.ToggleTypeTwice | src/screens/MapScreen.tsx:345-353 | toggling a type twice restores the visible types |
| MapScreen.HideTypeShown | src/screens/MapScreen.tsx:90-93 | hiding a type takes exactly its facilities off the map, keeping the order of the rest |
| MapScreen.FacilityMap.constructor | src/screens/MapScreen.tsx:48 | every type of the table starts visible |
| MapScreen.FacilityMap.Found | src/screens/MapScreen.tsx:159 | the facilities become the ones found; visible types, query and results are kept |
| MapScreen.FacilityMap.OnMap | src/screens/MapScreen.tsx:90-93 | the markers are the facilities of visible types |
| MapScreen.FacilityMap.Search | src/screens/MapScreen.tsx:264-276 | the text is stored as typed and the results are `SearchResults` |
| MapScreen.FacilityMap.Select | src/screens/MapScreen.tsx:279-302 | the list closes and the box shows the facility's name |
| MapScreen.FacilityMap.ToggleVisible | src/screens/MapScreen.tsx:345-353 | the visible types become `ToggleType` of the old ones |

## Left out

- Network and storage: Firestore, Firebase Auth, AsyncStorage, the Overpass and OSRM requests. The forum works against in-memory maps, and the store's ids and time-stamps are parameters.
- forumService.ts as written does not import `setDoc` and calls `db.batch()`, which the modular Firestore SDK does not have. The model gives `vote`, `addComment` and `deleteComment` their evidently intended meaning: a write, and an atomic batch.
- `getPost`, `updatePost`, `deletePost` and `getComments` only pass data through to the store. Firestore's `orderBy` is left out, and `Listed` returns a set.
- The vote record's document id `${postId}_${userId}` is modelled as a pair key, so ids that collide after concatenation are not modelled.
- Randomness: every shuffle is an index permutation given by the caller. The model does not claim the shuffle is uniform.
- QuizEval.Percent: the source rounds the double `(correct / n) * 100`, and the model rounds the exact ratio. They differ where the double falls just below a half: 23 of 40 shows 57 in the source and 58 in the model, and 29 of 200 shows 14 and 15.
- Floating point: the map's distances, regions and zoom deltas are not modelled, and neither are facility coordinates.
- The JSON text layer (`JSON.parse`/`JSON.stringify` on characters) is not modelled. A document is either a parsed value or unparsable text, and `JSON.stringify(v)` is `Parsed(v)`.
- QuizModel.DecodeKind: the decoder is strict. A kind field that is missing or has the wrong type makes the question malformed, so the source's `|| []` and `|| ''` defaults on malformed content are not modelled. A question whose `id`, `questionType` or `question` is missing or not a string is rejected too (`QuizModel.DecodeQuestion`), where the source reads these fields unchecked. Malformed content opens in the editor with no questions.
- The quiz screen crashes on content that does not parse and on a quiz with no questions. The model instead requires a non-empty quiz in `Session.constructor`.
- An empty course (`ElementPager.constructor`) and an empty slide list (`Player.constructor`) crash in the source. The model requires at least one element or slide.
- Lower-casing covers ASCII letters only. String lengths count code points, not UTF-16 units, which matters for `text.length < 2` on the map screen.
- React mechanics: rendering, effects other than the quiz initialisation and the facility filter, stale closures and state batching. Each handler is one atomic transition.
- QuizSession.Session: the course screen renders `<QuizElement>` without a `key`, so two quiz elements shown one after the other share one component's answers, index and maps. The model gives every quiz a fresh session.
- The editor's title, content and video URL inputs only copy text into the element and are not modelled. The stray `correctAnswer`/`correctText` properties that `updateQuestion` writes on kinds that do not read them are not modelled; the model's question has no place for them.
- ElementEditing.ElementEditor.UpdateGlossaryTerm: the editor's glossary holds the same term objects as the element in the course draft, and the source writes the field into that shared object. So an edit also reaches the draft, even after Cancel, and `saveCourse` then stores it. The model edits the editor's copy only.
- ForumBoard.NewPost: the record stores the picked image's URI. The source first converts the image to a base64 data URL, and when that fails it shows an alert and posts nothing. The conversion and its failure are not modelled.
- OnboardingScreen's `onMomentumScrollEnd` sets the index from the scroll offset, which is not modelled. The Done button's storage writes and navigation are not modelled either.
- ForumBoard.SortNewestFirst: it proves order and permutation but not the stability of JavaScript's `sort`.
- ForumBoard.FormatTime: it yields the bucket and its count rather than the label text `"5m ago"`. Firestore's nanoseconds field is ignored.
- The user's e-mail, and every screen outside the ones named above, are not part of this model.
