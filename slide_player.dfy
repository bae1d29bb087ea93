/** The legacy slide player of CourseSlidesScreen.tsx: a course is a list
    of text slides and single-answer quiz slides, and a quiz slide must be
    answered before the player moves on. */
module SlidePlayer {
  import opened Results

  /** A slide of the static course data: `type: 'text'`, or `type: 'quiz'`
      with `quizOptions` and `correctAnswer`. */
  datatype Slide = TextSlide | QuizSlide(options: seq<string>, correctAnswer: int)

  /** What pressing Next does. */
  datatype NextOutcome =
    | AnswerFirst   // "Please answer the quiz question first!"
    | Completed     // "Course Complete!"
    | Advanced

  /** Whether a chosen option is the right one. */
  predicate IsRightAnswer(s: Slide, answer: int)
    requires s.QuizSlide?
  {
    answer == s.correctAnswer
  }

  class Player {
    const slides: seq<Slide>
    /** `currentSlideIndex`. */
    var index: nat
    /** `selectedQuizAnswer`. */
    var selected: Option<int>
    /** `quizAnswered`. */
    var answered: bool

    /** The index stays on a slide, and a selection exists exactly when the
        current quiz has been answered: both are set together and cleared
        together. */
    ghost predicate Valid()
      reads this
    {
      index < |slides| && (answered <==> selected.Some?)
    }

    /** The player opens on the first slide with nothing answered. */
    constructor(slides: seq<Slide>)
      requires 0 < |slides|
      ensures Valid() && this.slides == slides
      ensures index == 0 && selected == None && !answered
    {
      this.slides := slides;
      index := 0;
      selected := None;
      answered := false;
    }

    /** `handleNext`: an unanswered quiz slide blocks; the last slide
        reports completion without moving; otherwise the next slide opens
        with its quiz state cleared. */
    method Next() returns (outcome: NextOutcome)
      requires Valid()
      modifies this
      ensures Valid()
      ensures old(slides[index]).QuizSlide? && !old(answered) ==>
                outcome == AnswerFirst && index == old(index) && selected == old(selected) && !answered
      ensures outcome == Completed <==>
                (old(slides[index]).TextSlide? || old(answered)) && old(index) == |slides| - 1
      ensures outcome == Completed ==> index == old(index) && selected == old(selected) && answered == old(answered)
      ensures outcome == Advanced ==> index == old(index) + 1 && selected == None && !answered
      ensures outcome == Advanced <==>
                (old(slides[index]).TextSlide? || old(answered)) && old(index) < |slides| - 1
    {
      if slides[index].QuizSlide? && !answered {
        return AnswerFirst;
      }
      if index == |slides| - 1 {
        return Completed;
      }
      index := index + 1;
      selected := None;
      answered := false;
      outcome := Advanced;
    }

    /** `handlePrevious`: nothing on the first slide; otherwise the
        previous slide opens with the quiz state cleared. */
    method Previous()
      requires Valid()
      modifies this
      ensures Valid()
      ensures old(index) == 0 ==> index == 0 && selected == old(selected) && answered == old(answered)
      ensures old(index) > 0 ==> index == old(index) - 1 && selected == None && !answered
    {
      if index != 0 {
        index := index - 1;
        selected := None;
        answered := false;
      }
    }

    /** `handleQuizAnswer(i)`: the options are only shown on a quiz slide
        and are disabled once it is answered. Records the choice and tells
        whether it is the right one. */
    method Answer(i: int) returns (correct: bool)
      requires Valid() && slides[index].QuizSlide? && !answered
      modifies this
      ensures Valid() && index == old(index)
      ensures selected == Some(i) && answered
      ensures correct <==> IsRightAnswer(slides[index], i)
    {
      selected := Some(i);
      answered := true;
      correct := i == slides[index].correctAnswer;
    }
  }
}
