/** OnboardingScreen.tsx: where the app goes at start-up, given what local
    storage says about the user, and the four-slide walkthrough with its
    Back and Next buttons and the learning-goal checkboxes. */
module Onboarding {
  import opened Results
  import opened Lists

  /** What reading `@onboarding_complete` and `@user_token` from local
      storage gives: both values (a missing key reads as `None`), or an
      error. */
  datatype StorageRead = Read(status: Option<string>, token: Option<string>) | Failed

  datatype Route =
    | MainTabs    // `navigation.replace('MainTabs')`
    | Walkthrough // stays on the onboarding slides
    | SignIn      // `navigation.replace('Auth')`

  /** A stored value that JavaScript treats as true: present and not
      empty. */
  predicate Truthy(v: Option<string>) {
    v.Some? && v.value != ""
  }

  /** `checkOnboardingStatus`. */
  function Decide(r: StorageRead): (route: Route)
    ensures route == MainTabs <==> r.Read? && r.status == Some("true") && Truthy(r.token)
    ensures route == Walkthrough <==> r.Read? && Truthy(r.token) && !Truthy(r.status)
    ensures r.Failed? ==> route == SignIn
  {
    match r
    case Failed => SignIn
    case Read(status, token) =>
      if status == Some("true") && Truthy(token) then MainTabs
      else if Truthy(token) && !Truthy(status) then Walkthrough
      else SignIn
  }

  /** The user is sent to sign in exactly when storage could not be read,
      the token is missing or empty, or a status other than `"true"` is
      stored: a stale status with a token neither reaches the main tabs nor
      shows the walkthrough again. */
  lemma DecideTable(r: StorageRead)
    ensures r.Read? && !Truthy(r.token) ==> Decide(r) == SignIn
    ensures r.Read? && Truthy(r.status) && r.status != Some("true") ==> Decide(r) == SignIn
    ensures Decide(r) == SignIn <==>
              r.Failed? || !Truthy(r.token) || (Truthy(r.status) && r.status != Some("true"))
  {
  }

  /** `slides.length`. */
  const SlideCount: nat := 4

  /** The walkthrough's position and the goals chosen so far. */
  class SlideDeck {
    /** `currentIndex`. */
    var index: nat
    /** `selectedGoals`. */
    var goals: seq<string>

    ghost predicate Valid()
      reads this
    {
      index < SlideCount && NoDup(goals)
    }

    constructor()
      ensures Valid() && index == 0 && goals == []
    {
      index := 0;
      goals := [];
    }

    /** The Back button is shown; `Previous` moves exactly when it is. */
    function ShowsBack(): (shown: bool)
      reads this
      ensures shown <==> index > 0
    {
      index > 0
    }

    /** The Next button is shown; `Next` moves exactly when it is. */
    function ShowsNext(): (shown: bool)
      reads this
      ensures shown <==> index < SlideCount - 1
    {
      index < SlideCount - 1
    }

    /** `goToNextSlide`. */
    method Next()
      requires Valid()
      modifies this
      ensures Valid() && goals == old(goals)
      ensures old(index) < SlideCount - 1 ==> index == old(index) + 1
      ensures old(index) == SlideCount - 1 ==> index == old(index)
      ensures index != old(index) <==> old(ShowsNext())
    {
      if index < SlideCount - 1 {
        index := index + 1;
      }
    }

    /** `goToPrevSlide`. */
    method Previous()
      requires Valid()
      modifies this
      ensures Valid() && goals == old(goals)
      ensures old(index) > 0 ==> index == old(index) - 1
      ensures old(index) == 0 ==> index == 0
      ensures index != old(index) <==> old(ShowsBack())
    {
      if index > 0 {
        index := index - 1;
      }
    }

    /** Pressing a goal's checkbox: a chosen goal is dropped, another is
        appended. */
    method ToggleGoal(goal: string)
      requires Valid()
      modifies this
      ensures Valid() && index == old(index)
      ensures goal in goals <==> goal !in old(goals)
      ensures forall g :: g != goal ==> (g in goals <==> g in old(goals))
      ensures goal !in old(goals) ==> goals == old(goals) + [goal]
      ensures goal in old(goals) ==> |goals| == |old(goals)| - 1
    {
      if goal in goals {
        RemoveAllNoDup(goals, goal);
        goals := RemoveAll(goals, goal);
      } else {
        goals := goals + [goal];
      }
    }
  }
}
