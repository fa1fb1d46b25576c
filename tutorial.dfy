/**
 * The first-run tutorial (src/app/components/tutorial/tutorial.component.ts):
 * a step counter over four steps with next, previous, skip and close.
 */
module Tutorial {

  datatype TutorialStep = TutorialStep(titleKey: string, descriptionKey: string, icon: string)

  const Steps: seq<TutorialStep> := [
    TutorialStep("tutorial.step1.title", "tutorial.step1.description", "videocam-outline"),
    TutorialStep("tutorial.step2.title", "tutorial.step2.description", "hand-left-outline"),
    TutorialStep("tutorial.step3.title", "tutorial.step3.description", "brush-outline"),
    TutorialStep("tutorial.step4.title", "tutorial.step4.description", "menu-outline")
  ]

  /** `steps.length - 1`. */
  const LastStep: nat := |Steps| - 1

  /** What the user can do on a step; closing is what `next` on the last step and `skip` lead to. */
  datatype Action = Next | Previous | Skip

  /**
   * The component's observable state: the current step and whether the tutorial
   * has been closed (completion stored and the modal dismissed).
   */
  datatype TutorialState = TutorialState(step: nat, closed: bool)

  predicate InRange(s: TutorialState) {
    s.step <= LastStep
  }

  /** One user action. */
  function Apply(s: TutorialState, a: Action): (t: TutorialState)
    ensures InRange(s) ==> InRange(t)
    ensures s.closed ==> t.closed
    ensures t.step == s.step || t.step == s.step + 1 || t.step + 1 == s.step
  {
    match a
    case Next => if s.step < LastStep then s.(step := s.step + 1) else s.(closed := true)
    case Previous => if s.step > 0 then s.(step := s.step - 1) else s
    case Skip => s.(closed := true)
  }

  /** A sequence of actions, applied in order: each moves the step by at most one. */
  function Run(s: TutorialState, actions: seq<Action>): (t: TutorialState)
    ensures t.step <= s.step + |actions| && s.step <= t.step + |actions|
    decreases |actions|
  {
    if actions == [] then s else Run(Apply(s, actions[0]), actions[1..])
  }

  /** Whatever the user does, the step stays within the four steps. */
  lemma {:induction false} RunStaysInRange(s: TutorialState, actions: seq<Action>)
    requires InRange(s)
    ensures InRange(Run(s, actions))
    decreases |actions|
  {
    if actions != [] {
      RunStaysInRange(Apply(s, actions[0]), actions[1..]);
    }
  }

  /** Once closed, the tutorial stays closed. */
  lemma {:induction false} RunKeepsClosed(s: TutorialState, actions: seq<Action>)
    requires s.closed
    ensures Run(s, actions).closed
    decreases |actions|
  {
    if actions != [] {
      RunKeepsClosed(Apply(s, actions[0]), actions[1..]);
    }
  }

  /** `next` advances by exactly one and leaves the tutorial open, except on the last step, where it closes instead. */
  lemma NextAdvancesOrCloses(s: TutorialState)
    requires InRange(s)
    ensures s.step < LastStep ==> Apply(s, Next) == TutorialState(s.step + 1, s.closed)
    ensures s.step == LastStep ==> Apply(s, Next) == TutorialState(s.step, true)
  {
  }

  /** `previous` does nothing on the first step and steps back by one elsewhere. */
  lemma PreviousStepsBack(s: TutorialState)
    ensures s.step == 0 ==> Apply(s, Previous) == s
    ensures s.step > 0 ==> Apply(s, Previous) == TutorialState(s.step - 1, s.closed)
  {
  }

  /** From a step that is not the last, `next` then `previous` returns to it. */
  lemma PreviousUndoesNext(s: TutorialState)
    requires s.step < LastStep
    ensures Apply(Apply(s, Next), Previous) == s
  {
  }

  /** `skip` closes from any step and keeps the step. */
  lemma SkipCloses(s: TutorialState)
    ensures Apply(s, Skip) == TutorialState(s.step, true)
  {
  }

  class TutorialComponent {
    var currentStep: nat
    var closed: bool

    ghost predicate Valid()
      reads this
    {
      currentStep <= LastStep
    }

    function Snapshot(): TutorialState
      reads this
    {
      TutorialState(currentStep, closed)
    }

    constructor ()
      ensures Valid() && currentStep == 0 && !closed
    {
      currentStep := 0;
      closed := false;
    }

    method Next()
      requires Valid()
      modifies this
      ensures Valid()
      ensures Snapshot() == Apply(old(Snapshot()), Action.Next)
    {
      if currentStep < |Steps| - 1 {
        currentStep := currentStep + 1;
      } else {
        Close();
      }
    }

    method Previous()
      requires Valid()
      modifies this
      ensures Valid()
      ensures Snapshot() == Apply(old(Snapshot()), Action.Previous)
    {
      if currentStep > 0 {
        currentStep := currentStep - 1;
      }
    }

    method Skip()
      requires Valid()
      modifies this
      ensures Valid()
      ensures Snapshot() == Apply(old(Snapshot()), Action.Skip)
    {
      Close();
    }

    /** Stores the completion flag and dismisses the modal; both are one flag here. */
    method Close()
      modifies this
      ensures currentStep == old(currentStep) && closed
    {
      closed := true;
    }

    function IsLastStep(): (b: bool)
      reads this
      ensures b <==> currentStep == 3
    {
      currentStep == |Steps| - 1
    }

    function IsFirstStep(): (b: bool)
      reads this
      ensures b <==> currentStep == 0
    {
      currentStep == 0
    }
  }
}
