/** The multi-step form: a step index that starts at the first step and
    moves one step at a time, a back button that cancels on the first step,
    and a next button that completes on the last step and is held back by
    a step marked invalid or by a pending submission. */
module Stepper {
  import opened Wrappers

  /** A step as the stepper sees it; `isValid` may be left out (`None`),
      which counts as valid. The step's content is not modelled. */
  datatype Step = Step(id: string, title: string, isValid: Option<bool>)

  /** How a step's indicator is drawn. */
  datatype Status = Done | Active | Pending

  /** Steps before the current one are done (a check mark), the current one
      is active (a ring), later ones are pending. */
  function StatusOf(index: nat, current: nat): (s: Status)
    ensures s == Done <==> index < current
    ensures s == Active <==> index == current
    ensures s == Pending <==> index > current
  {
    if index < current then Done else if index == current then Active else Pending
  }

  /** A step's title is in the foreground once the step is reached, and the
      line after a step is filled once the step is done. */
  predicate TitleHighlighted(index: nat, current: nat) {
    index <= current
  }

  predicate ConnectorFilled(index: nat, current: nat) {
    index < current
  }

  lemma HighlightFollowsStatus(index: nat, current: nat)
    ensures TitleHighlighted(index, current) <==> StatusOf(index, current) != Pending
    ensures ConnectorFilled(index, current) <==> StatusOf(index, current) == Done
  {
  }

  /** `goNext`: one step on, except on the last step. */
  function NextStep(current: nat, count: nat): (n: nat)
    ensures current < count ==> n < count
    ensures n == current || n == current + 1
    ensures n == current + 1 <==> current + 1 < count
  {
    if current < count - 1 then current + 1 else current
  }

  /** `goPrev`: one step back, except on the first step. */
  function PrevStep(current: nat): (n: nat)
    ensures n <= current
    ensures n == current - 1 <==> current > 0
  {
    if current > 0 then current - 1 else current
  }

  /** Next then back returns to the step left, unless it was the last one. */
  lemma PrevUndoesNext(current: nat, count: nat)
    requires current + 1 < count
    ensures PrevStep(NextStep(current, count)) == current
  {
  }

  /** Back then next returns to the step left, unless it was the first one. */
  lemma NextUndoesPrev(current: nat, count: nat)
    requires 0 < current < count
    ensures NextStep(PrevStep(current), count) == current
  {
  }

  /** What a click on one of the two buttons leads to. */
  datatype Outcome = Moved | Cancelled | Completed | Ignored

  class StepperForm {
    const steps: seq<Step>
    var currentStep: nat

    /** `steps[currentStep]` is always a step. */
    ghost predicate Valid()
      reads this
    {
      currentStep < |steps|
    }

    /** The form opens on the first step. */
    constructor (steps: seq<Step>)
      requires |steps| >= 1
      ensures Valid()
      ensures this.steps == steps && currentStep == 0
    {
      this.steps := steps;
      currentStep := 0;
    }

    predicate IsFirstStep()
      reads this
    {
      currentStep == 0
    }

    predicate IsLastStep()
      reads this
    {
      currentStep == |steps| - 1
    }

    /** The next button is disabled while loading or when the current step
      is explicitly marked invalid; a step that leaves `isValid` out does
      not hold it back (`undefined === false` is false). */
    predicate NextDisabled(loading: bool)
      reads this
      requires Valid()
      ensures !loading && steps[currentStep].isValid.None? ==> !NextDisabled(loading)
    {
      loading || steps[currentStep].isValid == Some(false)
    }

    /** "Step n / total". */
    function Counter(): (c: (nat, nat))
      reads this
      requires Valid()
      ensures 1 <= c.0 <= c.1
    {
      (currentStep + 1, |steps|)
    }

    method GoNext()
      requires Valid()
      modifies this
      ensures Valid()
      ensures currentStep == NextStep(old(currentStep), |steps|)
    {
      if currentStep < |steps| - 1 {
        currentStep := currentStep + 1;
      }
    }

    method GoPrev()
      requires Valid()
      modifies this
      ensures Valid()
      ensures currentStep == PrevStep(old(currentStep))
    {
      if currentStep > 0 {
        currentStep := currentStep - 1;
      }
    }

    /** The back button: disabled while loading; on the first step it calls
      `onCancel` and stays, otherwise it goes back one step. */
    method ClickBack(loading: bool) returns (outcome: Outcome)
      requires Valid()
      modifies this
      ensures Valid()
      ensures loading ==> outcome == Ignored && currentStep == old(currentStep)
      ensures !loading && old(currentStep) == 0 ==> outcome == Cancelled && currentStep == 0
      ensures !loading && old(currentStep) > 0 ==> outcome == Moved && currentStep == old(currentStep) - 1
    {
      if loading {
        outcome := Ignored;
      } else if IsFirstStep() {
        outcome := Cancelled;
      } else {
        GoPrev();
        outcome := Moved;
      }
    }

    /** The next button: disabled while loading or on an invalid step; on
      the last step it calls `onComplete` and stays, otherwise it moves on
      one step. */
    method ClickNext(loading: bool) returns (outcome: Outcome)
      requires Valid()
      modifies this
      ensures Valid()
      ensures old(NextDisabled(loading)) ==> outcome == Ignored && currentStep == old(currentStep)
      ensures !old(NextDisabled(loading)) && old(currentStep) == |steps| - 1 ==>
                outcome == Completed && currentStep == old(currentStep)
      ensures !old(NextDisabled(loading)) && old(currentStep) < |steps| - 1 ==>
                outcome == Moved && currentStep == old(currentStep) + 1
    {
      if NextDisabled(loading) {
        outcome := Ignored;
      } else if IsLastStep() {
        outcome := Completed;
      } else {
        GoNext();
        outcome := Moved;
      }
    }
  }

  /** Pressing next on every step in turn, none of them invalid and nothing
      loading, walks to the last step and then completes the form. */
  method WalkThrough(form: StepperForm) returns (outcome: Outcome)
    requires form.Valid() && form.currentStep == 0
    requires forall k :: 0 <= k < |form.steps| ==> form.steps[k].isValid != Some(false)
    modifies form
    ensures form.Valid() && form.currentStep == |form.steps| - 1
    ensures outcome == Completed
  {
    outcome := form.ClickNext(false);
    while outcome == Moved
      invariant form.Valid()
      invariant outcome == Moved || outcome == Completed
      invariant outcome == Completed ==> form.currentStep == |form.steps| - 1
      decreases |form.steps| - form.currentStep, outcome == Moved
    {
      outcome := form.ClickNext(false);
    }
  }
}
