/**
 * The step bar above the wizard: six steps, which of them are drawn as
 * completed or active, and clicking a step to go back to it.
 */
module ProgressBar {
  import opened ProgressStore

  /** A step of the bar; its icon component is not modelled. */
  datatype StepIcon = StepIcon(id: int, caption: string)

  const StepIcons: seq<StepIcon> := [
    StepIcon(1, "Address"), StepIcon(2, "Waste Type"), StepIcon(3, "Skip Size"),
    StepIcon(4, "Permit"), StepIcon(5, "Delivery"), StepIcon(6, "Payment")]

  /** The bar's own notion of a completed step: any step up to and including the current one. */
  predicate IsCompleted(stepId: int, currentStep: int) {
    stepId <= currentStep
  }

  predicate IsActive(stepId: int, currentStep: int) {
    currentStep == stepId
  }

  datatype StepStyle = ActiveStyle | CompletedStyle | PendingStyle

  /** Active wins over completed, completed over pending. */
  function StyleOf(stepId: int, currentStep: int): (style: StepStyle)
    ensures style == ActiveStyle <==> IsActive(stepId, currentStep)
    ensures style == CompletedStyle <==> IsCompleted(stepId, currentStep) && !IsActive(stepId, currentStep)
    ensures style == PendingStyle <==> !IsCompleted(stepId, currentStep)
  {
    if IsActive(stepId, currentStep) then ActiveStyle
    else if IsCompleted(stepId, currentStep) then CompletedStyle
    else PendingStyle
  }

  /** The step after clicking `stepId`: a completed step is jumped to, any other click does nothing. */
  function StepAfterClick(stepId: int, currentStep: int): (next: int)
    ensures next <= currentStep
    ensures IsCompleted(stepId, currentStep) ==> next == stepId
    ensures !IsCompleted(stepId, currentStep) ==> next == currentStep
  {
    if IsCompleted(stepId, currentStep) then stepId else currentStep
  }

  /** The six steps have ids 1 to 6, in order. */
  lemma StepIconsNumbered()
    ensures |StepIcons| == 6
    ensures forall i :: 0 <= i < |StepIcons| ==> StepIcons[i].id == i + 1
  {
  }

  /** An active step is also completed, and at most one step of the bar is active. */
  lemma ActiveSteps(currentStep: int, i: nat, j: nat)
    requires i < |StepIcons| && j < |StepIcons|
    ensures IsActive(StepIcons[i].id, currentStep) ==> IsCompleted(StepIcons[i].id, currentStep)
    ensures IsActive(StepIcons[i].id, currentStep) && IsActive(StepIcons[j].id, currentStep) ==> i == j
    ensures IsActive(StepIcons[i].id, currentStep) <==> currentStep == i + 1
  {
    StepIconsNumbered();
  }

  /** Clicking a step of the bar: `setCurrentStep(id)` when the step is completed, nothing otherwise. */
  method ClickStep(store: Store, step: StepIcon)
    modifies store
    ensures store.State() == old(store.State()).(currentStep := StepAfterClick(step.id, old(store.currentStep)))
  {
    if IsCompleted(step.id, store.currentStep) {
      store.SetCurrentStep(step.id);
    }
  }
}
