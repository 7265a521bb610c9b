/**
 * The booking progress store: the wizard's current step and one slot per
 * booking detail, changed only through its setters. No operation checks the
 * step's range.
 */
module ProgressStore {
  import opened Wrappers
  import opened SkipCard

  datatype Address = Address(postcode: string, fullAddress: string)

  datatype WasteType = WasteType(kind: string, hasHeavyWaste: bool, hasPlasterboard: bool)

  /** A snapshot of the store's fields; the delivery date is a timestamp. */
  datatype ProgressState = ProgressState(
    currentStep: int,
    address: Option<Address>,
    wasteType: Option<WasteType>,
    skip: Option<Skip>,
    permitRequired: Option<bool>,
    deliveryDate: Option<int>,
    paymentComplete: bool)

  /** The state the store is created in: step 3, with address and waste type already filled in. */
  const Initial: ProgressState := ProgressState(
    3,
    Some(Address("LE10 1SH", "Hinckley")),
    Some(WasteType("Garden Waste", false, false)),
    None, None, None, false)

  /** The state `reset` returns to: step 1, every slot empty. */
  const Cleared: ProgressState := ProgressState(1, None, None, None, None, None, false)

  /**
   * Whether step `stepId` counts as complete. Address, waste type and delivery
   * date are records, and every record is truthy, so those steps test for a
   * present value. Step 4 accepts a permit answer of either kind. Step 3 tests
   * whether the skip slot is `undefined`, which no value of its type
   * (a skip or null) is, so it is always complete.
   */
  function StepComplete(st: ProgressState, stepId: int): (complete: bool) {
    match stepId
    case 1 => st.address.Some?
    case 2 => st.wasteType.Some?
    case 3 => true
    case 4 => st.permitRequired.Some?
    case 5 => st.deliveryDate.Some?
    case 6 => st.paymentComplete
    case _ => false
  }

  /** The store's query, step by step, and the false answer for ids outside 1..6. */
  lemma StepCompleteMeaning(st: ProgressState, stepId: int)
    ensures stepId == 1 ==> (StepComplete(st, stepId) <==> st.address != None)
    ensures stepId == 2 ==> (StepComplete(st, stepId) <==> st.wasteType != None)
    ensures stepId == 3 ==> StepComplete(st, stepId)
    ensures stepId == 4 ==> (StepComplete(st, stepId) <==> st.permitRequired == Some(true) || st.permitRequired == Some(false))
    ensures stepId == 5 ==> (StepComplete(st, stepId) <==> st.deliveryDate != None)
    ensures stepId == 6 ==> (StepComplete(st, stepId) <==> st.paymentComplete)
    ensures !(1 <= stepId <= 6) ==> !StepComplete(st, stepId)
  {
    if st.permitRequired.Some? {
      assert st.permitRequired == Some(true) || st.permitRequired == Some(false) by {
        if st.permitRequired.value { } else { }
      }
    }
  }

  /** Right after creation the wizard is on step 3 with steps 1 to 3 complete and 4 to 6 not. */
  lemma InitialCompletion(stepId: int)
    ensures Initial.currentStep == 3
    ensures StepComplete(Initial, stepId) <==> 1 <= stepId <= 3
  {
  }

  /** After `reset` the wizard is on step 1 and only step 3 counts as complete. */
  lemma ClearedCompletion(stepId: int)
    ensures Cleared.currentStep == 1
    ensures StepComplete(Cleared, stepId) <==> stepId == 3
  {
  }

  /** Setting one slot can only complete that slot's step; no other step's answer moves. */
  lemma SetterCompletesOwnStep(st: ProgressState, stepId: int, n: int,
                               a: Address, w: WasteType, s: Option<Skip>, p: bool, d: int, paid: bool)
    ensures StepComplete(st.(address := Some(a)), stepId) == (stepId == 1 || StepComplete(st, stepId))
    ensures StepComplete(st.(wasteType := Some(w)), stepId) == (stepId == 2 || StepComplete(st, stepId))
    ensures StepComplete(st.(skip := s), stepId) == StepComplete(st, stepId)
    ensures StepComplete(st.(permitRequired := Some(p)), stepId) == (stepId == 4 || StepComplete(st, stepId))
    ensures StepComplete(st.(deliveryDate := Some(d)), stepId) == (stepId == 5 || StepComplete(st, stepId))
    ensures StepComplete(st.(paymentComplete := paid), stepId)
         == (if stepId == 6 then paid else StepComplete(st, stepId))
    ensures StepComplete(st.(currentStep := n), stepId) == StepComplete(st, stepId)
  {
  }

  class Store {
    var currentStep: int
    var address: Option<Address>
    var wasteType: Option<WasteType>
    var skip: Option<Skip>
    var permitRequired: Option<bool>
    var deliveryDate: Option<int>
    var paymentComplete: bool

    function State(): (st: ProgressState)
      reads this
    {
      ProgressState(currentStep, address, wasteType, skip, permitRequired, deliveryDate, paymentComplete)
    }

    constructor ()
      ensures State() == Initial
    {
      currentStep := 3;
      address := Some(Address("LE10 1SH", "Hinckley"));
      wasteType := Some(WasteType("Garden Waste", false, false));
      skip := None;
      permitRequired := None;
      deliveryDate := None;
      paymentComplete := false;
    }

    method SetAddress(a: Address)
      modifies this
      ensures State() == old(State()).(address := Some(a))
    {
      address := Some(a);
    }

    method SetWasteType(w: WasteType)
      modifies this
      ensures State() == old(State()).(wasteType := Some(w))
    {
      wasteType := Some(w);
    }

    /** The implementation also accepts null, which empties the slot. */
    method SetSkip(s: Option<Skip>)
      modifies this
      ensures State() == old(State()).(skip := s)
    {
      skip := s;
    }

    method SetPermitRequired(required: bool)
      modifies this
      ensures State() == old(State()).(permitRequired := Some(required))
    {
      permitRequired := Some(required);
    }

    method SetDeliveryDate(date: int)
      modifies this
      ensures State() == old(State()).(deliveryDate := Some(date))
    {
      deliveryDate := Some(date);
    }

    method SetPaymentComplete(complete: bool)
      modifies this
      ensures State() == old(State()).(paymentComplete := complete)
    {
      paymentComplete := complete;
    }

    /** One step forward, past step 6 too. */
    method NextStep()
      modifies this
      ensures State() == old(State()).(currentStep := old(currentStep) + 1)
    {
      currentStep := currentStep + 1;
    }

    /** One step back, below step 1 too. */
    method PrevStep()
      modifies this
      ensures State() == old(State()).(currentStep := old(currentStep) - 1)
    {
      currentStep := currentStep - 1;
    }

    method Reset()
      modifies this
      ensures State() == Cleared
      ensures forall stepId :: IsStepComplete(stepId) <==> stepId == 3
    {
      currentStep := 1;
      address := None;
      wasteType := None;
      skip := None;
      permitRequired := None;
      deliveryDate := None;
      paymentComplete := false;
      forall stepId ensures IsStepComplete(stepId) <==> stepId == 3 {
        ClearedCompletion(stepId);
      }
    }

    /** Jumps to any step, in range or not. */
    method SetCurrentStep(step: int)
      modifies this
      ensures State() == old(State()).(currentStep := step)
    {
      currentStep := step;
    }

    function IsStepComplete(stepId: int): (complete: bool)
      reads this
    {
      StepComplete(State(), stepId)
    }
  }

  /** `prevStep` undoes `nextStep`. */
  method NextThenPrevRestores(store: Store)
    modifies store
    ensures store.State() == old(store.State())
  {
    store.NextStep();
    store.PrevStep();
  }
}
