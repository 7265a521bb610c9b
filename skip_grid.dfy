/**
 * The grid of skip cards: a single-select highlight owned by the page, and
 * Confirm, which hands the highlighted skip to the progress store.
 */
module SkipGrid {
  import opened Wrappers
  import opened SkipCard
  import opened ProgressStore

  /** The highlight after clicking `skip`: clicking the highlighted id clears it, any other click replaces it. */
  function Toggled(selected: Option<Skip>, skip: Skip): (next: Option<Skip>)
    ensures next == None <==> selected.Some? && selected.value.id == skip.id
    ensures next != None ==> next == Some(skip)
  {
    if selected.Some? && selected.value.id == skip.id then None else Some(skip)
  }

  /** A card shows as selected when its id is the highlighted one. */
  predicate IsSelected(selected: Option<Skip>, card: Skip) {
    selected.Some? && selected.value.id == card.id
  }

  /** Confirm is disabled exactly when nothing is highlighted. */
  predicate ConfirmDisabled(selected: Option<Skip>) {
    selected.None?
  }

  /** Clicking the same skip twice from no highlight leaves no highlight. */
  lemma ToggleTwiceFromNone(skip: Skip)
    ensures Toggled(Toggled(None, skip), skip) == None
  {
  }

  /** Clicking `b` while `a` is highlighted highlights `b` alone; clicking `b` again clears it. */
  lemma ToggleReplaces(a: Skip, b: Skip)
    requires a.id != b.id
    ensures Toggled(Some(a), b) == Some(b)
    ensures Toggled(Toggled(Some(a), b), b) == None
  {
  }

  /** After any click exactly the clicked card, or no card, shows as selected. */
  lemma ToggledSelection(selected: Option<Skip>, skip: Skip, card: Skip)
    ensures IsSelected(Toggled(selected, skip), card)
        <==> card.id == skip.id && !(selected.Some? && selected.value.id == skip.id)
    ensures ConfirmDisabled(Toggled(selected, skip)) <==> IsSelected(selected, skip)
  {
  }

  /** Among cards with distinct ids, at most one shows as selected. */
  lemma AtMostOneSelected(selected: Option<Skip>, cards: seq<Skip>, i: nat, j: nat)
    requires forall k, l :: 0 <= k < l < |cards| ==> cards[k].id != cards[l].id
    requires i < |cards| && j < |cards|
    requires IsSelected(selected, cards[i]) && IsSelected(selected, cards[j])
    ensures i == j
  {
  }

  class Grid {
    var selectedSkip: Option<Skip>

    constructor ()
      ensures selectedSkip == None
    {
      selectedSkip := None;
    }

    method HandleSkipToggle(skip: Skip)
      modifies this
      ensures selectedSkip == Toggled(old(selectedSkip), skip)
    {
      if selectedSkip.Some? && selectedSkip.value.id == skip.id {
        selectedSkip := None;
      } else {
        selectedSkip := Some(skip);
      }
    }

    /**
     * Confirm: without a highlight nothing happens; otherwise the store's skip
     * becomes the highlighted one and its step advances by one.
     */
    method HandleSubmit(store: Store)
      modifies store
      ensures selectedSkip.None? ==> store.State() == old(store.State())
      ensures selectedSkip.Some? ==>
                store.State() == old(store.State()).(skip := selectedSkip, currentStep := old(store.currentStep) + 1)
    {
      if selectedSkip.None? {
        return;
      }
      store.SetSkip(selectedSkip);
      store.NextStep();
    }
  }
}
