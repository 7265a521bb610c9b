/**
 * The filter bar: the size and road-allowed facets derived from the listed
 * skips, and which buttons it shows and highlights.
 */
module SkipFilters {
  import opened Strings
  import opened Sequences
  import opened Sorting
  import opened SkipCard
  import opened SkipSelection

  /** JavaScript's default sort comparator on strings: `a` goes after `b` when `b` is smaller. */
  predicate StrGt(a: string, b: string) {
    StrLt(b, a)
  }

  lemma StrGtIsStrictWeakOrder()
    ensures StrictWeakOrder(StrGt)
  {
    forall x, y | StrGt(x, y) ensures !StrGt(y, x) {
      StrLtAsymmetric(y, x);
    }
    forall x, y, z | !StrGt(x, y) && !StrGt(y, z) ensures !StrGt(x, z) {
      // In string order x <= y <= z, so z < x would give z < y.
      if StrLt(z, x) && x != y {
        StrLtTotal(x, y);
        StrLtTransitive(z, x, y);
      }
    }
  }

  /** Some skip in `skips` has size `size`. */
  predicate HasSize(skips: seq<Skip>, size: string) {
    exists j :: 0 <= j < |skips| && skips[j].size == size
  }

  /**
   * `availableFilters`: one pass over the skips collecting the sizes (a set
   * that keeps first-insertion order) and whether any skip is road-allowed,
   * then the sizes as a sorted array.
   */
  method AvailableFilters(skips: seq<Skip>) returns (sizes: seq<string>, hasRoadAllowed: bool)
    ensures forall j :: 0 <= j < |skips| ==> skips[j].size in sizes
    ensures forall i :: 0 <= i < |sizes| ==> HasSize(skips, sizes[i])
    ensures forall i, j :: 0 <= i < j < |sizes| ==> StrLt(sizes[i], sizes[j])
    ensures hasRoadAllowed <==> exists j :: 0 <= j < |skips| && skips[j].allowedOnRoad
    ensures |skips| == 0 ==> sizes == [] && !hasRoadAllowed
  {
    var seen;
    seen, hasRoadAllowed := CollectFacets(skips);
    sizes := SortedSizes(seen);
    forall i | 0 <= i < |sizes| ensures HasSize(skips, sizes[i]) {
      assert sizes[i] in seen;
    }
  }

  /** The `forEach` pass: distinct sizes in first-seen order, and the road-allowed flag. */
  method CollectFacets(skips: seq<Skip>) returns (seen: seq<string>, hasRoadAllowed: bool)
    ensures forall j :: 0 <= j < |skips| ==> skips[j].size in seen
    ensures forall x :: x in seen ==> HasSize(skips, x)
    ensures Distinct(seen) && |seen| <= |skips|
    ensures hasRoadAllowed <==> exists j :: 0 <= j < |skips| && skips[j].allowedOnRoad
  {
    seen := [];
    hasRoadAllowed := false;
    var k := 0;
    while k < |skips|
      invariant 0 <= k <= |skips|
      invariant forall j :: 0 <= j < k ==> skips[j].size in seen
      invariant forall x :: x in seen ==> HasSize(skips[..k], x)
      invariant Distinct(seen) && |seen| <= k
      invariant hasRoadAllowed <==> exists j :: 0 <= j < k && skips[j].allowedOnRoad
    {
      if skips[k].size !in seen {
        seen := seen + [skips[k].size];
      }
      if skips[k].allowedOnRoad {
        hasRoadAllowed := true;
      }
      k := k + 1;
      assert forall x :: HasSize(skips[..k - 1], x) ==> HasSize(skips[..k], x) by {
        assert forall j :: 0 <= j < k - 1 ==> skips[..k - 1][j] == skips[..k][j];
      }
    }
    assert skips[..k] == skips;
  }

  /** `Array.from(sizes).sort()`: the same strings, strictly ascending. */
  method SortedSizes(seen: seq<string>) returns (sizes: seq<string>)
    requires Distinct(seen)
    ensures |sizes| == |seen|
    ensures forall x :: x in sizes <==> x in seen
    ensures forall i, j :: 0 <= i < j < |sizes| ==> StrLt(sizes[i], sizes[j])
  {
    var sorted := new string[|seen|](i requires 0 <= i < |seen| => seen[i]);
    assert sorted[..] == seen;
    SortInPlace(sorted, StrGt);
    sizes := sorted[..];
    StrGtIsStrictWeakOrder();
    SortSorted(seen, StrGt);
    DistinctPermutation(seen, sizes);
    forall x ensures x in sizes <==> x in seen {
      assert x in sizes <==> x in multiset(sizes);
    }
    forall i, j | 0 <= i < j < |sizes| ensures StrLt(sizes[i], sizes[j]) {
      assert !StrGt(sizes[i], sizes[j]);
      StrLtTotal(sizes[i], sizes[j]);
    }
  }

  /** The filter tokens of a list of sizes. */
  function SizeTokens(sizes: seq<string>): (tokens: seq<string>)
    ensures |tokens| == |sizes|
    ensures forall i :: 0 <= i < |sizes| ==> tokens[i] == SizeToken(sizes[i])
  {
    seq(|sizes|, i requires 0 <= i < |sizes| => SizeToken(sizes[i]))
  }

  /** The token of each button in the bar, in order: "All", one per size, then "Road Allowed" if any skip is. */
  function FilterButtons(sizes: seq<string>, hasRoadAllowed: bool): (buttons: seq<string>)
    ensures |buttons| == 1 + |sizes| + (if hasRoadAllowed then 1 else 0)
    ensures buttons[0] == "all"
    ensures buttons[1..|sizes| + 1] == SizeTokens(sizes)
    ensures hasRoadAllowed ==> buttons[|sizes| + 1] == "road_allowed"
  {
    ["all"] + SizeTokens(sizes) + (if hasRoadAllowed then ["road_allowed"] else [])
  }

  /** A button is highlighted when the current filter option is its token. */
  predicate IsActive(filterOption: string, token: string) {
    filterOption == token
  }

  /** The Road Allowed button is offered exactly when some listed skip is road-allowed. */
  lemma RoadFacetShownIff(sizes: seq<string>, hasRoadAllowed: bool)
    requires forall i :: 0 <= i < |sizes| ==> EndsWith(sizes[i], " Yard")
    ensures "road_allowed" in FilterButtons(sizes, hasRoadAllowed) <==> hasRoadAllowed
  {
    var tokens := SizeTokens(sizes);
    SizeTokensNotReserved(sizes);
    assert FilterButtons(sizes, hasRoadAllowed) == ["all"] + tokens + (if hasRoadAllowed then ["road_allowed"] else []);
  }

  /** No size button carries the token of the All or the Road Allowed button. */
  lemma SizeTokensNotReserved(sizes: seq<string>)
    requires forall i :: 0 <= i < |sizes| ==> EndsWith(sizes[i], " Yard")
    ensures "all" !in SizeTokens(sizes) && "road_allowed" !in SizeTokens(sizes)
  {
    var tokens := SizeTokens(sizes);
    forall i | 0 <= i < |tokens| ensures tokens[i] != "all" && tokens[i] != "road_allowed" {
      SizeTokenNotReserved(sizes[i]);
    }
  }

  /**
   * With the filter option "all" only the All button is highlighted, with
   * "road_allowed" only the Road Allowed button, and a size button is
   * highlighted exactly when the option is its size's token.
   */
  lemma ActiveButtons(sizes: seq<string>, hasRoadAllowed: bool, filterOption: string, i: nat)
    requires forall k :: 0 <= k < |sizes| ==> EndsWith(sizes[k], " Yard")
    requires i < |FilterButtons(sizes, hasRoadAllowed)|
    ensures filterOption == "all" ==> (IsActive(filterOption, FilterButtons(sizes, hasRoadAllowed)[i]) <==> i == 0)
    ensures filterOption == "road_allowed" ==>
              (IsActive(filterOption, FilterButtons(sizes, hasRoadAllowed)[i]) <==> i == |sizes| + 1)
    ensures 1 <= i <= |sizes| ==>
              (IsActive(filterOption, FilterButtons(sizes, hasRoadAllowed)[i]) <==> filterOption == SizeToken(sizes[i - 1]))
  {
    if 1 <= i <= |sizes| {
      SizeTokenNotReserved(sizes[i - 1]);
    }
  }
}
