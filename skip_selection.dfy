/**
 * The skip selection page: normalising the fetched records, the token filter,
 * the filter-and-sort pipeline over a copy of the list, pagination, and the
 * choice between the error, empty and list views.
 */
module SkipSelection {
  import opened Wrappers
  import opened Strings
  import opened Sequences
  import opened Sorting
  import opened SkipCard

  // ---------------------------------------------------------------------------
  // Images and normalisation
  // ---------------------------------------------------------------------------

  const PhotoA: string := "https://images.unsplash.com/photo-1715066660662-90aa88234e04?q=80&w=1470&auto=format&fit=crop&ixlib=rb-4.1.0&ixid=M3wxMjA3fDB8MHxwaG90by1wYWdlfHx8fGVufDB8fHx8fA%3D%3D"
  const PhotoB: string := "https://images.unsplash.com/photo-1539558457237-404a2ecf3a22?q=80&w=1374&auto=format&fit=crop&ixlib=rb-4.1.0&ixid=M3wxMjA3fDB8MHxwaG90by1wYWdlfHx8fGVufDB8fHx8fA%3D%3D"
  const PhotoC: string := "https://images.unsplash.com/photo-1577010768912-19874598a38e?q=80&w=1470&auto=format&fit=crop&ixlib=rb-4.1.0&ixid=M3wxMjA3fDB8MHxwaG90by1wYWdlfHx8fGVufDB8fHx8fA%3D%3D"
  const PhotoFallback: string := "https://images.unsplash.com/photo-1592618220264-00ba04c4b8ec?q=80&w=1470&auto=format&fit=crop&ixlib=rb-4.1.0&ixid=M3wxMjA3fDB8MHxwaG90by1wYWdlfHx8fGVufDB8fHx8fA%3D%3D"

  /** The lookup table of stock photos, keyed by normalised size. */
  const SkipImages: map<string, string> := map[
    "4 Yard" := PhotoA, "6 Yard" := PhotoB, "8 Yard" := PhotoC,
    "10 Yard" := PhotoA, "12 Yard" := PhotoB, "14 Yard" := PhotoC,
    "16 Yard" := PhotoA, "20 Yard" := PhotoB, "40 Yard" := PhotoC]

  /** A photo for every size: the table's for the nine listed sizes, the fallback for any other. */
  function GetSkipImage(size: string): (url: string)
    ensures size in SkipImages ==> url == SkipImages[size]
    ensures size !in SkipImages ==> url == PhotoFallback
    ensures Truthy(url)
  {
    if size in SkipImages && Truthy(SkipImages[size]) then SkipImages[size] else PhotoFallback
  }

  lemma SkipImagesListed()
    ensures SkipImages.Keys
         == {"4 Yard", "6 Yard", "8 Yard", "10 Yard", "12 Yard", "14 Yard", "16 Yard", "20 Yard", "40 Yard"}
  {
  }

  /** A record as it comes from the API has a bare size; the page appends the unit. */
  predicate IsNormalised(skip: Skip) {
    EndsWith(skip.size, " Yard") && PresentAndTruthy(skip.imageUrl)
  }

  /** The `select` mapping for one record: the size gets its unit, a missing image is looked up. */
  function Normalise(raw: Skip): (skip: Skip)
    ensures skip.size == raw.size + " Yard"
    ensures PresentAndTruthy(raw.imageUrl) ==> skip.imageUrl == raw.imageUrl
    ensures !PresentAndTruthy(raw.imageUrl) ==> skip.imageUrl == Some(GetSkipImage(skip.size))
    ensures skip.(size := raw.size, imageUrl := raw.imageUrl) == raw
    ensures IsNormalised(skip)
  {
    var size := raw.size + " Yard";
    assert size[|size| - 5..] == " Yard";
    raw.(size := size,
         imageUrl := Some(if PresentAndTruthy(raw.imageUrl) then raw.imageUrl.value else GetSkipImage(size)))
  }

  /** The `select` mapping for the whole response: same length, same order. */
  function NormaliseAll(data: seq<Skip>): (skips: seq<Skip>)
    ensures |skips| == |data|
    ensures forall i :: 0 <= i < |data| ==> skips[i] == Normalise(data[i])
  {
    seq(|data|, i requires 0 <= i < |data| => Normalise(data[i]))
  }

  /** A normalised skip's card always shows its own image, never the card's placeholder. */
  lemma NormalisedImageShown(raw: Skip)
    ensures ImageSource(Normalise(raw)) == Normalise(raw).imageUrl.value
    ensures PresentAndTruthy(raw.imageUrl) ==> ImageSource(Normalise(raw)) == raw.imageUrl.value
  {
  }

  // ---------------------------------------------------------------------------
  // The token filter
  // ---------------------------------------------------------------------------

  /** The filter token of a size: lower case, with its first space replaced by an underscore. */
  function SizeToken(size: string): (token: string)
    ensures |token| == |size|
  {
    ReplaceFirst(ToLower(size), ' ', '_')
  }

  lemma SizeTokenEndsWithYard(size: string)
    requires EndsWith(size, " Yard")
    ensures EndsWith(SizeToken(size), "yard")
  {
    var n := |size|;
    var lower := ToLower(size);
    LowerYardSuffix(size);
    assert lower[n - 5] == ' ' by { assert lower[n - 5] == lower[n - 5..][0]; }
    ReplaceFirstKeepsAfter(lower, ' ', '_', n - 5);
    assert lower[n - 4..] == lower[n - 5..][1..];
  }

  /** Lower-casing a normalised size ends it in " yard". */
  lemma LowerYardSuffix(size: string)
    requires EndsWith(size, " Yard")
    ensures EndsWith(ToLower(size), " yard")
  {
    var n := |size|;
    var tail, lower := size[n - 5..], ToLower(size);
    assert tail == " Yard";
    forall i | 0 <= i < 5 ensures lower[n - 5..][i] == " yard"[i] {
      assert lower[n - 5 + i] == LowerChar(tail[i]);
    }
  }

  /** No normalised size has the token "all" or "road_allowed". */
  lemma SizeTokenNotReserved(size: string)
    requires EndsWith(size, " Yard")
    ensures SizeToken(size) != "all"
    ensures SizeToken(size) != "road_allowed"
  {
    SizeTokenEndsWithYard(size);
    assert !EndsWith("all", "yard");
    assert "road_allowed"[8..] == "owed";
  }

  /** For a size without spaces, the token is the lower-cased size and "_yard": "6 Yard" gives "6_yard". */
  lemma SizeTokenOfSpacelessSize(raw: string)
    requires ' ' !in raw
    ensures SizeToken(raw + " Yard") == ToLower(raw) + "_yard"
  {
    var size, n := raw + " Yard", |raw|;
    var lower := ToLower(size);
    LowerOfNormalised(raw);
    ReplaceFirstAt(lower, ' ', '_', n);
    calc {
      SizeToken(size);
      ReplaceFirst(lower, ' ', '_');
      lower[..n] + ['_'] + lower[n + 1..];
      ToLower(raw) + ['_'] + "yard";
      { UnderscoreYard(); }
      ToLower(raw) + "_yard";
    }
  }

  /** Lower-casing a normalised size without spaces: the lower-cased size, its one space, then "yard". */
  lemma LowerOfNormalised(raw: string)
    requires ' ' !in raw
    ensures var lower := ToLower(raw + " Yard");
      && lower[..|raw|] == ToLower(raw)
      && lower[|raw|] == ' '
      && (forall i :: 0 <= i < |raw| ==> lower[i] != ' ')
      && lower[|raw| + 1..] == "yard"
  {
    var low := ToLower(raw);
    ToLowerAppend(raw, " Yard");
    LowerYard();
    ToLowerKeepsNoSpace(raw);
    var lower := low + " yard";
    assert lower[..|raw|] == low;
    assert lower[|raw|..] == " yard";
    assert lower[|raw| + 1..] == " yard"[1..];
  }

  lemma LowerYard()
    ensures ToLower(" Yard") == " yard"
  {
  }

  lemma UnderscoreYard()
    ensures ['_'] + "yard" == "_yard"
  {
  }

  /** One token of the filter: "road_allowed" asks for a road-allowed skip, any other token for its size token. */
  predicate MatchesToken(skip: Skip, token: string) {
    if token == "road_allowed" then skip.allowedOnRoad else SizeToken(skip.size) == token
  }

  /** `filteredSkips`' predicate: no tokens keep everything, otherwise some token must match. */
  predicate KeptBy(skip: Skip, tokens: seq<string>) {
    |tokens| == 0 || exists t :: t in tokens && MatchesToken(skip, t)
  }

  function FilteredSkips(skips: seq<Skip>, tokens: seq<string>): (r: seq<Skip>) {
    Filter(skips, skip => KeptBy(skip, tokens))
  }

  /** What `filteredSkips` keeps: everything for no tokens, else the skips some token matches, in order. */
  lemma FilteredSkipsMeaning(skips: seq<Skip>, tokens: seq<string>)
    ensures |tokens| == 0 ==> FilteredSkips(skips, tokens) == skips
    ensures forall x :: x in FilteredSkips(skips, tokens)
                <==> x in skips && (|tokens| == 0 || exists t :: t in tokens && MatchesToken(x, t))
    ensures IsSubsequence(FilteredSkips(skips, tokens), skips)
  {
    if |tokens| == 0 {
      FilterKeepsAll(skips, skip => KeptBy(skip, tokens));
    }
    FilterIsSubsequence(skips, skip => KeptBy(skip, tokens));
  }

  /** "all" is not special to `filteredSkips`: it matches no normalised skip. */
  lemma AllTokenMatchesNothing(skip: Skip)
    requires IsNormalised(skip)
    ensures !MatchesToken(skip, "all")
  {
    SizeTokenNotReserved(skip.size);
  }

  // ---------------------------------------------------------------------------
  // Sorting
  // ---------------------------------------------------------------------------

  datatype SortOption = Latest | Oldest | PriceLow | PriceHigh

  /** The values of the sort selector; any other string selects no sort. */
  function ParseSortOption(s: string): (o: Option<SortOption>)
    ensures o == Some(Latest) <==> s == "latest"
    ensures o == Some(Oldest) <==> s == "oldest"
    ensures o == Some(PriceLow) <==> s == "price_low"
    ensures o == Some(PriceHigh) <==> s == "price_high"
  {
    if s == "latest" then Some(Latest)
    else if s == "oldest" then Some(Oldest)
    else if s == "price_low" then Some(PriceLow)
    else if s == "price_high" then Some(PriceHigh)
    else None
  }

  /** The comparator of each option; negative puts `a` first. */
  function Compare(option: SortOption, a: Skip, b: Skip): (d: real) {
    match option
    case Latest => (b.createdAt - a.createdAt) as real
    case Oldest => (a.createdAt - b.createdAt) as real
    case PriceLow => a.priceBeforeVat - b.priceBeforeVat
    case PriceHigh => b.priceBeforeVat - a.priceBeforeVat
  }

  /** "Put `a` after `b`": the comparator is positive. */
  function After(option: SortOption): (gt: (Skip, Skip) -> bool) {
    (a: Skip, b: Skip) => Compare(option, a, b) > 0.0
  }

  lemma AfterIsStrictWeakOrder(option: SortOption)
    ensures StrictWeakOrder(After(option))
  {
    var gt := After(option);
    forall x, y | gt(x, y) ensures !gt(y, x) {
      assert Compare(option, y, x) == -Compare(option, x, y);
    }
    forall x, y, z | !gt(x, y) && !gt(y, z) ensures !gt(x, z) {
      assert Compare(option, x, z) == Compare(option, x, y) + Compare(option, y, z);
    }
  }

  /** What each option sorts by, and that the sort is stable and a permutation. */
  lemma {:induction false} SortOrder(s: seq<Skip>, option: SortOption)
    ensures multiset(Sort(s, After(option))) == multiset(s)
    ensures option == Latest ==> forall i, j :: 0 <= i < j < |s| ==>
              Sort(s, After(option))[i].createdAt >= Sort(s, After(option))[j].createdAt
    ensures option == Oldest ==> forall i, j :: 0 <= i < j < |s| ==>
              Sort(s, After(option))[i].createdAt <= Sort(s, After(option))[j].createdAt
    ensures option == PriceLow ==> forall i, j :: 0 <= i < j < |s| ==>
              Sort(s, After(option))[i].priceBeforeVat <= Sort(s, After(option))[j].priceBeforeVat
    ensures option == PriceHigh ==> forall i, j :: 0 <= i < j < |s| ==>
              Sort(s, After(option))[i].priceBeforeVat >= Sort(s, After(option))[j].priceBeforeVat
    ensures forall x :: EquivalentTo(Sort(s, After(option)), x, After(option)) == EquivalentTo(s, x, After(option))
  {
    AfterIsStrictWeakOrder(option);
    SortSorted(s, After(option));
    var r := Sort(s, After(option));
    forall i, j | 0 <= i < j < |s| ensures Compare(option, r[i], r[j]) <= 0.0 {
      assert !After(option)(r[i], r[j]);
    }
    forall x ensures EquivalentTo(r, x, After(option)) == EquivalentTo(s, x, After(option)) {
      SortStable(s, x, After(option));
    }
  }

  // ---------------------------------------------------------------------------
  // The processing pipeline
  // ---------------------------------------------------------------------------

  function RoadAllowed(skips: seq<Skip>): (r: seq<Skip>) {
    Filter(skips, (skip: Skip) => skip.allowedOnRoad)
  }

  /**
   * The filter combinations the pipeline is modelled for: "all" selected,
   * "road_allowed" selected, or nothing selected. Any other selection runs the
   * size branch, which adds whole arrays to the list of skips.
   */
  predicate ModelledFilters(selectedFilters: seq<string>) {
    "all" in selectedFilters || "road_allowed" in selectedFilters || |selectedFilters| == 0
  }

  /** The filter stage: "all" keeps everything, else "road_allowed" keeps the road-allowed skips. */
  function FilterStage(skips: seq<Skip>, selectedFilters: seq<string>): (stage: seq<Skip>)
    requires ModelledFilters(selectedFilters)
  {
    if "all" in selectedFilters then skips
    else if "road_allowed" in selectedFilters then RoadAllowed(skips)
    else skips   // the size branch, once per selected token: none here
  }

  /** `processedSkips`: the filter stage, then the stable sort the option names, if any. */
  function Processed(skips: seq<Skip>, selectedFilters: seq<string>, sortOption: string): (shown: seq<Skip>)
    requires ModelledFilters(selectedFilters)
  {
    var kept := FilterStage(skips, selectedFilters);
    match ParseSortOption(sortOption)
    case Some(option) => Sort(kept, After(option))
    case None => kept
  }

  /** With "all" selected nothing is filtered out: the result is a permutation of the input. */
  lemma ProcessedWithAll(skips: seq<Skip>, selectedFilters: seq<string>, sortOption: string)
    requires "all" in selectedFilters
    ensures multiset(Processed(skips, selectedFilters, sortOption)) == multiset(skips)
    ensures |Processed(skips, selectedFilters, sortOption)| == |skips|
    ensures ParseSortOption(sortOption) == None ==> Processed(skips, selectedFilters, sortOption) == skips
  {
  }

  /**
   * Without "all" but with "road_allowed", exactly the road-allowed skips
   * remain, each as often as in the input, whatever other tokens are selected.
   */
  lemma ProcessedRoadAllowed(skips: seq<Skip>, selectedFilters: seq<string>, sortOption: string, x: Skip)
    requires "all" !in selectedFilters && "road_allowed" in selectedFilters
    ensures multiset(Processed(skips, selectedFilters, sortOption))[x]
         == if x.allowedOnRoad then multiset(skips)[x] else 0
    ensures x in Processed(skips, selectedFilters, sortOption) <==> x in skips && x.allowedOnRoad
    ensures ParseSortOption(sortOption) == None ==> IsSubsequence(Processed(skips, selectedFilters, sortOption), skips)
  {
    var road := RoadAllowed(skips);
    FilterCounts(skips, (skip: Skip) => skip.allowedOnRoad, x);
    FilterIsSubsequence(skips, (skip: Skip) => skip.allowedOnRoad);
    assert multiset(Processed(skips, selectedFilters, sortOption)) == multiset(road);
    assert x in Processed(skips, selectedFilters, sortOption) <==> x in multiset(road);
  }

  /** With no token selected the list is only sorted. */
  lemma ProcessedWithoutTokens(skips: seq<Skip>, sortOption: string)
    ensures multiset(Processed(skips, [], sortOption)) == multiset(skips)
    ensures ParseSortOption(sortOption) == None ==> Processed(skips, [], sortOption) == skips
  {
  }

  /** The result is in the order the sort option names, and equally ranked skips keep their input order. */
  lemma ProcessedSorted(skips: seq<Skip>, selectedFilters: seq<string>, sortOption: string, option: SortOption, x: Skip)
    requires ModelledFilters(selectedFilters)
    requires ParseSortOption(sortOption) == Some(option)
    ensures SortedBy(Processed(skips, selectedFilters, sortOption), After(option))
    ensures EquivalentTo(Processed(skips, selectedFilters, sortOption), x, After(option))
         == EquivalentTo(FilterStage(skips, selectedFilters), x, After(option))
  {
    AfterIsStrictWeakOrder(option);
    SortSorted(FilterStage(skips, selectedFilters), After(option));
    SortStable(FilterStage(skips, selectedFilters), x, After(option));
  }

  /**
   * `processedSkips` as the page computes it: a copy of the input array,
   * replaced by the filtered array when "road_allowed" applies, then sorted
   * in place. The input array is not changed.
   */
  method ProcessSkips(skips: array<Skip>, selectedFilters: seq<string>, sortOption: string)
    returns (result: array<Skip>)
    requires ModelledFilters(selectedFilters)
    ensures fresh(result)
    ensures result[..] == Processed(skips[..], selectedFilters, sortOption)
  {
    result := new Skip[skips.Length](i reads skips requires 0 <= i < skips.Length => skips[i]);
    assert result[..] == skips[..];
    if "all" !in selectedFilters && "road_allowed" in selectedFilters {
      var kept := RoadAllowed(result[..]);
      result := new Skip[|kept|](i requires 0 <= i < |kept| => kept[i]);
      assert result[..] == kept;
    }
    match ParseSortOption(sortOption) {
      case Some(option) => SortInPlace(result, After(option));
      case None =>
    }
  }

  /** The worked example: two offers sorted from the lowest price, the cheaper one first. */
  lemma PriceLowExample(t1: int, t2: int)
    requires t1 < t2
    ensures var one := Skip(1, "6 Yard", 14, None, None, 100.0, 20.0, "NR32", "Lowestoft", false, t1, t1, true, false, None);
            var two := Skip(2, "8 Yard", 14, None, None, 80.0, 20.0, "NR32", "Lowestoft", false, t2, t2, false, false, None);
            Processed([one, two], ["all"], "price_low") == [two, one]
            && TotalPrice(one.priceBeforeVat, one.vat) == 120.0
  {
    var one := Skip(1, "6 Yard", 14, None, None, 100.0, 20.0, "NR32", "Lowestoft", false, t1, t1, true, false, None);
    var two := Skip(2, "8 Yard", 14, None, None, 80.0, 20.0, "NR32", "Lowestoft", false, t2, t2, false, false, None);
    assert [one, two][..1] == [one];
    assert Sort([one], After(PriceLow)) == [one] by {
      assert [one][..0] == [];
    }
  }

  // ---------------------------------------------------------------------------
  // Pagination
  // ---------------------------------------------------------------------------

  const ItemsPerPage: nat := 8

  /** How `slice` reads an index: negative counts from the end, then clamped to `0..n`. */
  function RelativeIndex(k: int, n: nat): (r: nat)
    ensures r <= n
    ensures 0 <= k <= n ==> r == k
    ensures k > n ==> r == n
    ensures k < 0 ==> r == if n + k < 0 then 0 else n + k
  {
    if k < 0 then (if n + k < 0 then 0 else n + k) else if k > n then n else k
  }

  function Min(a: int, b: int): (m: int) {
    if a < b then a else b
  }

  /** `s.slice(start, end)`. */
  function Slice<T>(s: seq<T>, start: int, end: int): (r: seq<T>) {
    var from, to := RelativeIndex(start, |s|), RelativeIndex(end, |s|);
    if from < to then s[from..to] else []
  }

  /** `paginatedSkips`: the items of page `currentPage`, counting pages from 1. */
  function Page<T>(s: seq<T>, currentPage: int): (page: seq<T>) {
    Slice(s, (currentPage - 1) * ItemsPerPage, currentPage * ItemsPerPage)
  }

  /** `Math.ceil(n / 8)`: the fewest pages of eight that hold `n` items. */
  function TotalPages(n: nat): (pages: nat)
    ensures pages * ItemsPerPage >= n
    ensures pages > 0 ==> (pages - 1) * ItemsPerPage < n
    ensures pages == 0 <==> n == 0
  {
    (n + ItemsPerPage - 1) / ItemsPerPage
  }

  lemma PageWindow<T>(s: seq<T>, p: int)
    requires p >= 1
    ensures (p - 1) * ItemsPerPage >= |s| ==> Page(s, p) == []
    ensures (p - 1) * ItemsPerPage < |s| ==>
              Page(s, p) == s[(p - 1) * ItemsPerPage..Min(p * ItemsPerPage, |s|)]
    ensures |Page(s, p)| <= ItemsPerPage
  {
  }

  /** Every page, whatever its number, holds at most eight items. */
  lemma PageAtMostEight<T>(s: seq<T>, p: int)
    ensures |Page(s, p)| <= ItemsPerPage
  {
    var start, end := (p - 1) * ItemsPerPage, p * ItemsPerPage;
    assert end == start + ItemsPerPage;
    var from, to := RelativeIndex(start, |s|), RelativeIndex(end, |s|);
    if from < to {
      assert to - from <= ItemsPerPage;
    }
  }

  /** Page 0, which the Next button can reach when there are no pages, is empty. */
  lemma PageZeroEmpty<T>(s: seq<T>)
    ensures Page(s, 0) == []
  {
  }

  /** Pages `p` to `last`, concatenated. */
  function PagesFrom<T>(s: seq<T>, p: int, last: int): (pages: seq<T>)
    decreases last - p
  {
    if p > last then [] else Page(s, p) + PagesFrom(s, p + 1, last)
  }

  lemma {:induction false} PagesFromRest<T>(s: seq<T>, p: int)
    requires 1 <= p <= TotalPages(|s|) + 1
    ensures PagesFrom(s, p, TotalPages(|s|)) == s[Min((p - 1) * ItemsPerPage, |s|)..]
    decreases TotalPages(|s|) - p
  {
    var last := TotalPages(|s|);
    if p <= last {
      PagesFromRest(s, p + 1);
      PageWindow(s, p);
      if p * ItemsPerPage < |s| {
        assert s[(p - 1) * ItemsPerPage..]
            == s[(p - 1) * ItemsPerPage..p * ItemsPerPage] + s[p * ItemsPerPage..];
      }
    }
  }

  /** The pages 1 to `TotalPages` together hold the list exactly once, in order. */
  lemma PagesPartition<T>(s: seq<T>)
    ensures PagesFrom(s, 1, TotalPages(|s|)) == s
  {
    PagesFromRest(s, 1);
  }

  /** A page after the last one is empty. */
  lemma PageAfterLastEmpty<T>(s: seq<T>, p: int)
    requires p > TotalPages(|s|)
    ensures Page(s, p) == []
  {
    PageWindow(s, p);
  }

  // ---------------------------------------------------------------------------
  // The view
  // ---------------------------------------------------------------------------

  datatype View = ErrorView | NoSkipsView | ListView

  /** A fetch error wins; otherwise the empty view shows when loading is over and nothing is left. */
  function ChooseView(hasError: bool, isLoading: bool, processedCount: nat): (v: View)
    ensures hasError <==> v == ErrorView
    ensures v == NoSkipsView <==> !hasError && !isLoading && processedCount == 0
  {
    if hasError then ErrorView
    else if !isLoading && processedCount == 0 then NoSkipsView
    else ListView
  }

  /** The empty view goes with zero pages and an empty first page. */
  lemma NoSkipsMeansNoPages(skips: seq<Skip>, isLoading: bool)
    requires ChooseView(false, isLoading, |skips|) == NoSkipsView
    ensures TotalPages(|skips|) == 0 && Page(skips, 1) == []
  {
  }

  // ---------------------------------------------------------------------------
  // The page's own state
  // ---------------------------------------------------------------------------

  /**
   * The state the skip page keeps: the current page, the sort option and the
   * selected filter tokens. The page hands its filter setter to a filter bar
   * that does not accept it, so nothing ever changes `selectedFilters`.
   */
  class SkipPage {
    var currentPage: int
    var sortOption: string
    var selectedFilters: seq<string>

    constructor ()
      ensures currentPage == 1 && sortOption == "latest" && selectedFilters == ["all"]
    {
      currentPage := 1;
      sortOption := "latest";
      selectedFilters := ["all"];
    }

    /** `handlePageChange`: moves to `page` (the scroll to the top of the list is not modelled). */
    method HandlePageChange(page: int)
      modifies this
      ensures currentPage == page
      ensures sortOption == old(sortOption) && selectedFilters == old(selectedFilters)
    {
      currentPage := page;
    }

    method SetSortOption(option: string)
      modifies this
      ensures sortOption == option
      ensures currentPage == old(currentPage) && selectedFilters == old(selectedFilters)
    {
      sortOption := option;
    }

    /** The skips shown on the current page. */
    function Shown(skips: seq<Skip>): (shown: seq<Skip>)
      reads this
      requires ModelledFilters(selectedFilters)
      ensures |shown| <= ItemsPerPage
      ensures forall x :: x in shown ==> x in skips
    {
      var processed := Processed(skips, selectedFilters, sortOption);
      PageAtMostEight(processed, currentPage);
      PageElementsFromList(processed, currentPage);
      FilterStageElements(skips, selectedFilters);
      assert forall x :: x in processed ==> x in multiset(FilterStage(skips, selectedFilters));
      Page(processed, currentPage)
    }
  }

  /** A page holds only elements of the list it is cut from. */
  lemma PageElementsFromList<T>(s: seq<T>, p: int)
    ensures forall x :: x in Page(s, p) ==> x in s
  {
  }

  /** The filter stage keeps only input skips. */
  lemma FilterStageElements(skips: seq<Skip>, selectedFilters: seq<string>)
    requires ModelledFilters(selectedFilters)
    ensures forall x :: x in FilterStage(skips, selectedFilters) ==> x in skips
  {
  }
}
