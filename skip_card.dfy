/**
 * One skip offer (the `SkipProps` record) and what a skip card derives from
 * it: the price including VAT, the image source and the text labels.
 */
module SkipCard {
  import opened Wrappers

  /**
   * A skip offer. Timestamps are integers; money amounts and the VAT
   * percentage are exact reals. `imageUrl` is optional.
   */
  datatype Skip = Skip(
    id: int,
    size: string,
    hirePeriodDays: int,
    transportCost: Option<real>,
    perTonneCost: Option<real>,
    priceBeforeVat: real,
    vat: real,
    postcode: string,
    area: string,
    forbidden: bool,
    createdAt: int,
    updatedAt: int,
    allowedOnRoad: bool,
    allowsHeavyWaste: bool,
    imageUrl: Option<string>)

  /** A string as a JavaScript condition: only the empty string is false. */
  predicate Truthy(s: string) {
    s != ""
  }

  /** An optional string as a JavaScript condition: absent and empty are false. */
  predicate PresentAndTruthy(o: Option<string>) {
    o.Some? && Truthy(o.value)
  }

  const Placeholder: string := "/images/skip-placeholder.jpg"

  /** The card's price: the price before VAT plus that price times the VAT percentage over 100. */
  function TotalPrice(priceBeforeVat: real, vat: real): (total: real) {
    priceBeforeVat + priceBeforeVat * (vat / 100.0)
  }

  lemma TotalPriceIsScaledPrice(price: real, vat: real)
    ensures TotalPrice(price, vat) == price * (1.0 + vat / 100.0)
    ensures vat == 0.0 ==> TotalPrice(price, vat) == price
    ensures price >= 0.0 && vat >= 0.0 ==> TotalPrice(price, vat) >= price
  {
  }

  /** The image shown: the skip's own URL unless it is absent or empty, else the placeholder. */
  function ImageSource(skip: Skip): (src: string)
    ensures PresentAndTruthy(skip.imageUrl) ==> src == skip.imageUrl.value
    ensures !PresentAndTruthy(skip.imageUrl) ==> src == Placeholder
    ensures Truthy(src)
  {
    if PresentAndTruthy(skip.imageUrl) then skip.imageUrl.value else Placeholder
  }

  /** The card heading, the size followed by " Yards". */
  function Title(skip: Skip): (t: string)
    ensures |t| == |skip.size| + 6 && t[..|skip.size|] == skip.size
    ensures t[|skip.size|..] == " Yards"
  {
    skip.size + " Yards"
  }

  function Badge(skip: Skip): (text: string)
    ensures text == "Road Allowed" <==> skip.allowedOnRoad
    ensures text == "Private Only" <==> !skip.allowedOnRoad
  {
    if skip.allowedOnRoad then "Road Allowed" else "Private Only"
  }

  function AreaLine(skip: Skip): (line: string)
    ensures Truthy(skip.area) ==> line == "Common in " + skip.area
    ensures !Truthy(skip.area) ==> line == "Available in all areas"
  {
    if Truthy(skip.area) then "Common in " + skip.area else "Available in all areas"
  }

  function ButtonLabel(isSelected: bool): (text: string)
    ensures text == "Selected" <==> isSelected
    ensures text == "Select" <==> !isSelected
  {
    if isSelected then "Selected" else "Select"
  }

  /** The worked example: 100 before 20% VAT is 120. */
  lemma TotalPriceExample()
    ensures TotalPrice(100.0, 20.0) == 120.0
  {
  }
}
