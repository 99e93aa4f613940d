/** The zod validators of src/schema/product.ts as parse functions: each returns the
    parsed (and transformed) value, or the issues zod reports. Types that TypeScript
    already guarantees (strings, booleans, numbers) are guaranteed here by Dafny's types.
    The `.url()` check is a predicate `isUrl` supplied by the caller. */
module ProductSchema {
  import opened Wrappers
  import opened Utils

  /** A validation issue: the field it is reported on and its message. */
  datatype Issue = Issue(path: string, message: string)

  // ---------------------------------------------------------------------------
  // productDetailsSchema

  datatype ProductDetailsInput = ProductDetailsInput(name: string, url: string, description: Option<string>)

  datatype ProductDetails = ProductDetails(name: string, url: string, description: Option<string>)

  /** `name` must be non-empty; `url` must be a url and non-empty, and is then stripped of
      one trailing '/'; `description` is optional. */
  function ParseProductDetails(input: ProductDetailsInput, isUrl: string -> bool): (r: Result<ProductDetails, seq<Issue>>)
    ensures r.Success? <==> |input.name| > 0 && isUrl(input.url) && |input.url| > 0
    ensures r.Success? ==> r.value == ProductDetails(input.name, RemoveTrailingSlash(input.url), input.description)
    ensures r.Failure? ==> |r.error| > 0
    ensures r.Failure? && input.name == "" ==> Issue("name", "Product name is required") in r.error
  {
    var issues :=
      (if |input.name| < 1 then [Issue("name", "Product name is required")] else [])
      + (if !isUrl(input.url) then [Issue("url", "Invalid url")] else [])
      + (if |input.url| < 1 then [Issue("url", "URL is required")] else []);
    if issues == [] then Success(ProductDetails(input.name, RemoveTrailingSlash(input.url), input.description))
    else Failure(issues)
  }

  // ---------------------------------------------------------------------------
  // countryDiscountFormSchema

  /** A JavaScript number as the form submits it: an ordinary value or NaN. */
  datatype NumberInput = Number(x: real) | NaN

  datatype GroupInput = GroupInput(countryGroupId: string, discountPercentage: Option<NumberInput>, coupon: Option<string>)

  /** A group after parsing: NaN has become undefined. */
  datatype DiscountGroup = DiscountGroup(countryGroupId: string, discountPercentage: Option<real>, coupon: Option<string>)

  /** A form issue: the index of the group it belongs to and the issue inside that group. */
  datatype FormIssue = FormIssue(group: nat, issue: Issue)

  const DiscountRequiredMessage: string := "A discount is required if the coupon code is provided"

  /** The value `.transform((n) => (isNaN(n) ? undefined : n)).optional()` leaves. */
  function PercentValue(p: Option<NumberInput>): Option<real> {
    match p
    case None => None
    case Some(NaN) => None
    case Some(Number(x)) => Some(x)
  }

  /** `.number().max(100).min(1).or(z.nan())`, for a present value. */
  function PercentIssues(p: Option<NumberInput>): seq<Issue> {
    match p
    case Some(Number(x)) =>
      (if x > 100.0 then [Issue("discountPercentage", "Number must be less than or equal to 100")] else [])
      + (if x < 1.0 then [Issue("discountPercentage", "Number must be greater than or equal to 1")] else [])
    case _ => []
  }

  predicate HasCoupon(coupon: Option<string>) {
    coupon.Some? && |coupon.value| > 0
  }

  /** One group: a non-empty `countryGroupId`, a percentage that is absent, NaN or in
      [1, 100], and the refinement that a non-empty coupon needs a discount. The refinement
      runs on the transformed value, so NaN counts as no discount. */
  function ParseGroup(g: GroupInput): (r: Result<DiscountGroup, seq<Issue>>)
    ensures r.Success? <==>
      && |g.countryGroupId| > 0
      && (PercentValue(g.discountPercentage).Some? ==> 1.0 <= PercentValue(g.discountPercentage).value <= 100.0)
      && (HasCoupon(g.coupon) ==> PercentValue(g.discountPercentage).Some?)
    ensures r.Success? ==> r.value == DiscountGroup(g.countryGroupId, PercentValue(g.discountPercentage), g.coupon)
    ensures r.Failure? ==> |r.error| > 0
  {
    var issues :=
      (if |g.countryGroupId| < 1 then [Issue("countryGroupId", "Required")] else [])
      + PercentIssues(g.discountPercentage)
      + (if HasCoupon(g.coupon) && PercentValue(g.discountPercentage).None?
         then [Issue("root", DiscountRequiredMessage)] else []);
    if issues == [] then Success(DiscountGroup(g.countryGroupId, PercentValue(g.discountPercentage), g.coupon))
    else Failure(issues)
  }

  /** A non-empty coupon without a discount is rejected with the refinement's message on the
      group itself. */
  lemma CouponNeedsDiscount(g: GroupInput)
    requires HasCoupon(g.coupon) && PercentValue(g.discountPercentage).None?
    ensures ParseGroup(g).Failure? && Issue("root", DiscountRequiredMessage) in ParseGroup(g).error
  {
    var issues := ParseGroup(g).error;
    assert issues[|issues| - 1] == Issue("root", DiscountRequiredMessage);
  }

  function Tag(index: nat, issues: seq<Issue>): (r: seq<FormIssue>)
    ensures |r| == |issues|
    ensures forall k :: 0 <= k < |r| ==> r[k] == FormIssue(index, issues[k])
    ensures forall fi :: fi in r ==> fi.group == index
  {
    if issues == [] then [] else [FormIssue(index, issues[0])] + Tag(index, issues[1..])
  }

  /** Every group of the form passes `ParseGroup`. */
  predicate AllAccepted(groups: seq<GroupInput>) {
    groups == [] || (AllAccepted(groups[..|groups| - 1]) && ParseGroup(groups[|groups| - 1]).Success?)
  }

  /** `AllAccepted` says exactly that each group, one by one, passes. */
  lemma {:induction false} AllAcceptedEach(groups: seq<GroupInput>)
    ensures AllAccepted(groups) <==> forall i :: 0 <= i < |groups| ==> ParseGroup(groups[i]).Success?
  {
    if groups != [] {
      var n := |groups| - 1;
      AllAcceptedEach(groups[..n]);
      assert forall i :: 0 <= i < n ==> groups[..n][i] == groups[i];
    }
  }

  /** The parsed values of accepted groups, in order. */
  function ParsedGroups(groups: seq<GroupInput>): (r: seq<DiscountGroup>)
    requires AllAccepted(groups)
    ensures |r| == |groups|
    ensures forall i :: 0 <= i < |groups| ==> ParseGroup(groups[i]).Success? && r[i] == ParseGroup(groups[i]).value
  {
    if groups == [] then []
    else
      var n := |groups| - 1;
      var prev := ParsedGroups(groups[..n]);
      assert forall i :: 0 <= i < n ==> groups[..n][i] == groups[i];
      prev + [ParseGroup(groups[n]).value]
  }

  /** The issues of all groups, group by group, each tagged with its group's index. */
  function FormIssues(groups: seq<GroupInput>): (r: seq<FormIssue>)
    ensures forall fi :: fi in r ==> fi.group < |groups|
    ensures |r| == 0 <==> AllAccepted(groups)
  {
    if groups == [] then []
    else
      var n := |groups| - 1;
      var prev := FormIssues(groups[..n]);
      var last := ParseGroup(groups[n]);
      var issues := if last.Failure? then Tag(n, last.error) else [];
      prev + issues
  }

  /** `{ groups: [...] }`: every group is parsed; the form is accepted when all are, and
      otherwise every group's issues are reported. */
  function ParseCountryDiscountForm(groups: seq<GroupInput>): (r: Result<seq<DiscountGroup>, seq<FormIssue>>)
    ensures r.Success? <==> forall i :: 0 <= i < |groups| ==> ParseGroup(groups[i]).Success?
    ensures r.Success? ==> |r.value| == |groups|
    ensures r.Success? ==> forall i :: 0 <= i < |groups| ==> r.value[i] == ParseGroup(groups[i]).value
    ensures r.Failure? ==> |r.error| > 0 && forall fi :: fi in r.error ==> fi.group < |groups|
  {
    AllAcceptedEach(groups);
    if AllAccepted(groups) then Success(ParsedGroups(groups)) else Failure(FormIssues(groups))
  }

  /** Every accepted group carries a percentage in [1, 100], or none. */
  lemma AcceptedPercentagesInRange(groups: seq<GroupInput>)
    requires ParseCountryDiscountForm(groups).Success?
    ensures forall g :: g in ParseCountryDiscountForm(groups).value && g.discountPercentage.Some? ==>
      1.0 <= g.discountPercentage.value <= 100.0
  {
    var parsed := ParseCountryDiscountForm(groups).value;
    forall g | g in parsed && g.discountPercentage.Some?
      ensures 1.0 <= g.discountPercentage.value <= 100.0
    {
      var i :| 0 <= i < |parsed| && parsed[i] == g;
      assert ParseGroup(groups[i]).Success?;
    }
  }

  // ---------------------------------------------------------------------------
  // productCustomizationSchema

  datatype CustomizationInput = CustomizationInput(
    classPrefix: Option<string>,
    backgroundColor: string,
    textColor: string,
    fontSize: string,
    locationMessage: string,
    bannerContainer: string,
    isSticky: bool)

  function Required(field: string, value: string): seq<Issue> {
    if |value| < 1 then [Issue(field, "Required")] else []
  }

  /** The five text fields must be non-empty; `classPrefix` is optional and `isSticky` a boolean. */
  function ParseCustomization(c: CustomizationInput): (r: Result<CustomizationInput, seq<Issue>>)
    ensures r.Success? <==>
      |c.backgroundColor| > 0 && |c.textColor| > 0 && |c.fontSize| > 0 && |c.locationMessage| > 0 && |c.bannerContainer| > 0
    ensures r.Success? ==> r.value == c
    ensures r.Failure? ==> |r.error| > 0
  {
    var issues :=
      Required("backgroundColor", c.backgroundColor) + Required("textColor", c.textColor)
      + Required("fontSize", c.fontSize) + Required("locationMessage", c.locationMessage)
      + Required("bannerContainer", c.bannerContainer);
    if issues == [] then Success(c) else Failure(issues)
  }
}
