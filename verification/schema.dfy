/** The persisted tables of src/drizzle/schema.ts, their keys, defaults and cascades.
    Surrogate `id` columns defaulting to a random uuid are supplied by the caller of an
    insert; `createdAt`/`updatedAt` timestamps are not modelled. */
module Schema {
  import opened Wrappers
  import opened Tables

  // ---------------------------------------------------------------------------
  // Rows

  /** A `products` row; the map holding it is keyed by the uuid primary key. */
  datatype Product = Product(clerkUserId: string, name: string, url: string, description: Option<string>)

  /** A `product_customizations` row; the map holding it is keyed by the unique `product_id`. */
  datatype Customization = Customization(
    classPrefix: Option<string>,
    locationMessage: string,
    backgroundColor: string,
    textColor: string,
    fontSize: string,
    bannerContainer: string,
    isSticky: bool)

  /** A `product_views` row: `countryId` is nullable, `viewTime` defaults to now. */
  datatype ProductView = ProductView(id: string, productId: string, countryId: Option<string>, viewTime: int)

  /** A `countries` row: `name` and `code` are unique, the group is required. */
  datatype Country = Country(id: string, name: string, code: string, countryGroupId: string)

  /** A `country_group` row: `name` is unique, the recommended percentage is nullable. */
  datatype CountryGroup = CountryGroup(id: string, name: string, recommendedDiscountPercentage: Option<real>)

  /** A `country_group_discounts` row, primary key (countryGroupId, productId). */
  datatype CountryGroupDiscount = CountryGroupDiscount(
    countryGroupId: string, productId: string, coupon: string, discountPercentage: real)

  /** An entry of the tier table the `tier` enum is drawn from (its entries are not part of
      this model; the fields are the entitlements a tier carries). */
  datatype Tier = Tier(
    name: string,
    maxNumberOfProducts: nat,
    maxNumberOfVisits: nat,
    canAccessAnalytics: bool,
    canCustomizeBanner: bool,
    canRemoveBranding: bool)

  /** A `user_subscriptions` row: `clerkUserId` is unique, `tier` is a non-null enum value. */
  datatype UserSubscription = UserSubscription(
    id: string,
    clerkUserId: string,
    stripeSubscriptionItemId: Option<string>,
    stripeSubscriptionId: Option<string>,
    stripeCustomerId: Option<string>,
    tier: string)

  const FreeTierName: string := "Free"

  // ---------------------------------------------------------------------------
  // Customization defaults

  const DefaultLocationMessage: string :=
    "Hey, It look likes you are from <b>" + "{country}"
    + "</b>. We support parity purchasing Power, so if you need it, use code <b>\"" + "{coupon}"
    + "\"</b> to get <b>" + "{discount}" + "%</b> off."

  /** The row an insert of `{ productId }` alone produces. */
  function DefaultCustomization(): (c: Customization)
    ensures c.classPrefix.None? && c.isSticky
    ensures c.fontSize == "1rem" && c.bannerContainer == "body"
    ensures c.backgroundColor == "hsl(193, 82%, 31%)" && c.textColor == "hsl(0, 0%, 100%)"
  {
    Customization(None, DefaultLocationMessage, "hsl(193, 82%, 31%)", "hsl(0, 0%, 100%)", "1rem", "body", true)
  }

  predicate OccursAt(s: string, part: string, i: int) {
    0 <= i <= |s| - |part| && s[i..i + |part|] == part
  }

  ghost predicate Contains(s: string, part: string) {
    exists i :: OccursAt(s, part, i)
  }

  /** The default message carries the three placeholders the banner substitutes. */
  lemma DefaultMessagePlaceholders()
    ensures Contains(DefaultCustomization().locationMessage, "{country}")
    ensures Contains(DefaultCustomization().locationMessage, "{coupon}")
    ensures Contains(DefaultCustomization().locationMessage, "{discount}")
  {
    var m := DefaultLocationMessage;
    assert m[35..35 + 9] == "{country}";
    assert OccursAt(m, "{country}", 35);
    assert m[118..118 + 8] == "{coupon}";
    assert OccursAt(m, "{coupon}", 118);
    assert OccursAt(m, "{discount}", 142);
  }

  // ---------------------------------------------------------------------------
  // Partial updates (`.set(data)` with some columns left out)

  /** The product columns the dashboard may set; `None` leaves a column as it is. */
  datatype ProductPatch = ProductPatch(name: Option<string>, url: Option<string>, description: Option<string>)

  function PatchProduct(p: Product, data: ProductPatch): (r: Product)
    ensures r.clerkUserId == p.clerkUserId
    ensures r.name == (if data.name.Some? then data.name.value else p.name)
    ensures r.url == (if data.url.Some? then data.url.value else p.url)
    ensures r.description == (if data.description.Some? then data.description else p.description)
  {
    p.(name := if data.name.Some? then data.name.value else p.name,
       url := if data.url.Some? then data.url.value else p.url,
       description := if data.description.Some? then data.description else p.description)
  }

  /** The customization columns the dashboard may set; `None` leaves a column as it is. */
  datatype CustomizationPatch = CustomizationPatch(
    classPrefix: Option<string>,
    locationMessage: Option<string>,
    backgroundColor: Option<string>,
    textColor: Option<string>,
    fontSize: Option<string>,
    bannerContainer: Option<string>,
    isSticky: Option<bool>)

  function Pick<T>(update: Option<T>, current: T): T {
    if update.Some? then update.value else current
  }

  function PatchCustomization(c: Customization, data: CustomizationPatch): Customization {
    Customization(
      if data.classPrefix.Some? then data.classPrefix else c.classPrefix,
      Pick(data.locationMessage, c.locationMessage),
      Pick(data.backgroundColor, c.backgroundColor),
      Pick(data.textColor, c.textColor),
      Pick(data.fontSize, c.fontSize),
      Pick(data.bannerContainer, c.bannerContainer),
      Pick(data.isSticky, c.isSticky))
  }

  // ---------------------------------------------------------------------------
  // Cache revalidation (the cache library itself is not part of this model)

  /** The resource kinds of `CACHE_TAGS` used by the core. */
  datatype TagKind = Products | ProductViews | Subscription | Countries | CountryGroups

  /** One `revalidateDbCache({ tag, userId, id })` call. */
  datatype Revalidation = Revalidation(tag: TagKind, userId: string, id: string)

  /** A tag a cached read is registered with: `getGlobalTag`, `getUserTag`, `getIdTag`. */
  datatype CacheTag = GlobalTag(kind: TagKind) | UserTag(userId: string, kind: TagKind) | IdTag(id: string, kind: TagKind)

  // ---------------------------------------------------------------------------
  // Keys and store invariants

  function GroupKey(g: CountryGroup): string { g.id }
  function GroupName(g: CountryGroup): string { g.name }
  function CountryKey(c: Country): string { c.id }
  function CountryCode(c: Country): string { c.code }
  function CountryName(c: Country): string { c.name }
  function DiscountKey(d: CountryGroupDiscount): (string, string) { (d.productId, d.countryGroupId) }
  function ViewKey(v: ProductView): string { v.id }
  function SubscriptionKey(s: UserSubscription): string { s.id }
  function SubscriptionUser(s: UserSubscription): string { s.clerkUserId }

  function GroupIds(gs: seq<CountryGroup>): set<string> { set g | g in gs :: g.id }
  function CountryIds(cs: seq<Country>): set<string> { set c | c in cs :: c.id }
  function ViewIds(vs: seq<ProductView>): set<string> { set v | v in vs :: v.id }
  function SubscriptionIds(ss: seq<UserSubscription>): set<string> { set s | s in ss :: s.id }

  ghost predicate TiersValid(tiers: map<string, Tier>) {
    FreeTierName in tiers && forall n :: n in tiers ==> tiers[n].name == n
  }

  /** `product_id` is unique and references a product. */
  ghost predicate CustomizationsValid(cs: map<string, Customization>, ps: map<string, Product>) {
    cs.Keys <= ps.Keys
  }

  ghost predicate GroupsValid(gs: seq<CountryGroup>) {
    UniqueBy(gs, GroupKey) && UniqueBy(gs, GroupName)
  }

  ghost predicate CountriesValid(cs: seq<Country>, gs: seq<CountryGroup>) {
    && UniqueBy(cs, CountryKey) && UniqueBy(cs, CountryCode) && UniqueBy(cs, CountryName)
    && forall c :: c in cs ==> c.countryGroupId in GroupIds(gs)
  }

  /** The composite primary key and the two references. */
  ghost predicate DiscountsValid(ds: seq<CountryGroupDiscount>, ps: map<string, Product>, gs: seq<CountryGroup>) {
    && UniqueBy(ds, DiscountKey)
    && forall d :: d in ds ==> d.productId in ps && d.countryGroupId in GroupIds(gs)
  }

  ghost predicate ViewsValid(vs: seq<ProductView>, ps: map<string, Product>, cs: seq<Country>) {
    && UniqueBy(vs, ViewKey)
    && forall v :: v in vs ==> v.productId in ps && (v.countryId.Some? ==> v.countryId.value in CountryIds(cs))
  }

  ghost predicate SubscriptionsValid(ss: seq<UserSubscription>, tiers: map<string, Tier>) {
    && UniqueBy(ss, SubscriptionKey) && UniqueBy(ss, SubscriptionUser)
    && forall s :: s in ss ==> s.tier in tiers
  }

  // ---------------------------------------------------------------------------
  // ON DELETE CASCADE

  predicate OutsideProducts(ids: set<string>, d: CountryGroupDiscount) { d.productId !in ids }
  predicate ViewOutsideProducts(ids: set<string>, v: ProductView) { v.productId !in ids }

  /** The discount rows that survive deleting the products `ids`. */
  function DiscountsWithout(ds: seq<CountryGroupDiscount>, ids: set<string>): (r: seq<CountryGroupDiscount>)
    ensures forall d :: d in r <==> d in ds && d.productId !in ids
  {
    Filter(ds, d => OutsideProducts(ids, d))
  }

  /** The view rows that survive deleting the products `ids`. */
  function ViewsWithout(vs: seq<ProductView>, ids: set<string>): (r: seq<ProductView>)
    ensures forall v :: v in r <==> v in vs && v.productId !in ids
  {
    Filter(vs, v => ViewOutsideProducts(ids, v))
  }

  /** Deleting products that no row references removes no discount and no view. */
  lemma CascadeOfUnreferenced(ds: seq<CountryGroupDiscount>, vs: seq<ProductView>, ids: set<string>)
    requires forall d :: d in ds ==> d.productId !in ids
    requires forall v :: v in vs ==> v.productId !in ids
    ensures DiscountsWithout(ds, ids) == ds && ViewsWithout(vs, ids) == vs
  {
    FilterAll(ds, d => OutsideProducts(ids, d));
    FilterAll(vs, v => ViewOutsideProducts(ids, v));
  }

  // ---------------------------------------------------------------------------
  // The database

  class Database {
    /** The tier table behind the `tier` enum (static in the source). */
    const tiers: map<string, Tier>

    var products: map<string, Product>
    var customizations: map<string, Customization>
    var views: seq<ProductView>
    var countryGroups: seq<CountryGroup>
    var countries: seq<Country>
    var discounts: seq<CountryGroupDiscount>
    var subscriptions: seq<UserSubscription>

    /** Every `revalidateDbCache` call made so far, in order. */
    ghost var revalidations: seq<Revalidation>

    ghost predicate Valid()
      reads this
    {
      && TiersValid(tiers)
      && CustomizationsValid(customizations, products)
      && GroupsValid(countryGroups)
      && CountriesValid(countries, countryGroups)
      && DiscountsValid(discounts, products, countryGroups)
      && ViewsValid(views, products, countries)
      && SubscriptionsValid(subscriptions, tiers)
    }

    /** An empty, freshly migrated database. */
    constructor (tiers: map<string, Tier>)
      requires TiersValid(tiers)
      ensures Valid() && this.tiers == tiers
      ensures products == map[] && customizations == map[] && views == []
      ensures countryGroups == [] && countries == [] && discounts == [] && subscriptions == []
      ensures revalidations == []
    {
      this.tiers := tiers;
      products, customizations, views := map[], map[], [];
      countryGroups, countries, discounts, subscriptions := [], [], [], [];
      revalidations := [];
    }

    /** `DELETE FROM products WHERE id IN ids`, with the cascades of `product_customizations`,
        `country_group_discounts` and `product_views`. */
    method DeleteProducts(ids: set<string>)
      requires Valid()
      modifies this
      ensures Valid()
      ensures products == old(products) - ids
      ensures customizations == old(customizations) - ids
      ensures discounts == DiscountsWithout(old(discounts), ids)
      ensures views == ViewsWithout(old(views), ids)
      ensures countryGroups == old(countryGroups) && countries == old(countries)
      ensures subscriptions == old(subscriptions) && revalidations == old(revalidations)
    {
      FilterUnique(discounts, d => OutsideProducts(ids, d), DiscountKey);
      FilterUnique(views, v => ViewOutsideProducts(ids, v), ViewKey);
      products := products - ids;
      customizations := customizations - ids;
      discounts := DiscountsWithout(discounts, ids);
      views := ViewsWithout(views, ids);
    }
  }
}
