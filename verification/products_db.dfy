/** The product data layer of src/server/db/products.ts: the reads, which check ownership
    and join the country and discount tables, and the writes with the cache revalidations
    they record. */
module ProductsDb {
  import opened Wrappers
  import opened Tables
  import opened Utils
  import opened Schema

  // ---------------------------------------------------------------------------
  // getProduct

  /** Product `id` exists and belongs to `userId`. */
  predicate Owns(db: Database, id: string, userId: string)
    reads db
  {
    id in db.products && db.products[id].clerkUserId == userId
  }

  /** `findFirst` on id and owner: a product row of someone else is reported as absent. */
  function GetProductInternal(db: Database, id: string, userId: string): (r: Option<Product>)
    reads db
    ensures r.Some? <==> id in db.products && db.products[id].clerkUserId == userId
    ensures r.Some? ==> r.value == db.products[id] && r.value.clerkUserId == userId
  {
    if Owns(db, id, userId) then Some(db.products[id]) else None
  }

  // ---------------------------------------------------------------------------
  // getProductForBanner

  datatype BannerProduct = BannerProduct(id: string, clerkUserId: string, customization: Customization)
  datatype BannerDiscount = BannerDiscount(coupon: string, percentage: real)
  datatype BannerCountry = BannerCountry(id: string, name: string)
  datatype Banner = Banner(product: Option<BannerProduct>, discount: Option<BannerDiscount>, country: Option<BannerCountry>)

  /** The banner query finds the product: its id matches and its stored url equals the
      requested url stripped of one trailing '/'. */
  predicate BannerProductFound(db: Database, id: string, url: string)
    reads db
  {
    id in db.products && db.products[id].url == RemoveTrailingSlash(url)
  }

  /** The `countries` of one group with the requested code, `limit 1`. */
  function GroupCountryWithCode(cs: seq<Country>, groupId: string, code: string): (r: Option<Country>)
    ensures r.Some? ==> r.value in cs && r.value.countryGroupId == groupId && r.value.code == code
    ensures r.None? ==> forall c :: c in cs ==> !(c.countryGroupId == groupId && c.code == code)
  {
    if cs == [] then None
    else if cs[0].countryGroupId == groupId && cs[0].code == code then Some(cs[0])
    else GroupCountryWithCode(cs[1..], groupId, code)
  }

  /** The `find` callback: a discount row of the product whose group is present and has a
      country with the code. */
  predicate BannerMatch(d: CountryGroupDiscount, productId: string, gs: seq<CountryGroup>, cs: seq<Country>, code: string) {
    d.productId == productId && d.countryGroupId in GroupIds(gs) && GroupCountryWithCode(cs, d.countryGroupId, code).Some?
  }

  /** Row `i` is the first row `find` accepts. */
  predicate IsFirstBannerMatch(ds: seq<CountryGroupDiscount>, i: int, productId: string, gs: seq<CountryGroup>, cs: seq<Country>, code: string) {
    && 0 <= i < |ds|
    && BannerMatch(ds[i], productId, gs, cs, code)
    && forall j :: 0 <= j < i ==> !BannerMatch(ds[j], productId, gs, cs, code)
  }

  /** The index `find` stops at, if any. */
  function FirstBannerMatch(ds: seq<CountryGroupDiscount>, productId: string, gs: seq<CountryGroup>, cs: seq<Country>, code: string): (r: Option<nat>)
    ensures r.Some? ==> IsFirstBannerMatch(ds, r.value, productId, gs, cs, code)
    ensures r.None? ==> forall d :: d in ds ==> !BannerMatch(d, productId, gs, cs, code)
  {
    if ds == [] then None
    else if BannerMatch(ds[0], productId, gs, cs, code) then Some(0)
    else
      match FirstBannerMatch(ds[1..], productId, gs, cs, code)
      case None => None
      case Some(k) =>
        assert forall j :: 1 <= j <= k ==> ds[j] == ds[1..][j - 1];
        Some(k + 1)
  }

  /** The banner for product `id` shown to a visitor from `countryCode` on page `url`: the
      product with its customization, and the discount and country of the first discount row
      whose group contains a country with that code. */
  function GetProductForBannerInternal(db: Database, id: string, countryCode: string, url: string): (r: Banner)
    reads db
    ensures !BannerProductFound(db, id, url) ==> r == Banner(None, None, None)
    ensures r.product.Some? <==> BannerProductFound(db, id, url) && id in db.customizations
    ensures r.product.Some? ==> r.product.value == BannerProduct(id, db.products[id].clerkUserId, db.customizations[id])
    ensures r.discount.Some? <==> r.country.Some?
    ensures r.discount.Some? ==>
      exists i ::
        && IsFirstBannerMatch(db.discounts, i, id, db.countryGroups, db.countries, countryCode)
        && r.discount.value == BannerDiscount(db.discounts[i].coupon, db.discounts[i].discountPercentage)
    ensures r.country.Some? ==> exists c :: c in db.countries && c.code == countryCode && r.country.value == BannerCountry(c.id, c.name)
    ensures BannerProductFound(db, id, url) && r.discount.None? ==>
      forall d :: d in db.discounts ==> !BannerMatch(d, id, db.countryGroups, db.countries, countryCode)
  {
    if !BannerProductFound(db, id, url) then Banner(None, None, None)
    else
      var product := if id in db.customizations
        then Some(BannerProduct(id, db.products[id].clerkUserId, db.customizations[id])) else None;
      match FirstBannerMatch(db.discounts, id, db.countryGroups, db.countries, countryCode)
      case None => Banner(product, None, None)
      case Some(i) =>
        var d := db.discounts[i];
        var c := GroupCountryWithCode(db.countries, d.countryGroupId, countryCode).value;
        Banner(product, Some(BannerDiscount(d.coupon, d.discountPercentage)), Some(BannerCountry(c.id, c.name)))
  }

  // ---------------------------------------------------------------------------
  // A reference definition of the banner offer

  /** The country whose code is `code`, if any. */
  function CountryByCode(cs: seq<Country>, code: string): (r: Option<Country>)
    ensures r.Some? ==> r.value in cs && r.value.code == code
    ensures r.None? ==> forall c :: c in cs ==> c.code != code
  {
    if cs == [] then None
    else if cs[0].code == code then Some(cs[0])
    else CountryByCode(cs[1..], code)
  }

  /** The discount row keyed by (productId, groupId), if any. */
  function DiscountFor(ds: seq<CountryGroupDiscount>, productId: string, groupId: string): (r: Option<CountryGroupDiscount>)
    ensures r.Some? ==> r.value in ds && DiscountKey(r.value) == (productId, groupId)
    ensures r.None? ==> forall d :: d in ds ==> DiscountKey(d) != (productId, groupId)
  {
    if ds == [] then None
    else if DiscountKey(ds[0]) == (productId, groupId) then Some(ds[0])
    else DiscountFor(ds[1..], productId, groupId)
  }

  /** The offer the banner is meant to show: find the visitor's country by its code, then the
      product's discount for that country's group. */
  function ReferenceOffer(db: Database, id: string, code: string): (Option<BannerDiscount>, Option<BannerCountry>)
    reads db
  {
    match CountryByCode(db.countries, code)
    case None => (None, None)
    case Some(c) =>
      match DiscountFor(db.discounts, id, c.countryGroupId)
      case None => (None, None)
      case Some(d) => (Some(BannerDiscount(d.coupon, d.discountPercentage)), Some(BannerCountry(c.id, c.name)))
  }

  /** In a table with unique codes, the country with a code is that code's only row. */
  lemma CountryByCodeIsTheRow(cs: seq<Country>, c: Country)
    requires UniqueBy(cs, CountryCode) && c in cs
    ensures CountryByCode(cs, c.code) == Some(c)
  {
    var r := CountryByCode(cs, c.code);
    UniqueMembersEqual(cs, CountryCode, r.value, c);
  }

  /** Under the composite primary key, the keyed lookup finds the only row with that key. */
  lemma DiscountForIsTheRow(ds: seq<CountryGroupDiscount>, d: CountryGroupDiscount)
    requires UniqueBy(ds, DiscountKey) && d in ds
    ensures DiscountFor(ds, d.productId, d.countryGroupId) == Some(d)
  {
    var r := DiscountFor(ds, d.productId, d.countryGroupId);
    UniqueMembersEqual(ds, DiscountKey, r.value, d);
  }

  /** With unique codes, a group has a country with the code exactly when it is the group of
      the country with that code. */
  lemma GroupCountryIsTheCodedCountry(cs: seq<Country>, groupId: string, c: Country)
    requires UniqueBy(cs, CountryCode) && c in cs
    ensures GroupCountryWithCode(cs, groupId, c.code) == if c.countryGroupId == groupId then Some(c) else None
  {
    var r := GroupCountryWithCode(cs, groupId, c.code);
    if r.Some? {
      UniqueMembersEqual(cs, CountryCode, r.value, c);
    }
  }

  /** On a consistent database the scan over the product's discount rows shows exactly the
      reference offer: unique country codes make the first accepted row the product's row for
      the visitor's country group, and the composite key makes that row unique. */
  lemma {:induction false} BannerShowsReferenceOffer(db: Database, id: string, countryCode: string, url: string)
    requires db.Valid() && BannerProductFound(db, id, url)
    ensures var r := GetProductForBannerInternal(db, id, countryCode, url);
      (r.discount, r.country) == ReferenceOffer(db, id, countryCode)
  {
    var ds, gs, cs := db.discounts, db.countryGroups, db.countries;
    match CountryByCode(cs, countryCode)
    case None =>
      assert FirstBannerMatch(ds, id, gs, cs, countryCode).None?;
    case Some(c) =>
      forall g: string ensures GroupCountryWithCode(cs, g, countryCode) == if c.countryGroupId == g then Some(c) else None {
        GroupCountryIsTheCodedCountry(cs, g, c);
      }
      assert c.countryGroupId in GroupIds(gs);
      match DiscountFor(ds, id, c.countryGroupId)
      case None =>
        assert FirstBannerMatch(ds, id, gs, cs, countryCode).None?;
      case Some(d) =>
        assert BannerMatch(d, id, gs, cs, countryCode);
        var k := FirstBannerMatch(ds, id, gs, cs, countryCode).value;
        UniqueMembersEqual(ds, DiscountKey, ds[k], d);
  }

  // ---------------------------------------------------------------------------
  // getProductCountryGroups

  datatype GroupCountry = GroupCountry(code: string, name: string)
  datatype GroupDiscount = GroupDiscount(coupon: string, discountPercentage: real)
  datatype ProductCountryGroup = ProductCountryGroup(
    id: string,
    name: string,
    recommendedDiscountPercentage: Option<real>,
    countries: seq<GroupCountry>,
    discount: Option<GroupDiscount>)

  /** The `countries` relation of a group, projected on code and name. */
  function CountriesOf(cs: seq<Country>, groupId: string): (r: seq<GroupCountry>)
    ensures forall x :: x in r <==> exists c :: c in cs && c.countryGroupId == groupId && x == GroupCountry(c.code, c.name)
  {
    if cs == [] then []
    else
      var rest := CountriesOf(cs[1..], groupId);
      assert forall c :: c in cs <==> c == cs[0] || c in cs[1..];
      (if cs[0].countryGroupId == groupId then [GroupCountry(cs[0].code, cs[0].name)] else []) + rest
  }

  /** One entry of the result: the group, its countries and the product's first discount
      row for it (`limit: 1`, `.at(0)`). */
  function GroupEntry(g: CountryGroup, cs: seq<Country>, ds: seq<CountryGroupDiscount>, productId: string): ProductCountryGroup {
    var discount := match DiscountFor(ds, productId, g.id)
      case None => None
      case Some(d) => Some(GroupDiscount(d.coupon, d.discountPercentage));
    ProductCountryGroup(g.id, g.name, g.recommendedDiscountPercentage, CountriesOf(cs, g.id), discount)
  }

  /** Every country group with its countries and the product's discount for it; nothing when
      the product is not the user's. */
  function GetProductCountryGroupsInternal(db: Database, userId: string, productId: string): (r: seq<ProductCountryGroup>)
    reads db
    ensures !Owns(db, productId, userId) ==> r == []
    ensures Owns(db, productId, userId) ==> |r| == |db.countryGroups|
    ensures forall i :: 0 <= i < |r| ==>
      && r[i].id == db.countryGroups[i].id
      && r[i].name == db.countryGroups[i].name
      && r[i].recommendedDiscountPercentage == db.countryGroups[i].recommendedDiscountPercentage
    ensures forall i, x :: 0 <= i < |r| && x in r[i].countries <==>
      0 <= i < |r| && exists c :: c in db.countries && c.countryGroupId == r[i].id && x == GroupCountry(c.code, c.name)
    ensures forall i :: 0 <= i < |r| && r[i].discount.Some? ==>
      exists d :: d in db.discounts && DiscountKey(d) == (productId, r[i].id)
        && r[i].discount.value == GroupDiscount(d.coupon, d.discountPercentage)
    ensures forall i :: 0 <= i < |r| && r[i].discount.None? ==>
      forall d :: d in db.discounts ==> DiscountKey(d) != (productId, r[i].id)
  {
    if !Owns(db, productId, userId) then []
    else
      var gs, cs, ds := db.countryGroups, db.countries, db.discounts;
      seq(|gs|, i requires 0 <= i < |gs| => GroupEntry(gs[i], cs, ds, productId))
  }

  /** On a consistent database a group's entry shows the product's discount row for that
      group whenever there is one. */
  lemma GroupEntryShowsTheDiscount(db: Database, userId: string, productId: string, i: nat, d: CountryGroupDiscount)
    requires db.Valid() && Owns(db, productId, userId)
    requires i < |db.countryGroups| && d in db.discounts && DiscountKey(d) == (productId, db.countryGroups[i].id)
    ensures GetProductCountryGroupsInternal(db, userId, productId)[i].discount == Some(GroupDiscount(d.coupon, d.discountPercentage))
  {
    DiscountForIsTheRow(db.discounts, d);
  }

  // ---------------------------------------------------------------------------
  // createProduct

  datatype CreatedProduct = CreatedProduct(id: string, userId: string)

  /** Inserts the product under the generated id `newId`, then its default customization
      (`ON CONFLICT DO NOTHING`). When that second insert fails (`customizationInsertFails`,
      an error of the database connection) the product is deleted again. Either way the
      product tag is revalidated and the new id returned. */
  method CreateProduct(db: Database, data: Product, newId: string, customizationInsertFails: bool)
    returns (created: CreatedProduct)
    requires db.Valid() && newId !in db.products
    modifies db
    ensures db.Valid()
    ensures created == CreatedProduct(newId, data.clerkUserId)
    ensures !customizationInsertFails ==>
      && db.products == old(db.products)[newId := data]
      && db.customizations == old(db.customizations)[newId := DefaultCustomization()]
    ensures customizationInsertFails ==>
      db.products == old(db.products) && db.customizations == old(db.customizations)
    ensures db.discounts == old(db.discounts) && db.views == old(db.views)
    ensures db.countryGroups == old(db.countryGroups) && db.countries == old(db.countries)
    ensures db.subscriptions == old(db.subscriptions)
    ensures db.revalidations == old(db.revalidations) + [Revalidation(Products, data.clerkUserId, newId)]
  {
    ghost var products0, customizations0 := db.products, db.customizations;
    db.products := db.products[newId := data];
    created := CreatedProduct(newId, data.clerkUserId);
    assert db.Valid();
    if customizationInsertFails {
      CascadeOfUnreferenced(db.discounts, db.views, {newId});
      db.DeleteProducts({newId});
      assert db.products == products0;
      assert db.customizations == customizations0;
    } else if newId !in db.customizations {
      db.customizations := db.customizations[newId := DefaultCustomization()];
    }
    db.revalidations := db.revalidations + [Revalidation(Products, created.userId, created.id)];
  }

  // ---------------------------------------------------------------------------
  // updateProduct

  /** `UPDATE products SET data WHERE id = id AND clerk_user_id = userId`; reports whether a
      row changed and revalidates only then. */
  method UpdateProduct(db: Database, data: ProductPatch, userId: string, id: string) returns (updated: bool)
    requires db.Valid()
    modifies db
    ensures db.Valid()
    ensures updated == old(Owns(db, id, userId))
    ensures updated ==> db.products == old(db.products)[id := PatchProduct(old(db.products)[id], data)]
    ensures updated ==> Owns(db, id, userId)
    ensures !updated ==> db.products == old(db.products)
    ensures db.customizations == old(db.customizations) && db.discounts == old(db.discounts) && db.views == old(db.views)
    ensures db.countryGroups == old(db.countryGroups) && db.countries == old(db.countries)
    ensures db.subscriptions == old(db.subscriptions)
    ensures db.revalidations == old(db.revalidations) + (if updated then [Revalidation(Products, userId, id)] else [])
  {
    updated := Owns(db, id, userId);
    if updated {
      db.products := db.products[id := PatchProduct(db.products[id], data)];
      db.revalidations := db.revalidations + [Revalidation(Products, userId, id)];
    }
  }

  // ---------------------------------------------------------------------------
  // deleteProduct

  /** Deletes the product if it is the user's, with the cascades; revalidates in any case
      and reports whether a row was deleted. */
  method DeleteProduct(db: Database, id: string, userId: string) returns (deleted: bool)
    requires db.Valid()
    modifies db
    ensures db.Valid()
    ensures deleted == old(Owns(db, id, userId))
    ensures deleted ==>
      && db.products == old(db.products) - {id}
      && db.customizations == old(db.customizations) - {id}
      && db.discounts == DiscountsWithout(old(db.discounts), {id})
      && db.views == ViewsWithout(old(db.views), {id})
    ensures !deleted ==>
      && db.products == old(db.products) && db.customizations == old(db.customizations)
      && db.discounts == old(db.discounts) && db.views == old(db.views)
    ensures id !in db.products || db.products[id].clerkUserId != userId
    ensures db.countryGroups == old(db.countryGroups) && db.countries == old(db.countries)
    ensures db.subscriptions == old(db.subscriptions)
    ensures db.revalidations == old(db.revalidations) + [Revalidation(Products, userId, id)]
  {
    deleted := Owns(db, id, userId);
    if deleted {
      db.DeleteProducts({id});
    }
    db.revalidations := db.revalidations + [Revalidation(Products, userId, id)];
  }

  // ---------------------------------------------------------------------------
  // updateCountryDiscounts

  /** One statement of the batch. */
  datatype Statement =
    | DeleteDiscounts(productId: string, groupIds: seq<string>)
    | UpsertDiscounts(rows: seq<CountryGroupDiscount>)

  predicate Deleted(productId: string, groupIds: seq<string>, d: CountryGroupDiscount) {
    d.productId == productId && d.countryGroupId in groupIds
  }

  /** `DELETE ... WHERE product_id = productId AND country_group_id IN groupIds`. */
  function DeleteDiscountRows(ds: seq<CountryGroupDiscount>, productId: string, groupIds: seq<string>): (r: seq<CountryGroupDiscount>)
    ensures forall d :: d in r <==> d in ds && !Deleted(productId, groupIds, d)
  {
    Filter(ds, d => !Deleted(productId, groupIds, d))
  }

  /** One row of `INSERT ... ON CONFLICT (product_id, country_group_id) DO UPDATE SET coupon,
      discount_percentage`: the row holding the key takes the new coupon and percentage in
      place; without one the row is appended. */
  function UpsertDiscount(ds: seq<CountryGroupDiscount>, row: CountryGroupDiscount): (r: seq<CountryGroupDiscount>)
    ensures row in r
    ensures forall x :: x in r ==> x == row || x in ds
    ensures forall x :: x in ds && DiscountKey(x) != DiscountKey(row) ==> x in r
  {
    if ds == [] then [row]
    else if DiscountKey(ds[0]) == DiscountKey(row) then
      [ds[0].(coupon := row.coupon, discountPercentage := row.discountPercentage)] + ds[1..]
    else
      [ds[0]] + UpsertDiscount(ds[1..], row)
  }

  /** The rows of a multi-row upsert, in order. */
  function UpsertDiscountRows(ds: seq<CountryGroupDiscount>, rows: seq<CountryGroupDiscount>): (r: seq<CountryGroupDiscount>)
    ensures forall x :: x in r ==> x in ds || x in rows
    ensures forall x :: x in ds && (forall y :: y in rows ==> DiscountKey(y) != DiscountKey(x)) ==> x in r
    decreases rows
  {
    if rows == [] then ds
    else UpsertDiscountRows(UpsertDiscount(ds, rows[0]), rows[1..])
  }

  /** Whether PostgreSQL accepts the upsert: no key twice in one statement ("cannot affect
      row a second time") and both foreign keys present. */
  predicate UpsertAccepted(ps: map<string, Product>, gs: seq<CountryGroup>, rows: seq<CountryGroupDiscount>) {
    && UniqueBy(rows, DiscountKey)
    && forall x :: x in rows ==> x.productId in ps && x.countryGroupId in GroupIds(gs)
  }

  function RunStatement(ds: seq<CountryGroupDiscount>, st: Statement): seq<CountryGroupDiscount> {
    match st
    case DeleteDiscounts(productId, groupIds) => DeleteDiscountRows(ds, productId, groupIds)
    case UpsertDiscounts(rows) => UpsertDiscountRows(ds, rows)
  }

  function RunBatch(ds: seq<CountryGroupDiscount>, statements: seq<Statement>): seq<CountryGroupDiscount>
    decreases |statements|
  {
    if statements == [] then ds else RunBatch(RunStatement(ds, statements[0]), statements[1..])
  }

  /** A batch runs in one transaction: it commits only if every statement is accepted. */
  predicate BatchAccepted(ps: map<string, Product>, gs: seq<CountryGroup>, statements: seq<Statement>) {
    forall st :: st in statements && st.UpsertDiscounts? ==> UpsertAccepted(ps, gs, st.rows)
  }

  /** An upsert keeps a uniquely keyed table uniquely keyed. */
  lemma {:induction false} UpsertDiscountUnique(ds: seq<CountryGroupDiscount>, row: CountryGroupDiscount)
    requires UniqueBy(ds, DiscountKey)
    ensures UniqueBy(UpsertDiscount(ds, row), DiscountKey)
  {
    if ds != [] {
      UniqueTail(ds, DiscountKey);
      if DiscountKey(ds[0]) == DiscountKey(row) {
        UniqueCons(ds[0].(coupon := row.coupon, discountPercentage := row.discountPercentage), ds[1..], DiscountKey);
      } else {
        UpsertDiscountUnique(ds[1..], row);
        UniqueCons(ds[0], UpsertDiscount(ds[1..], row), DiscountKey);
      }
    }
  }

  /** Upserting rows with distinct keys leaves every one of them in the table, and the
      table uniquely keyed: the row with each inserted key is exactly the inserted row. */
  lemma {:induction false} UpsertRowsLand(ds: seq<CountryGroupDiscount>, rows: seq<CountryGroupDiscount>)
    requires UniqueBy(ds, DiscountKey) && UniqueBy(rows, DiscountKey)
    ensures UniqueBy(UpsertDiscountRows(ds, rows), DiscountKey)
    ensures forall x :: x in rows ==> x in UpsertDiscountRows(ds, rows)
    decreases rows
  {
    if rows != [] {
      UpsertDiscountUnique(ds, rows[0]);
      UniqueTail(rows, DiscountKey);
      UpsertRowsLand(UpsertDiscount(ds, rows[0]), rows[1..]);
      assert forall x :: x in rows ==> x == rows[0] || x in rows[1..];
    }
  }

  /** The discount table after a saved `updateCountryDiscounts`: the deleted groups removed,
      then the rows upserted. */
  function SavedDiscounts(ds: seq<CountryGroupDiscount>, productId: string, deleteGroup: seq<string>, insert: seq<CountryGroupDiscount>): (r: seq<CountryGroupDiscount>)
    ensures forall x :: x in r ==> (x in ds && !Deleted(productId, deleteGroup, x)) || x in insert
    ensures forall x :: x in ds && !Deleted(productId, deleteGroup, x) && (forall y :: y in insert ==> DiscountKey(y) != DiscountKey(x)) ==> x in r
    ensures UniqueBy(ds, DiscountKey) && UniqueBy(insert, DiscountKey) ==>
      UniqueBy(r, DiscountKey) && forall x :: x in insert ==> x in r
  {
    var kept := DeleteDiscountRows(ds, productId, deleteGroup);
    if UniqueBy(ds, DiscountKey) && UniqueBy(insert, DiscountKey) then
      FilterUnique(ds, d => !Deleted(productId, deleteGroup, d), DiscountKey);
      UpsertRowsLand(kept, insert);
      UpsertDiscountRows(kept, insert)
    else
      UpsertDiscountRows(kept, insert)
  }

  predicate OfOtherProduct(productId: string, d: CountryGroupDiscount) {
    d.productId != productId
  }

  /** The discount rows of every product except `productId`, in order. */
  function OtherProductsDiscounts(ds: seq<CountryGroupDiscount>, productId: string): (r: seq<CountryGroupDiscount>)
    ensures forall d :: d in r <==> d in ds && d.productId != productId
  {
    Filter(ds, d => OfOtherProduct(productId, d))
  }

  lemma {:induction false} UpsertKeepsOtherProducts(ds: seq<CountryGroupDiscount>, row: CountryGroupDiscount)
    ensures OtherProductsDiscounts(UpsertDiscount(ds, row), row.productId) == OtherProductsDiscounts(ds, row.productId)
  {
    var p := row.productId;
    if ds == [] {
      assert UpsertDiscount(ds, row) == [row];
      assert OtherProductsDiscounts([row], p) == [] + OtherProductsDiscounts([row][1..], p);
    } else if DiscountKey(ds[0]) == DiscountKey(row) {
      var u := UpsertDiscount(ds, row);
      assert u[0].productId == p && u[1..] == ds[1..];
    } else {
      var u := UpsertDiscount(ds, row);
      UpsertKeepsOtherProducts(ds[1..], row);
      assert u[0] == ds[0] && u[1..] == UpsertDiscount(ds[1..], row);
    }
  }

  lemma {:induction false} UpsertRowsKeepOtherProducts(ds: seq<CountryGroupDiscount>, rows: seq<CountryGroupDiscount>, productId: string)
    requires forall x :: x in rows ==> x.productId == productId
    ensures OtherProductsDiscounts(UpsertDiscountRows(ds, rows), productId) == OtherProductsDiscounts(ds, productId)
    decreases rows
  {
    if rows != [] {
      UpsertKeepsOtherProducts(ds, rows[0]);
      UpsertRowsKeepOtherProducts(UpsertDiscount(ds, rows[0]), rows[1..], productId);
    }
  }

  /** Saving the discounts of one product leaves the rows of every other product exactly as
      they were, in the same order. */
  lemma SavedKeepsOtherProducts(ds: seq<CountryGroupDiscount>, productId: string, deleteGroup: seq<string>, insert: seq<CountryGroupDiscount>)
    requires forall x :: x in insert ==> x.productId == productId
    ensures OtherProductsDiscounts(SavedDiscounts(ds, productId, deleteGroup, insert), productId) == OtherProductsDiscounts(ds, productId)
  {
    var kept := DeleteDiscountRows(ds, productId, deleteGroup);
    UpsertRowsKeepOtherProducts(kept, insert, productId);
    FilterFilter(ds, d => !Deleted(productId, deleteGroup, d), d => OfOtherProduct(productId, d), d => OfOtherProduct(productId, d));
  }

  /** The batch the method assembles runs the delete, then the upsert. */
  lemma BatchIsSavedDiscounts(ds: seq<CountryGroupDiscount>, productId: string, deleteGroup: seq<string>, insert: seq<CountryGroupDiscount>)
    ensures RunBatch(ds,
      (if |deleteGroup| > 0 then [DeleteDiscounts(productId, deleteGroup)] else [])
      + (if |insert| > 0 then [UpsertDiscounts(insert)] else []))
      == SavedDiscounts(ds, productId, deleteGroup, insert)
  {
    if deleteGroup == [] {
      FilterAll(ds, d => !Deleted(productId, deleteGroup, d));
    }
    var kept := DeleteDiscountRows(ds, productId, deleteGroup);
    if |deleteGroup| > 0 && |insert| > 0 {
      var sts := [DeleteDiscounts(productId, deleteGroup), UpsertDiscounts(insert)];
      assert sts[1..] == [UpsertDiscounts(insert)];
      assert RunBatch(ds, sts) == RunBatch(kept, [UpsertDiscounts(insert)]);
    }
  }

  /** The batch is accepted exactly when its upsert (if any) is. */
  lemma BatchAcceptedIffUpsert(ps: map<string, Product>, gs: seq<CountryGroup>, productId: string, deleteGroup: seq<string>, insert: seq<CountryGroupDiscount>)
    ensures BatchAccepted(ps, gs,
      (if |deleteGroup| > 0 then [DeleteDiscounts(productId, deleteGroup)] else [])
      + (if |insert| > 0 then [UpsertDiscounts(insert)] else []))
      <==> UpsertAccepted(ps, gs, insert)
  {
    var sts := (if |deleteGroup| > 0 then [DeleteDiscounts(productId, deleteGroup)] else [])
      + (if |insert| > 0 then [UpsertDiscounts(insert)] else []);
    if |insert| > 0 {
      assert UpsertDiscounts(insert) in sts;
    } else {
      assert UniqueBy(insert, DiscountKey);
    }
  }

  /** A saved batch keeps the key and the references of the discount table. */
  lemma SavedDiscountsValid(ds: seq<CountryGroupDiscount>, ps: map<string, Product>, gs: seq<CountryGroup>, productId: string, deleteGroup: seq<string>, insert: seq<CountryGroupDiscount>)
    requires DiscountsValid(ds, ps, gs) && UpsertAccepted(ps, gs, insert)
    ensures DiscountsValid(SavedDiscounts(ds, productId, deleteGroup, insert), ps, gs)
  {
    var r := SavedDiscounts(ds, productId, deleteGroup, insert);
    assert UniqueBy(r, DiscountKey);
    forall x | x in r ensures x.productId in ps && x.countryGroupId in GroupIds(gs) {
      if x in insert {
        assert x.productId in ps && x.countryGroupId in GroupIds(gs);
      }
    }
  }

  datatype DiscountsOutcome = NotOwned | Saved | BatchFailed

  /** Replaces the product's country discounts in one batch: the groups in `deleteGroup` lose
      their row, the rows of `insert` are upserted. Nothing happens for a product that is not
      the user's (the source returns false). A batch PostgreSQL rejects changes nothing and
      raises, so nothing is revalidated. */
  method UpdateCountryDiscounts(db: Database, deleteGroup: seq<string>, insert: seq<CountryGroupDiscount>, productId: string, userId: string)
    returns (outcome: DiscountsOutcome)
    requires db.Valid()
    modifies db
    ensures db.Valid()
    ensures outcome == NotOwned <==> !old(Owns(db, productId, userId))
    ensures outcome == BatchFailed <==> old(Owns(db, productId, userId)) && !old(UpsertAccepted(db.products, db.countryGroups, insert))
    ensures outcome == Saved ==> db.discounts == SavedDiscounts(old(db.discounts), productId, deleteGroup, insert)
    ensures outcome != Saved ==> db.discounts == old(db.discounts)
    ensures db.products == old(db.products) && db.customizations == old(db.customizations) && db.views == old(db.views)
    ensures db.countryGroups == old(db.countryGroups) && db.countries == old(db.countries)
    ensures db.subscriptions == old(db.subscriptions)
    ensures db.revalidations == old(db.revalidations) + (if outcome == Saved then [Revalidation(Products, userId, productId)] else [])
  {
    var product := GetProductInternal(db, productId, userId);
    if product.None? {
      return NotOwned;
    }
    var statements: seq<Statement> := [];
    if |deleteGroup| > 0 {
      statements := statements + [DeleteDiscounts(productId, deleteGroup)];
    }
    if |insert| > 0 {
      statements := statements + [UpsertDiscounts(insert)];
    }
    assert statements == (if |deleteGroup| > 0 then [DeleteDiscounts(productId, deleteGroup)] else [])
      + (if |insert| > 0 then [UpsertDiscounts(insert)] else []);
    BatchAcceptedIffUpsert(db.products, db.countryGroups, productId, deleteGroup, insert);
    BatchIsSavedDiscounts(db.discounts, productId, deleteGroup, insert);
    if |statements| > 0 {
      if !BatchAccepted(db.products, db.countryGroups, statements) {
        return BatchFailed;
      }
      SavedDiscountsValid(db.discounts, db.products, db.countryGroups, productId, deleteGroup, insert);
      db.discounts := RunBatch(db.discounts, statements);
    }
    db.revalidations := db.revalidations + [Revalidation(Products, userId, productId)];
    outcome := Saved;
  }

  // ---------------------------------------------------------------------------
  // updateProductCustomization

  /** For a product of the user's, sets the given columns of its customization row (if it has
      one) and revalidates; for anyone else's product does nothing. */
  method UpdateProductCustomization(db: Database, data: CustomizationPatch, userId: string, productId: string)
    requires db.Valid()
    modifies db
    ensures db.Valid()
    ensures old(Owns(db, productId, userId)) && productId in old(db.customizations) ==>
      db.customizations == old(db.customizations)[productId := PatchCustomization(old(db.customizations)[productId], data)]
    ensures !(old(Owns(db, productId, userId)) && productId in old(db.customizations)) ==>
      db.customizations == old(db.customizations)
    ensures db.products == old(db.products) && db.discounts == old(db.discounts) && db.views == old(db.views)
    ensures db.countryGroups == old(db.countryGroups) && db.countries == old(db.countries)
    ensures db.subscriptions == old(db.subscriptions)
    ensures db.revalidations == old(db.revalidations) +
      (if old(Owns(db, productId, userId)) then [Revalidation(Products, userId, productId)] else [])
  {
    var product := GetProductInternal(db, productId, userId);
    if product.None? {
      return;
    }
    if productId in db.customizations {
      db.customizations := db.customizations[productId := PatchCustomization(db.customizations[productId], data)];
    }
    db.revalidations := db.revalidations + [Revalidation(Products, userId, productId)];
  }

  // ---------------------------------------------------------------------------
  // createProductView

  /** Records one banner view at `viewTime` under the generated id `viewId`. The insert
      raises (and nothing is recorded) when the product or the country does not exist;
      `inserted` says whether it went through. */
  method CreateProductView(db: Database, productId: string, countryId: Option<string>, userId: string, viewId: string, viewTime: int)
    returns (inserted: bool)
    requires db.Valid() && viewId !in ViewIds(db.views)
    modifies db
    ensures db.Valid()
    ensures inserted <==> productId in old(db.products) && (countryId.Some? ==> countryId.value in CountryIds(old(db.countries)))
    ensures db.views == old(db.views) + (if inserted then [ProductView(viewId, productId, countryId, viewTime)] else [])
    ensures db.products == old(db.products) && db.customizations == old(db.customizations) && db.discounts == old(db.discounts)
    ensures db.countryGroups == old(db.countryGroups) && db.countries == old(db.countries)
    ensures db.subscriptions == old(db.subscriptions)
    ensures db.revalidations == old(db.revalidations) + (if inserted then [Revalidation(ProductViews, userId, viewId)] else [])
  {
    inserted := productId in db.products && (countryId.Some? ==> countryId.value in CountryIds(db.countries));
    if inserted {
      var row := ProductView(viewId, productId, countryId, viewTime);
      UniqueAppend(db.views, ViewKey, row);
      db.views := db.views + [row];
      db.revalidations := db.revalidations + [Revalidation(ProductViews, userId, row.id)];
    }
  }

  // ---------------------------------------------------------------------------
  // The tag sets passed to `dbCache`

  /** The cached reads of this file, each with the argument its tags are built from. */
  datatype CachedRead =
    | ProductCustomizationRead(productId: string)
    | ProductsRead(userId: string)
    | ProductForBannerRead(productId: string)
    | ProductRead(productId: string)
    | ProductCountRead(userId: string)
    | ProductCountryGroupsRead(productId: string)

  /** The `tags` each read is cached under. */
  function ReadTags(q: CachedRead): seq<CacheTag> {
    match q
    case ProductCustomizationRead(p) => [IdTag(p, Products)]
    case ProductsRead(u) => [UserTag(u, Products)]
    case ProductForBannerRead(p) => [IdTag(p, Products), GlobalTag(CountryGroups), GlobalTag(Countries)]
    case ProductRead(p) => [IdTag(p, Products)]
    case ProductCountRead(u) => [UserTag(u, Products)]
    case ProductCountryGroupsRead(p) => [IdTag(p, Products), GlobalTag(Countries), GlobalTag(CountryGroups)]
  }

  /** The read returns data of product `id`. */
  predicate AboutProduct(q: CachedRead, id: string) {
    !(q.ProductsRead? || q.ProductCountRead?) && q.productId == id
  }

  /** The read returns data of all products of `userId`. */
  predicate AboutUser(q: CachedRead, userId: string) {
    (q.ProductsRead? || q.ProductCountRead?) && q.userId == userId
  }

  /** The tags `revalidateDbCache` is given for one call: `getIdTag(id, tag)` and
      `getUserTag(userId, tag)`. */
  function RowTag(r: Revalidation): CacheTag { IdTag(r.id, r.tag) }
  function OwnerTag(r: Revalidation): CacheTag { UserTag(r.userId, r.tag) }

  /** Every product write above records `Revalidation(Products, userId, id)`. That entry names
      a tag of every cached read about product `id` and of every cached read of the user's
      products, and the reads that join countries and groups also hang on both global tags. */
  lemma ProductRevalidationReachesReads(userId: string, id: string, q: CachedRead)
    ensures AboutProduct(q, id) ==> RowTag(Revalidation(Products, userId, id)) in ReadTags(q)
    ensures AboutUser(q, userId) ==> OwnerTag(Revalidation(Products, userId, id)) in ReadTags(q)
    ensures q.ProductForBannerRead? || q.ProductCountryGroupsRead? ==>
      GlobalTag(Countries) in ReadTags(q) && GlobalTag(CountryGroups) in ReadTags(q)
  {
  }
}
