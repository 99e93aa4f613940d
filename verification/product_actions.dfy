/** The server actions of src/server/actions/products.ts: each validates the submitted form,
    checks the signed-in user (and, where the source does, the user's plan), calls the data
    layer and turns the outcome into the reply the form shows. The signed-in user is an input
    (`None` when nobody is signed in); plan checks and the url check are inputs as well. */
module ProductActions {
  import opened Wrappers
  import opened Tables
  import opened Schema
  import opened ProductSchema
  import opened ProductsDb

  /** What an action gives back: a reply for the form, a redirect, or an exception the
      action lets through (a batch the database rejected). */
  datatype ActionResult = Reply(error: bool, message: string) | Redirect(path: string) | Threw

  /** JavaScript's `!userId`: no user, or the empty string. */
  predicate UserMissing(userId: Option<string>) {
    userId.None? || userId.value == ""
  }

  // ---------------------------------------------------------------------------
  // createProduct

  const CreateErrorMessage: string := "There was an error creating your product"

  function EditCountriesPath(id: string): string {
    "/dashboard/products/" + id + "/edit?tab=countries"
  }

  /** Creates the product of the signed-in user when the form is valid and the user's plan
      allows another product (`canCreate`), then redirects to its country tab. */
  method CreateProductAction(db: Database, userId: Option<string>, unsafeData: ProductDetailsInput, isUrl: string -> bool,
                             canCreate: bool, newId: string, customizationInsertFails: bool)
    returns (result: ActionResult)
    requires db.Valid() && newId !in db.products
    modifies db
    ensures db.Valid()
    ensures var ok := ParseProductDetails(unsafeData, isUrl).Success? && !UserMissing(userId) && canCreate;
      && (!ok ==> result == Reply(true, CreateErrorMessage) && unchanged(db))
      && (ok ==> result == Redirect(EditCountriesPath(newId)))
      && (ok && !customizationInsertFails ==>
            var d := ParseProductDetails(unsafeData, isUrl).value;
            && db.products == old(db.products)[newId := Product(userId.value, d.name, d.url, d.description)]
            && db.customizations == old(db.customizations)[newId := DefaultCustomization()])
      && (ok && customizationInsertFails ==>
            db.products == old(db.products) && db.customizations == old(db.customizations))
      && (ok ==> db.revalidations == old(db.revalidations) + [Revalidation(Products, userId.value, newId)])
    ensures db.discounts == old(db.discounts) && db.views == old(db.views)
    ensures db.countryGroups == old(db.countryGroups) && db.countries == old(db.countries)
    ensures db.subscriptions == old(db.subscriptions)
  {
    var parsed := ParseProductDetails(unsafeData, isUrl);
    if parsed.Failure? || UserMissing(userId) || !canCreate {
      return Reply(true, CreateErrorMessage);
    }
    var data := parsed.value;
    var created := CreateProduct(db, Product(userId.value, data.name, data.url, data.description), newId, customizationInsertFails);
    result := Redirect(EditCountriesPath(created.id));
  }

  // ---------------------------------------------------------------------------
  // updateProduct

  const UpdateErrorMessage: string := "There was an error updating your product"
  const UpdateSuccessMessage: string := "Your product updated successfully"

  /** The reply as written: the message is chosen on the parse result `success`, which is
      always true once the guard has passed, rather than on the update's `isSuccess`. */
  function UpdateProductReplyAsWritten(success: bool, isSuccess: bool): (r: ActionResult)
    ensures r.Reply? && r.error == !isSuccess
    ensures success ==> r.message == UpdateSuccessMessage
  {
    Reply(!isSuccess, if success then UpdateSuccessMessage else UpdateErrorMessage)
  }

  /** An update of someone else's product reaches the reply as written with an error flag
      and the success text. */
  lemma UpdateProductReplyAsWrittenMisreports()
    ensures var r := UpdateProductReplyAsWritten(true, false);
      r.error && r.message == UpdateSuccessMessage
  {
  }

  /** The reply the action evidently intends: the message agrees with the error flag. */
  function UpdateProductReply(isSuccess: bool): (r: ActionResult)
    ensures r.Reply? && r.error == !isSuccess
    ensures r.message == UpdateSuccessMessage <==> !r.error
    ensures r.message == UpdateErrorMessage <==> r.error
  {
    Reply(!isSuccess, if isSuccess then UpdateSuccessMessage else UpdateErrorMessage)
  }

  /** The two replies agree exactly when the update succeeded. */
  lemma UpdateProductRepliesAgree(isSuccess: bool)
    ensures UpdateProductReplyAsWritten(true, isSuccess) == UpdateProductReply(isSuccess) <==> isSuccess
  {
  }

  /** Updates the details of one of the signed-in user's products. The reply is the one
      written in the source, so an update of a product that is not the user's carries the
      error flag and the success text. */
  method UpdateProductAction(db: Database, id: string, userId: Option<string>, unsafeData: ProductDetailsInput, isUrl: string -> bool)
    returns (result: ActionResult)
    requires db.Valid()
    modifies db
    ensures db.Valid()
    ensures ParseProductDetails(unsafeData, isUrl).Failure? || UserMissing(userId) ==>
      result == Reply(true, UpdateErrorMessage) && unchanged(db)
    ensures ParseProductDetails(unsafeData, isUrl).Success? && !UserMissing(userId) ==>
      var d := ParseProductDetails(unsafeData, isUrl).value;
      var owned := old(Owns(db, id, userId.value));
      && result == UpdateProductReplyAsWritten(true, owned)
      && db.products == (if owned
           then old(db.products)[id := PatchProduct(old(db.products)[id], ProductPatch(Some(d.name), Some(d.url), d.description))]
           else old(db.products))
      && db.revalidations == old(db.revalidations) + (if owned then [Revalidation(Products, userId.value, id)] else [])
    ensures db.customizations == old(db.customizations) && db.discounts == old(db.discounts) && db.views == old(db.views)
    ensures db.countryGroups == old(db.countryGroups) && db.countries == old(db.countries)
    ensures db.subscriptions == old(db.subscriptions)
  {
    var parsed := ParseProductDetails(unsafeData, isUrl);
    if parsed.Failure? || UserMissing(userId) {
      return Reply(true, UpdateErrorMessage);
    }
    var data := parsed.value;
    var isSuccess := UpdateProduct(db, ProductPatch(Some(data.name), Some(data.url), data.description), userId.value, id);
    result := UpdateProductReplyAsWritten(parsed.Success?, isSuccess);
  }

  // ---------------------------------------------------------------------------
  // deleteProduct

  const DeleteErrorMessage: string := "There was an error deleting your product"
  const DeleteSuccessMessage: string := "Successfully deleted your product"

  /** Deletes one of the signed-in user's products; only a missing user (not an empty id) is
      turned away before the data layer. */
  method DeleteProductAction(db: Database, id: string, userId: Option<string>) returns (result: ActionResult)
    requires db.Valid()
    modifies db
    ensures db.Valid()
    ensures userId.None? ==> result == Reply(true, DeleteErrorMessage) && unchanged(db)
    ensures userId.Some? ==>
      var owned := old(Owns(db, id, userId.value));
      && result == Reply(!owned, if owned then DeleteSuccessMessage else DeleteErrorMessage)
      && db.products == (if owned then old(db.products) - {id} else old(db.products))
      && db.customizations == (if owned then old(db.customizations) - {id} else old(db.customizations))
      && db.discounts == (if owned then DiscountsWithout(old(db.discounts), {id}) else old(db.discounts))
      && db.views == (if owned then ViewsWithout(old(db.views), {id}) else old(db.views))
      && db.revalidations == old(db.revalidations) + [Revalidation(Products, userId.value, id)]
    ensures db.countryGroups == old(db.countryGroups) && db.countries == old(db.countries)
    ensures db.subscriptions == old(db.subscriptions)
  {
    if userId.None? {
      return Reply(true, DeleteErrorMessage);
    }
    var isSuccess := DeleteProduct(db, id, userId.value);
    result := Reply(!isSuccess, if isSuccess then DeleteSuccessMessage else DeleteErrorMessage);
  }

  // ---------------------------------------------------------------------------
  // updateCountryDiscounts: splitting the form into upserts and deletes

  /** A group with a non-empty coupon and a positive percentage gets a discount row; every
      other group loses its row. */
  predicate HasDiscount(g: DiscountGroup) {
    g.coupon.Some? && |g.coupon.value| > 0 && g.discountPercentage.Some? && g.discountPercentage.value > 0.0
  }

  /** The row a group with a discount becomes: the percentage as a fraction. */
  function InsertRow(productId: string, g: DiscountGroup): (r: CountryGroupDiscount)
    requires HasDiscount(g)
    ensures r.productId == productId && r.countryGroupId == g.countryGroupId && r.coupon == g.coupon.value
    ensures r.discountPercentage * 100.0 == g.discountPercentage.value
  {
    CountryGroupDiscount(g.countryGroupId, productId, g.coupon.value, g.discountPercentage.value / 100.0)
  }

  /** The `insert` list for the groups, in their order. */
  function InsertRows(productId: string, groups: seq<DiscountGroup>): seq<CountryGroupDiscount> {
    if groups == [] then []
    else
      var n := |groups| - 1;
      InsertRows(productId, groups[..n]) + (if HasDiscount(groups[n]) then [InsertRow(productId, groups[n])] else [])
  }

  /** The `deleteGroup` list for the groups, in their order. */
  function DeleteGroupIds(groups: seq<DiscountGroup>): seq<string> {
    if groups == [] then []
    else
      var n := |groups| - 1;
      DeleteGroupIds(groups[..n]) + (if HasDiscount(groups[n]) then [] else [groups[n].countryGroupId])
  }

  /** The `forEach` that pushes each group onto one of the two lists. */
  method SplitGroups(productId: string, groups: seq<DiscountGroup>) returns (insert: seq<CountryGroupDiscount>, deleteGroup: seq<string>)
    ensures insert == InsertRows(productId, groups)
    ensures deleteGroup == DeleteGroupIds(groups)
  {
    insert, deleteGroup := [], [];
    var i := 0;
    while i < |groups|
      invariant 0 <= i <= |groups|
      invariant insert == InsertRows(productId, groups[..i])
      invariant deleteGroup == DeleteGroupIds(groups[..i])
    {
      var group := groups[i];
      assert groups[..i + 1][..i] == groups[..i];
      if group.coupon.Some? && |group.coupon.value| > 0 && group.discountPercentage.Some? && group.discountPercentage.value > 0.0 {
        insert := insert + [InsertRow(productId, group)];
      } else {
        deleteGroup := deleteGroup + [group.countryGroupId];
      }
      i := i + 1;
    }
    assert groups[..i] == groups;
  }

  /** Every group lands in exactly one list: the lists' lengths add up to the number of
      groups, a group with a discount is inserted and any other group is deleted, every
      inserted row comes from a group with a discount, and every deleted group id comes from a
      group without one. */
  lemma {:induction false} SplitIsPartition(productId: string, groups: seq<DiscountGroup>)
    ensures |InsertRows(productId, groups)| + |DeleteGroupIds(groups)| == |groups|
    ensures forall g :: g in groups && HasDiscount(g) ==> InsertRow(productId, g) in InsertRows(productId, groups)
    ensures forall g :: g in groups && !HasDiscount(g) ==> g.countryGroupId in DeleteGroupIds(groups)
    ensures forall r :: r in InsertRows(productId, groups) ==>
      exists g :: g in groups && HasDiscount(g) && r == InsertRow(productId, g)
    ensures forall id :: id in DeleteGroupIds(groups) ==>
      exists g :: g in groups && !HasDiscount(g) && g.countryGroupId == id
  {
    if groups != [] {
      var n := |groups| - 1;
      SplitIsPartition(productId, groups[..n]);
      assert forall g :: g in groups <==> g in groups[..n] || g == groups[n];
    }
  }

  /** Splitting keeps the input order: it distributes over concatenation. */
  lemma {:induction false} SplitKeepsOrder(productId: string, a: seq<DiscountGroup>, b: seq<DiscountGroup>)
    ensures InsertRows(productId, a + b) == InsertRows(productId, a) + InsertRows(productId, b)
    ensures DeleteGroupIds(a + b) == DeleteGroupIds(a) + DeleteGroupIds(b)
    decreases |b|
  {
    if b == [] {
      assert a + b == a;
    } else {
      var n := |b| - 1;
      assert (a + b)[..|a + b| - 1] == a + b[..n];
      assert (a + b)[|a + b| - 1] == b[n];
      SplitKeepsOrder(productId, a, b[..n]);
    }
  }

  /** A form the schema accepts yields rows whose percentage is a fraction in [0.01, 1], all
      for the product being edited. */
  lemma AcceptedFormGivesFractions(productId: string, form: seq<GroupInput>)
    requires ParseCountryDiscountForm(form).Success?
    ensures forall r :: r in InsertRows(productId, ParseCountryDiscountForm(form).value) ==>
      r.productId == productId && 0.01 <= r.discountPercentage <= 1.0
  {
    var groups := ParseCountryDiscountForm(form).value;
    AcceptedPercentagesInRange(form);
    SplitIsPartition(productId, groups);
  }

  // ---------------------------------------------------------------------------
  // updateCountryDiscounts: the action

  const DiscountsErrorMessage: string := "There was an error saving your country discounts!"
  const DiscountsSavedMessage: string := "Country discounts saved"

  /** Saves the discount form of product `id`. Once the form parses and a user is signed in,
      the reply is success even when the product is not the user's and nothing was written;
      a batch the database rejects propagates as an exception. */
  method UpdateCountryDiscountsAction(db: Database, id: string, userId: Option<string>, form: seq<GroupInput>)
    returns (result: ActionResult)
    requires db.Valid()
    modifies db
    ensures db.Valid()
    ensures userId.None? || ParseCountryDiscountForm(form).Failure? ==>
      result == Reply(true, DiscountsErrorMessage) && unchanged(db)
    ensures userId.Some? && ParseCountryDiscountForm(form).Success? ==>
      var groups := ParseCountryDiscountForm(form).value;
      var insert := InsertRows(id, groups);
      var owned := old(Owns(db, id, userId.value));
      var accepted := old(UpsertAccepted(db.products, db.countryGroups, insert));
      && result == (if owned && !accepted then Threw else Reply(false, DiscountsSavedMessage))
      && db.discounts == (if owned && accepted then SavedDiscounts(old(db.discounts), id, DeleteGroupIds(groups), insert) else old(db.discounts))
      && db.revalidations == old(db.revalidations) +
           (if owned && accepted then [Revalidation(Products, userId.value, id)] else [])
    ensures db.products == old(db.products) && db.customizations == old(db.customizations) && db.views == old(db.views)
    ensures db.countryGroups == old(db.countryGroups) && db.countries == old(db.countries)
    ensures db.subscriptions == old(db.subscriptions)
  {
    var parsed := ParseCountryDiscountForm(form);
    if userId.None? || parsed.Failure? {
      return Reply(true, DiscountsErrorMessage);
    }
    var insert, deleteGroup := SplitGroups(id, parsed.value);
    var outcome := UpdateCountryDiscounts(db, deleteGroup, insert, id, userId.value);
    if outcome == BatchFailed {
      return Threw;
    }
    result := Reply(false, DiscountsSavedMessage);
  }

  // ---------------------------------------------------------------------------
  // updateProductCustomization

  const BannerErrorMessage: string := "There was an error updating your banner"
  const BannerSavedMessage: string := "Banner updated"

  /** The columns a parsed customization form sets: every field, and `classPrefix` only when
      it was given. */
  function CustomizationData(c: CustomizationInput): (r: CustomizationPatch)
    ensures r.classPrefix == c.classPrefix
    ensures r.locationMessage == Some(c.locationMessage) && r.backgroundColor == Some(c.backgroundColor)
    ensures r.textColor == Some(c.textColor) && r.fontSize == Some(c.fontSize)
    ensures r.bannerContainer == Some(c.bannerContainer) && r.isSticky == Some(c.isSticky)
  {
    CustomizationPatch(c.classPrefix, Some(c.locationMessage), Some(c.backgroundColor), Some(c.textColor),
      Some(c.fontSize), Some(c.bannerContainer), Some(c.isSticky))
  }

  /** Saves the banner form of product `id` when the user's plan allows customizing the
      banner (`canCustomize`), the form parses and a user is signed in. */
  method UpdateProductCustomizationAction(db: Database, id: string, userId: Option<string>, form: CustomizationInput, canCustomize: bool)
    returns (result: ActionResult)
    requires db.Valid()
    modifies db
    ensures db.Valid()
    ensures !canCustomize || ParseCustomization(form).Failure? || userId.None? ==>
      result == Reply(true, BannerErrorMessage) && unchanged(db)
    ensures canCustomize && ParseCustomization(form).Success? && userId.Some? ==>
      && result == Reply(false, BannerSavedMessage)
      && db.customizations == (if old(Owns(db, id, userId.value)) && id in old(db.customizations)
           then old(db.customizations)[id := PatchCustomization(old(db.customizations)[id], CustomizationData(form))]
           else old(db.customizations))
      && db.revalidations == old(db.revalidations) +
           (if old(Owns(db, id, userId.value)) then [Revalidation(Products, userId.value, id)] else [])
    ensures db.products == old(db.products) && db.discounts == old(db.discounts) && db.views == old(db.views)
    ensures db.countryGroups == old(db.countryGroups) && db.countries == old(db.countries)
    ensures db.subscriptions == old(db.subscriptions)
  {
    var parsed := ParseCustomization(form);
    if !canCustomize || parsed.Failure? || userId.None? {
      return Reply(true, BannerErrorMessage);
    }
    UpdateProductCustomization(db, CustomizationData(parsed.value), userId.value, id);
    result := Reply(false, BannerSavedMessage);
  }
}
