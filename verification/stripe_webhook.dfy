/** The Stripe webhook of src/app/api/webhooks/stripe/route.ts: the three subscription events
    become updates of the subscription table. The signature check is not part of this model;
    the event arrives already decoded. `getTierByPriceId` is the map `priceTiers` from price id
    to tier name. */
module StripeWebhook {
  import opened Wrappers
  import opened Schema
  import opened SubscriptionDb

  /** `subscription.customer`: either the customer id or the expanded customer object. */
  datatype Customer = CustomerId(id: string) | CustomerObject(id: string)

  datatype SubscriptionItem = SubscriptionItem(id: string, priceId: string)

  datatype StripeSubscription = StripeSubscription(
    id: string,
    customer: Customer,
    items: seq<SubscriptionItem>,
    metadataClerkUserId: Option<string>)

  /** `typeof customer === "string" ? customer : customer.id`. */
  function CustomerIdOf(c: Customer): (r: string)
    ensures c.CustomerId? ==> r == c.id
    ensures c.CustomerObject? ==> r == c.id
  {
    match c
    case CustomerId(id) => id
    case CustomerObject(id) => id
  }

  /** Every tier a price maps to is a tier of the enum. */
  predicate PriceTiersValid(priceTiers: map<string, string>, tiers: map<string, Tier>) {
    forall p :: p in priceTiers ==> priceTiers[p] in tiers
  }

  /** The columns `handleCreate` sets. */
  function CreatePatch(s: StripeSubscription, tier: string): SubscriptionPatch
    requires |s.items| > 0
  {
    SubscriptionPatch(Some(tier), Some(Some(CustomerIdOf(s.customer))), Some(Some(s.id)), Some(Some(s.items[0].id)))
  }

  /** The columns `handleDelete` sets. */
  const DeletePatch: SubscriptionPatch := SubscriptionPatch(Some(FreeTierName), None, Some(None), Some(None))

  /** `handleCreate`: with a known tier for the first item's price and a user id in the
      metadata, the user's row gets the tier, the customer id, the subscription id and the
      first item's id. Without items the failure is caught and nothing changes; without a
      user or a tier nothing changes either. */
  method HandleCreate(db: Database, s: StripeSubscription, priceTiers: map<string, string>)
    requires db.Valid() && PriceTiersValid(priceTiers, db.tiers)
    modifies db
    ensures db.Valid()
    ensures |s.items| == 0 || s.items[0].priceId !in priceTiers || s.metadataClerkUserId.None? ==> unchanged(db)
    ensures |s.items| > 0 && s.items[0].priceId in priceTiers && s.metadataClerkUserId.Some? ==>
      && db.subscriptions == UpdatedSubscriptions(old(db.subscriptions), ByClerkUserId(s.metadataClerkUserId.value),
           CreatePatch(s, priceTiers[s.items[0].priceId]))
      && db.revalidations == old(db.revalidations) +
           SubscriptionRevalidation(old(db.subscriptions), ByClerkUserId(s.metadataClerkUserId.value))
    ensures db.products == old(db.products) && db.customizations == old(db.customizations)
    ensures db.discounts == old(db.discounts) && db.views == old(db.views)
    ensures db.countryGroups == old(db.countryGroups) && db.countries == old(db.countries)
  {
    if |s.items| == 0 {
      return;
    }
    var priceId := s.items[0].priceId;
    if s.metadataClerkUserId.None? || priceId !in priceTiers {
      return;
    }
    UpdateUserSubscription(db, ByClerkUserId(s.metadataClerkUserId.value), CreatePatch(s, priceTiers[priceId]));
  }

  /** `handleUpdate`: a known tier is written to the customer's rows and nothing else
      changes. Without items the handler raises (`threw`); an unknown tier changes nothing. */
  method HandleUpdate(db: Database, s: StripeSubscription, priceTiers: map<string, string>) returns (threw: bool)
    requires db.Valid() && PriceTiersValid(priceTiers, db.tiers)
    modifies db
    ensures db.Valid()
    ensures threw <==> |s.items| == 0
    ensures threw || s.items[0].priceId !in priceTiers ==> unchanged(db)
    ensures !threw && s.items[0].priceId in priceTiers ==>
      && db.subscriptions == UpdatedSubscriptions(old(db.subscriptions), ByStripeCustomerId(CustomerIdOf(s.customer)),
           SubscriptionPatch(Some(priceTiers[s.items[0].priceId]), None, None, None))
      && db.revalidations == old(db.revalidations) +
           SubscriptionRevalidation(old(db.subscriptions), ByStripeCustomerId(CustomerIdOf(s.customer)))
    ensures db.products == old(db.products) && db.customizations == old(db.customizations)
    ensures db.discounts == old(db.discounts) && db.views == old(db.views)
    ensures db.countryGroups == old(db.countryGroups) && db.countries == old(db.countries)
  {
    if |s.items| == 0 {
      return true;
    }
    threw := false;
    var priceId := s.items[0].priceId;
    if priceId !in priceTiers {
      return;
    }
    UpdateUserSubscription(db, ByStripeCustomerId(CustomerIdOf(s.customer)), SubscriptionPatch(Some(priceTiers[priceId]), None, None, None));
  }

  /** `handleDelete`: the customer's rows fall back to the Free tier with no subscription and
      no subscription item. */
  method HandleDelete(db: Database, s: StripeSubscription)
    requires db.Valid()
    modifies db
    ensures db.Valid()
    ensures db.subscriptions == UpdatedSubscriptions(old(db.subscriptions), ByStripeCustomerId(CustomerIdOf(s.customer)), DeletePatch)
    ensures db.revalidations == old(db.revalidations) +
      SubscriptionRevalidation(old(db.subscriptions), ByStripeCustomerId(CustomerIdOf(s.customer)))
    ensures db.products == old(db.products) && db.customizations == old(db.customizations)
    ensures db.discounts == old(db.discounts) && db.views == old(db.views)
    ensures db.countryGroups == old(db.countryGroups) && db.countries == old(db.countries)
  {
    UpdateUserSubscription(db, ByStripeCustomerId(CustomerIdOf(s.customer)), DeletePatch);
  }

  /** After `handleDelete` every row of the customer is on the Free tier with its subscription
      and item ids cleared and its customer id kept; every other row is unchanged. */
  lemma DeleteDowngradesCustomer(ss: seq<UserSubscription>, customerId: string)
    ensures var r := UpdatedSubscriptions(ss, ByStripeCustomerId(customerId), DeletePatch);
      && |r| == |ss|
      && (forall i :: 0 <= i < |r| && ss[i].stripeCustomerId == Some(customerId) ==>
            && r[i].tier == FreeTierName && r[i].stripeSubscriptionId.None? && r[i].stripeSubscriptionItemId.None?
            && r[i].stripeCustomerId == ss[i].stripeCustomerId && r[i].id == ss[i].id && r[i].clerkUserId == ss[i].clerkUserId)
      && (forall i :: 0 <= i < |r| && ss[i].stripeCustomerId != Some(customerId) ==> r[i] == ss[i])
  {
  }

  /** After `handleUpdate` with a known tier only the tier of the customer's rows differs. */
  lemma UpdateChangesOnlyTier(ss: seq<UserSubscription>, customerId: string, tier: string)
    ensures var r := UpdatedSubscriptions(ss, ByStripeCustomerId(customerId), SubscriptionPatch(Some(tier), None, None, None));
      forall i :: 0 <= i < |r| ==>
        r[i] == if ss[i].stripeCustomerId == Some(customerId) then ss[i].(tier := tier) else ss[i]
  {
  }

  /** The webhook response: a status, or an exception that escapes the handler. */
  datatype Response = Status(code: int) | Raised

  datatype Event = Event(kind: string, subscription: StripeSubscription)

  const SubscriptionDeleted: string := "customer.subscription.deleted"
  const SubscriptionUpdated: string := "customer.subscription.updated"
  const SubscriptionCreated: string := "customer.subscription.created"

  /** `POST`: dispatches the three subscription events and answers 200; any other event
      changes nothing. Only `handleUpdate` can raise. */
  method Post(db: Database, event: Event, priceTiers: map<string, string>) returns (response: Response)
    requires db.Valid() && PriceTiersValid(priceTiers, db.tiers)
    modifies db
    ensures db.Valid()
    ensures response == Raised <==> event.kind == SubscriptionUpdated && |event.subscription.items| == 0
    ensures response != Raised ==> response == Status(200)
    ensures event.kind !in {SubscriptionDeleted, SubscriptionUpdated, SubscriptionCreated} ==> unchanged(db)
    ensures event.kind == SubscriptionDeleted ==>
      var f := ByStripeCustomerId(CustomerIdOf(event.subscription.customer));
      && db.subscriptions == UpdatedSubscriptions(old(db.subscriptions), f, DeletePatch)
      && db.revalidations == old(db.revalidations) + SubscriptionRevalidation(old(db.subscriptions), f)
    ensures event.kind == SubscriptionUpdated ==>
      var s := event.subscription;
      && (|s.items| == 0 || s.items[0].priceId !in priceTiers ==> unchanged(db))
      && (|s.items| > 0 && s.items[0].priceId in priceTiers ==>
            var f := ByStripeCustomerId(CustomerIdOf(s.customer));
            && db.subscriptions == UpdatedSubscriptions(old(db.subscriptions), f,
                 SubscriptionPatch(Some(priceTiers[s.items[0].priceId]), None, None, None))
            && db.revalidations == old(db.revalidations) + SubscriptionRevalidation(old(db.subscriptions), f))
    ensures event.kind == SubscriptionCreated ==>
      var s := event.subscription;
      && (|s.items| == 0 || s.items[0].priceId !in priceTiers || s.metadataClerkUserId.None? ==> unchanged(db))
      && (|s.items| > 0 && s.items[0].priceId in priceTiers && s.metadataClerkUserId.Some? ==>
            var f := ByClerkUserId(s.metadataClerkUserId.value);
            && db.subscriptions == UpdatedSubscriptions(old(db.subscriptions), f, CreatePatch(s, priceTiers[s.items[0].priceId]))
            && db.revalidations == old(db.revalidations) + SubscriptionRevalidation(old(db.subscriptions), f))
    ensures db.products == old(db.products) && db.customizations == old(db.customizations)
    ensures db.discounts == old(db.discounts) && db.views == old(db.views)
    ensures db.countryGroups == old(db.countryGroups) && db.countries == old(db.countries)
  {
    if event.kind == SubscriptionDeleted {
      HandleDelete(db, event.subscription);
    } else if event.kind == SubscriptionUpdated {
      var threw := HandleUpdate(db, event.subscription, priceTiers);
      if threw {
        return Raised;
      }
    } else if event.kind == SubscriptionCreated {
      HandleCreate(db, event.subscription, priceTiers);
    }
    response := Status(200);
  }
}
