/** The subscription data layer of src/server/db/subscription.ts: insert-if-absent, the
    partial update used by the payment webhook, and the lookups by user. */
module SubscriptionDb {
  import opened Wrappers
  import opened Tables
  import opened Schema

  // ---------------------------------------------------------------------------
  // createUserSubscription

  /** The `returning({ id, userId })` of an insert or update. */
  datatype SubscriptionRef = SubscriptionRef(id: string, userId: string)

  /** Some row already belongs to `userId`. */
  predicate HasSubscription(ss: seq<UserSubscription>, userId: string) {
    exists s :: s in ss && s.clerkUserId == userId
  }

  /** `INSERT ... ON CONFLICT (clerk_user_id) DO NOTHING RETURNING id, clerk_user_id`: the row
      `data` (its `id` freshly generated) is added unless the user already has one; only an
      inserted row is returned and revalidated. */
  method CreateUserSubscription(db: Database, data: UserSubscription) returns (created: Option<SubscriptionRef>)
    requires db.Valid() && data.id !in SubscriptionIds(db.subscriptions) && data.tier in db.tiers
    modifies db
    ensures db.Valid()
    ensures created.None? <==> old(HasSubscription(db.subscriptions, data.clerkUserId))
    ensures created.None? ==> unchanged(db)
    ensures created.Some? ==>
      && created.value == SubscriptionRef(data.id, data.clerkUserId)
      && db.subscriptions == old(db.subscriptions) + [data]
      && db.revalidations == old(db.revalidations) + [Revalidation(Subscription, data.clerkUserId, data.id)]
    ensures db.products == old(db.products) && db.customizations == old(db.customizations)
    ensures db.discounts == old(db.discounts) && db.views == old(db.views)
    ensures db.countryGroups == old(db.countryGroups) && db.countries == old(db.countries)
  {
    if HasSubscription(db.subscriptions, data.clerkUserId) {
      return None;
    }
    UniqueAppend(db.subscriptions, SubscriptionKey, data);
    UniqueAppend(db.subscriptions, SubscriptionUser, data);
    db.subscriptions := db.subscriptions + [data];
    created := Some(SubscriptionRef(data.id, data.clerkUserId));
    db.revalidations := db.revalidations + [Revalidation(Subscription, data.clerkUserId, data.id)];
  }

  // ---------------------------------------------------------------------------
  // updateUserSubscription

  /** The `where` clauses the callers pass: equality on the user or on the Stripe customer.
      A row whose customer id is NULL never equals anything. */
  datatype SubscriptionFilter = ByClerkUserId(clerkUserId: string) | ByStripeCustomerId(customerId: string)

  predicate Matches(f: SubscriptionFilter, s: UserSubscription) {
    match f
    case ByClerkUserId(u) => s.clerkUserId == u
    case ByStripeCustomerId(c) => s.stripeCustomerId == Some(c)
  }

  /** The columns an update may set; `None` leaves a column as it is, `Some(None)` sets it to
      NULL. */
  datatype SubscriptionPatch = SubscriptionPatch(
    tier: Option<string>,
    stripeCustomerId: Option<Option<string>>,
    stripeSubscriptionId: Option<Option<string>>,
    stripeSubscriptionItemId: Option<Option<string>>)

  function PatchSubscription(s: UserSubscription, data: SubscriptionPatch): (r: UserSubscription)
    ensures r.id == s.id && r.clerkUserId == s.clerkUserId
  {
    s.(tier := if data.tier.Some? then data.tier.value else s.tier,
       stripeCustomerId := if data.stripeCustomerId.Some? then data.stripeCustomerId.value else s.stripeCustomerId,
       stripeSubscriptionId := if data.stripeSubscriptionId.Some? then data.stripeSubscriptionId.value else s.stripeSubscriptionId,
       stripeSubscriptionItemId := if data.stripeSubscriptionItemId.Some? then data.stripeSubscriptionItemId.value else s.stripeSubscriptionItemId)
  }

  /** `UPDATE user_subscriptions SET data WHERE f`: every matching row is patched, every
      other row is left as it is, and the table keeps its rows, their order, ids and users. */
  function UpdatedSubscriptions(ss: seq<UserSubscription>, f: SubscriptionFilter, data: SubscriptionPatch): (r: seq<UserSubscription>)
    ensures |r| == |ss|
    ensures forall i :: 0 <= i < |ss| ==> r[i] == if Matches(f, ss[i]) then PatchSubscription(ss[i], data) else ss[i]
  {
    if ss == [] then []
    else [if Matches(f, ss[0]) then PatchSubscription(ss[0], data) else ss[0]] + UpdatedSubscriptions(ss[1..], f, data)
  }

  /** A patch that sets only known tiers keeps ids and users unique and every tier known. */
  lemma UpdatePreservesValid(ss: seq<UserSubscription>, tiers: map<string, Tier>, f: SubscriptionFilter, data: SubscriptionPatch)
    requires SubscriptionsValid(ss, tiers)
    requires data.tier.Some? ==> data.tier.value in tiers
    ensures SubscriptionsValid(UpdatedSubscriptions(ss, f, data), tiers)
  {
    var r := UpdatedSubscriptions(ss, f, data);
    forall i, j | 0 <= i < j < |r| ensures SubscriptionKey(r[i]) != SubscriptionKey(r[j]) && SubscriptionUser(r[i]) != SubscriptionUser(r[j]) {
      assert SubscriptionKey(ss[i]) != SubscriptionKey(ss[j]);
      assert SubscriptionUser(ss[i]) != SubscriptionUser(ss[j]);
    }
    forall s | s in r ensures s.tier in tiers {
      var i :| 0 <= i < |r| && r[i] == s;
      assert ss[i] in ss;
    }
  }

  /** The index of the first row the update matches: the row `RETURNING` reports first. */
  function FirstMatch(ss: seq<UserSubscription>, f: SubscriptionFilter): (r: Option<nat>)
    ensures r.Some? ==> r.value < |ss| && Matches(f, ss[r.value]) && forall j :: 0 <= j < r.value ==> !Matches(f, ss[j])
    ensures r.None? ==> forall j :: 0 <= j < |ss| ==> !Matches(f, ss[j])
  {
    if ss == [] then None
    else if Matches(f, ss[0]) then Some(0)
    else
      match FirstMatch(ss[1..], f)
      case None => None
      case Some(k) =>
        assert forall j :: 1 <= j <= k ==> ss[j] == ss[1..][j - 1];
        Some(k + 1)
  }

  /** The revalidation an update with filter `f` issues: the subscription tag of the first
      matching row, or none when no row matches. */
  function SubscriptionRevalidation(ss: seq<UserSubscription>, f: SubscriptionFilter): seq<Revalidation> {
    match FirstMatch(ss, f)
    case None => []
    case Some(i) => [Revalidation(Subscription, ss[i].clerkUserId, ss[i].id)]
  }

  /** Updates the rows matching `f` and, if there was one, revalidates the subscription tag
      of the first of them. */
  method UpdateUserSubscription(db: Database, f: SubscriptionFilter, data: SubscriptionPatch)
    requires db.Valid() && (data.tier.Some? ==> data.tier.value in db.tiers)
    modifies db
    ensures db.Valid()
    ensures db.subscriptions == UpdatedSubscriptions(old(db.subscriptions), f, data)
    ensures db.revalidations == old(db.revalidations) + SubscriptionRevalidation(old(db.subscriptions), f)
    ensures db.products == old(db.products) && db.customizations == old(db.customizations)
    ensures db.discounts == old(db.discounts) && db.views == old(db.views)
    ensures db.countryGroups == old(db.countryGroups) && db.countries == old(db.countries)
  {
    var first := FirstMatch(db.subscriptions, f);
    UpdatePreservesValid(db.subscriptions, db.tiers, f, data);
    var updated := UpdatedSubscriptions(db.subscriptions, f, data);
    db.subscriptions := updated;
    if first.Some? {
      var row := updated[first.value];
      db.revalidations := db.revalidations + [Revalidation(Subscription, row.clerkUserId, row.id)];
    }
  }

  // ---------------------------------------------------------------------------
  // getUserSubscription, getUserSubscriptionTier

  /** `findFirst` on the user: the first row of the user, if any. */
  function GetUserSubscription(db: Database, userId: string): (r: Option<UserSubscription>)
    reads db
    ensures r.Some? <==> HasSubscription(db.subscriptions, userId)
    ensures r.Some? ==> r.value in db.subscriptions && r.value.clerkUserId == userId
  {
    var i := FirstMatch(db.subscriptions, ByClerkUserId(userId));
    if i.Some? then Some(db.subscriptions[i.value])
    else
      assert forall s :: s in db.subscriptions ==> !Matches(ByClerkUserId(userId), s);
      None
  }

  /** On a consistent table the lookup returns the user's only row. */
  lemma GetUserSubscriptionIsTheRow(db: Database, s: UserSubscription)
    requires db.Valid() && s in db.subscriptions
    ensures GetUserSubscription(db, s.clerkUserId) == Some(s)
  {
    var r := GetUserSubscription(db, s.clerkUserId);
    UniqueMembersEqual(db.subscriptions, SubscriptionUser, r.value, s);
  }

  const NoSubscriptionMessage: string := "User has no subscription"

  /** The tier record of the user's subscription, or the error for a user without one. */
  function GetUserSubscriptionTier(db: Database, userId: string): (r: Result<Tier, string>)
    requires db.Valid()
    reads db
    ensures r.Failure? <==> !HasSubscription(db.subscriptions, userId)
    ensures r.Failure? ==> r.error == NoSubscriptionMessage
    ensures r.Success? ==> exists s :: s in db.subscriptions && s.clerkUserId == userId && r.value == db.tiers[s.tier]
    ensures r.Success? ==> r.value.name in db.tiers
  {
    match GetUserSubscription(db, userId)
    case None => Failure(NoSubscriptionMessage)
    case Some(s) => Success(db.tiers[s.tier])
  }
}
