/** `deleteUser` of src/server/db/users.ts: one batch deletes the user's subscription rows and
    product rows (the schema cascades remove what hangs off the products), then one
    revalidation is recorded per deleted row. */
module UsersDb {
  import opened Tables
  import opened Schema

  predicate OfOtherUser(userId: string, s: UserSubscription) {
    s.clerkUserId != userId
  }

  /** The subscription rows left after deleting the user's. */
  function SubscriptionsWithout(ss: seq<UserSubscription>, userId: string): (r: seq<UserSubscription>)
    ensures forall s :: s in r <==> s in ss && s.clerkUserId != userId
  {
    Filter(ss, s => OfOtherUser(userId, s))
  }

  /** The ids of the user's subscription rows, in table order: what `RETURNING id` reports. */
  function SubscriptionIdsOf(ss: seq<UserSubscription>, userId: string): (r: seq<string>)
    ensures forall id :: id in r <==> exists s :: s in ss && s.clerkUserId == userId && s.id == id
  {
    if ss == [] then []
    else
      assert forall s :: s in ss <==> s == ss[0] || s in ss[1..];
      (if ss[0].clerkUserId == userId then [ss[0].id] else []) + SubscriptionIdsOf(ss[1..], userId)
  }

  /** The ids of the user's products. */
  function ProductIdsOf(ps: map<string, Product>, userId: string): set<string> {
    set id | id in ps && ps[id].clerkUserId == userId
  }

  /** No id occurs twice. */
  predicate Distinct(s: seq<string>) {
    forall i, j :: 0 <= i < j < |s| ==> s[i] != s[j]
  }

  /** One revalidation of kind `kind` for `userId` per id, in order. */
  function RevalidationsFor(kind: TagKind, userId: string, ids: seq<string>): (r: seq<Revalidation>)
    ensures |r| == |ids|
    ensures forall i :: 0 <= i < |ids| ==> r[i] == Revalidation(kind, userId, ids[i])
  {
    if ids == [] then [] else RevalidationsFor(kind, userId, ids[..|ids| - 1]) + [Revalidation(kind, userId, ids[|ids| - 1])]
  }

  /** A user without rows has no subscription id to delete. */
  lemma {:induction false} NoIdsWithoutRows(ss: seq<UserSubscription>, userId: string)
    requires forall s :: s in ss ==> s.clerkUserId != userId
    ensures SubscriptionIdsOf(ss, userId) == []
  {
    if ss != [] {
      assert ss[0] in ss;
      assert forall s :: s in ss[1..] ==> s in ss;
      NoIdsWithoutRows(ss[1..], userId);
    }
  }

  /** With `clerk_user_id` unique, a user has at most one subscription row to delete. */
  lemma {:induction false} AtMostOneSubscriptionId(ss: seq<UserSubscription>, userId: string)
    requires UniqueBy(ss, SubscriptionUser)
    ensures |SubscriptionIdsOf(ss, userId)| <= 1
  {
    if ss != [] {
      UniqueTail(ss, SubscriptionUser);
      AtMostOneSubscriptionId(ss[1..], userId);
      if ss[0].clerkUserId == userId {
        NoIdsWithoutRows(ss[1..], userId);
      }
    }
  }

  /** Lists the ids of a set, each once, in an order the database chooses. */
  method ListIds(ids: set<string>) returns (list: seq<string>)
    ensures forall id :: id in list <==> id in ids
    ensures Distinct(list) && |list| == |ids|
  {
    list := [];
    var remaining := ids;
    while remaining != {}
      invariant remaining <= ids
      invariant forall id :: id in list <==> id in ids && id !in remaining
      invariant Distinct(list) && |list| + |remaining| == |ids|
      decreases |remaining|
    {
      var id :| id in remaining;
      list := list + [id];
      remaining := remaining - {id};
    }
  }

  /** The batch: both deletes run in one transaction; the product delete cascades. */
  method DeleteUserRows(db: Database, userId: string) returns (subscriptionIds: seq<string>, productIds: seq<string>)
    requires db.Valid()
    modifies db
    ensures db.Valid()
    ensures subscriptionIds == SubscriptionIdsOf(old(db.subscriptions), userId)
    ensures forall id :: id in productIds <==> id in ProductIdsOf(old(db.products), userId)
    ensures Distinct(productIds)
    ensures db.subscriptions == SubscriptionsWithout(old(db.subscriptions), userId)
    ensures db.products == old(db.products) - ProductIdsOf(old(db.products), userId)
    ensures db.customizations == old(db.customizations) - ProductIdsOf(old(db.products), userId)
    ensures db.discounts == DiscountsWithout(old(db.discounts), ProductIdsOf(old(db.products), userId))
    ensures db.views == ViewsWithout(old(db.views), ProductIdsOf(old(db.products), userId))
    ensures db.countryGroups == old(db.countryGroups) && db.countries == old(db.countries)
    ensures db.revalidations == old(db.revalidations)
  {
    subscriptionIds := SubscriptionIdsOf(db.subscriptions, userId);
    var owned := ProductIdsOf(db.products, userId);
    productIds := ListIds(owned);
    FilterUnique(db.subscriptions, s => OfOtherUser(userId, s), SubscriptionKey);
    FilterUnique(db.subscriptions, s => OfOtherUser(userId, s), SubscriptionUser);
    db.subscriptions := SubscriptionsWithout(db.subscriptions, userId);
    db.DeleteProducts(owned);
  }

  /** A `forEach` over deleted ids, each revalidating tag `kind` for the user. */
  method RevalidateEach(db: Database, kind: TagKind, userId: string, ids: seq<string>)
    modifies db
    ensures db.revalidations == old(db.revalidations) + RevalidationsFor(kind, userId, ids)
    ensures db.products == old(db.products) && db.customizations == old(db.customizations)
    ensures db.discounts == old(db.discounts) && db.views == old(db.views)
    ensures db.countryGroups == old(db.countryGroups) && db.countries == old(db.countries)
    ensures db.subscriptions == old(db.subscriptions)
  {
    var i := 0;
    while i < |ids|
      invariant 0 <= i <= |ids|
      invariant db.revalidations == old(db.revalidations) + RevalidationsFor(kind, userId, ids[..i])
      invariant db.products == old(db.products) && db.customizations == old(db.customizations)
      invariant db.discounts == old(db.discounts) && db.views == old(db.views)
      invariant db.countryGroups == old(db.countryGroups) && db.countries == old(db.countries)
      invariant db.subscriptions == old(db.subscriptions)
    {
      assert ids[..i + 1][..i] == ids[..i];
      db.revalidations := db.revalidations + [Revalidation(kind, userId, ids[i])];
      i := i + 1;
    }
    assert ids[..i] == ids;
  }

  /** Deletes everything of user `userId` and returns the deleted subscription ids and
      product ids. Rows of other users stay as they were. */
  method DeleteUser(db: Database, userId: string) returns (subscriptionIds: seq<string>, productIds: seq<string>)
    requires db.Valid()
    modifies db
    ensures db.Valid()
    ensures subscriptionIds == SubscriptionIdsOf(old(db.subscriptions), userId)
    ensures forall id :: id in productIds <==> id in ProductIdsOf(old(db.products), userId)
    ensures Distinct(productIds)
    ensures db.subscriptions == SubscriptionsWithout(old(db.subscriptions), userId)
    ensures db.products == old(db.products) - ProductIdsOf(old(db.products), userId)
    ensures db.customizations == old(db.customizations) - ProductIdsOf(old(db.products), userId)
    ensures db.discounts == DiscountsWithout(old(db.discounts), ProductIdsOf(old(db.products), userId))
    ensures db.views == ViewsWithout(old(db.views), ProductIdsOf(old(db.products), userId))
    ensures db.countryGroups == old(db.countryGroups) && db.countries == old(db.countries)
    ensures db.revalidations == old(db.revalidations)
      + RevalidationsFor(Subscription, userId, subscriptionIds) + RevalidationsFor(Products, userId, productIds)
  {
    subscriptionIds, productIds := DeleteUserRows(db, userId);
    RevalidateEach(db, Subscription, userId, subscriptionIds);
    RevalidateEach(db, Products, userId, productIds);
  }
}
