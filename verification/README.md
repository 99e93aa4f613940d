# Easy PPP data layer in Dafny

Easy PPP lets a seller show purchasing-power-parity discounts on their product pages. A seller
registers products, and each product has one banner customization. For each country group the
seller may store a coupon with a discount. A public banner request for a product, a page url and
a visitor's country code returns the product's customization, plus the discount and country of
the first discount row whose group contains that country. A payment webhook keeps each user's
subscription tier in sync. A seeding task loads the country groups and countries from a bundled
list.

This project models that data layer and its validation:

- the tables and their keys, references and cascades (`Schema`, with the store as the class
  `Schema.Database`, one field per table and a ghost log of cache revalidations);
- the product store and its reads (`ProductsDb`);
- the server actions that validate forms and call the store (`ProductActions`);
- the zod validators (`ProductSchema`);
- the url helpers (`Utils`);
- the subscription store (`SubscriptionDb`), user deletion (`UsersDb`) and the Stripe webhook
  (`StripeWebhook`);
- the country seeding task (`CountrySeed`).

Shared sequence helpers live in `Tables`; `Option` and `Result` in `Wrappers`.

Reads are functions over the store. Writes are methods that change the store and state its whole
new state. The properties the application relies on are stated as postconditions and lemmas:

- ownership gates;
- upsert without duplicates;
- a partition that loses no group;
- "other products and other users are untouched";
- the first-match rule of the banner;
- the group-before-country order of the seeding task.

A database statement that Postgres would reject is modelled as a failure outcome that leaves the
store unchanged. Examples: a foreign key that does not exist, a key listed twice in one
`INSERT ... ON CONFLICT DO UPDATE`, an `INSERT` without rows, a unique constraint broken by
any single row of a statement (PostgreSQL checks a non-deferrable unique constraint row by row).
Generated uuids and clock values are inputs, and their freshness is a precondition.

## Model

| member | source | states |
|---|---|---|
| Utils.RemoveTrailingSlash | src/lib/utils.ts:8-10 | removes exactly one final '/' when there is one and otherwise returns the input; the length drops by one exactly when the input ends in '/' |
| Utils.RemoveTrailingSlashTwice | src/lib/utils.ts:8-10 | stripping twice equals stripping once if and only if the input does not end in "//" |
| Utils.RemoveTrailingSlashNotIdempotent | src/lib/utils.ts:8-10 | "https://a.b//" loses only one slash, and a second application changes it again |
| Utils.UrlMatchModuloSlash | src/server/db/products.ts:321-323 | for a stored url without a final '/', a requested url matches it exactly when it is the stored url or the stored url plus one '/' |
| Utils.Get | src/lib/utils.ts:17-31 | a name has no value exactly when no pair carries it |
| Utils.DeleteParam | src/lib/utils.ts:26-27 | after `delete` no pair has the name and every pair with another name is kept |
| Utils.GetDelete | src/lib/utils.ts:26-27 | after `delete` the name has no value and every other name keeps its value |
| Utils.DeleteAbsent | src/lib/utils.ts:26-27 | deleting a name that is not present changes nothing |
| Utils.GetReplaceFirst | src/lib/utils.ts:21 | `set` on a present name gives it the new value and leaves other names alone |
| Utils.GetAppend | src/lib/utils.ts:21 | `set` on an absent name appends it with the new value and leaves other names alone |
| Utils.GetSet | src/lib/utils.ts:28-29 | after `set` the name has the new value and every other name keeps its value |
| Utils.ReplaceFirstNames | src/lib/utils.ts:21 | overriding a present key keeps the list of names and their order |
| Utils.SetParamNames | src/lib/utils.ts:17-31 | `set` keeps an existing key in its position and appends a new key at the end, as in section 6.2 of the WHATWG URL Standard |
| Utils.GetCopyOld | src/lib/utils.ts:19-23 | after the first loop a name holds the last string value the old params give it, and undefined old values are skipped |
| Utils.GetApplyNew | src/lib/utils.ts:25-31 | after the second loop a name holds its last new value, or is removed when that value is undefined, or keeps its earlier value when no new entry names it |
| Utils.MergedValue | src/lib/utils.ts:19-31 | the merged value of a name is its last new entry if any (undefined removes it), otherwise its last old string value |
| Utils.CopyOldParams | src/lib/utils.ts:17-23 | the first loop leaves exactly the params `CopyOld` defines, one `set` per old entry with a string value, in order |
| Utils.ApplyNewParams | src/lib/utils.ts:25-31 | the second loop leaves exactly the params `ApplyNew` defines, a `delete` for each undefined new value and a `set` for each string, in order |
| Utils.CreateUrl | src/lib/utils.ts:12-33 | the two loops produce `href + "?" +` the serialized merged params, with the '?' present even when no params remain |
| Schema.DefaultCustomization | src/drizzle/schema.ts:54-65 | a new customization has no class prefix, is sticky, uses font size "1rem", container "body" and the two default colours |
| Schema.DefaultMessagePlaceholders | src/drizzle/schema.ts:54-58 | the default location message contains "{country}", "{coupon}" and "{discount}" |
| Schema.PatchProduct | src/server/db/products.ts:120-123 | an update changes exactly the fields present in the patch and never the owner |
| Schema.DiscountsWithout | src/drizzle/schema.ts:146-148 | deleting products removes exactly their discount rows (cascade) |
| Schema.ViewsWithout | src/drizzle/schema.ts:82-84 | deleting products removes exactly their view rows (cascade) |
| Schema.CascadeOfUnreferenced | src/drizzle/schema.ts:146-148 | deleting products that no discount or view references removes no discount and no view |
| Schema.Database.constructor | src/drizzle/schema.ts:23-198 | an empty database satisfies every key, reference and tier constraint |
| Schema.Database.DeleteProducts | src/drizzle/schema.ts:47-53 | deleting products also removes their customization, discounts and views, and the store stays consistent |
| ProductSchema.ParseProductDetails | src/schema/product.ts:4-12 | details are accepted exactly when the name is non-empty and the url is a non-empty valid url; the accepted url has one trailing '/' stripped; an empty name reports "Product name is required" |
| ProductSchema.ParseGroup | src/schema/product.ts:17-38 | a group is accepted exactly when its id is non-empty, its percentage is absent, NaN or in [1, 100], and a non-empty coupon comes with a discount; NaN reads as no discount |
| ProductSchema.CouponNeedsDiscount | src/schema/product.ts:28-38 | a non-empty coupon without a discount is rejected with the "discount is required" message on path root |
| ProductSchema.AllAcceptedEach | src/schema/product.ts:15-39 | the form-level acceptance holds exactly when each group, one by one, passes the group schema |
| ProductSchema.ParsedGroups | src/schema/product.ts:15-39 | the values of an accepted form are the parsed groups, one per input group, in order |
| ProductSchema.FormIssues | src/schema/product.ts:15-39 | the issues of the form are empty exactly when every group passes, and each names the index of an input group |
| ProductSchema.ParseCountryDiscountForm | src/schema/product.ts:14-40 | the form is accepted exactly when every group is, and then keeps every group in order; a rejection names at least one issue of an existing group |
| ProductSchema.AcceptedPercentagesInRange | src/schema/product.ts:19-25 | every percentage in an accepted form lies in [1, 100] |
| ProductSchema.ParseCustomization | src/schema/product.ts:42-50 | a customization is accepted exactly when the five text fields are non-empty, and then unchanged |
| ProductsDb.GetProductInternal | src/server/db/products.ts:240-245 | returns the product exactly when it exists and belongs to the user |
| ProductsDb.GroupCountryWithCode | src/server/db/products.ts:339-346 | returns a country of the group with exactly the requested code, or none when the group has no such country |
| ProductsDb.FirstBannerMatch | src/server/db/products.ts:353-356 | returns the index of the first discount row of the product whose group exists and holds a country with the code, or none when no row does |
| ProductsDb.GetProductForBannerInternal | src/server/db/products.ts:312-378 | nothing is returned unless the id matches and the stored url equals the requested url without its trailing '/'; the product is present exactly when it also has a customization; discount and country are present together and come from the first matching discount row; without a match both are absent |
| ProductsDb.CountryByCodeIsTheRow | src/drizzle/schema.ts:107 | with unique codes, looking up a country's code finds that country |
| ProductsDb.DiscountForIsTheRow | src/drizzle/schema.ts:154-156 | with the composite primary key, looking up a discount's (product, group) finds that row |
| ProductsDb.GroupCountryIsTheCodedCountry | src/server/db/products.ts:339-346 | with unique codes, a group's country with a code is the country of that code when it belongs to the group, and none otherwise |
| ProductsDb.BannerShowsReferenceOffer | src/server/db/products.ts:353-377 | on a consistent store the banner's discount and country equal an independent definition: the visitor's country by code, then the product's discount for that country's group |
| ProductsDb.GetProductCountryGroupsInternal | src/server/db/products.ts:247-284 | not owned gives []; otherwise one entry per group, in the table order the model fixes, with the group's id, name and recommended percentage, exactly the group's countries, and the product's discount for the group when there is one |
| ProductsDb.GroupEntryShowsTheDiscount | src/server/db/products.ts:265-281 | on a consistent store a group's entry shows exactly the product's stored discount row for that group |
| ProductsDb.CreateProduct | src/server/db/products.ts:91-114 | inserts the product with a default customization; if the customization insert fails the product is deleted again; either way it returns the new id and owner and records one products revalidation |
| ProductsDb.UpdateProduct | src/server/db/products.ts:116-132 | returns true exactly when the user owns the product; only then is it patched and revalidated; nothing else changes |
| ProductsDb.DeleteProduct | src/server/db/products.ts:134-152 | removes the product, with its cascades, exactly when the user owns it and reports whether it did; it revalidates in both cases |
| ProductsDb.DeleteDiscountRows | src/server/db/products.ts:169-181 | the delete removes exactly this product's rows whose group is listed |
| ProductsDb.UpsertDiscount | src/server/db/products.ts:183-202 | after one upserted row it is present, every other row was there before, and rows with another key are kept |
| ProductsDb.UpsertDiscountRows | src/server/db/products.ts:183-202 | the multi-row upsert only adds the given rows and keeps every row whose key none of them has |
| ProductsDb.UpsertDiscountUnique | src/server/db/products.ts:188-192 | the upsert keeps (product, group) unique: it overwrites and never duplicates |
| ProductsDb.UpsertRowsLand | src/server/db/products.ts:183-202 | with keys listed once, every upserted row ends up in the table, and the table stays uniquely keyed |
| ProductsDb.SavedDiscounts | src/server/db/products.ts:168-206 | after the batch every row is a kept row or an inserted row; kept rows are those of other products or groups not listed and not re-inserted; each inserted (product, group) has exactly one row carrying the new coupon and percentage |
| ProductsDb.UpsertKeepsOtherProducts | src/server/db/products.ts:183-202 | one upserted row leaves other products' rows unchanged and in order |
| ProductsDb.UpsertRowsKeepOtherProducts | src/server/db/products.ts:183-202 | the multi-row upsert of one product leaves other products' rows unchanged and in order |
| ProductsDb.SavedKeepsOtherProducts | src/server/db/products.ts:169-206 | the whole batch leaves other products' discount rows unchanged and in order |
| ProductsDb.BatchIsSavedDiscounts | src/server/db/products.ts:168-206 | running the statements pushed at 168-203 gives the saved table, whichever of the two lists is empty |
| ProductsDb.BatchAcceptedIffUpsert | src/server/db/products.ts:204-206 | the batch is rejected exactly when the upsert is: a key listed twice or a missing product or group |
| ProductsDb.SavedDiscountsValid | src/server/db/products.ts:168-206 | an accepted batch keeps the discount table consistent |
| ProductsDb.UpdateCountryDiscounts | src/server/db/products.ts:154-212 | not owned: false and no change; an owned product whose batch is rejected: no change; otherwise the discounts become the saved table and the product is revalidated; other tables are never touched |
| ProductsDb.UpdateProductCustomization | src/server/db/products.ts:214-230 | not owned: no change; otherwise the product's customization is patched, when it exists, and the product is revalidated |
| ProductsDb.CreateProductView | src/server/db/products.ts:379-399 | appends exactly one view row (product, country or none, time) when the product and country exist, keeps every earlier view, and revalidates the productViews tag of the new row |
| ProductsDb.ProductRevalidationReachesReads | src/server/db/products.ts:20-90 | the revalidation every product write records names a tag of each cached read about that product or that user's products; the banner and country-group reads also depend on the two global tags |
| ProductActions.CreateProductAction | src/server/actions/products.ts:20-33 | invalid form, missing user or a plan that forbids it: the error reply and no change; otherwise the reply redirects to the new product's countries tab, one revalidation is recorded, and the product and its default customization are added, or, when the customization insert fails, the product is removed again and neither table changes; discounts, views, the country tables and subscriptions never change |
| ProductActions.UpdateProductReplyAsWritten | src/server/actions/products.ts:46-50 | the reply as written: the error flag is `!isSuccess` but the message tests `success`, which is always true here |
| ProductActions.UpdateProductReplyAsWrittenMisreports | src/server/actions/products.ts:49 | a failed update (`isSuccess` false) is reported with error true and the success message |
| ProductActions.UpdateProductReply | src/server/actions/products.ts:46-50 | corrected reply: the message is the success text exactly when there is no error |
| ProductActions.UpdateProductRepliesAgree | src/server/actions/products.ts:46-50 | the reply as written and the corrected reply coincide exactly when the update succeeded |
| ProductActions.UpdateProductAction | src/server/actions/products.ts:34-51 | invalid form or missing user: the error reply and no change; otherwise the product is patched and revalidated only if owned, every other table is unchanged, and the reply is the one as written: its error flag is set exactly when the product was not owned, and its message is the success text in both cases |
| ProductActions.DeleteProductAction | src/server/actions/products.ts:52-68 | no user: the error reply and no change; otherwise, exactly when the product is owned, it goes with its customization, discounts and views and the reply says so; one revalidation is recorded either way, and the country tables and subscriptions never change |
| ProductActions.InsertRow | src/server/actions/products.ts:96-101 | an inserted row carries the product id, the group id and the coupon, and its percentage times 100 is the entered value |
| ProductActions.SplitGroups | src/server/actions/products.ts:81-105 | the `forEach` builds exactly the insert list and the delete list of the groups |
| ProductActions.SplitIsPartition | src/server/actions/products.ts:89-105 | every group lands in exactly one list: the lengths add up, every group with a coupon and a positive discount is inserted, every other group is deleted, every inserted row comes from a group with a discount and every deleted id from a group without one |
| ProductActions.SplitKeepsOrder | src/server/actions/products.ts:89-105 | both lists distribute over concatenation of the input, so input order is kept in each |
| ProductActions.AcceptedFormGivesFractions | src/server/actions/products.ts:96-101 | for an accepted form every inserted row belongs to the product and its percentage lies in [0.01, 1] |
| ProductActions.UpdateCountryDiscountsAction | src/server/actions/products.ts:69-114 | no user or an invalid form: the error reply and no change; otherwise "Country discounts saved" with error false even when the product is not owned; an owned product whose batch the database rejects raises and changes nothing; an accepted batch becomes the saved discount table with one revalidation; no other table ever changes |
| ProductActions.CustomizationData | src/server/actions/products.ts:125 | the store call receives every field of the form, the class prefix as given |
| ProductActions.UpdateProductCustomizationAction | src/server/actions/products.ts:115-127 | no permission, an invalid form or no user: the error reply and no change; otherwise "Banner updated"; the customization is patched when the product is the user's and has one, a revalidation is recorded exactly when it is the user's, and no other table changes |
| SubscriptionDb.CreateUserSubscription | src/server/db/subscription.ts:12-32 | a user who already has a row: nothing is returned, nothing changes and nothing is revalidated; otherwise the row is appended and revalidated with its new id and user |
| SubscriptionDb.PatchSubscription | src/server/db/subscription.ts:46-48 | a patch never changes a row's id or user |
| SubscriptionDb.UpdatedSubscriptions | src/server/db/subscription.ts:46-53 | rows matching the filter are patched in the fields present, every other row is unchanged, and the table keeps its length |
| SubscriptionDb.UpdatePreservesValid | src/server/db/subscription.ts:46-53 | an update that sets only known tiers keeps ids and users unique and every tier known |
| SubscriptionDb.FirstMatch | src/server/db/subscription.ts:46-54 | the first row the update matches, or none when no row matches |
| SubscriptionDb.UpdateUserSubscription | src/server/db/subscription.ts:42-61 | the table becomes the updated table; one revalidation, for the first matched row in table order, when some row matched, and none otherwise; every other table is unchanged |
| SubscriptionDb.GetUserSubscription | src/server/db/subscription.ts:69-73 | returns a row of exactly that user, and returns one exactly when the user has a row |
| SubscriptionDb.GetUserSubscriptionIsTheRow | src/server/db/subscription.ts:69-73 | on a consistent table the lookup returns the user's only row |
| SubscriptionDb.GetUserSubscriptionTier | src/server/db/subscription.ts:63-67 | fails with "User has no subscription" exactly when the user has no row, and otherwise returns the tier record the row names |
| UsersDb.SubscriptionsWithout | src/server/db/users.ts:8-11 | the delete removes exactly the user's subscription rows |
| UsersDb.SubscriptionIdsOf | src/server/db/users.ts:8-11 | the returned ids are exactly those of the user's subscription rows |
| UsersDb.RevalidationsFor | src/server/db/users.ts:18-32 | one revalidation per id, in order, each with the user and that id |
| UsersDb.NoIdsWithoutRows | src/server/db/users.ts:8-11 | a user without subscription rows gets no subscription ids back |
| UsersDb.AtMostOneSubscriptionId | src/drizzle/schema.ts:182 | with a unique user column the delete returns at most one subscription id |
| UsersDb.ListIds | src/server/db/users.ts:12-15 | the returned product ids are exactly the user's products, each once |
| UsersDb.DeleteUserRows | src/server/db/users.ts:7-16 | one batch removes exactly the user's subscriptions and products, with their customizations, discounts and views; other users' rows stay and the store stays consistent |
| UsersDb.RevalidateEach | src/server/db/users.ts:18-32 | the `forEach` appends one revalidation per id, in order, and changes no table |
| UsersDb.DeleteUser | src/server/db/users.ts:6-35 | the batch, then one subscription revalidation per deleted subscription id and one products revalidation per deleted product id; returns both id lists |
| StripeWebhook.CustomerIdOf | src/app/api/webhooks/stripe/route.ts:43-44 | the customer id is the string itself, or the id of the expanded object |
| StripeWebhook.HandleCreate | src/app/api/webhooks/stripe/route.ts:36-58 | no item, an unknown price or no user in the metadata: no change; otherwise the user's row gets the tier, customer, subscription and first item id, with the update's revalidation; no other table changes |
| StripeWebhook.HandleUpdate | src/app/api/webhooks/stripe/route.ts:60-71 | raises when there is no item; an unknown price changes nothing; otherwise the customer's rows get the new tier, with the update's revalidation, and nothing else changes |
| StripeWebhook.HandleDelete | src/app/api/webhooks/stripe/route.ts:73-84 | the customer's rows are downgraded through the delete patch, with the update's revalidation; no other table changes |
| StripeWebhook.DeleteDowngradesCustomer | src/app/api/webhooks/stripe/route.ts:76-83 | the customer's rows get the Free tier and no subscription or item id, and keep their customer id, id and user; other rows are unchanged |
| StripeWebhook.UpdateChangesOnlyTier | src/app/api/webhooks/stripe/route.ts:65-70 | the update changes only the tier of the customer's rows |
| StripeWebhook.Post | src/app/api/webhooks/stripe/route.ts:11-34 | each of the three event kinds has exactly the effect of its handler on the subscriptions and the revalidation log; any other kind changes nothing; no other table ever changes; the reply is status 200 unless the update handler raised |
| CountrySeed.UpsertGroup | src/task/updateCountryGroup.ts:17-27 | after one row the name is stored with the new percentage, every other stored group is kept, and nothing else is added |
| CountrySeed.UpsertGroupIds | src/task/updateCountryGroup.ts:17-27 | a conflicting row keeps the stored id, so the ids only grow, and by at most the generated one |
| CountrySeed.UpsertGroupValid | src/drizzle/schema.ts:124-125 | one upserted group keeps ids and names unique |
| CountrySeed.UpsertGroupsValid | src/task/updateCountryGroup.ts:17-27 | the whole group upsert keeps ids and names unique and keeps every stored id |
| CountrySeed.UpsertGroupsStoresEveryName | src/task/updateCountryGroup.ts:17-27 | with names listed once, every listed name ends up stored with its listed percentage |
| CountrySeed.KeptByOtherNames | src/task/updateCountryGroup.ts:20-26 | a group whose name no later row carries is left untouched |
| CountrySeed.UpdateCountryGroup | src/task/updateCountryGroup.ts:11-29 | fails without change on an empty list or a repeated name; otherwise upserts every group, reports as many rows as listed, and every listed name is stored with its percentage; no other table changes and nothing is revalidated |
| CountrySeed.FindGroupByName | src/task/updateCountryGroup.ts:36 | finds a stored group of that name, or none when there is none |
| CountrySeed.CountryRowsOf | src/task/updateCountryGroup.ts:40-46 | one row per listed country, with its name, its code and the group id |
| CountrySeed.CountryRowsOfCovers | src/task/updateCountryGroup.ts:40-46 | every listed country of the group has its row |
| CountrySeed.FirstMissing | src/task/updateCountryGroup.ts:34-39 | the first listed group whose name no stored group has: every earlier name is found, and there is none exactly when every name is found |
| CountrySeed.BuildCountryRows | src/task/updateCountryGroup.ts:34-48 | succeeds exactly when every listed group name is stored; otherwise fails naming the first listed group without a stored group; on success there is one row per listed country |
| CountrySeed.BuiltRowsComeFromSource | src/task/updateCountryGroup.ts:34-48 | every built row is a listed country placed in the stored group named like its listed group |
| CountrySeed.BuiltRowsCoverSource | src/task/updateCountryGroup.ts:34-48 | every listed country has a built row in the stored group named like its listed group |
| CountrySeed.BuiltRowsReferToStoredGroups | src/task/updateCountryGroup.ts:36-44 | every built row points at a stored group |
| CountrySeed.UpsertCountry | src/task/updateCountryGroup.ts:50-59 | after one row its code is stored with the new name and group, every other stored country is kept, and nothing else is added |
| CountrySeed.UpsertCountryIds | src/task/updateCountryGroup.ts:50-59 | a conflicting row keeps the stored id, so the ids only grow, and by at most the generated one |
| CountrySeed.UpsertCountries | src/task/updateCountryGroup.ts:50-59 | every stored group reference after the upsert comes from a stored country or a listed row |
| CountrySeed.UpsertCountryUnique | src/drizzle/schema.ts:104-107 | one upserted country keeps ids and codes unique |
| CountrySeed.UpsertCountriesUnique | src/task/updateCountryGroup.ts:50-59 | the whole country upsert keeps ids and codes unique and keeps every stored id |
| CountrySeed.UpsertCountriesStoresEveryCode | src/task/updateCountryGroup.ts:50-59 | with codes listed once, every listed code ends up stored with its listed name and group |
| CountrySeed.KeptByOtherCodes | src/task/updateCountryGroup.ts:53-58 | a country whose code no later row carries is left untouched |
| CountrySeed.RowsWithIdsUnique | src/task/updateCountryGroup.ts:50-52 | rows with codes listed once, given fresh ids, keep codes distinct and ids fresh |
| CountrySeed.UpsertedStoresEveryRow | src/task/updateCountryGroup.ts:50-59 | once the rows are upserted by code, every row is stored under its code with its name and group |
| CountrySeed.UpsertedRefersToStoredGroups | src/task/updateCountryGroup.ts:50-59 | when stored countries and rows point at stored groups, so does every upserted country |
| CountrySeed.UpsertCountriesFacts | src/task/updateCountryGroup.ts:50-59 | the upsert of rows that point at stored groups keeps ids and codes unique, keeps every stored id, keeps every reference valid and stores every row |
| CountrySeed.NamesUniqueAtEachStepEnd | src/drizzle/schema.ts:106 | a statement whose every row keeps the country names unique ends with unique names |
| CountrySeed.SwappedNamesFailPartway | src/task/updateCountryGroup.ts:50-59 | swapping the names of two stored countries ends with unique names but passes through a state with two countries named alike, so the statement is rejected |
| CountrySeed.CodesWrittenOnceIff | src/task/updateCountryGroup.ts:50-59 | no row writes a code an earlier row wrote exactly when the listed codes are distinct |
| CountrySeed.RowByRowSucceedsIff | src/task/updateCountryGroup.ts:50-59 | running the rows in order, no row fails exactly when every code is written once and every row keeps the country names unique |
| CountrySeed.NameClashBeforeRepeatedCode | src/drizzle/schema.ts:106 | a name clash at the first row is the error raised, even though a later row repeats a code |
| CountrySeed.CountryUpsertSucceedsIff | src/task/updateCountryGroup.ts:50-59 | the country upsert succeeds exactly when there are rows, no code is listed twice and every row keeps the names unique, and then reports the number of rows |
| CountrySeed.UpdateCountries | src/task/updateCountryGroup.ts:30-62 | a listed group without a stored group raises its not-found error with no change; once the rows build, the result is exactly `CountryUpsertOutcome`: no rows fail with their own error, and otherwise the rows run in order and the first row that writes a code twice or leaves two countries sharing a name fails the statement with its error and no change; without such a row, the count of rows, every row stored under its code with its name and group, the store consistent; no other table changes and nothing is revalidated |
| CountrySeed.GroupsUpsertedThenFound | src/task/updateCountryGroup.ts:36-39 | once every listed name is stored, every name lookup succeeds |
| CountrySeed.BuiltRowsStoredPlaceEveryCountry | src/task/updateCountryGroup.ts:34-59 | once every built row is stored, every listed country is stored under its code in the group named like its listed group |
| CountrySeed.Seed | src/task/updateCountryGroup.ts:6-7 | a failing group step leaves the store unchanged; otherwise the groups become the group upsert, the country rows always build, so the not-found error never occurs, and the result is exactly the country step's `CountryUpsertOutcome` over the upserted groups; a failing country step keeps the upserted groups and leaves the countries unchanged; on success the countries become the country upsert and every listed country sits, under its code, in the group it is listed under; no other table changes |

## Left out

- The cache library is not part of this model. A `revalidateDbCache` call is one entry appended to the ghost log `Database.revalidations`. The read tag sets are data (`ProductsDb.ReadTags`). `ProductsDb.RowTag` and `ProductsDb.OwnerTag` assume that a call names `getIdTag(id, tag)` and `getUserTag(userId, tag)`. Eviction and cache versions are not modelled.
- `getProductsInternal`, `getProductCountInternal` and `getProductCustomizationInternal` (src/server/db/products.ts:232-310) are not modelled: they order by a creation timestamp, count, or join one row. Only their tag sets are modelled.
- The tag set of `getUserSubscription` (src/server/db/subscription.ts:34-40) is not modelled; the read itself is.
- src/server/db/productViews.ts is not part of this model. It is SQL aggregation with time zones.
- `createdAt`, `updatedAt` and the `$onUpdate` clock are not modelled. `viewTime` is an `int` input.
- Generated uuids are inputs, and their freshness is a precondition. The customization row's own surrogate id is not modelled: customizations are keyed by product id, which is unique.
- Percentages are `real`. The division by 100 is exact, and JavaScript floating point is not modelled.
- `auth()` becomes an optional user id input. `redirect` becomes a `Redirect` reply. `console.log` is dropped.
- zod's `.url()` check is an input predicate `isUrl`. Issue order and the wording of zod's own messages are not modelled, except the messages the source spells out.
- `canCreateProduct` and `canCustomizeBanner` are boolean inputs. `getTierByPriceId` is a map from price id to tier name. `subscriptionTiers` is the map `Database.tiers`.
- Stripe signature verification (`constructEvent`) is not modelled, nor the Stripe client. The 500 responses the handlers build are dropped, as `POST` discards them. An exception caught in `handleCreate` means no change.
- ProductsDb.CreateProduct: why the customization insert fails is not modelled. The failure is a boolean input.
- UsersDb.ListIds: the order in which `RETURNING` lists the deleted products is not specified, so the model lets it be any order.
- SubscriptionDb.UpdateUserSubscription: the `where` clause is limited to the two forms the callers use, equality on the user or on the Stripe customer id.
- SubscriptionDb.UpdateUserSubscription: the revalidated row is the first matching row in table order. The source revalidates the first row `RETURNING` lists, and PostgreSQL leaves that order unspecified. `stripe_customer_id` is not unique, so a customer filter can match several rows, and the model then fixes one choice that the database does not promise.
- ProductsDb.GetProductCountryGroupsInternal: the `findMany` has no `orderBy`, so PostgreSQL promises no order of the groups (nor of each group's countries). The model returns them in table order, one choice the database does not promise.
- ProductsDb.UpdateProduct: the patch covers name, url and description. The callers never pass an owner.
- CountrySeed.Seed: the bundled JSON list is an input, and `rowCount` is the number of listed rows. The closing `console.log` is dropped.
- Percent-encoding in `URLSearchParams.toString` is not modelled. Names and values are written as given.
- Concurrency and locking are not modelled. Each batch is one atomic step.

## Findings

| source | as written | input that shows it | evidently intended | confidence | as-written member | corrected member |
|---|---|---|---|---|---|---|
| src/server/actions/products.ts:49 | the message tests `success`, which is always true at that point, instead of `isSuccess` | updating a product the user does not own: `isSuccess` is false and the reply is `{ error: true, message: "Your product updated successfully" }` | the message is the error text whenever `error` is true | high; not executed | ProductActions.UpdateProductReplyAsWrittenMisreports | ProductActions.UpdateProductReply |
