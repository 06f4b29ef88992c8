# SubTrack core, modelled in Dafny

SubTrack is a subscription tracker: users record recurring subscriptions
(price, currency, billing cycle, category, next billing date), see their
spending normalised per month and per year, and get an e-mail a few days
before a renewal. This project models the parts with computable behaviour:

- **Billing and renewal arithmetic** (`src/lib/utils.ts`, module `Utils`):
  the monthly and yearly conversions per billing cycle, the number of
  calendar days until a renewal, and the category table with its "other"
  fallback.
- **The reminder sweep** (`src/app/api/cron/reminders/route.ts`, module
  `Reminders`): the shared-secret gate, the per-user skip rules, the reminder
  each remaining user gets (count, items renewing in one to seven days,
  monthly total over all subscriptions, singular/plural wording) and the
  count of send calls that returned without throwing. `Sweep` is a loop proved against
  the functions `Attempts` and `SentCount`.
- **Listing and creating subscriptions** (`src/app/api/subscriptions/route.ts`,
  module `SubscriptionsRoute`): 401/404/list for `GET`; for `POST`, creating
  the user on first use and appending one subscription with its defaults.
- **The identity webhook** (`src/app/api/webhooks/clerk/route.ts`, module
  `ClerkWebhook`): header and signature gates, then upsert, delete or no-op on
  the user table.

The user table is the class `Store.Database` (a map from the identity
provider's user id to the user and its subscriptions, plus the counter that
hands out record ids). Its invariant `Store.WellFormed` holds that users are
stored under their own id, user ids are distinct, and subscriptions point at
their owner. The two handlers that change it are methods with `modifies db`.
Each method states the whole new state. `ClerkWebhook.HandleWebhook` states
it through the function `ClerkWebhook.ApplyEvent`, and the lemmas about that
function give the properties that relate several events.

Conventions:
- Prices are `real`: `4.33`, `/ 12` and `* 52` are exact.
- Instants are integer milliseconds on the local wall clock, so local
  midnight is a multiple of `Utils.DayMs` (86 400 000).
- "Now" is a parameter, not a clock read; one instant serves a whole sweep.
- Nullable strings are `Option<string>`. JavaScript truthiness of a string
  is `Strings.Truthy`: present and not "".
- Storage, the mailer, the identity provider and signature verification are
  inputs:
  - `Sweep` takes the fetched users (`None` when the query threw) and, per
    fetched user, whether the send call returned without throwing;
  - `CreateSubscription` takes the signed-in id, the provider's profile and
    the parsed body;
  - `HandleWebhook` takes the headers and the verifier's result (`None` when
    verification threw).

Two behaviours of the code worth noting:
- An unrecognised billing cycle takes the monthly branch in
  `calculateMonthlyAmount` but the yearly branch in `calculateYearlyAmount`,
  so both conversions return the price unchanged
  (`Utils.UnknownCycleFallback`).
- With `CRON_SECRET` unset, the template literal compares the header against
  the text "Bearer undefined" (`Reminders.AuthorizationGate`).

## Model

| member | source | states |
|---|---|---|
| `Utils.MonthlyAmount` | src/lib/utils.ts:8-18 | the monthly amount has the sign of the price for every cycle string, known or not |
| `Utils.YearlyAmount` | src/lib/utils.ts:20-30 | the yearly amount has the sign of the price for every cycle string |
| `Utils.MonthlyAndYearlyAgree` | src/lib/utils.ts:8-30 | for "monthly" the yearly amount is 12 × the monthly amount (= 12 × price); for "yearly" 12 × the monthly amount is the yearly amount (= price) |
| `Utils.WeeklyConversionsDrift` | src/lib/utils.ts:10-23 | weekly: monthly is price × 4.33, yearly is price × 52, and the two differ by 0.04 × price a year |
| `Utils.UnknownCycleFallback` | src/lib/utils.ts:8-30 | a cycle outside BILLING_CYCLES gives the price unchanged in both conversions (monthly branch for one, yearly for the other), so for a non-zero price yearly ≠ 12 × monthly |
| `Utils.BillingExamples` | src/lib/utils.ts:8-30 | 9.99 monthly → 9.99 / 119.88; 20 weekly → 86.6 / 1040; 120 yearly → 10 / 120 |
| `Utils.StartOfDay` | src/lib/utils.ts:40-43 | the truncated instant is a midnight at or before the instant and less than a day before it |
| `Utils.CeilDays` | src/lib/utils.ts:44-45 | the result is the least whole number of days whose length covers the difference |
| `Utils.DaysUntilRenewal` | src/lib/utils.ts:39-46 | the result is exactly the number of calendar days from today's to the billing date's (negative when past) |
| `Utils.SameDayIsZero` | src/lib/utils.ts:39-46 | a billing date on today's calendar day gives 0 whatever the time of day |
| `Utils.DaysAfterMidnights` | src/lib/utils.ts:41-45 | a billing date n midnights after (n < 0: before) today gives n, at any time of day on either side |
| `Utils.TimeOfDayIrrelevant` | src/lib/utils.ts:40-45 | the result depends only on the two calendar days |
| `Utils.CategoryTable` | src/lib/utils.ts:48-54 | five categories with pairwise distinct values, labels and colours; "other" with colour #71717a at index 4 |
| `Utils.FindCategory` | src/app/api/subscriptions/route.ts:49 | `find` returns nothing exactly when no entry has the value, and otherwise the first entry that has it |
| `Utils.CategoryOrOther` | src/app/api/subscriptions/route.ts:49 | the result is a table entry: the one with the value when there is one, CATEGORIES[4] otherwise |
| `Utils.FallbackColorOnlyForOther` | src/app/api/subscriptions/route.ts:49-61 | the fallback colour comes out exactly for "other" and for unknown categories |
| `Strings.IsWhitespace` | src/app/api/subscriptions/route.ts:41 | the ECMAScript WhiteSpace and LineTerminator code points; what `trim` does with them is stated by `Strings.Trim` and `Strings.TrimEmptyIffAllWhitespace` |
| `Strings.Trim` | src/app/api/subscriptions/route.ts:41 | `trim` returns an infix with whitespace cut from both sides and none left at either end |
| `Strings.TrimEmptyIffAllWhitespace` | src/app/api/subscriptions/route.ts:41 | `trim` gives "" exactly when the string is all whitespace |
| `Strings.TrimIdempotent` | src/app/api/subscriptions/route.ts:41 | trimming twice is trimming once |
| `Strings.NatToStringRoundTrip` | src/app/api/cron/reminders/route.ts:59 | the count written into the subject reads back as the same number |
| `Strings.Present` | src/app/api/webhooks/clerk/route.ts:52 | `filter(Boolean)` keeps every truthy part, and every element of the result is the value of a truthy part and is non-empty |
| `Strings.PresentAppend` | src/app/api/webhooks/clerk/route.ts:52 | the filter distributes over concatenation, so the kept parts stay in their original order |
| `Strings.Join` | src/app/api/webhooks/clerk/route.ts:52 | `join` of no parts is ""; otherwise the result starts with the first part, has one separator after it when there are more, and is as long as all parts plus one separator between each neighbouring pair |
| `Strings.JoinAppend` | src/app/api/webhooks/clerk/route.ts:52 | joining two non-empty runs of parts is joining each and putting one separator between them, so with the one-part case `join` is fixed for every list |
| `Strings.JoinEmptyIffNoParts` | src/app/api/webhooks/clerk/route.ts:52 | joining non-empty parts gives "" only for no parts |
| `Store.AddUserKeepsWellFormed` | src/app/api/subscriptions/route.ts:37-43 | creating a user under a fresh id keeps the table's invariant |
| `Store.AppendSubscriptionKeepsWellFormed` | src/app/api/subscriptions/route.ts:51-63 | appending a fresh subscription owned by its user keeps the invariant |
| `Reminders.SecretText` | src/app/api/cron/reminders/route.ts:14 | what the template literal renders for the secret; its effect on the gate is stated by `Reminders.AuthorizationGate` |
| `Reminders.Authorized` | src/app/api/cron/reminders/route.ts:12-16 | the header must equal "Bearer " followed by the rendered secret; its consequences are stated by `Reminders.AuthorizationGate` |
| `Reminders.AuthorizationGate` | src/app/api/cron/reminders/route.ts:12-16 | only a present header equal to "Bearer " + secret passes; with the secret unset only "Bearer undefined" passes |
| `Reminders.Upcoming` | src/app/api/cron/reminders/route.ts:31-34 | the list holds exactly the user's subscriptions due in 1..7 days (due today, overdue or in 8+ days excluded) |
| `Reminders.UpcomingAppend` | src/app/api/cron/reminders/route.ts:31-34 | the filter distributes over concatenation, so original order is kept |
| `Reminders.InlineMonthly` | src/app/api/cron/reminders/route.ts:47-51 | the inline yearly-then-weekly conversion equals `calculateMonthlyAmount` for every cycle string |
| `Reminders.TotalMonthly` | src/app/api/cron/reminders/route.ts:46-53 | the fold is non-negative when every price is |
| `Reminders.TotalMonthlyIsSumOfMonthlyAmounts` | src/app/api/cron/reminders/route.ts:46-53 | the reminder's total is the sum of the monthly amounts of all the user's subscriptions, upcoming or not |
| `Reminders.Subject` | src/app/api/cron/reminders/route.ts:59 | the subject starts with "Subscription Renewal Reminder - " followed by the count's decimal digits, which read back as the count (`Strings.NatToStringRoundTrip`) |
| `Reminders.Greeting` | src/app/api/cron/reminders/route.ts:87 | "Hi," when the name is null or empty; otherwise "Hi ", then the name, then "," |
| `Reminders.Compose` | src/app/api/cron/reminders/route.ts:38-109 | the reminder goes to the user's address with the subject for its count and the greeting for the user's name; its count is its number of items and of upcoming subscriptions; item i carries the name, price, currency and days until renewal of the i-th upcoming subscription, with the day wording; its total is the sum of `calculateMonthlyAmount` over all the user's subscriptions |
| `Reminders.Qualifies` | src/app/api/cron/reminders/route.ts:29-36 | the two `continue` guards; their meaning is stated by `Reminders.QualifiesIffSomethingDue` |
| `Reminders.QualifiesIffSomethingDue` | src/app/api/cron/reminders/route.ts:29-36 | a user gets a reminder exactly when it has an address and at least one subscription renews in 1..7 days |
| `Reminders.SubjectWording` | src/app/api/cron/reminders/route.ts:59 | the subject says "1 subscription" for one and "n subscriptions" for more |
| `Reminders.DaysWording` | src/app/api/cron/reminders/route.ts:91-96 | an item reads "1 day" for one day and "n days" otherwise |
| `Reminders.ComposedItems` | src/app/api/cron/reminders/route.ts:88-99 | the count equals the number of items and every item renews in 1..7 days |
| `Reminders.Attempts` | src/app/api/cron/reminders/route.ts:28-58 | at most one message per user, each to a non-empty address and listing at least one subscription |
| `Reminders.AttemptsAreComposedReminders` | src/app/api/cron/reminders/route.ts:28-58 | every message is `Compose` of a qualifying user, and every qualifying user gets its `Compose` |
| `Reminders.AttemptsAppend` | src/app/api/cron/reminders/route.ts:28 | the messages for two runs of users are those of the first followed by those of the second, so messages go out in user order |
| `Reminders.SentCount` | src/app/api/cron/reminders/route.ts:110 | the count of sends that did not throw never exceeds the number of messages attempted |
| `Reminders.SentCountIsSucceeded` | src/app/api/cron/reminders/route.ts:55-113 | `emailsSent` is the number of qualifying users whose send call returned without throwing |
| `Reminders.FailedSendOnlyLosesItsOwnCount` | src/app/api/cron/reminders/route.ts:55-113 | turning one send into a failure lowers the count by exactly that user's contribution |
| `Reminders.Sweep` | src/app/api/cron/reminders/route.ts:11-121 | wrong or missing credential: status 401 and no message; fetch failure: status 500 and no message; otherwise success with `emailsSent` = `SentCount` and the messages = `Attempts` |
| `Reminders.TwoAndNineDaysScenario` | src/app/api/cron/reminders/route.ts:31-53 | subscriptions due in 2 and 9 days: one item, "2 days", total counting both |
| `SubscriptionsRoute.ListSubscriptions` | src/app/api/subscriptions/route.ts:6-22 | status 401 exactly when signed out, 404 exactly for an unknown user, else exactly that user's list, all of it owned by that user |
| `SubscriptionsRoute.ProfileEmail` | src/app/api/subscriptions/route.ts:40 | the address is the first one, and "" exactly when there is no profile, no address or an empty first one |
| `SubscriptionsRoute.NameLine` | src/app/api/subscriptions/route.ts:41 | the untrimmed "first last" line; what trimming it gives is stated by `SubscriptionsRoute.ProfileName` and `SubscriptionsRoute.ProfileNameFromParts` |
| `SubscriptionsRoute.ProfileName` | src/app/api/subscriptions/route.ts:41 | the name is null exactly when "first last" is all whitespace, and is otherwise the (non-empty) `trim` of "first last" |
| `SubscriptionsRoute.TrimAroundSpace` | src/app/api/subscriptions/route.ts:41 | trimming "first last" drops the separator when a side is empty |
| `SubscriptionsRoute.ProfileNameFromParts` | src/app/api/subscriptions/route.ts:41 | for trimmed parts the name is "first last", the one present part, or null |
| `SubscriptionsRoute.NewSubscription` | src/app/api/subscriptions/route.ts:49-63 | owner and id as given; currency defaults to "USD", empty notes become null, the raw category is stored, and a missing colour comes from the category with the "other" fallback |
| `SubscriptionsRoute.CreateSubscription` | src/app/api/subscriptions/route.ts:24-66 | status 401 exactly when signed out, with no change; otherwise a missing user is created once, exactly one subscription is appended to that user, and nothing else changes |
| `ClerkWebhook.DerivedEmail` | src/app/api/webhooks/clerk/route.ts:51 | the address is "" exactly when there is no address or the first one is empty, and is otherwise the first one |
| `ClerkWebhook.DerivedName` | src/app/api/webhooks/clerk/route.ts:52 | the non-empty parts joined by one space; null exactly when both are empty or absent |
| `ClerkWebhook.HasSvixHeaders` | src/app/api/webhooks/clerk/route.ts:22-28 | all three svix headers present and non-empty; the 400 it guards is stated by `ClerkWebhook.HandleWebhook` |
| `ClerkWebhook.Upsert` | src/app/api/webhooks/clerk/route.ts:54-62 | the id ends up mapped to the given address and name; an existing user keeps its id and subscriptions, a new one gets a fresh id; other ids are unchanged |
| `ClerkWebhook.ApplyEvent` | src/app/api/webhooks/clerk/route.ts:47-69 | the store after a verified event; its meaning is stated by the five lemmas below and by `ClerkWebhook.HandleWebhook` |
| `ClerkWebhook.UpsertEventStoresDerivedFields` | src/app/api/webhooks/clerk/route.ts:50-63 | after created/updated the store maps `data.id` to the derived address and name |
| `ClerkWebhook.DeleteEventRemoves` | src/app/api/webhooks/clerk/route.ts:65-69 | user.deleted removes `data.id`; an absent id leaves the store as it was |
| `ClerkWebhook.OtherEventIsNoOp` | src/app/api/webhooks/clerk/route.ts:47-71 | any other event type leaves the store unchanged |
| `ClerkWebhook.EventLeavesOtherIds` | src/app/api/webhooks/clerk/route.ts:47-71 | no event adds, removes or changes the entry of a different id |
| `ClerkWebhook.ApplyEventIdempotent` | src/app/api/webhooks/clerk/route.ts:50-69 | applying any event twice is the same as applying it once |
| `ClerkWebhook.ApplyEventKeepsWellFormed` | src/app/api/webhooks/clerk/route.ts:50-69 | every event keeps the table's invariant |
| `ClerkWebhook.HandleWebhook` | src/app/api/webhooks/clerk/route.ts:20-72 | a missing header or a failed verification gives 400 with no change; a verified event gives 200 and the store `ApplyEvent` describes |
| `IdentityAgreement.DerivationsAgree` | src/app/api/subscriptions/route.ts:40-41 | for names without surrounding whitespace, the user `POST` creates and the user the webhook creates have the same address and name |
| `IdentityAgreement.WhitespaceNameDiverges` | src/app/api/webhooks/clerk/route.ts:52 | a first name of one space is kept by the webhook and trimmed to null by `POST` |

## Left out

- `cn` (src/lib/utils.ts:4-6) wraps two styling libraries and has no behaviour of its own.
- `formatCurrency` (src/lib/utils.ts:32-37) is locale formatting. Reminder items keep the price and currency code instead of the formatted text.
- A malformed currency code (one that is not three letters) makes `formatCurrency` throw inside the sweep, outside the per-send `try`. That aborts the whole sweep with a 500. The model does not capture it, because formatting is not modelled.
- `BILLING_CYCLES` labels and `CURRENCIES` (src/lib/utils.ts:56-66) are form options. Only the cycle values are used, by `Utils.UnknownCycleFallback`.
- Floating point: prices are exact reals. IEEE rounding, NaN and `parseFloat` of the submitted price are not modelled. The body carries the price as a number.
- Date parsing, time zones and daylight-saving days are not modelled. `new Date(...)` and `setHours` are modelled on a fixed local clock whose days are all `DayMs` long.
- The unused `today` (reminders route line 25) has no behaviour, and neither does the unused category lookup (line 40).
- The plain-text `subscriptionsList` (reminders route lines 38-44) is built and never sent. The e-mail's HTML markup is not modelled. The reminder keeps the recipient, subject, greeting, count, items and total.
- Reminders.Sweep: the storage query is an input, so "no fetch happens without authorization" shows only as the result not depending on that input.
- Storage is an in-memory table: no transactions and no query errors. A `POST` whose body lacks required fields, or whose storage call throws, would answer 500. That path is not modelled.
- SubscriptionsRoute.CreateSubscription: the subscriptions `POST` creates the missing user (src/app/api/subscriptions/route.ts:37-43) before it parses the body (line 46). A body that fails to parse answers 500 and still leaves the new user stored, with no subscription. The model takes the body already parsed, so it has neither this 500 nor that partial effect.
- ClerkWebhook.HandleWebhook: the webhook reads the body with `await request.json()` (src/app/api/webhooks/clerk/route.ts:30) after the header check and outside any `try`. A body that is not JSON, sent with all three headers, answers 500 and not 400. The model takes the verifier's outcome directly, so this 500 is not modelled.
- Deleting a user removes its subscriptions with it. The database schema is not part of this model, so a cascading delete is assumed.
- Record ids come from one counter. The database's generated id strings are not modelled.
- Svix signature verification is foreign cryptography. Its outcome is an input.
- The mailer is an input: per fetched user, whether the send call returned without throwing. The value the call returns is ignored by the handler (reminders route line 56), so a refusal reported in that value still counts as sent, and the model has no input for it.
- Reminders.Sweep, Reminders.ComposedItems: the handler reads the clock afresh in every `getDaysUntilRenewal` call (src/lib/utils.ts:40): in the filter, in the plain-text list and in the HTML, for each user in turn. The model reads it once for the whole sweep. A sweep that runs past local midnight can print "(0 days)" for an item the filter kept, and moves the window for the users after that point; `ComposedItems`' "every item renews in 1..7 days" holds only for a single instant.
- async/await is sequential here: every handler runs to completion in one step.
- Dashboard totals, upcoming and recent lists are not modelled. Their code is not part of this model.
