/** The `GET` and `POST` handlers of src/app/api/subscriptions/route.ts over
    the user table. The signed-in user's id (`auth()`), the identity
    provider's profile (`currentUser()`) and the parsed request body are
    inputs. */
module SubscriptionsRoute {
  import opened Wrappers
  import opened Strings
  import opened Store
  import Utils

  /** `!userId` rejects both a missing and an empty id. */
  predicate Authenticated(userId: Option<string>) {
    Truthy(userId)
  }

  /** The profile fields the handler reads. */
  datatype ClerkProfile = ClerkProfile(emailAddresses: seq<string>, firstName: Option<string>, lastName: Option<string>)

  /** The request body; the optional fields are None when absent. The price
      is already a number and the date already an instant. */
  datatype SubscriptionBody = SubscriptionBody(
    name: string,
    price: real,
    currency: Option<string>,
    billingCycle: string,
    category: string,
    nextBillingDate: int,
    notes: Option<string>,
    color: Option<string>)

  datatype ListResponse = ListUnauthorized | UserNotFound | Listed(subscriptions: seq<Subscription>)

  datatype CreateResponse = CreateUnauthorized | Created(subscription: Subscription)

  /** The HTTP status of each `GET` answer. */
  function ListStatus(r: ListResponse): nat {
    match r
    case ListUnauthorized => 401
    case UserNotFound => 404
    case Listed(_) => 200
  }

  /** The HTTP status of each `POST` answer. */
  function CreateStatus(r: CreateResponse): nat {
    match r
    case CreateUnauthorized => 401
    case Created(_) => 200
  }

  // ---------------------------------------------------------------------
  // GET

  /** `GET`: 401 when signed out, 404 for an unknown user, and otherwise that
      user's own subscriptions, in stored order. */
  method ListSubscriptions(db: Database, userId: Option<string>) returns (response: ListResponse)
    ensures !Authenticated(userId) ==> response == ListUnauthorized
    ensures Authenticated(userId) && userId.value !in db.users ==> response == UserNotFound
    ensures Authenticated(userId) && userId.value in db.users ==>
              response == Listed(db.users[userId.value].subscriptions)
    ensures ListStatus(response) == 401 <==> !Authenticated(userId)
    ensures ListStatus(response) == 404 <==> Authenticated(userId) && userId.value !in db.users
    ensures db.Valid() && response.Listed? ==>
              forall s | s in response.subscriptions :: s.userId == db.users[userId.value].id
  {
    if !Authenticated(userId) {
      return ListUnauthorized;
    }
    if userId.value !in db.users {
      return UserNotFound;
    }
    var user := db.users[userId.value];
    return Listed(user.subscriptions);
  }

  // ---------------------------------------------------------------------
  // The record a POST creates for a new user

  /** `clerkUser?.emailAddresses[0]?.emailAddress || ""`. */
  function ProfileEmail(profile: Option<ClerkProfile>): (email: string)
    ensures email == "" <==> profile.None? || profile.value.emailAddresses == [] || profile.value.emailAddresses[0] == ""
    ensures email != "" ==> email == profile.value.emailAddresses[0]
  {
    if profile.Some? && profile.value.emailAddresses != [] then profile.value.emailAddresses[0] else ""
  }

  /** `${firstName || ""} ${lastName || ""}`, before trimming. */
  function NameLine(profile: Option<ClerkProfile>): string {
    var first := if profile.Some? then OrElse(profile.value.firstName, "") else "";
    var last := if profile.Some? then OrElse(profile.value.lastName, "") else "";
    first + " " + last
  }

  /** The trimmed name line, or null when nothing but whitespace is left. */
  function ProfileName(profile: Option<ClerkProfile>): (name: Option<string>)
    ensures name.Some? ==> name.value != "" && Trimmed(name.value) && name.value == Trim(NameLine(profile))
    ensures name.None? <==> forall k | 0 <= k < |NameLine(profile)| :: IsWhitespace(NameLine(profile)[k])
  {
    var line := NameLine(profile);
    TrimEmptyIffAllWhitespace(line);
    var t := Trim(line);
    if t == "" then None else Some(t)
  }

  /** `trim` drops a space in front of a trimmed word. */
  lemma TrimLeadingSpace(word: string)
    requires Trimmed(word) && word != ""
    ensures Trim(" " + word) == word
  {
    var line := " " + word;
    assert line[1] == word[0] && line[|line| - 1] == word[|word| - 1];
    assert SkipWhitespace(line, 0) == SkipWhitespace(line, 1) == 1;
    assert BackOverWhitespace(line, 1, |line|) == |line|;
    assert line[1..] == word;
  }

  /** `trim` drops a space after a trimmed word. */
  lemma TrimTrailingSpace(word: string)
    requires Trimmed(word) && word != ""
    ensures Trim(word + " ") == word
  {
    var line := word + " ";
    assert line[0] == word[0] && line[|line| - 2] == word[|word| - 1];
    assert SkipWhitespace(line, 0) == 0;
    assert BackOverWhitespace(line, 0, |line|) == BackOverWhitespace(line, 0, |line| - 1) == |line| - 1;
    assert line[..|line| - 1] == word;
  }

  /** `trim` removes the separating space when one side is missing. */
  lemma TrimAroundSpace(first: string, last: string)
    requires Trimmed(first) && Trimmed(last)
    ensures first == "" && last == "" ==> Trim(first + " " + last) == ""
    ensures first == "" && last != "" ==> Trim(first + " " + last) == last
    ensures first != "" && last == "" ==> Trim(first + " " + last) == first
    ensures first != "" && last != "" ==> Trim(first + " " + last) == first + " " + last
  {
    var line := first + " " + last;
    if first == "" && last == "" {
      assert line == " ";
      TrimEmptyIffAllWhitespace(line);
    } else if first == "" {
      assert line == " " + last;
      TrimLeadingSpace(last);
    } else if last == "" {
      assert line == first + " ";
      TrimTrailingSpace(first);
    } else {
      assert line[0] == first[0] && line[|line| - 1] == last[|last| - 1];
      TrimOfTrimmed(line);
    }
  }

  /** The name of a created user from its parts, when each part is free of
      surrounding whitespace: both parts joined by one space, one part alone,
      or null. */
  lemma ProfileNameFromParts(profile: ClerkProfile)
    requires Trimmed(OrElse(profile.firstName, "")) && Trimmed(OrElse(profile.lastName, ""))
    ensures var first := OrElse(profile.firstName, "");
            var last := OrElse(profile.lastName, "");
            ProfileName(Some(profile)) ==
              if first == "" && last == "" then None
              else if first == "" then Some(last)
              else if last == "" then Some(first)
              else Some(first + " " + last)
  {
    TrimAroundSpace(OrElse(profile.firstName, ""), OrElse(profile.lastName, ""));
  }

  /** The user `POST` creates on first use: the given id and `clerkId`, the
      derived address and name, and no subscriptions yet. */
  function NewUser(id: nat, clerkId: string, profile: Option<ClerkProfile>): User {
    User(id, clerkId, ProfileEmail(profile), ProfileName(profile), [])
  }

  // ---------------------------------------------------------------------
  // The subscription record a POST creates

  /** The stored record: the body's fields, "USD" for a missing or empty
      currency, null for missing or empty notes, and for a missing or empty
      colour the colour of the body's category, "other"'s when the category
      is unknown. The category itself is stored as sent. */
  function NewSubscription(id: nat, userId: nat, body: SubscriptionBody): (s: Subscription)
    ensures s.id == id && s.userId == userId
    ensures s.name == body.name && s.price == body.price && s.billingCycle == body.billingCycle
    ensures s.nextBillingDate == body.nextBillingDate && s.category == body.category
    ensures s.currency != "" && (Truthy(body.currency) ==> s.currency == body.currency.value)
    ensures !Truthy(body.currency) ==> s.currency == "USD"
    ensures s.notes.None? <==> !Truthy(body.notes)
    ensures s.notes.Some? ==> s.notes == body.notes && s.notes.value != ""
    ensures Truthy(body.color) ==> s.color == body.color.value
    ensures !Truthy(body.color) ==>
              forall d | d in Utils.Categories && d.value == body.category :: s.color == d.color
    ensures !Truthy(body.color) && (forall d | d in Utils.Categories :: d.value != body.category) ==>
              s.color == Utils.OtherColor
  {
    Utils.CategoryTable();
    var categoryData := Utils.CategoryOrOther(body.category);
    Subscription(id, userId, body.name, body.price, OrElse(body.currency, "USD"),
                 body.billingCycle, body.category, body.nextBillingDate,
                 if Truthy(body.notes) then body.notes else None,
                 OrElse(body.color, categoryData.color))
  }

  // ---------------------------------------------------------------------
  // POST

  /** Storing under a key twice keeps only the second value. */
  lemma OverwriteKey<K, V>(m: map<K, V>, k: K, first: V, second: V)
    ensures m[k := first][k := second] == m[k := second]
  {
  }

  /** `POST`: 401 when signed out, with no change. Otherwise the user is
      looked up and, when missing, created from the profile; then exactly
      one subscription, owned by that user, is appended to its list. No
      other user changes, and an existing user keeps its id, address and
      name. */
  method CreateSubscription(db: Database, userId: Option<string>, profile: Option<ClerkProfile>,
                            body: SubscriptionBody)
    returns (response: CreateResponse)
    requires db.Valid()
    modifies db
    ensures db.Valid()
    ensures CreateStatus(response) == 401 <==> !Authenticated(userId)
    ensures !Authenticated(userId) ==> response == CreateUnauthorized && db.State() == old(db.State())
    ensures Authenticated(userId) ==>
              var key := userId.value;
              var existed := key in old(db.users);
              var owner := if existed then old(db.users)[key] else NewUser(old(db.nextId), key, profile);
              var sub := NewSubscription(if existed then old(db.nextId) else old(db.nextId) + 1, owner.id, body);
              && response == Created(sub)
              && db.users == old(db.users)[key := owner.(subscriptions := owner.subscriptions + [sub])]
              && db.nextId == sub.id + 1
  {
    if !Authenticated(userId) {
      return CreateUnauthorized;
    }
    var key := userId.value;
    ghost var before := db.State();
    var user: User;
    if key in db.users {
      user := db.users[key];
    } else {
      user := NewUser(db.nextId, key, profile);
      AddUserKeepsWellFormed(db.State(), user);
      db.users := db.users[key := user];
      db.nextId := db.nextId + 1;
    }
    assert db.Valid() && key in db.users && db.users[key] == user;
    var subscription := NewSubscription(db.nextId, user.id, body);
    AppendSubscriptionKeepsWellFormed(db.State(), key, subscription);
    db.users := db.users[key := user.(subscriptions := user.subscriptions + [subscription])];
    db.nextId := db.nextId + 1;
    if key !in before.users {
      OverwriteKey(before.users, key, user, user.(subscriptions := user.subscriptions + [subscription]));
    }
    return Created(subscription);
  }
}
