/** The daily renewal-reminder sweep of src/app/api/cron/reminders/route.ts.
    The storage read and the mailer are inputs: `fetched` is what the user
    query returned (None when it threw), and `delivered[i]` says whether the
    send call for the i-th fetched user returned without throwing. What the
    call returns is ignored by the handler, so it is not an input. */
module Reminders {
  import opened Wrappers
  import opened Strings
  import opened Store
  import Utils

  // ---------------------------------------------------------------------
  // Authorization

  /** What `${process.env.CRON_SECRET}` renders: the secret, or "undefined"
      when the variable is not set. */
  function SecretText(cronSecret: Option<string>): string {
    cronSecret.GetOr("undefined")
  }

  /** The `authorization` header must be exactly "Bearer " and the secret. */
  predicate Authorized(authHeader: Option<string>, cronSecret: Option<string>) {
    authHeader == Some("Bearer " + SecretText(cronSecret))
  }

  /** With the secret unset the gate compares against the literal text
      "Bearer undefined"; an absent header is always refused. */
  lemma AuthorizationGate(authHeader: Option<string>, cronSecret: Option<string>)
    ensures Authorized(authHeader, cronSecret) ==> authHeader.Some? && authHeader.value[..7] == "Bearer "
    ensures cronSecret.None? ==> (Authorized(authHeader, cronSecret) <==> authHeader == Some("Bearer undefined"))
  {
    assert "Bearer " + "undefined" == "Bearer undefined";
  }

  // ---------------------------------------------------------------------
  // Which subscriptions a reminder lists

  /** Renewing in one to seven days: not today, not overdue, not later. */
  predicate InReminderWindow(days: int) {
    1 <= days && days <= 7
  }

  predicate DueSoon(s: Subscription, now: int) {
    InReminderWindow(Utils.DaysUntilRenewal(s.nextBillingDate, now))
  }

  /** The `filter` of lines 31-34: the subscriptions renewing within the
      window, in their original order. */
  function Upcoming(subs: seq<Subscription>, now: int): (upcoming: seq<Subscription>)
    ensures |upcoming| <= |subs|
    ensures forall s | s in upcoming :: s in subs && DueSoon(s, now)
    ensures forall s | s in subs && DueSoon(s, now) :: s in upcoming
  {
    if subs == [] then []
    else (if DueSoon(subs[0], now) then [subs[0]] else []) + Upcoming(subs[1..], now)
  }

  /** Filtering keeps relative order: it distributes over concatenation. */
  lemma {:induction false} UpcomingAppend(a: seq<Subscription>, b: seq<Subscription>, now: int)
    ensures Upcoming(a + b, now) == Upcoming(a, now) + Upcoming(b, now)
  {
    if a == [] {
      assert a + b == b;
    } else {
      assert (a + b)[0] == a[0];
      assert (a + b)[1..] == a[1..] + b;
      UpcomingAppend(a[1..], b, now);
    }
  }

  // ---------------------------------------------------------------------
  // The monthly total

  /** The inline conversion of lines 47-51, which tests "yearly" before
      "weekly"; it is the same function as `calculateMonthlyAmount`. */
  function InlineMonthly(s: Subscription): (monthly: real)
    ensures monthly == Utils.MonthlyAmount(s.price, s.billingCycle)
  {
    if s.billingCycle == "yearly" then s.price / 12.0
    else if s.billingCycle == "weekly" then s.price * 4.33
    else s.price
  }

  /** The `reduce` of lines 46-53: a left fold from 0 over all of the user's
      subscriptions, upcoming or not. */
  function TotalMonthly(subs: seq<Subscription>): (total: real)
    ensures (forall s | s in subs :: s.price >= 0.0) ==> total >= 0.0
  {
    if subs == [] then 0.0
    else
      assert forall s | s in subs[..|subs| - 1] :: s in subs;
      TotalMonthly(subs[..|subs| - 1]) + InlineMonthly(subs[|subs| - 1])
  }

  /** The sum of `calculateMonthlyAmount` over a list. */
  function SumMonthlyAmounts(subs: seq<Subscription>): real {
    if subs == [] then 0.0
    else Utils.MonthlyAmount(subs[0].price, subs[0].billingCycle) + SumMonthlyAmounts(subs[1..])
  }

  lemma {:induction false} SumMonthlyAmountsSnoc(subs: seq<Subscription>, s: Subscription)
    ensures SumMonthlyAmounts(subs + [s]) == SumMonthlyAmounts(subs) + Utils.MonthlyAmount(s.price, s.billingCycle)
  {
    if subs != [] {
      assert (subs + [s])[1..] == subs[1..] + [s];
      SumMonthlyAmountsSnoc(subs[1..], s);
    }
  }

  /** The reminder's total is the sum of every subscription's monthly amount. */
  lemma {:induction false} TotalMonthlyIsSumOfMonthlyAmounts(subs: seq<Subscription>)
    ensures TotalMonthly(subs) == SumMonthlyAmounts(subs)
  {
    if subs != [] {
      var init := subs[..|subs| - 1];
      assert subs == init + [subs[|subs| - 1]];
      TotalMonthlyIsSumOfMonthlyAmounts(init);
      SumMonthlyAmountsSnoc(init, subs[|subs| - 1]);
    }
  }

  // ---------------------------------------------------------------------
  // Composing one reminder

  datatype ReminderItem = ReminderItem(name: string, price: real, currency: string, days: int, daysText: string)

  /** The parts of the message that carry data; the HTML around them and the
      currency formatting are not modelled. */
  datatype Reminder = Reminder(
    to: string,
    subject: string,
    greeting: string,
    count: nat,
    items: seq<ReminderItem>,
    monthlyTotal: real)

  const SubjectPrefix: string := "Subscription Renewal Reminder - "

  /** "subscription", with an "s" when there is more than one. */
  function SubscriptionNoun(count: nat): string {
    "subscription" + (if count > 1 then "s" else "")
  }

  /** "(n day)" / "(n days)": the "s" is dropped only for exactly one day. */
  function DaysText(days: int): string {
    IntToString(days) + " day" + (if days == 1 then "" else "s")
  }

  /** The subject: the fixed prefix, then the count in decimal, then the
      noun and " renewing soon". */
  function Subject(count: nat): (subject: string)
    ensures |subject| >= |SubjectPrefix| + |NatToString(count)|
    ensures subject[..|SubjectPrefix|] == SubjectPrefix
    ensures subject[|SubjectPrefix|..|SubjectPrefix| + |NatToString(count)|] == NatToString(count)
  {
    SubjectPrefix + NatToString(count) + " " + SubscriptionNoun(count) + " renewing soon"
  }

  /** "Hi" followed by the name when there is one. */
  function Greeting(name: Option<string>): (greeting: string)
    ensures |greeting| >= 3 && greeting[..2] == "Hi" && greeting[|greeting| - 1] == ','
    ensures !Truthy(name) ==> greeting == "Hi,"
    ensures Truthy(name) ==> greeting[2] == ' ' && greeting[3..|greeting| - 1] == name.value
  {
    "Hi" + (if Truthy(name) then " " + name.value else "") + ","
  }

  function Item(s: Subscription, now: int): ReminderItem {
    var days := Utils.DaysUntilRenewal(s.nextBillingDate, now);
    ReminderItem(s.name, s.price, s.currency, days, DaysText(days))
  }

  function Items(subs: seq<Subscription>, now: int): seq<ReminderItem> {
    seq(|subs|, i requires 0 <= i < |subs| => Item(subs[i], now))
  }

  /** The reminder for one user: the upcoming subscriptions as items and the
      monthly total over all of them. */
  function Compose(u: User, now: int): (r: Reminder)
    ensures r.to == u.email && r.count == |r.items| == |Upcoming(u.subscriptions, now)|
    ensures r.monthlyTotal == SumMonthlyAmounts(u.subscriptions)
    ensures r.subject == Subject(r.count) && r.greeting == Greeting(u.name)
    ensures forall i | 0 <= i < |r.items| ::
              var s := Upcoming(u.subscriptions, now)[i];
              && r.items[i].name == s.name && r.items[i].price == s.price && r.items[i].currency == s.currency
              && r.items[i].days == Utils.DaysUntilRenewal(s.nextBillingDate, now)
              && r.items[i].daysText == DaysText(r.items[i].days)
  {
    var upcoming := Upcoming(u.subscriptions, now);
    TotalMonthlyIsSumOfMonthlyAmounts(u.subscriptions);
    Reminder(u.email, Subject(|upcoming|), Greeting(u.name), |upcoming|,
             Items(upcoming, now), TotalMonthly(u.subscriptions))
  }

  /** A user gets a reminder when it has an address and something due soon. */
  predicate Qualifies(u: User, now: int) {
    u.email != "" && Upcoming(u.subscriptions, now) != []
  }

  /** A user qualifies exactly when it has an address and at least one of its
      subscriptions renews within the window. */
  lemma QualifiesIffSomethingDue(u: User, now: int)
    ensures Qualifies(u, now) <==> u.email != "" && exists s | s in u.subscriptions :: DueSoon(s, now)
  {
    var upcoming := Upcoming(u.subscriptions, now);
    if upcoming != [] {
      assert upcoming[0] in upcoming;
    }
  }

  /** The subject's noun is singular exactly for one subscription. */
  lemma SubjectWording(count: nat)
    requires count >= 1
    ensures count == 1 ==> Subject(count) == SubjectPrefix + "1" + " " + "subscription" + " renewing soon"
    ensures count > 1 ==> Subject(count) == SubjectPrefix + NatToString(count) + " " + "subscriptions" + " renewing soon"
  {
    if count == 1 {
      assert NatToString(1) == "1";
      assert SubscriptionNoun(1) == "subscription";
    } else {
      assert SubscriptionNoun(count) == "subscriptions";
    }
  }

  /** A day count reads "day" exactly when it is 1, and "days" otherwise. */
  lemma DaysWording(days: int)
    ensures days == 1 ==> DaysText(days) == "1 day"
    ensures days != 1 ==> DaysText(days) == IntToString(days) + " days"
  {
    if days == 1 {
      assert IntToString(1) == "1";
    }
  }

  /** Every item of a composed reminder renews within one to seven days, and
      the count is the number of items. */
  lemma ComposedItems(u: User, now: int)
    ensures var r := Compose(u, now);
            && r.count == |r.items|
            && forall it | it in r.items :: 1 <= it.days <= 7 && it.daysText == DaysText(it.days)
  {
    var r := Compose(u, now);
    var upcoming := Upcoming(u.subscriptions, now);
    forall it | it in r.items
      ensures 1 <= it.days <= 7 && it.daysText == DaysText(it.days)
    {
      var i :| 0 <= i < |r.items| && r.items[i] == it;
      assert upcoming[i] in upcoming;
    }
  }

  // ---------------------------------------------------------------------
  // The sweep

  /** The messages the sweep hands to the mailer, in user order. */
  function Attempts(users: seq<User>, now: int): (reminders: seq<Reminder>)
    ensures |reminders| <= |users|
    ensures forall r | r in reminders :: r.to != "" && r.count >= 1
  {
    if users == [] then []
    else
      var last := users[|users| - 1];
      Attempts(users[..|users| - 1], now) + (if Qualifies(last, now) then [Compose(last, now)] else [])
  }

  /** Every message is the reminder `Compose` builds for a qualifying user,
      and every qualifying user gets that reminder. */
  lemma {:induction false} AttemptsAreComposedReminders(users: seq<User>, now: int)
    ensures forall r | r in Attempts(users, now) :: exists u | u in users && Qualifies(u, now) :: r == Compose(u, now)
    ensures forall u | u in users && Qualifies(u, now) :: Compose(u, now) in Attempts(users, now)
  {
    if users != [] {
      var init := users[..|users| - 1];
      var last := users[|users| - 1];
      assert users == init + [last];
      AttemptsAreComposedReminders(init, now);
    }
  }

  /** The messages for two runs of users are those of the first run followed
      by those of the second. */
  lemma {:induction false} AttemptsAppend(a: seq<User>, b: seq<User>, now: int)
    ensures Attempts(a + b, now) == Attempts(a, now) + Attempts(b, now)
  {
    if b == [] {
      assert a + b == a;
    } else {
      var init := b[..|b| - 1];
      assert (a + b)[..|a + b| - 1] == a + init;
      assert (a + b)[|a + b| - 1] == b[|b| - 1];
      AttemptsAppend(a, init, now);
    }
  }

  /** The final value of `emailsSent`: one per qualifying user whose send
      call returned without throwing. */
  function SentCount(users: seq<User>, delivered: seq<bool>, now: int): (sent: nat)
    requires |delivered| == |users|
    ensures sent <= |Attempts(users, now)|
  {
    if users == [] then 0
    else
      var n := |users| - 1;
      SentCount(users[..n], delivered[..n], now) + (if SentTo(users[n], delivered[n], now) then 1 else 0)
  }

  /** The positions of the users whose reminder was sent. */
  function Succeeded(users: seq<User>, delivered: seq<bool>, now: int): set<nat>
    requires |delivered| == |users|
  {
    set i: nat | i < |users| && SentTo(users[i], delivered[i], now)
  }

  /** The send to this user happened and did not throw. */
  predicate SentTo(u: User, returned: bool, now: int) {
    Qualifies(u, now) && returned
  }

  /** `emailsSent` counts exactly the users whose send did not throw. */
  lemma {:induction false} SentCountIsSucceeded(users: seq<User>, delivered: seq<bool>, now: int)
    requires |delivered| == |users|
    ensures SentCount(users, delivered, now) == |Succeeded(users, delivered, now)|
  {
    if users != [] {
      var n := |users| - 1;
      SentCountIsSucceeded(users[..n], delivered[..n], now);
      var before := Succeeded(users[..n], delivered[..n], now);
      var all := Succeeded(users, delivered, now);
      SucceededSnoc(users, delivered, now);
      if SentTo(users[n], delivered[n], now) {
        assert all == before + {n};
        assert n !in before;
      } else {
        assert all == before;
      }
    }
  }

  /** How the set of successful positions grows with one more user. */
  lemma SucceededSnoc(users: seq<User>, delivered: seq<bool>, now: int)
    requires |delivered| == |users| > 0
    ensures var n := |users| - 1;
            Succeeded(users, delivered, now)
            == Succeeded(users[..n], delivered[..n], now) + (if SentTo(users[n], delivered[n], now) then {n} else {})
  {
    var n := |users| - 1;
    var before := Succeeded(users[..n], delivered[..n], now);
    var extra: set<nat> := if SentTo(users[n], delivered[n], now) then {n} else {};
    var all := Succeeded(users, delivered, now);
    forall i: nat
      ensures i in all <==> i in before + extra
    {
      if i < n {
        assert users[..n][i] == users[i] && delivered[..n][i] == delivered[i];
      }
    }
  }

  /** Failure isolation: turning one user's send into a failure lowers the
      count by one if that user was counted, and by nothing otherwise; the
      messages handed to the mailer do not depend on the outcomes at all. */
  lemma FailedSendOnlyLosesItsOwnCount(users: seq<User>, delivered: seq<bool>, now: int, j: nat)
    requires |delivered| == |users| && j < |users|
    ensures SentCount(users, delivered[j := false], now)
            == SentCount(users, delivered, now) - (if SentTo(users[j], delivered[j], now) then 1 else 0)
  {
    SentCountIsSucceeded(users, delivered, now);
    SentCountIsSucceeded(users, delivered[j := false], now);
    var all := Succeeded(users, delivered, now);
    var failed := delivered[j := false];
    forall i: nat
      ensures i in Succeeded(users, failed, now) <==> i in all - {j}
    {
      if i < |users| && i != j {
        assert failed[i] == delivered[i];
      }
    }
    assert Succeeded(users, failed, now) == all - {j};
    if j in all {
      assert all == (all - {j}) + {j};
    }
  }

  /** One more user extends the messages and the count as the loop does. */
  lemma SweepStep(users: seq<User>, delivered: seq<bool>, now: int, i: nat)
    requires |delivered| == |users| && i < |users|
    ensures Attempts(users[..i + 1], now)
            == Attempts(users[..i], now) + (if Qualifies(users[i], now) then [Compose(users[i], now)] else [])
    ensures SentCount(users[..i + 1], delivered[..i + 1], now)
            == SentCount(users[..i], delivered[..i], now) + (if SentTo(users[i], delivered[i], now) then 1 else 0)
  {
    assert users[..i + 1][..i] == users[..i] && users[..i + 1][i] == users[i];
    assert delivered[..i + 1][..i] == delivered[..i] && delivered[..i + 1][i] == delivered[i];
  }

  datatype SweepResult = Unauthorized | Completed(emailsSent: nat) | Failed

  /** The HTTP status of each outcome. */
  function StatusCode(r: SweepResult): nat {
    match r
    case Unauthorized => 401
    case Completed(_) => 200
    case Failed => 500
  }

  /** The `GET` handler: the authorization gate, then one pass over the
      fetched users that skips those without an address or without anything
      due, sends one message to each of the others and counts the sends that
      return without throwing. A send that throws is logged and the loop
      goes on. */
  method Sweep(authHeader: Option<string>, cronSecret: Option<string>,
               fetched: Option<seq<User>>, now: int, delivered: seq<bool>)
    returns (result: SweepResult, attempts: seq<Reminder>)
    requires fetched.Some? ==> |delivered| == |fetched.value|
    ensures StatusCode(result) == 401 <==> !Authorized(authHeader, cronSecret)
    ensures StatusCode(result) == 500 <==> Authorized(authHeader, cronSecret) && fetched.None?
    ensures !Authorized(authHeader, cronSecret) ==> result == Unauthorized && attempts == []
    ensures Authorized(authHeader, cronSecret) && fetched.None? ==> result == Failed && attempts == []
    ensures Authorized(authHeader, cronSecret) && fetched.Some? ==>
              && result == Completed(SentCount(fetched.value, delivered, now))
              && attempts == Attempts(fetched.value, now)
  {
    if !Authorized(authHeader, cronSecret) {
      return Unauthorized, [];
    }
    if fetched.None? {
      return Failed, [];
    }
    var users := fetched.value;
    var emailsSent := 0;
    attempts := [];
    for i := 0 to |users|
      invariant emailsSent == SentCount(users[..i], delivered[..i], now)
      invariant attempts == Attempts(users[..i], now)
    {
      var user := users[i];
      SweepStep(users, delivered, now, i);
      if user.email == "" {
        continue;
      }
      var upcoming := Upcoming(user.subscriptions, now);
      if |upcoming| == 0 {
        continue;
      }
      var reminder := Reminder(user.email, Subject(|upcoming|), Greeting(user.name), |upcoming|,
                               Items(upcoming, now), TotalMonthly(user.subscriptions));
      attempts := attempts + [reminder];
      if delivered[i] {
        emailsSent := emailsSent + 1;
      }
    }
    assert users[..|users|] == users && delivered[..|delivered|] == delivered;
    return Completed(emailsSent), attempts;
  }

  /** A user with subscriptions due in two and in nine days: the reminder
      lists only the first, and its total still counts both. */
  lemma TwoAndNineDaysScenario(now: int, u: User, a: Subscription, b: Subscription)
    requires u.email != "" && u.subscriptions == [a, b]
    requires a.nextBillingDate == Utils.StartOfDay(now) + 2 * Utils.DayMs
    requires b.nextBillingDate == Utils.StartOfDay(now) + 9 * Utils.DayMs
    ensures Qualifies(u, now)
    ensures var r := Compose(u, now);
            && r.count == 1 && r.subject == Subject(1)
            && r.items == [ReminderItem(a.name, a.price, a.currency, 2, "2 days")]
            && r.monthlyTotal == Utils.MonthlyAmount(a.price, a.billingCycle) + Utils.MonthlyAmount(b.price, b.billingCycle)
  {
    var today := Utils.StartOfDay(now);
    Utils.DaysAfterMidnights(today, 2, now - today, 0);
    Utils.DaysAfterMidnights(today, 9, now - today, 0);
    assert Utils.DaysUntilRenewal(a.nextBillingDate, now) == 2;
    assert DueSoon(a, now) && !DueSoon(b, now);
    UpcomingOfPair(a, b, now);
    TotalMonthlyIsSumOfMonthlyAmounts([a, b]);
    assert [a, b][1..] == [b] && [b][1..] == [];
    assert SumMonthlyAmounts([b]) == Utils.MonthlyAmount(b.price, b.billingCycle);
    DaysWording(2);
    assert "2" + " days" == "2 days";
    assert IntToString(2) == "2";
    assert Item(a, now) == ReminderItem(a.name, a.price, a.currency, 2, "2" + " days");
    assert Items([a], now) == [Item(a, now)];
  }

  /** Filtering a pair keeps exactly the members that are due soon. */
  lemma UpcomingOfPair(a: Subscription, b: Subscription, now: int)
    ensures Upcoming([a, b], now) == (if DueSoon(a, now) then [a] else []) + (if DueSoon(b, now) then [b] else [])
  {
    assert [a, b][1..] == [b] && [b][1..] == [];
  }
}
