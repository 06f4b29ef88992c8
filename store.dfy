/** The persistent records the route handlers read and write, and the user
    table itself. Each user is keyed by the identity provider's id (`clerkId`,
    unique) and owns its subscriptions. Ids the database generates come from a
    single counter `nextId`. */
module Store {
  import opened Wrappers

  datatype Subscription = Subscription(
    id: nat,
    userId: nat,
    name: string,
    price: real,
    currency: string,
    billingCycle: string,
    category: string,
    nextBillingDate: int,   // milliseconds on the local wall clock
    notes: Option<string>,
    color: string)

  datatype User = User(
    id: nat,
    clerkId: string,
    email: string,
    name: Option<string>,
    subscriptions: seq<Subscription>)

  /** The table's contents as a value. */
  datatype Tables = Tables(users: map<string, User>, nextId: nat)

  /** Every user sits under its own `clerkId`, user ids are distinct, every
      subscription names its owner's id, and every id is below `nextId`. */
  predicate WellFormed(t: Tables) {
    && (forall k | k in t.users :: t.users[k].clerkId == k && t.users[k].id < t.nextId)
    && (forall k | k in t.users :: forall s | s in t.users[k].subscriptions ::
          s.userId == t.users[k].id && s.id < t.nextId)
    && (forall k1, k2 | k1 in t.users && k2 in t.users && k1 != k2 ::
          t.users[k1].id != t.users[k2].id)
  }

  /** Adding a user under a fresh id keeps the table well formed. */
  lemma AddUserKeepsWellFormed(t: Tables, u: User)
    requires WellFormed(t)
    requires u.clerkId !in t.users && u.id == t.nextId && u.subscriptions == []
    ensures WellFormed(Tables(t.users[u.clerkId := u], t.nextId + 1))
  {
    var t' := Tables(t.users[u.clerkId := u], t.nextId + 1);
    forall k | k in t'.users
      ensures t'.users[k].clerkId == k && t'.users[k].id < t'.nextId
      ensures forall s | s in t'.users[k].subscriptions :: s.userId == t'.users[k].id && s.id < t'.nextId
    {
    }
  }

  /** Appending a subscription under a fresh id, owned by the user it is
      appended to, keeps the table well formed. */
  lemma AppendSubscriptionKeepsWellFormed(t: Tables, key: string, s: Subscription)
    requires WellFormed(t)
    requires key in t.users && s.userId == t.users[key].id && s.id == t.nextId
    ensures var u := t.users[key];
            WellFormed(Tables(t.users[key := u.(subscriptions := u.subscriptions + [s])], t.nextId + 1))
  {
    var u := t.users[key];
    var t' := Tables(t.users[key := u.(subscriptions := u.subscriptions + [s])], t.nextId + 1);
    forall k | k in t'.users
      ensures forall x | x in t'.users[k].subscriptions :: x.userId == t'.users[k].id && x.id < t'.nextId
    {
      if k == key {
        forall x | x in t'.users[k].subscriptions
          ensures x.userId == t'.users[k].id && x.id < t'.nextId
        {
          if x != s {
            assert x in u.subscriptions;
          }
        }
      }
    }
  }

  class Database {
    var users: map<string, User>
    var nextId: nat

    constructor ()
      ensures Valid()
      ensures users == map[] && nextId == 0
    {
      users := map[];
      nextId := 0;
    }

    function State(): Tables
      reads this
    {
      Tables(users, nextId)
    }

    predicate Valid()
      reads this
    {
      WellFormed(State())
    }
  }
}
