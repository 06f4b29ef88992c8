/** The identity provider's webhook, src/app/api/webhooks/clerk/route.ts: it
    keeps the user table in step with user.created, user.updated and
    user.deleted events. Signature verification is foreign code; its outcome
    is an input, `verified`, holding the event it returned or None when it
    threw. */
module ClerkWebhook {
  import opened Wrappers
  import opened Strings
  import opened Store

  datatype SvixHeaders = SvixHeaders(id: Option<string>, timestamp: Option<string>, signature: Option<string>)

  datatype EventData = EventData(id: string, emailAddresses: seq<string>, firstName: Option<string>, lastName: Option<string>)

  datatype UserEvent = UserEvent(data: EventData, eventType: string)

  datatype Response = Response(status: nat, body: string)

  /** All three svix headers are present and non-empty. */
  predicate HasSvixHeaders(h: SvixHeaders) {
    Truthy(h.id) && Truthy(h.timestamp) && Truthy(h.signature)
  }

  predicate IsUpsert(e: UserEvent) {
    e.eventType == "user.created" || e.eventType == "user.updated"
  }

  /** `email_addresses[0]?.email_address || ""`. */
  function DerivedEmail(d: EventData): (email: string)
    ensures email == "" <==> d.emailAddresses == [] || d.emailAddresses[0] == ""
    ensures email != "" ==> email == d.emailAddresses[0]
  {
    if d.emailAddresses == [] then "" else d.emailAddresses[0]
  }

  /** `[first_name, last_name].filter(Boolean).join(" ") || null`: the
      non-empty parts joined by one space, or null when there are none. */
  function DerivedName(d: EventData): (name: Option<string>)
    ensures name.None? <==> !Truthy(d.firstName) && !Truthy(d.lastName)
    ensures Truthy(d.firstName) && Truthy(d.lastName) ==> name == Some(d.firstName.value + " " + d.lastName.value)
    ensures Truthy(d.firstName) && !Truthy(d.lastName) ==> name == d.firstName
    ensures !Truthy(d.firstName) && Truthy(d.lastName) ==> name == d.lastName
  {
    var parts := Present([d.firstName, d.lastName]);
    assert [d.firstName, d.lastName][1..] == [d.lastName] && [d.lastName][1..] == [];
    assert Present([d.lastName]) == (if Truthy(d.lastName) then [d.lastName.value] else []) + Present([]);
    assert parts == (if Truthy(d.firstName) then [d.firstName.value] else [])
                    + (if Truthy(d.lastName) then [d.lastName.value] else []);
    JoinEmptyIffNoParts(parts, " ");
    var joined := Join(parts, " ");
    if joined == "" then None else Some(joined)
  }

  /** `prisma.user.upsert` keyed by `clerkId`: an existing user gets the new
      address and name and keeps its id and subscriptions; a missing one is
      created under a fresh id with no subscriptions. */
  function Upsert(t: Tables, clerkId: string, email: string, name: Option<string>): (r: Tables)
    ensures r.users.Keys == t.users.Keys + {clerkId}
    ensures r.users[clerkId].email == email && r.users[clerkId].name == name
    ensures clerkId in t.users ==>
              && r.nextId == t.nextId
              && r.users[clerkId].id == t.users[clerkId].id
              && r.users[clerkId].clerkId == t.users[clerkId].clerkId
              && r.users[clerkId].subscriptions == t.users[clerkId].subscriptions
    ensures clerkId !in t.users ==>
              && r.nextId == t.nextId + 1
              && r.users[clerkId] == User(t.nextId, clerkId, email, name, [])
    ensures forall k | k in t.users && k != clerkId :: r.users[k] == t.users[k]
  {
    if clerkId in t.users then
      Tables(t.users[clerkId := t.users[clerkId].(email := email, name := name)], t.nextId)
    else
      Tables(t.users[clerkId := User(t.nextId, clerkId, email, name, [])], t.nextId + 1)
  }

  /** The store after a verified event. */
  function ApplyEvent(t: Tables, e: UserEvent): Tables {
    if IsUpsert(e) then Upsert(t, e.data.id, DerivedEmail(e.data), DerivedName(e.data))
    else if e.eventType == "user.deleted" then Tables(t.users - {e.data.id}, t.nextId)
    else t
  }

  /** created/updated leave `data.id` mapped to the derived address and name. */
  lemma UpsertEventStoresDerivedFields(t: Tables, e: UserEvent)
    requires IsUpsert(e)
    ensures var r := ApplyEvent(t, e);
            && e.data.id in r.users
            && r.users[e.data.id].email == DerivedEmail(e.data)
            && r.users[e.data.id].name == DerivedName(e.data)
  {
  }

  /** user.deleted removes `data.id`; an id that is not there changes nothing. */
  lemma DeleteEventRemoves(t: Tables, e: UserEvent)
    requires e.eventType == "user.deleted"
    ensures ApplyEvent(t, e).users.Keys == t.users.Keys - {e.data.id}
    ensures e.data.id !in t.users ==> ApplyEvent(t, e) == t
  {
    if e.data.id !in t.users {
      assert t.users - {e.data.id} == t.users;
    }
  }

  /** Any other event type is a no-op. */
  lemma OtherEventIsNoOp(t: Tables, e: UserEvent)
    requires !IsUpsert(e) && e.eventType != "user.deleted"
    ensures ApplyEvent(t, e) == t
  {
  }

  /** No event touches the entry of any other id. */
  lemma EventLeavesOtherIds(t: Tables, e: UserEvent, k: string)
    requires k != e.data.id
    ensures k in ApplyEvent(t, e).users <==> k in t.users
    ensures k in t.users ==> ApplyEvent(t, e).users[k] == t.users[k]
  {
  }

  /** Redelivering an event is harmless: applying it twice is applying it
      once, for every event type. */
  lemma ApplyEventIdempotent(t: Tables, e: UserEvent)
    ensures ApplyEvent(ApplyEvent(t, e), e) == ApplyEvent(t, e)
  {
    var once := ApplyEvent(t, e);
    if IsUpsert(e) {
      var twice := ApplyEvent(once, e);
      assert twice.users == once.users;
    } else if e.eventType == "user.deleted" {
      assert once.users - {e.data.id} == once.users;
    }
  }

  /** Every event keeps the table well formed. */
  lemma ApplyEventKeepsWellFormed(t: Tables, e: UserEvent)
    requires WellFormed(t)
    ensures WellFormed(ApplyEvent(t, e))
  {
    if IsUpsert(e) {
      var id := e.data.id;
      if id !in t.users {
        AddUserKeepsWellFormed(t, User(t.nextId, id, DerivedEmail(e.data), DerivedName(e.data), []));
      }
    }
  }

  /** The `POST` handler: 400 with no change when a header is missing or the
      signature does not verify; otherwise the event is applied and the
      answer is 200. */
  method HandleWebhook(db: Database, headers: SvixHeaders, verified: Option<UserEvent>)
    returns (response: Response)
    requires db.Valid()
    modifies db
    ensures db.Valid()
    ensures !HasSvixHeaders(headers) ==>
              response == Response(400, "Missing svix headers") && db.State() == old(db.State())
    ensures HasSvixHeaders(headers) && verified.None? ==>
              response == Response(400, "Invalid signature") && db.State() == old(db.State())
    ensures HasSvixHeaders(headers) && verified.Some? ==>
              response == Response(200, "Webhook processed")
              && db.State() == ApplyEvent(old(db.State()), verified.value)
  {
    if !HasSvixHeaders(headers) {
      return Response(400, "Missing svix headers");
    }
    if verified.None? {
      return Response(400, "Invalid signature");
    }
    var event := verified.value;
    var userData := event.data;
    ghost var before := db.State();
    ApplyEventKeepsWellFormed(before, event);
    if IsUpsert(event) {
      var email := DerivedEmail(userData);
      var name := DerivedName(userData);
      if userData.id in db.users {
        db.users := db.users[userData.id := db.users[userData.id].(email := email, name := name)];
      } else {
        db.users := db.users[userData.id := User(db.nextId, userData.id, email, name, [])];
        db.nextId := db.nextId + 1;
      }
      assert db.State() == Upsert(before, userData.id, email, name);
    } else if event.eventType == "user.deleted" {
      // A missing id makes the delete throw; the handler swallows that.
      if userData.id in db.users {
        db.users := db.users - {userData.id};
      } else {
        assert before.users - {userData.id} == before.users;
      }
    }
    return Response(200, "Webhook processed");
  }
}
