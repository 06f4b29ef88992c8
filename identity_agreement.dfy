/** A user can be created by two routes: on first `POST` to the subscriptions
    route, from the identity provider's profile, and by the webhook, from the
    event payload. The two derive the address and the name differently; this
    module states when they agree and shows where they do not. */
module IdentityAgreement {
  import opened Wrappers
  import opened Strings
  import SubscriptionsRoute
  import ClerkWebhook

  /** The profile and the event describe the same person. */
  predicate SamePerson(p: SubscriptionsRoute.ClerkProfile, d: ClerkWebhook.EventData) {
    d.emailAddresses == p.emailAddresses && d.firstName == p.firstName && d.lastName == p.lastName
  }

  /** With names free of surrounding whitespace both routes store the same
      address and the same name. */
  lemma DerivationsAgree(p: SubscriptionsRoute.ClerkProfile, d: ClerkWebhook.EventData)
    requires SamePerson(p, d)
    requires Trimmed(OrElse(p.firstName, "")) && Trimmed(OrElse(p.lastName, ""))
    ensures SubscriptionsRoute.ProfileEmail(Some(p)) == ClerkWebhook.DerivedEmail(d)
    ensures SubscriptionsRoute.ProfileName(Some(p)) == ClerkWebhook.DerivedName(d)
  {
    SubscriptionsRoute.ProfileNameFromParts(p);
  }

  /** A first name that is only a space: the webhook keeps it as the name,
      the subscriptions route trims it away to null. */
  lemma WhitespaceNameDiverges()
    ensures var p := SubscriptionsRoute.ClerkProfile([], Some(" "), None);
            var d := ClerkWebhook.EventData("user_1", [], Some(" "), None);
            && SamePerson(p, d)
            && ClerkWebhook.DerivedName(d) == Some(" ")
            && SubscriptionsRoute.ProfileName(Some(p)) == None
  {
    var p := SubscriptionsRoute.ClerkProfile([], Some(" "), None);
    assert SubscriptionsRoute.NameLine(Some(p)) == "  ";
    assert IsWhitespace(' ');
  }
}
