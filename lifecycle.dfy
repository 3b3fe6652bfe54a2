/**
 * How the three handlers work together on one subscriber table: a sign-up
 * followed by its confirmation, an unsubscription followed by a
 * resubscription, the block a bounce puts on sign-up and resubscription
 * (and the ways around it, through the unsubscribe API or a pending
 * confirmation link), and the unsubscribe link a newsletter carries.
 */
module Lifecycle {
  import opened Wrappers
  import opened Strings
  import opened Store
  import S = SubscribeLambda
  import U = UnsubscribeLambda
  import P = PublishLambda

  /** The publish handler and the unsubscribe handler hash the same string
      only when the salt is set and non-empty (or in the degenerate case of an
      empty salt and an empty address): the publish handler's expression
      `email + salt || 'default-salt'` appends `undefined` for an unset salt. */
  lemma TokenInputsAgree(email: string, saltEnv: Option<string>)
    ensures P.PublishTokenInput(email, saltEnv) == U.TokenInput(email, saltEnv) <==>
            Truthy(saltEnv) || (saltEnv == Some("") && email == "")
  {
    var published := P.PublishTokenInput(email, saltEnv);
    var expected := U.TokenInput(email, saltEnv);
    if saltEnv.None? {
      assert published[|email|] == 'u' && expected[|email|] == 'd';
    } else if saltEnv == Some("") && email != "" {
      assert |published| == |email| < |expected|;
    }
  }

  /** The token a newsletter link carries is the one the unsubscribe handlers
      check, even when the two handlers would generate different tokens: a
      successful send to a subscriber without a stored token writes the link's
      token back, and a stored token takes precedence over a generated one.
      The API handler looks the address up as it is; the link handler decodes
      it once more, so it accepts the link only for an address that decoding
      keeps, and shows its error page for one that decoding rejects. */
  lemma NewsletterLinkAccepted(items: map<string, Subscriber>, subs: seq<Subscriber>, n: nat,
                               ses: nat -> P.SendOutcome, sha256Hex: string -> string,
                               saltEnv: Option<string>, k: nat, decode: string -> Option<string>)
    requires n <= |subs| && k < n
    requires forall a, b :: 0 <= a < b < |subs| ==> subs[a].email != subs[b].email
    requires ses(k).Delivered? && !Truthy(subs[k].unsubscribeToken)
    requires subs[k].email != "" && P.TokenFor(subs[k], sha256Hex, saltEnv) != ""
    ensures var after := P.WriteBacks(items, subs, n, ses, sha256Hex, saltEnv);
            var e := subs[k].email;
            e in after && U.TokenAccepted(after[e], e, Some(P.TokenFor(subs[k], sha256Hex, saltEnv)), sha256Hex, saltEnv)
    ensures decode(subs[k].email) == Some(subs[k].email) ==>
            U.LinkDecision(P.WriteBacks(items, subs, n, ses, sha256Hex, saltEnv), Some(subs[k].email),
                           Some(P.TokenFor(subs[k], sha256Hex, saltEnv)), decode, sha256Hex, saltEnv)
            in {U.AlreadyUnsubscribed, U.AskForFeedback}
    ensures decode(subs[k].email).None? ==>
            U.LinkDecision(P.WriteBacks(items, subs, n, ses, sha256Hex, saltEnv), Some(subs[k].email),
                           Some(P.TokenFor(subs[k], sha256Hex, saltEnv)), decode, sha256Hex, saltEnv)
            == U.DecodeFailed
  {
    P.WriteBackStoresLinkToken(items, subs, n, ses, sha256Hex, saltEnv, k);
  }

  /** A new address signs up, confirms, and cannot confirm a second time:
      the confirmation token is consumed. */
  method SignUpAndConfirm(t: Table, email: string, freshToken: string, now: string, domain: string)
    returns (signUp: Response, first: Response, second: Response)
    requires t.Valid() && email !in t.items
    requires email != "" && S.IsValidEmail(email) && freshToken != ""
    modifies t
    ensures signUp == Json(200, S.CheckEmailMessage)
    ensures first.Redirect?
    ensures second == Json(400, S.InvalidConfirmationLink)
    ensures email in t.items && t.items[email].status == Some(Active) && t.items[email].confirmToken.None?
    ensures forall e :: e != email ==> Lookup(t.items, e) == Lookup(old(t.items), e)
  {
    signUp := S.Subscribe(t, Some(S.SubscribeBody(Some(email), None)), None, None, freshToken, now, true);
    first := S.Confirm(t, Some(freshToken), Some(email), now, domain, true);
    second := S.Confirm(t, Some(freshToken), Some(email), now, domain, true);
  }

  /** An active subscriber who unsubscribes through the API and then asks to
      come back is active again, without the reason recorded on the way out. */
  method UnsubscribeAndReturn(t: Table, email: string, reason: string, sha256Hex: string -> string,
                              saltEnv: Option<string>, now: string)
    returns (left: Response, back: Response)
    requires t.Valid() && email in t.items && t.items[email].status == Some(Active) && email != ""
    modifies t
    ensures left == Json(200, U.UnsubscribedMessage)
    ensures back == Json(200, U.ResubscribedMessage)
    ensures email in t.items && t.items[email].status == Some(Active)
    ensures t.items[email].unsubscribeReason.None? && t.items[email].unsubscribeMethod == Some("api")
    ensures t.items[email].unsubscribeToken == old(t.items)[email].unsubscribeToken
  {
    left := U.ApiUnsubscribe(t, Some(U.UnsubscribeBody(Some(email), None, Some(reason), None)), sha256Hex, saltEnv, now);
    back := U.Resubscribe(t, Some(U.ResubscribeBody(Some(email), true)), now, true);
  }

  /** A permanently bounced address refuses both a new sign-up and a
      resubscription, and neither changes its status. */
  method BounceBlocksSignUpAndResubscribe(t: Table, email: string, now: string, freshToken: string)
    returns (signUp: Response, back: Response)
    requires t.Valid() && email != "" && S.IsValidEmail(email)
    modifies t
    ensures email in t.items && t.items[email].status == Some(Bounced)
    ensures signUp == Json(400, S.CannotSubscribeMessage)
    ensures back == Json(400, U.CannotResubscribeMessage)
  {
    var bounce := S.Bounce(S.PermanentBounce, "General", [email]);
    S.PermanentBounceMarksRecipients(t.items, [email], bounce, now, email);
    S.HandleBounce(t, bounce, now);
    signUp := S.Subscribe(t, Some(S.SubscribeBody(Some(email), None)), None, None, freshToken, now, true);
    back := U.Resubscribe(t, Some(U.ResubscribeBody(Some(email), true)), now, true);
  }

  /** The block is not permanent: the unsubscribe API takes a bounced address
      without a token and marks it unsubscribed, and a resubscription then
      makes it active again. */
  method BouncedReturnsThroughApi(t: Table, email: string, now: string, sha256Hex: string -> string,
                                  saltEnv: Option<string>)
    returns (left: Response, back: Response)
    requires t.Valid() && email != "" && S.IsValidEmail(email)
    modifies t
    ensures left == Json(200, U.UnsubscribedMessage)
    ensures back == Json(200, U.ResubscribedMessage)
    ensures email in t.items && t.items[email].status == Some(Active)
    ensures t.items[email].unsubscribeMethod == Some("api")
  {
    var bounce := S.Bounce(S.PermanentBounce, "General", [email]);
    S.PermanentBounceMarksRecipients(t.items, [email], bounce, now, email);
    S.HandleBounce(t, bounce, now);
    left := U.ApiUnsubscribe(t, Some(U.UnsubscribeBody(Some(email), None, None, None)), sha256Hex, saltEnv, now);
    back := U.Resubscribe(t, Some(U.ResubscribeBody(Some(email), true)), now, true);
  }

  /** Nor does a complaint close the confirmation link: a pending address that
      complains keeps its confirmation token, and confirming then makes it
      active, since confirmation does not look at the status. */
  method ComplainedThenConfirmed(t: Table, email: string, freshToken: string, now: string, domain: string)
    returns (signUp: Response, confirm: Response)
    requires t.Valid() && email !in t.items
    requires email != "" && S.IsValidEmail(email) && freshToken != ""
    modifies t
    ensures signUp == Json(200, S.CheckEmailMessage)
    ensures confirm.Redirect?
    ensures email in t.items && t.items[email].status == Some(Active)
  {
    signUp := S.Subscribe(t, Some(S.SubscribeBody(Some(email), None)), None, None, freshToken, now, true);
    var complaint := S.Complaint(None, [email]);
    S.ComplaintMarksRecipients(t.items, [email], complaint, now, email);
    S.HandleComplaint(t, complaint, now);
    confirm := S.Confirm(t, Some(freshToken), Some(email), now, domain, true);
  }
}
