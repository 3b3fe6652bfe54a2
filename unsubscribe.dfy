/**
 * The unsubscribe Lambda: the link handler that e-mails point to (it only
 * decides where to redirect), the handler that performs the unsubscription,
 * the resubscribe handler and the statistics handler.
 *
 * SHA-256 is a parameter `sha256Hex` (the lower-case hex digest of a string);
 * `decodeURIComponent` is a parameter `decode` that yields None where it throws.
 */
module UnsubscribeLambda {
  import opened Wrappers
  import opened Strings
  import opened Store

  // The messages of the JSON responses.
  const EmailRequiredMessage := "Email is required"
  const EmailNotFoundMessage := "Email not found"
  const InvalidTokenMessage := "Invalid token"
  const AlreadyUnsubscribedMessage := "Already unsubscribed"
  const UnsubscribedMessage := "Successfully unsubscribed"
  const ResubscribeFieldsMessage := "Email and confirmation required"
  const NotFoundForResubscribeMessage := "Email not found. Please subscribe as a new user."
  const AlreadySubscribedMessage := "Already subscribed"
  const CannotResubscribeMessage := "This email cannot be resubscribed. Please use a different email address."
  const ResubscribedMessage := "Successfully resubscribed to the newsletter!"
  const ResubscribeFailedMessage := "Failed to resubscribe"

  /** `process.env.UNSUBSCRIBE_SALT || 'default-salt'`, read when the module loads. */
  function Salt(saltEnv: Option<string>): (s: string)
    ensures s != ""
    ensures Truthy(saltEnv) ==> s == saltEnv.value
    ensures !Truthy(saltEnv) ==> s == DefaultSalt
  {
    if Truthy(saltEnv) then saltEnv.value else DefaultSalt
  }

  const DefaultSalt := "default-salt"

  /** The string this module hashes into an unsubscribe token: `email + UNSUBSCRIBE_SALT`. */
  function TokenInput(email: string, saltEnv: Option<string>): (r: string)
    ensures email <= r && EndsWith(r, Salt(saltEnv))
    ensures |r| == |email| + |Salt(saltEnv)|
  {
    email + Salt(saltEnv)
  }

  /** generateUnsubscribeToken: the first 32 hex digits of the hash of `TokenInput`. */
  function GenerateUnsubscribeToken(sha256Hex: string -> string, email: string, saltEnv: Option<string>): (r: string)
    ensures r <= sha256Hex(TokenInput(email, saltEnv)) && |r| <= 32
    ensures |sha256Hex(TokenInput(email, saltEnv))| >= 32 ==> |r| == 32
  {
    Substring0(sha256Hex(TokenInput(email, saltEnv)), 32)
  }

  /** The token a request must carry: the stored one if the item has one, else the generated one. */
  function ExpectedToken(item: Subscriber, email: string, sha256Hex: string -> string, saltEnv: Option<string>): (r: string)
    ensures Truthy(item.unsubscribeToken) ==> r == item.unsubscribeToken.value
    ensures !Truthy(item.unsubscribeToken) ==> r == GenerateUnsubscribeToken(sha256Hex, email, saltEnv)
  {
    if Truthy(item.unsubscribeToken) then item.unsubscribeToken.value
    else GenerateUnsubscribeToken(sha256Hex, email, saltEnv)
  }

  // ---------------------------------------------------------------------------
  // handler: the GET link. It never writes the table.

  /** What the link handler decided, in the order it checks. */
  datatype LinkOutcome = MissingParameter | DecodeFailed | NotFound | BadToken | AlreadyUnsubscribed | AskForFeedback

  /** The decision of the link handler. The item is looked up under the decoded
      address but the token is computed from the address as received. */
  function LinkDecision(items: map<string, Subscriber>, email: Option<string>, token: Option<string>,
                        decode: string -> Option<string>, sha256Hex: string -> string,
                        saltEnv: Option<string>): (r: LinkOutcome)
    ensures r == MissingParameter <==> !Truthy(email) || !Truthy(token)
    ensures r == DecodeFailed <==> Truthy(email) && Truthy(token) && decode(email.value).None?
    ensures r == NotFound <==>
      Truthy(email) && Truthy(token) && decode(email.value).Some? && decode(email.value).value !in items
    ensures r in {BadToken, AlreadyUnsubscribed, AskForFeedback} ==>
      Truthy(email) && Truthy(token) && decode(email.value).Some? && decode(email.value).value in items
    ensures r == BadToken ==> token.value != ExpectedToken(items[decode(email.value).value], email.value, sha256Hex, saltEnv)
    ensures r in {AlreadyUnsubscribed, AskForFeedback} ==>
      token.value == ExpectedToken(items[decode(email.value).value], email.value, sha256Hex, saltEnv) &&
      (r == AlreadyUnsubscribed <==> items[decode(email.value).value].status == Some(Unsubscribed))
  {
    if !Truthy(email) || !Truthy(token) then MissingParameter
    else match decode(email.value)
      case None => DecodeFailed
      case Some(key) =>
        if key !in items then NotFound
        else if token.value != ExpectedToken(items[key], email.value, sha256Hex, saltEnv) then BadToken
        else if items[key].status == Some(Unsubscribed) then AlreadyUnsubscribed
        else AskForFeedback
  }

  function ErrorPage(domain: string, reason: string): Response {
    Redirect("https://" + domain + "/unsubscribe-error?reason=" + reason)
  }

  /** The redirect for each decision; the address and token are copied into the
      target as received. */
  function LinkRedirect(outcome: LinkOutcome, email: Option<string>, token: Option<string>, domain: string): (r: Response)
    requires outcome in {AlreadyUnsubscribed, AskForFeedback} ==> email.Some? && token.Some?
    ensures r.Redirect?
  {
    match outcome
    case MissingParameter => ErrorPage(domain, "invalid")
    case DecodeFailed => ErrorPage(domain, "error")
    case NotFound => ErrorPage(domain, "notfound")
    case BadToken => ErrorPage(domain, "invalid")
    case AlreadyUnsubscribed => Redirect("https://" + domain + "/unsubscribe-success?email=" + email.value)
    case AskForFeedback =>
      Redirect("https://" + domain + "/unsubscribe?email=" + email.value + "&token=" + token.value)
  }

  function UnsubscribeLink(items: map<string, Subscriber>, email: Option<string>, token: Option<string>,
                           decode: string -> Option<string>, sha256Hex: string -> string,
                           saltEnv: Option<string>, domain: string): (r: Response)
    ensures r.Redirect?
  {
    LinkRedirect(LinkDecision(items, email, token, decode, sha256Hex, saltEnv), email, token, domain)
  }

  // ---------------------------------------------------------------------------
  // apiHandler: performs the unsubscription

  datatype UnsubscribeBody = UnsubscribeBody(email: Option<string>, token: Option<string>,
                                             reason: Option<string>, feedback: Option<string>)

  /** The token check: skipped entirely when the request carries no token. */
  predicate TokenAccepted(item: Subscriber, email: string, token: Option<string>,
                          sha256Hex: string -> string, saltEnv: Option<string>) {
    !Truthy(token) || token.value == ExpectedToken(item, email, sha256Hex, saltEnv)
  }

  /** The item after an unsubscription. Reason and feedback are written only when
      given; otherwise what the item held before stays. */
  function UnsubscribedItem(r: Subscriber, viaLink: bool, reason: Option<string>, feedback: Option<string>,
                            now: string): (u: Subscriber)
    ensures u.email == r.email && u.status == Some(Unsubscribed)
    ensures u.unsubscribeMethod == Some(if viaLink then "link" else "api")
    ensures u.unsubscribeReason == (if Truthy(reason) then reason else r.unsubscribeReason)
    ensures u.unsubscribeFeedback == (if Truthy(feedback) then feedback else r.unsubscribeFeedback)
    ensures u.unsubscribeToken == r.unsubscribeToken && u.confirmToken == r.confirmToken
  {
    r.(status := Some(Unsubscribed), unsubscribedAt := Some(now),
       unsubscribeMethod := Some(if viaLink then "link" else "api"),
       unsubscribeReason := if Truthy(reason) then reason else r.unsubscribeReason,
       unsubscribeFeedback := if Truthy(feedback) then feedback else r.unsubscribeFeedback)
  }

  method ApiUnsubscribe(t: Table, body: Option<UnsubscribeBody>, sha256Hex: string -> string,
                        saltEnv: Option<string>, now: string) returns (resp: Response)
    requires t.Valid()
    modifies t
    ensures t.Valid()
    ensures body.None? ==> resp == Json(400, InvalidRequestBody) && t.items == old(t.items)
    ensures body.Some? && !Truthy(body.value.email) ==>
      resp == Json(400, EmailRequiredMessage) && t.items == old(t.items)
    ensures body.Some? && Truthy(body.value.email) ==>
      var b := body.value;
      var e := b.email.value;
      if e !in old(t.items) then
        resp == Json(404, EmailNotFoundMessage) && t.items == old(t.items)
      else if !TokenAccepted(old(t.items)[e], e, b.token, sha256Hex, saltEnv) then
        resp == Json(401, InvalidTokenMessage) && t.items == old(t.items)
      else if old(t.items)[e].status == Some(Unsubscribed) then
        resp == Json(200, AlreadyUnsubscribedMessage) && t.items == old(t.items)
      else
        resp == Json(200, UnsubscribedMessage) &&
        t.items == old(t.items)[e := UnsubscribedItem(old(t.items)[e], Truthy(b.token), b.reason, b.feedback, now)]
  {
    if body.None? {
      return Json(400, InvalidRequestBody);
    }
    var b := body.value;
    if !Truthy(b.email) {
      return Json(400, EmailRequiredMessage);
    }
    var email := b.email.value;
    var item := t.Get(email);
    if item.None? {
      return Json(404, EmailNotFoundMessage);
    }
    if Truthy(b.token) {
      var expected := ExpectedToken(item.value, email, sha256Hex, saltEnv);
      if b.token.value != expected {
        return Json(401, InvalidTokenMessage);
      }
    }
    if item.value.status == Some(Unsubscribed) {
      return Json(200, AlreadyUnsubscribedMessage);
    }
    t.Update(email, r => UnsubscribedItem(r, Truthy(b.token), b.reason, b.feedback, now));
    resp := Json(200, UnsubscribedMessage);
  }

  /** A link the handler sends to the feedback page carries a token that the
      feedback form's unsubscribe request passes, whenever the address in the
      link needs no decoding; the item checked is always the one under the
      decoded address. */
  lemma FeedbackLinkTokenAccepted(items: map<string, Subscriber>, email: string, token: string,
                                  decode: string -> Option<string>, sha256Hex: string -> string,
                                  saltEnv: Option<string>)
    requires LinkDecision(items, Some(email), Some(token), decode, sha256Hex, saltEnv) == AskForFeedback
    ensures decode(email).Some? && decode(email).value in items
    ensures items[decode(email).value].status != Some(Unsubscribed)
    ensures decode(email) == Some(email) ==>
            email in items && TokenAccepted(items[email], email, Some(token), sha256Hex, saltEnv)
  {
  }

  // ---------------------------------------------------------------------------
  // resubscribeHandler

  datatype ResubscribeBody = ResubscribeBody(email: Option<string>, confirmResubscribe: bool)

  /** The item after a resubscription: active again, reason and feedback removed.
      Nothing about the earlier status or a confirmation token is consulted. */
  function Reactivated(r: Subscriber, now: string): (a: Subscriber)
    ensures a.email == r.email && a.status == Some(Active)
    ensures a.unsubscribeReason.None? && a.unsubscribeFeedback.None?
    ensures a.confirmToken == r.confirmToken && a.unsubscribeToken == r.unsubscribeToken
  {
    r.(status := Some(Active), resubscribedAt := Some(now), unsubscribeReason := None, unsubscribeFeedback := None)
  }

  /** `metricsOk` says whether the resubscription metric, recorded after the
      update and not guarded, could be written. */
  method Resubscribe(t: Table, body: Option<ResubscribeBody>, now: string, metricsOk: bool) returns (resp: Response)
    requires t.Valid()
    modifies t
    ensures t.Valid()
    ensures body.None? ==> resp == Json(400, InvalidRequestBody) && t.items == old(t.items)
    ensures body.Some? && (!Truthy(body.value.email) || !body.value.confirmResubscribe) ==>
      resp == Json(400, ResubscribeFieldsMessage) && t.items == old(t.items)
    ensures body.Some? && Truthy(body.value.email) && body.value.confirmResubscribe ==>
      var e := body.value.email.value;
      if e !in old(t.items) then
        resp == Json(404, NotFoundForResubscribeMessage) && t.items == old(t.items)
      else if old(t.items)[e].status == Some(Active) then
        resp == Json(200, AlreadySubscribedMessage) && t.items == old(t.items)
      else if old(t.items)[e].status in {Some(Bounced), Some(Complained)} then
        resp == Json(400, CannotResubscribeMessage) &&
        t.items == old(t.items)
      else
        resp == (if metricsOk then Json(200, ResubscribedMessage) else Json(500, ResubscribeFailedMessage)) &&
        t.items == old(t.items)[e := Reactivated(old(t.items)[e], now)]
  {
    if body.None? {
      return Json(400, InvalidRequestBody);
    }
    var b := body.value;
    if !Truthy(b.email) || !b.confirmResubscribe {
      return Json(400, ResubscribeFieldsMessage);
    }
    var email := b.email.value;
    var item := t.Get(email);
    if item.None? {
      return Json(404, NotFoundForResubscribeMessage);
    }
    if item.value.status == Some(Active) {
      return Json(200, AlreadySubscribedMessage);
    }
    if item.value.status == Some(Bounced) || item.value.status == Some(Complained) {
      return Json(400, CannotResubscribeMessage);
    }
    t.Update(email, r => Reactivated(r, now));
    if !metricsOk {
      return Json(500, ResubscribeFailedMessage);
    }
    resp := Json(200, ResubscribedMessage);
  }

  // ---------------------------------------------------------------------------
  // statsHandler

  /** An item of the second scan, projected to the two attributes it asks for. */
  datatype ReasonItem = ReasonItem(unsubscribeReason: Option<string>, unsubscribeMethod: Option<string>)

  datatype Attribute = Reason | Method

  function Attr(item: ReasonItem, a: Attribute): Option<string> {
    match a
    case Reason => item.unsubscribeReason
    case Method => item.unsubscribeMethod
  }

  /** How many items carry `key` as their (non-empty) attribute `a`. */
  function Tally(items: seq<ReasonItem>, a: Attribute, key: string): nat
    decreases |items|
  {
    if items == [] then 0
    else Tally(items[..|items| - 1], a, key) + (if key != "" && Attr(items[|items| - 1], a) == Some(key) then 1 else 0)
  }

  /** `counts` holds, for every value that occurs, the number of its occurrences, and nothing else. */
  ghost predicate TalliedBy(counts: map<string, nat>, items: seq<ReasonItem>, a: Attribute) {
    forall key :: (key in counts <==> Tally(items, a, key) > 0) &&
                  (key in counts ==> counts[key] == Tally(items, a, key))
  }

  datatype StatsResponse = Unauthorized | Stats(totalUnsubscribed: nat, byReason: map<string, nat>, byMethod: map<string, nat>) {
    function Code(): int {
      if Unauthorized? then 401 else 200
    }
  }

  /** `count` is the result of the counting scan and `scanned` the items of the
      projecting scan; both scans read only their first page. */
  method StatsHandler(apiKey: Option<string>, configuredKey: Option<string>, count: nat,
                      scanned: seq<ReasonItem>) returns (resp: StatsResponse)
    ensures apiKey != configuredKey ==> resp == Unauthorized
    ensures apiKey == configuredKey ==>
      resp.Stats? && resp.totalUnsubscribed == count &&
      TalliedBy(resp.byReason, scanned, Reason) && TalliedBy(resp.byMethod, scanned, Method)
  {
    if apiKey != configuredKey {
      return Unauthorized;
    }
    var reasons: map<string, nat> := map[];
    var methods: map<string, nat> := map[];
    for i := 0 to |scanned|
      invariant TalliedBy(reasons, scanned[..i], Reason)
      invariant TalliedBy(methods, scanned[..i], Method)
    {
      var item := scanned[i];
      assert scanned[..i + 1][..i] == scanned[..i];
      if Truthy(item.unsubscribeReason) {
        var k := item.unsubscribeReason.value;
        reasons := reasons[k := (if k in reasons then reasons[k] else 0) + 1];
      }
      if Truthy(item.unsubscribeMethod) {
        var k := item.unsubscribeMethod.value;
        methods := methods[k := (if k in methods then methods[k] else 0) + 1];
      }
    }
    assert scanned[..|scanned|] == scanned;
    resp := Stats(count, reasons, methods);
  }
}
