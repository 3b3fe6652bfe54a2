/**
 * The subscribe Lambda: the sign-up handler, the confirmation link handler and
 * the handler for the e-mail service's bounce and complaint notifications.
 *
 * Each handler is a method over the shared table. The confirmation token is a
 * parameter (it comes from a random source), so are the clock (`now`) and
 * whether the calls a handler makes after its table write succeed
 * (`sesAccepts`: the sign-up metric and confirmation e-mail, or the welcome
 * e-mail); either failing gives the same 500 answer. Logging is not modelled.
 */
module SubscribeLambda {
  import opened Wrappers
  import opened Strings
  import opened Store

  // The messages of the JSON responses.
  const InvalidEmailMessage := "Invalid email address"
  const InvalidConfirmationLink := "Invalid confirmation link"
  const ConfirmFailedMessage := "Failed to confirm subscription"
  const SesEventFailedMessage := "Failed to process SES event"
  const AlreadySubscribedMessage := "You are already subscribed!"
  const CannotSubscribeMessage := "This email address cannot be subscribed. Please use a different email address."
  const CheckEmailMessage := "Please check your email to confirm your subscription."
  const SubscribeFailedMessage := "Failed to subscribe. Please try again."

  // ---------------------------------------------------------------------------
  // isValidEmail: /^[^\s@]+@[^\s@]+\.[^\s@]+$/

  /** No character of `s` is in the class `[\s@]`. */
  predicate NoSpaceOrAt(s: string) {
    forall k :: 0 <= k < |s| ==> !IsJsSpace(s[k]) && s[k] != '@'
  }

  /** The pattern matches all of `s`, with its '@' at `i` and its escaped dot at `j`. */
  predicate MatchesAt(s: string, i: int, j: int) {
    0 < i && i + 1 < j && j + 1 < |s| && s[i] == '@' && s[j] == '.' &&
    NoSpaceOrAt(s[..i]) && NoSpaceOrAt(s[i + 1..j]) && NoSpaceOrAt(s[j + 1..])
  }

  ghost predicate EmailPattern(s: string) {
    exists i, j :: MatchesAt(s, i, j)
  }

  /** The address check, as the rule it enforces: no white space, exactly one '@'
      with something before it, and after the '@' a '.' that is neither the first
      nor the last character. */
  predicate IsValidEmail(email: string) {
    (forall k | 0 <= k < |email| :: !IsJsSpace(email[k])) &&
    match IndexOf(email, "@")
    case None => false
    case Some(i) =>
      var domain := email[i + 1..];
      0 < i && '@' !in domain && exists j | 1 <= j < |domain| - 1 :: domain[j] == '.'
  }

  lemma AtSign(s: string, k: int)
    ensures OccursAt(s, "@", k) <==> 0 <= k < |s| && s[k] == '@'
  {
    if 0 <= k < |s| && s[k] == '@' { assert s[k..k + 1] == "@"; }
  }

  /** The rule above accepts exactly the addresses the regular expression matches. */
  lemma ValidEmailIffPattern(s: string)
    ensures IsValidEmail(s) <==> EmailPattern(s)
  {
    if IsValidEmail(s) {
      ValidEmailMatches(s);
    }
    if EmailPattern(s) {
      MatchIsValidEmail(s);
    }
  }

  lemma ValidEmailMatches(s: string)
    requires IsValidEmail(s)
    ensures EmailPattern(s)
  {
    var i := IndexOf(s, "@").value;
    var domain := s[i + 1..];
    var j :| 1 <= j < |domain| - 1 && domain[j] == '.';
    forall k | 0 <= k < i ensures s[k] != '@' {
      AtSign(s, k);
    }
    AtSign(s, i);
    assert forall k :: i + 1 <= k < |s| ==> s[k] == domain[k - i - 1];
    assert MatchesAt(s, i, i + 1 + j);
  }

  lemma MatchIsValidEmail(s: string)
    requires EmailPattern(s)
    ensures IsValidEmail(s)
  {
    var i, j :| MatchesAt(s, i, j);
    assert forall k :: 0 <= k < |s| && k != i ==> s[k] != '@' by {
      forall k | 0 <= k < |s| && k != i ensures s[k] != '@' {
        if k < i { assert s[k] == s[..i][k]; }
        else if i < k < j { assert s[k] == s[i + 1..j][k - i - 1]; }
        else if j < k { assert s[k] == s[j + 1..][k - j - 1]; }
      }
    }
    forall k | 0 <= k < |s| ensures !IsJsSpace(s[k]) {
      if k < i { assert s[k] == s[..i][k]; }
      else if i < k < j { assert s[k] == s[i + 1..j][k - i - 1]; }
      else if j < k { assert s[k] == s[j + 1..][k - j - 1]; }
    }
    AtSign(s, i);
    var v := IndexOf(s, "@").value;
    AtSign(s, v);
    assert v == i;
    var domain := s[i + 1..];
    assert domain[j - i - 1] == '.';
    assert '@' !in domain by {
      forall k | 0 <= k < |domain| ensures domain[k] != '@' {
        assert domain[k] == s[i + 1 + k];
      }
    }
  }

  // ---------------------------------------------------------------------------
  // handler: sign-up

  datatype SubscribeBody = SubscribeBody(email: Option<string>, name: Option<string>)

  /** The address is present, not empty, and passes the check. */
  predicate AcceptableEmail(email: Option<string>) {
    Truthy(email) && IsValidEmail(email.value)
  }

  /** The item written for a new or returning subscriber: it replaces the whole
      stored item, so earlier tokens, counters and reasons are dropped. */
  function PendingItem(email: string, name: Option<string>, confirmToken: string, now: string,
                       userAgent: Option<string>, ip: Option<string>): (r: Subscriber)
    ensures r.email == email && r.status == Some(Pending) && r.confirmToken == Some(confirmToken)
    ensures r.name == Some(name.GetOr("")) && r.tags == Some(["general"])
    ensures r.unsubscribeToken.None? && r.transientBounceCount.None? && r.unsubscribeReason.None?
  {
    Bare(email).(name := Some(name.GetOr("")), status := Some(Pending),
                 confirmToken := Some(confirmToken), subscribedAt := Some(now),
                 source := Some("website"), tags := Some(["general"]),
                 metadata := Some(Metadata(userAgent.GetOr(""), ip.GetOr(""))))
  }

  /** Whether a stored item makes sign-up refuse the address (bounced or complained). */
  predicate Blocked(item: Option<Subscriber>) {
    item.Some? && (item.value.status == Some(Bounced) || item.value.status == Some(Complained))
  }

  predicate AlreadyActive(item: Option<Subscriber>) {
    item.Some? && item.value.status == Some(Active)
  }

  /** The outcome of a sign-up with an acceptable address: an active or blocked
      address is left alone; any other (new, pending, unsubscribed) gets a
      fresh pending item, whether or not the confirmation e-mail then goes out. */
  ghost predicate SignedUp(before: map<string, Subscriber>, after: map<string, Subscriber>, email: string,
                           name: Option<string>, userAgent: Option<string>, ip: Option<string>,
                           freshToken: string, now: string, sesAccepts: bool, resp: Response) {
    var prior := Lookup(before, email);
    if AlreadyActive(prior) then
      resp == Json(200, AlreadySubscribedMessage) && after == before
    else if Blocked(prior) then
      resp == Json(400, CannotSubscribeMessage) &&
      after == before
    else
      after == before[email := PendingItem(email, name, freshToken, now, userAgent, ip)] &&
      resp == (if sesAccepts then Json(200, CheckEmailMessage)
               else Json(500, SubscribeFailedMessage))
  }

  /** subscribeHandler. */
  method Subscribe(t: Table, body: Option<SubscribeBody>, userAgent: Option<string>, ip: Option<string>,
                   freshToken: string, now: string, sesAccepts: bool) returns (resp: Response)
    requires t.Valid()
    modifies t
    ensures t.Valid()
    ensures body.None? ==> resp == Json(400, InvalidRequestBody) && t.items == old(t.items)
    ensures body.Some? && !AcceptableEmail(body.value.email) ==>
      resp == Json(400, InvalidEmailMessage) && t.items == old(t.items)
    ensures body.Some? && AcceptableEmail(body.value.email) ==>
      SignedUp(old(t.items), t.items, body.value.email.value, body.value.name, userAgent, ip,
               freshToken, now, sesAccepts, resp)
  {
    if body.None? {
      return Json(400, InvalidRequestBody);
    }
    var email := body.value.email;
    if !Truthy(email) || !IsValidEmail(email.value) {
      return Json(400, InvalidEmailMessage);
    }
    resp := SignUp(t, email.value, body.value.name, userAgent, ip, freshToken, now, sesAccepts);
  }

  /** The part of subscribeHandler after the address check. */
  method SignUp(t: Table, email: string, name: Option<string>, userAgent: Option<string>, ip: Option<string>,
                freshToken: string, now: string, sesAccepts: bool) returns (resp: Response)
    requires t.Valid()
    modifies t
    ensures t.Valid()
    ensures SignedUp(old(t.items), t.items, email, name, userAgent, ip, freshToken, now, sesAccepts, resp)
  {
    var existing := t.Get(email);
    if existing.Some? && existing.value.status == Some(Active) {
      return Json(200, AlreadySubscribedMessage);
    }
    if existing.Some? && (existing.value.status == Some(Bounced) || existing.value.status == Some(Complained)) {
      return Json(400, CannotSubscribeMessage);
    }
    t.Put(PendingItem(email, name, freshToken, now, userAgent, ip));
    if !sesAccepts {
      return Json(500, SubscribeFailedMessage);
    }
    resp := Json(200, CheckEmailMessage);
  }

  // ---------------------------------------------------------------------------
  // confirmHandler

  /** The item after its confirmation link was followed. The status is not
      consulted: any item with a matching token becomes active. */
  function Confirmed(r: Subscriber, now: string): (c: Subscriber)
    ensures c.email == r.email && c.status == Some(Active) && c.confirmToken.None?
    ensures c.unsubscribeToken == r.unsubscribeToken && c.confirmedAt == Some(now)
  {
    r.(status := Some(Active), confirmedAt := Some(now), confirmToken := None)
  }

  method Confirm(t: Table, token: Option<string>, email: Option<string>, now: string,
                 domain: string, sesAccepts: bool) returns (resp: Response)
    requires t.Valid()
    modifies t
    ensures t.Valid()
    ensures !Truthy(token) || !Truthy(email) ==>
      resp == Json(400, InvalidConfirmationLink) && t.items == old(t.items)
    ensures Truthy(token) && Truthy(email) ==>
      var e := email.value;
      if e !in old(t.items) || old(t.items)[e].confirmToken != token then
        resp == Json(400, InvalidConfirmationLink) && t.items == old(t.items)
      else
        t.items == old(t.items)[e := Confirmed(old(t.items)[e], now)] &&
        resp == (if sesAccepts then Redirect("https://" + domain + "/subscribed?success=true")
                 else Json(500, ConfirmFailedMessage))
  {
    if !Truthy(token) || !Truthy(email) {
      return Json(400, InvalidConfirmationLink);
    }
    var item := t.Get(email.value);
    if item.None? || item.value.confirmToken != token {
      return Json(400, InvalidConfirmationLink);
    }
    t.Update(email.value, r => Confirmed(r, now));
    if !sesAccepts {
      return Json(500, ConfirmFailedMessage);
    }
    resp := Redirect("https://" + domain + "/subscribed?success=true");
  }

  // ---------------------------------------------------------------------------
  // sesEventHandler, handleBounceEvent, handleComplaintEvent

  /** The two bounce types the handler acts on. */
  const PermanentBounce := "Permanent"
  const TransientBounce := "Transient"

  datatype Bounce = Bounce(bounceType: string, bounceSubType: string, recipients: seq<string>)

  datatype Complaint = Complaint(feedbackType: Option<string>, recipients: seq<string>)

  /** The notification carried by the SNS record, once parsed. */
  datatype SesMessage = SesMessage(eventType: Option<string>, notificationType: Option<string>,
                                   bounce: Option<Bounce>, complaint: Option<Complaint>)

  /** `eventType`, or `notificationType` when that is missing or empty. */
  function EventType(m: SesMessage): (r: Option<string>)
    ensures Truthy(m.eventType) ==> r == m.eventType
    ensures !Truthy(m.eventType) ==> r == m.notificationType
  {
    if Truthy(m.eventType) then m.eventType else m.notificationType
  }

  function MarkBounced(r: Subscriber, b: Bounce, now: string): (m: Subscriber)
    ensures m.email == r.email && m.status == Some(Bounced)
  {
    r.(status := Some(Bounced), bouncedAt := Some(now),
       bounceType := Some(b.bounceType), bounceSubType := Some(b.bounceSubType))
  }

  /** `transientBounceCount = if_not_exists(transientBounceCount, 0) + 1`. */
  function CountTransient(r: Subscriber, now: string): (m: Subscriber)
    ensures m.email == r.email && m.status == r.status
    ensures m.transientBounceCount == Some(r.transientBounceCount.GetOr(0) + 1)
  {
    r.(transientBounceCount := Some(r.transientBounceCount.GetOr(0) + 1),
       lastTransientBounce := Some(now))
  }

  function FeedbackType(c: Complaint): string {
    if Truthy(c.feedbackType) then c.feedbackType.value else "not-specified"
  }

  function MarkComplained(r: Subscriber, c: Complaint, now: string): (m: Subscriber)
    ensures m.email == r.email && m.status == Some(Complained)
    ensures m.complaintFeedbackType == Some(FeedbackType(c))
  {
    r.(status := Some(Complained), complainedAt := Some(now),
       complaintFeedbackType := Some(FeedbackType(c)))
  }

  /** The table after one bounced recipient: permanent bounces mark the item,
      transient ones count, any other type changes nothing. */
  function BounceOne(items: map<string, Subscriber>, email: string, b: Bounce, now: string): map<string, Subscriber> {
    if b.bounceType == PermanentBounce then items[email := MarkBounced(Current(items, email), b, now)]
    else if b.bounceType == TransientBounce then items[email := CountTransient(Current(items, email), now)]
    else items
  }

  /** The table after the recipients `rs` were processed in order. */
  function BounceAll(items: map<string, Subscriber>, rs: seq<string>, b: Bounce, now: string): map<string, Subscriber>
    decreases |rs|
  {
    if rs == [] then items else BounceOne(BounceAll(items, rs[..|rs| - 1], b, now), rs[|rs| - 1], b, now)
  }

  function ComplainAll(items: map<string, Subscriber>, rs: seq<string>, c: Complaint, now: string): map<string, Subscriber>
    decreases |rs|
  {
    if rs == [] then items
    else
      var before := ComplainAll(items, rs[..|rs| - 1], c, now);
      before[rs[|rs| - 1] := MarkComplained(Current(before, rs[|rs| - 1]), c, now)]
  }

  /** A permanent bounce marks every recipient bounced, whatever its item held,
      and creates an item for an unknown address; no one else is touched. */
  lemma {:induction false} PermanentBounceMarksRecipients(items: map<string, Subscriber>, rs: seq<string>,
                                                          b: Bounce, now: string, e: string)
    requires b.bounceType == PermanentBounce
    ensures e in rs ==> e in BounceAll(items, rs, b, now) &&
                        BounceAll(items, rs, b, now)[e] == MarkBounced(Current(items, e), b, now)
    ensures e !in rs ==> Lookup(BounceAll(items, rs, b, now), e) == Lookup(items, e)
  {
    if rs != [] {
      var init := rs[..|rs| - 1];
      assert rs == init + [rs[|rs| - 1]];
      PermanentBounceMarksRecipients(items, init, b, now, e);
    }
  }

  /** The item after `n` transient bounces counted on `r`. */
  function CountedTimes(r: Subscriber, n: nat, now: string): Subscriber {
    r.(transientBounceCount := Some(r.transientBounceCount.GetOr(0) + n), lastTransientBounce := Some(now))
  }

  /** A transient bounce adds to each recipient's counter the number of times it
      is listed, starting from zero, and leaves its status as it was. */
  lemma {:induction false} TransientBounceCountsRecipients(items: map<string, Subscriber>, rs: seq<string>,
                                                           b: Bounce, now: string, e: string)
    requires b.bounceType == TransientBounce && e in rs
    ensures e in BounceAll(items, rs, b, now)
    ensures BounceAll(items, rs, b, now)[e] == CountedTimes(Current(items, e), multiset(rs)[e], now)
  {
    var init := rs[..|rs| - 1];
    var last := rs[|rs| - 1];
    var before := BounceAll(items, init, b, now);
    CountLast(rs, e);
    if e == last {
      if e in init {
        TransientBounceCountsRecipients(items, init, b, now, e);
      } else {
        TransientBounceLeavesOthers(items, init, b, now, e);
        assert Current(before, e) == Current(items, e);
      }
    } else {
      TransientBounceCountsRecipients(items, init, b, now, e);
    }
  }

  /** The number of times `e` is listed, split at the last entry. */
  lemma CountLast(rs: seq<string>, e: string)
    requires rs != []
    ensures multiset(rs)[e] == multiset(rs[..|rs| - 1])[e] + (if rs[|rs| - 1] == e then 1 else 0)
    ensures e in rs <==> e in rs[..|rs| - 1] || rs[|rs| - 1] == e
    ensures e !in rs[..|rs| - 1] ==> multiset(rs[..|rs| - 1])[e] == 0
  {
    assert rs == rs[..|rs| - 1] + [rs[|rs| - 1]];
  }

  /** ... and leaves every address it does not list as it was. */
  lemma {:induction false} TransientBounceLeavesOthers(items: map<string, Subscriber>, rs: seq<string>,
                                                       b: Bounce, now: string, e: string)
    requires b.bounceType == TransientBounce && e !in rs
    ensures Lookup(BounceAll(items, rs, b, now), e) == Lookup(items, e)
  {
    if rs != [] {
      assert e !in rs[..|rs| - 1];
      TransientBounceLeavesOthers(items, rs[..|rs| - 1], b, now, e);
    }
  }

  /** A bounce of any other type ("Undetermined") changes nothing. */
  lemma {:induction false} OtherBounceChangesNothing(items: map<string, Subscriber>, rs: seq<string>,
                                                     b: Bounce, now: string)
    requires b.bounceType != PermanentBounce && b.bounceType != TransientBounce
    ensures BounceAll(items, rs, b, now) == items
  {
    if rs != [] {
      OtherBounceChangesNothing(items, rs[..|rs| - 1], b, now);
    }
  }

  /** A complaint marks every recipient complained; no one else is touched. */
  lemma {:induction false} ComplaintMarksRecipients(items: map<string, Subscriber>, rs: seq<string>,
                                                    c: Complaint, now: string, e: string)
    ensures e in rs ==> e in ComplainAll(items, rs, c, now) &&
                        ComplainAll(items, rs, c, now)[e] == MarkComplained(Current(items, e), c, now)
    ensures e !in rs ==> Lookup(ComplainAll(items, rs, c, now), e) == Lookup(items, e)
  {
    if rs != [] {
      var init := rs[..|rs| - 1];
      assert rs == init + [rs[|rs| - 1]];
      ComplaintMarksRecipients(items, init, c, now, e);
    }
  }

  method HandleBounce(t: Table, b: Bounce, now: string)
    requires t.Valid()
    modifies t
    ensures t.Valid()
    ensures t.items == BounceAll(old(t.items), b.recipients, b, now)
  {
    for i := 0 to |b.recipients|
      invariant t.Valid()
      invariant t.items == BounceAll(old(t.items), b.recipients[..i], b, now)
    {
      var email := b.recipients[i];
      assert b.recipients[..i + 1][..i] == b.recipients[..i];
      if b.bounceType == PermanentBounce {
        t.Update(email, r => MarkBounced(r, b, now));
      } else if b.bounceType == TransientBounce {
        t.Update(email, r => CountTransient(r, now));
      }
    }
    assert b.recipients[..|b.recipients|] == b.recipients;
  }

  method HandleComplaint(t: Table, c: Complaint, now: string)
    requires t.Valid()
    modifies t
    ensures t.Valid()
    ensures t.items == ComplainAll(old(t.items), c.recipients, c, now)
  {
    for i := 0 to |c.recipients|
      invariant t.Valid()
      invariant t.items == ComplainAll(old(t.items), c.recipients[..i], c, now)
    {
      assert c.recipients[..i + 1][..i] == c.recipients[..i];
      t.Update(c.recipients[i], r => MarkComplained(r, c, now));
    }
    assert c.recipients[..|c.recipients|] == c.recipients;
  }

  /** `message` is None when the SNS payload is not valid JSON. A bounce or
      complaint notification without its bounce or complaint object fails. */
  method SesEvent(t: Table, message: Option<SesMessage>, now: string) returns (resp: Response)
    requires t.Valid()
    modifies t
    ensures t.Valid()
    ensures message.None? ==> resp == Json(500, SesEventFailedMessage) && t.items == old(t.items)
    ensures message.Some? ==>
      var m := message.value;
      if EventType(m) == Some("Bounce") then
        if m.bounce.None? then resp == Json(500, SesEventFailedMessage) && t.items == old(t.items)
        else resp == Json(200, "") && t.items == BounceAll(old(t.items), m.bounce.value.recipients, m.bounce.value, now)
      else if EventType(m) == Some("Complaint") then
        if m.complaint.None? then resp == Json(500, SesEventFailedMessage) && t.items == old(t.items)
        else resp == Json(200, "") && t.items == ComplainAll(old(t.items), m.complaint.value.recipients, m.complaint.value, now)
      else
        resp == Json(200, "") && t.items == old(t.items)
  {
    if message.None? {
      return Json(500, SesEventFailedMessage);
    }
    var m := message.value;
    var eventType := EventType(m);
    if eventType == Some("Bounce") {
      if m.bounce.None? {
        return Json(500, SesEventFailedMessage);
      }
      HandleBounce(t, m.bounce.value, now);
    } else if eventType == Some("Complaint") {
      if m.complaint.None? {
        return Json(500, SesEventFailedMessage);
      }
      HandleComplaint(t, m.complaint.value, now);
    }
    resp := Json(200, "");
  }
}
