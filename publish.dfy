/**
 * The publish Lambda: reads the active subscribers page by page, and sends a
 * newsletter either to one test address or to every subscriber in batches of
 * 50, writing back the unsubscribe token of subscribers that had none.
 *
 * SES is an oracle `ses`: `ses(k)` is the outcome of the send to the k-th
 * subscriber. A scan is the sequence of pages DynamoDB returns in turn.
 */
module PublishLambda {
  import opened Wrappers
  import opened Strings
  import opened Store
  import opened PublishContent

  // The messages of the JSON responses.
  const UnauthorizedMessage := "Unauthorized"
  const MissingFieldsMessage := "Missing required fields: subject and htmlContent"
  const TestEmailRequiredMessage := "Test email required in test mode"
  const PublishFailedMessage := "Failed to publish newsletter"

  const BatchSize: nat := 50

  // ---------------------------------------------------------------------------
  // generateUnsubscribeToken (this module's own)

  /** The string this module hashes: `email + UNSUBSCRIBE_SALT || 'default-salt'`.
      The concatenation binds first, so an unset salt is appended as the text
      `undefined`, and the default is used only when both parts are empty. */
  function PublishTokenInput(email: string, saltEnv: Option<string>): (r: string)
    ensures r != ""
    ensures saltEnv.None? ==> r == email + "undefined"
    ensures saltEnv.Some? && email + saltEnv.value != "" ==> r == email + saltEnv.value
    ensures saltEnv == Some("") && email == "" ==> r == "default-salt"
  {
    var joined := email + (if saltEnv.Some? then saltEnv.value else "undefined");
    if joined != "" then joined else "default-salt"
  }

  function GeneratePublishToken(sha256Hex: string -> string, email: string, saltEnv: Option<string>): (r: string)
    ensures r <= sha256Hex(PublishTokenInput(email, saltEnv)) && |r| <= 32
    ensures |sha256Hex(PublishTokenInput(email, saltEnv))| >= 32 ==> |r| == 32
  {
    Substring0(sha256Hex(PublishTokenInput(email, saltEnv)), 32)
  }

  /** `subscriber.unsubscribeToken || generateUnsubscribeToken(subscriber.email)`. */
  function TokenFor(sub: Subscriber, sha256Hex: string -> string, saltEnv: Option<string>): (r: string)
    ensures Truthy(sub.unsubscribeToken) ==> r == sub.unsubscribeToken.value
    ensures !Truthy(sub.unsubscribeToken) ==> r == GeneratePublishToken(sha256Hex, sub.email, saltEnv)
  {
    if Truthy(sub.unsubscribeToken) then sub.unsubscribeToken.value
    else GeneratePublishToken(sha256Hex, sub.email, saltEnv)
  }

  // ---------------------------------------------------------------------------
  // getActiveSubscribers

  /** One response of `scan`: the matching items of a page and, unless it is the
      last page, the key to continue from. */
  datatype ScanPage = ScanPage(items: seq<Subscriber>, lastEvaluatedKey: Option<string>)

  /** The items of the pages, in order. */
  function Concat(pages: seq<ScanPage>): (r: seq<Subscriber>)
    decreases |pages|
  {
    if pages == [] then [] else Concat(pages[..|pages| - 1]) + pages[|pages| - 1].items
  }

  /** The scan ends: some page comes without a key to continue from. */
  predicate HasFinalPage(pages: seq<ScanPage>) {
    exists k | 0 <= k < |pages| :: pages[k].lastEvaluatedKey.None?
  }

  /** The first page without a key to continue from, at or after `from`. */
  function FinalPageFrom(pages: seq<ScanPage>, from: nat): (k: nat)
    requires exists k | from <= k < |pages| :: pages[k].lastEvaluatedKey.None?
    decreases |pages| - from
    ensures from <= k < |pages| && pages[k].lastEvaluatedKey.None?
    ensures forall j :: from <= j < k ==> pages[j].lastEvaluatedKey.Some?
  {
    if pages[from].lastEvaluatedKey.None? then from else FinalPageFrom(pages, from + 1)
  }

  /** The subscribers the scan returns: the pages up to the first one without a key. */
  function ActiveSubscribers(pages: seq<ScanPage>): seq<Subscriber>
    requires HasFinalPage(pages)
  {
    Concat(pages[..FinalPageFrom(pages, 0) + 1])
  }

  /** getActiveSubscribers: a do-while loop that reads pages until one comes
      without `LastEvaluatedKey`, collecting their items in order. */
  method GetActiveSubscribers(pages: seq<ScanPage>) returns (subs: seq<Subscriber>)
    requires HasFinalPage(pages)
    ensures subs == ActiveSubscribers(pages)
  {
    ghost var last := FinalPageFrom(pages, 0);
    subs := [];
    var read := 0;
    var more := true;
    while more
      invariant 0 <= read <= last + 1
      invariant more <==> read <= last
      invariant subs == Concat(pages[..read])
      decreases last + 1 - read
    {
      var page := pages[read];
      assert pages[..read + 1][..read] == pages[..read];
      subs := subs + page.items;
      more := page.lastEvaluatedKey.Some?;
      read := read + 1;
    }
  }

  // ---------------------------------------------------------------------------
  // the batch partition

  /** `subscribers.slice(i, i + 50)` for i = 0, 50, 100, … while i < length:
      no batch is empty and none holds more than 50. */
  function Batches<T>(s: seq<T>): (bs: seq<seq<T>>)
    decreases |s|
    ensures forall b :: 0 <= b < |bs| ==> 1 <= |bs[b]| <= BatchSize
    ensures s == [] <==> bs == []
  {
    if s == [] then []
    else if |s| <= BatchSize then [s]
    else [s[..BatchSize]] + Batches(s[BatchSize..])
  }

  function Flatten<T>(bs: seq<seq<T>>): seq<T> {
    if bs == [] then [] else bs[0] + Flatten(bs[1..])
  }

  /** The batches cover the list exactly once, in order; each holds 1 to 50
      subscribers, all but the last exactly 50, and there are ceil(n/50) of them. */
  lemma {:induction false} BatchesPartition<T>(s: seq<T>)
    ensures Flatten(Batches(s)) == s
    ensures |Batches(s)| == (|s| + BatchSize - 1) / BatchSize
    ensures forall b :: 0 <= b < |Batches(s)| ==> 1 <= |Batches(s)[b]| <= BatchSize
    ensures forall b :: 0 <= b < |Batches(s)| - 1 ==> |Batches(s)[b]| == BatchSize
  {
    if |s| > BatchSize {
      BatchesPartition(s[BatchSize..]);
      var bs := Batches(s);
      assert bs[1..] == Batches(s[BatchSize..]);
      assert s[..BatchSize] + s[BatchSize..] == s;
    }
  }

  /** Batch `b` is the slice starting at `50 * b`. */
  lemma {:induction false} BatchAt<T>(s: seq<T>, b: nat)
    requires b * BatchSize < |s|
    ensures b < |Batches(s)|
    ensures Batches(s)[b] == s[b * BatchSize..Min(b * BatchSize + BatchSize, |s|)]
  {
    if b > 0 {
      var lo := (b - 1) * BatchSize;
      BatchAt(s[BatchSize..], b - 1);
      assert lo + BatchSize == b * BatchSize;
      SliceOfSuffix(s, BatchSize, lo, Min(lo + BatchSize, |s| - BatchSize));
    }
  }

  lemma SliceOfSuffix<T>(s: seq<T>, d: nat, lo: nat, hi: nat)
    requires d <= |s| && lo <= hi <= |s| - d
    ensures s[d..][lo..hi] == s[d + lo..d + hi]
  {
  }

  function Min(a: int, b: int): int {
    if a < b then a else b
  }

  // ---------------------------------------------------------------------------
  // sendBulkEmails

  datatype SendOutcome = Delivered | Rejected(message: string)

  datatype SendError = SendError(email: string, error: string)

  /** The message handed to SES; `text` is the plain-text body it receives. */
  datatype OutgoingEmail = OutgoingEmail(to: string, subject: string, html: string, text: string)

  /** sendEmail: an empty plain-text body is replaced by the stripped HTML body. */
  function Email(to: string, subject: string, html: string, text: string): (m: OutgoingEmail)
    ensures m.to == to && m.subject == subject && m.html == html
    ensures text != "" ==> m.text == text
    ensures text == "" ==> m.text == StripHtml(html)
  {
    OutgoingEmail(to, subject, html, if text != "" then text else StripHtml(html))
  }

  /** Without a text part, a body with no markup, no entity and no white space
      at its ends is sent as its own plain text. */
  lemma PlainBodyIsItsOwnText(to: string, subject: string, html: string)
    requires '<' !in html && '&' !in html
    requires html != [] ==> !IsJsSpace(html[0]) && !IsJsSpace(html[|html| - 1])
    ensures Email(to, subject, html, "").text == html
  {
    StripHtmlKeepsPlainText(html);
  }

  /** What every newsletter of one send has in common: the content, and the
      salt, hash and domain its unsubscribe links are built from. */
  datatype Campaign = Campaign(subject: string, html: string, text: string,
                               sha256Hex: string -> string, saltEnv: Option<string>, domain: string)

  /** The newsletter one subscriber receives: personalised, with a footer that
      carries their unsubscribe link with the token written back for them (or
      already stored). */
  function Newsletter(sub: Subscriber, c: Campaign): (m: OutgoingEmail)
    ensures m.to == sub.email && m.subject == c.subject
    ensures Contains(m.html, UnsubscribeUrl(c.domain, sub.email, TokenFor(sub, c.sha256Hex, c.saltEnv)))
    ensures c.text == "" ==> m.text == StripHtml(m.html)
  {
    Email(sub.email, c.subject,
          AddNewsletterFooter(PersonalizeContent(Some(c.html), sub), c.domain, sub.email,
                              TokenFor(sub, c.sha256Hex, c.saltEnv)),
          PersonalizeContent(Some(c.text), sub))
  }

  /** The errors of the first `n` sends, in order: one per rejected send. */
  function Failures(subs: seq<Subscriber>, n: nat, ses: nat -> SendOutcome): (errs: seq<SendError>)
    requires n <= |subs|
    ensures |errs| <= n
  {
    if n == 0 then []
    else Failures(subs, n - 1, ses) +
         (if ses(n - 1).Rejected? then [SendError(subs[n - 1].email, ses(n - 1).message)] else [])
  }

  /** Every rejected send leaves exactly its own error, and nothing else does. */
  lemma {:induction false} FailuresAreRejections(subs: seq<Subscriber>, n: nat, ses: nat -> SendOutcome)
    requires n <= |subs|
    ensures forall k :: 0 <= k < n && ses(k).Rejected? ==> SendError(subs[k].email, ses(k).message) in Failures(subs, n, ses)
    ensures forall e :: e in Failures(subs, n, ses) ==>
      exists k :: 0 <= k < n && ses(k).Rejected? && e == SendError(subs[k].email, ses(k).message)
  {
    if n > 0 {
      FailuresAreRejections(subs, n - 1, ses);
    }
  }

  /** The table after the token write-backs of the first `n` sends. */
  function WriteBacks(items: map<string, Subscriber>, subs: seq<Subscriber>, n: nat, ses: nat -> SendOutcome,
                      sha256Hex: string -> string, saltEnv: Option<string>): (r: map<string, Subscriber>)
    requires n <= |subs|
    ensures items.Keys <= r.Keys
  {
    if n == 0 then items
    else
      var prev := WriteBacks(items, subs, n - 1, ses, sha256Hex, saltEnv);
      var sub := subs[n - 1];
      if ses(n - 1).Delivered? && !Truthy(sub.unsubscribeToken) then
        prev[sub.email := Current(prev, sub.email).(unsubscribeToken := Some(TokenFor(sub, sha256Hex, saltEnv)))]
      else prev
  }

  /** The write-backs keep the table keyed, change nothing but unsubscribe
      tokens, and touch only subscribers that had no token and whose send
      succeeded. */
  lemma {:induction false} WriteBacksOnlySetTokens(items: map<string, Subscriber>, subs: seq<Subscriber>, n: nat,
                                                   ses: nat -> SendOutcome, sha256Hex: string -> string,
                                                   saltEnv: Option<string>, e: string)
    requires n <= |subs| && Keyed(items)
    ensures Keyed(WriteBacks(items, subs, n, ses, sha256Hex, saltEnv))
    ensures var r := WriteBacks(items, subs, n, ses, sha256Hex, saltEnv);
            e in r ==> r[e] == Current(items, e).(unsubscribeToken := r[e].unsubscribeToken)
    ensures var r := WriteBacks(items, subs, n, ses, sha256Hex, saltEnv);
            e in r && (e !in items || r[e] != items[e]) ==>
              exists k :: 0 <= k < n && subs[k].email == e && ses(k).Delivered? && !Truthy(subs[k].unsubscribeToken)
  {
    WriteBacksKeepKeyed(items, subs, n, ses, sha256Hex, saltEnv);
    WriteBacksOnlyTokens(items, subs, n, ses, sha256Hex, saltEnv, e);
    WriteBacksOnlyDelivered(items, subs, n, ses, sha256Hex, saltEnv, e);
  }

  lemma {:induction false} WriteBacksKeepKeyed(items: map<string, Subscriber>, subs: seq<Subscriber>, n: nat,
                                               ses: nat -> SendOutcome, sha256Hex: string -> string,
                                               saltEnv: Option<string>)
    requires n <= |subs| && Keyed(items)
    ensures Keyed(WriteBacks(items, subs, n, ses, sha256Hex, saltEnv))
  {
    if n > 0 {
      WriteBacksKeepKeyed(items, subs, n - 1, ses, sha256Hex, saltEnv);
    }
  }

  lemma {:induction false} WriteBacksOnlyTokens(items: map<string, Subscriber>, subs: seq<Subscriber>, n: nat,
                                                ses: nat -> SendOutcome, sha256Hex: string -> string,
                                                saltEnv: Option<string>, e: string)
    requires n <= |subs|
    ensures var r := WriteBacks(items, subs, n, ses, sha256Hex, saltEnv);
            e in r ==> r[e] == Current(items, e).(unsubscribeToken := r[e].unsubscribeToken)
  {
    if n > 0 {
      WriteBacksOnlyTokens(items, subs, n - 1, ses, sha256Hex, saltEnv, e);
      var prev := WriteBacks(items, subs, n - 1, ses, sha256Hex, saltEnv);
      var sub := subs[n - 1];
      if ses(n - 1).Delivered? && !Truthy(sub.unsubscribeToken) && sub.email == e {
        var base := Current(items, e);
        assert Current(prev, e) == base.(unsubscribeToken := Current(prev, e).unsubscribeToken);
      }
    }
  }

  lemma {:induction false} WriteBacksOnlyDelivered(items: map<string, Subscriber>, subs: seq<Subscriber>, n: nat,
                                                   ses: nat -> SendOutcome, sha256Hex: string -> string,
                                                   saltEnv: Option<string>, e: string)
    requires n <= |subs|
    ensures var r := WriteBacks(items, subs, n, ses, sha256Hex, saltEnv);
            e in r && (e !in items || r[e] != items[e]) ==>
              exists k :: 0 <= k < n && subs[k].email == e && ses(k).Delivered? && !Truthy(subs[k].unsubscribeToken)
  {
    if n > 0 {
      WriteBacksOnlyDelivered(items, subs, n - 1, ses, sha256Hex, saltEnv, e);
      var prev := WriteBacks(items, subs, n - 1, ses, sha256Hex, saltEnv);
      var r := WriteBacks(items, subs, n, ses, sha256Hex, saltEnv);
      if e in r && (e !in items || r[e] != items[e]) && !(e in prev && (e !in items || prev[e] != items[e])) {
        assert subs[n - 1].email == e && ses(n - 1).Delivered? && !Truthy(subs[n - 1].unsubscribeToken);
      }
    }
  }

  /** When the addresses are distinct, a successful send to a subscriber without
      a token stores exactly the token its link carried. */
  lemma {:induction false} WriteBackStoresLinkToken(items: map<string, Subscriber>, subs: seq<Subscriber>, n: nat,
                                                    ses: nat -> SendOutcome, sha256Hex: string -> string,
                                                    saltEnv: Option<string>, k: nat)
    requires n <= |subs| && k < n
    requires forall a, b :: 0 <= a < b < |subs| ==> subs[a].email != subs[b].email
    requires ses(k).Delivered? && !Truthy(subs[k].unsubscribeToken)
    ensures subs[k].email in WriteBacks(items, subs, n, ses, sha256Hex, saltEnv)
    ensures WriteBacks(items, subs, n, ses, sha256Hex, saltEnv)[subs[k].email].unsubscribeToken ==
            Some(TokenFor(subs[k], sha256Hex, saltEnv))
  {
    if k < n - 1 {
      WriteBackStoresLinkToken(items, subs, n - 1, ses, sha256Hex, saltEnv, k);
    }
  }

  datatype BulkResult = BulkResult(success: nat, failed: nat, errors: seq<SendError>)

  /** What the sends so far have produced: the counts and errors, the messages
      handed to SES, and the table after the token write-backs. */
  datatype Progress = Progress(res: BulkResult, outbox: seq<OutgoingEmail>, items: map<string, Subscriber>)

  /** The send of `mail` to one subscriber: the message goes out, the outcome
      is counted, and on success a missing token is written back. */
  function SendStep(p: Progress, sub: Subscriber, mail: OutgoingEmail, outcome: SendOutcome, c: Campaign): Progress {
    var outbox := p.outbox + [mail];
    match outcome
    case Delivered =>
      var items :=
        if Truthy(sub.unsubscribeToken) then p.items
        else p.items[sub.email := Current(p.items, sub.email).(unsubscribeToken := Some(TokenFor(sub, c.sha256Hex, c.saltEnv)))];
      Progress(p.res.(success := p.res.success + 1), outbox, items)
    case Rejected(message) =>
      Progress(p.res.(failed := p.res.failed + 1, errors := p.res.errors + [SendError(sub.email, message)]),
               outbox, p.items)
  }

  /** The first `n` sends, one after another, starting from `p`; `compose`
      builds each subscriber's message. */
  function Sends(p: Progress, subs: seq<Subscriber>, n: nat, ses: nat -> SendOutcome,
                 compose: Subscriber -> OutgoingEmail, c: Campaign): Progress
    requires n <= |subs|
  {
    if n == 0 then p
    else SendStep(Sends(p, subs, n - 1, ses, compose, c), subs[n - 1], compose(subs[n - 1]), ses(n - 1), c)
  }

  /** Starting from nothing sent, the first `n` sends count each subscriber
      once and record the failures in order. */
  lemma {:induction false} SendsCount(items: map<string, Subscriber>, subs: seq<Subscriber>, n: nat,
                                      ses: nat -> SendOutcome, compose: Subscriber -> OutgoingEmail, c: Campaign)
    requires n <= |subs|
    ensures var q := Sends(Progress(BulkResult(0, 0, []), [], items), subs, n, ses, compose, c);
            q.res.success + q.res.failed == n &&
            q.res.errors == Failures(subs, n, ses) && q.res.failed == |q.res.errors|
  {
    if n > 0 {
      SendsCount(items, subs, n - 1, ses, compose, c);
    }
  }

  /** The outbox holds each subscriber's message, in order. */
  lemma {:induction false} SendsOutbox(p: Progress, subs: seq<Subscriber>, n: nat,
                                       ses: nat -> SendOutcome, compose: Subscriber -> OutgoingEmail, c: Campaign)
    requires n <= |subs|
    ensures var q := Sends(p, subs, n, ses, compose, c);
            |q.outbox| == |p.outbox| + n &&
            q.outbox[..|p.outbox|] == p.outbox &&
            forall j :: 0 <= j < n ==> q.outbox[|p.outbox| + j] == compose(subs[j])
  {
    if n > 0 {
      SendsOutbox(p, subs, n - 1, ses, compose, c);
    }
  }

  /** The table ends with exactly the write-backs. */
  lemma {:induction false} SendsWriteBack(p: Progress, subs: seq<Subscriber>, n: nat,
                                          ses: nat -> SendOutcome, compose: Subscriber -> OutgoingEmail, c: Campaign)
    requires n <= |subs|
    ensures Sends(p, subs, n, ses, compose, c).items == WriteBacks(p.items, subs, n, ses, c.sha256Hex, c.saltEnv)
  {
    if n > 0 {
      SendsWriteBack(p, subs, n - 1, ses, compose, c);
    }
  }

  /** One send against the table. */
  method SendOne(t: Table, subs: seq<Subscriber>, k: nat, res0: BulkResult, outbox0: seq<OutgoingEmail>,
                 ses: nat -> SendOutcome, compose: Subscriber -> OutgoingEmail, c: Campaign)
    returns (res: BulkResult, outbox: seq<OutgoingEmail>)
    requires k < |subs| && t.Valid()
    modifies t
    ensures t.Valid()
    ensures Progress(res, outbox, t.items) ==
            SendStep(Progress(res0, outbox0, old(t.items)), subs[k], compose(subs[k]), ses(k), c)
  {
    var sub := subs[k];
    var token := TokenFor(sub, c.sha256Hex, c.saltEnv);
    outbox := outbox0 + [compose(sub)];
    match ses(k)
    case Delivered =>
      if !Truthy(sub.unsubscribeToken) {
        t.Update(sub.email, (r: Subscriber) => r.(unsubscribeToken := Some(token)));
      }
      res := res0.(success := res0.success + 1);
    case Rejected(message) =>
      res := res0.(failed := res0.failed + 1, errors := res0.errors + [SendError(sub.email, message)]);
  }

  /** The sends of one batch, `subs[from..to]`, one after another. */
  method SendBatch(t: Table, subs: seq<Subscriber>, from: nat, to: nat, res0: BulkResult,
                   outbox0: seq<OutgoingEmail>, ses: nat -> SendOutcome,
                   compose: Subscriber -> OutgoingEmail, c: Campaign, ghost start: Progress)
    returns (res: BulkResult, outbox: seq<OutgoingEmail>)
    requires from <= to <= |subs| && t.Valid()
    requires Progress(res0, outbox0, t.items) == Sends(start, subs, from, ses, compose, c)
    modifies t
    ensures t.Valid()
    ensures Progress(res, outbox, t.items) == Sends(start, subs, to, ses, compose, c)
  {
    res, outbox := res0, outbox0;
    for k := from to to
      invariant t.Valid()
      invariant Progress(res, outbox, t.items) == Sends(start, subs, k, ses, compose, c)
    {
      res, outbox := SendOne(t, subs, k, res, outbox, ses, compose, c);
    }
  }

  /** Batch `b + 1` starts where batch `b` ends. */
  lemma BatchesUnfold<T>(s: seq<T>, i: nat, end: nat)
    requires i < end <= |s| && end == (if i + BatchSize < |s| then i + BatchSize else |s|)
    ensures Batches(s[i..]) == [s[i..end]] + Batches(s[end..])
  {
    if end < |s| {
      assert s[i..][BatchSize..] == s[end..];
      assert s[i..][..BatchSize] == s[i..end];
    } else {
      assert s[end..] == [];
      assert s[i..] == s[i..end];
    }
  }

  /** sendBulkEmails. Besides the counts it returns what it sent, the batches it
      formed and how often it paused between them. */
  method SendBulkEmails(t: Table, subs: seq<Subscriber>, ses: nat -> SendOutcome,
                        compose: Subscriber -> OutgoingEmail, c: Campaign)
    returns (res: BulkResult, outbox: seq<OutgoingEmail>, batches: seq<seq<Subscriber>>, pauses: nat)
    requires t.Valid()
    modifies t
    ensures t.Valid()
    ensures res.success + res.failed == |subs|
    ensures res.errors == Failures(subs, |subs|, ses) && res.failed == |res.errors|
    ensures |outbox| == |subs| && forall k :: 0 <= k < |subs| ==> outbox[k] == compose(subs[k])
    ensures batches == Batches(subs)
    ensures pauses == if subs == [] then 0 else |batches| - 1
    ensures t.items == WriteBacks(old(t.items), subs, |subs|, ses, c.sha256Hex, c.saltEnv)
  {
    var n := |subs|;
    res := BulkResult(0, 0, []);
    outbox := [];
    batches := [];
    pauses := 0;
    ghost var start := Progress(res, outbox, t.items);
    var i := 0;
    while i < n
      invariant i <= n && t.Valid()
      invariant Progress(res, outbox, t.items) == Sends(start, subs, i, ses, compose, c)
      invariant batches + Batches(subs[i..]) == Batches(subs)
      invariant pauses == if i < n || n == 0 then |batches| else |batches| - 1
    {
      var end := if i + BatchSize < n then i + BatchSize else n;
      res, outbox := SendBatch(t, subs, i, end, res, outbox, ses, compose, c, start);
      BatchesAdvance(subs, batches, i, end);
      batches := batches + [subs[i..end]];
      if end < n {
        pauses := pauses + 1;
      }
      i := end;
    }
    assert subs[n..] == [];
    SendsFromNothing(start.items, subs, ses, compose, c);
  }

  /** All sends, starting from nothing sent: every subscriber counted once, the
      failures in order, one message per subscriber and the write-backs. */
  lemma SendsFromNothing(items: map<string, Subscriber>, subs: seq<Subscriber>, ses: nat -> SendOutcome,
                         compose: Subscriber -> OutgoingEmail, c: Campaign)
    ensures var q := Sends(Progress(BulkResult(0, 0, []), [], items), subs, |subs|, ses, compose, c);
            q.res.success + q.res.failed == |subs| &&
            q.res.errors == Failures(subs, |subs|, ses) && q.res.failed == |q.res.errors| &&
            |q.outbox| == |subs| && (forall k :: 0 <= k < |subs| ==> q.outbox[k] == compose(subs[k])) &&
            q.items == WriteBacks(items, subs, |subs|, ses, c.sha256Hex, c.saltEnv)
  {
    var p := Progress(BulkResult(0, 0, []), [], items);
    SendsCount(items, subs, |subs|, ses, compose, c);
    SendsOutbox(p, subs, |subs|, ses, compose, c);
    SendsWriteBack(p, subs, |subs|, ses, compose, c);
  }

  /** The batches formed so far, the batch from `i` to `end` and the batches of
      the rest make up all the batches. */
  lemma BatchesAdvance<T>(s: seq<T>, done: seq<seq<T>>, i: nat, end: nat)
    requires i < end <= |s| && end == (if i + BatchSize < |s| then i + BatchSize else |s|)
    requires done + Batches(s[i..]) == Batches(s)
    ensures (done + [s[i..end]]) + Batches(s[end..]) == Batches(s)
  {
    BatchesUnfold(s, i, end);
    assert done + ([s[i..end]] + Batches(s[end..])) == (done + [s[i..end]]) + Batches(s[end..]);
  }

  // ---------------------------------------------------------------------------
  // the handler

  /** The fields of the request body the handler reads; `testMode` defaults to false. */
  datatype PublishBody = PublishBody(subject: Option<string>, htmlContent: Option<string>,
                                     textContent: Option<string>, testMode: bool,
                                     testEmail: Option<string>, apiKey: Option<string>)

  /** What the handler answers. */
  datatype PublishResponse =
    | Failure(statusCode: int, error: string)
    | NoActiveSubscribers
    | TestSent
    | Sent(total: nat, sent: nat, failed: nat, errors: seq<SendError>)
  {
    function Code(): int {
      if Failure? then statusCode else 200
    }
  }

  /** The environment of the function: `PUBLISH_API_KEY`, `DOMAIN_NAME`,
      `UNSUBSCRIBE_SALT` and the SHA-256 hex digest. */
  datatype Environment = Environment(publishApiKey: Option<string>, domain: string,
                                     saltEnv: Option<string>, sha256Hex: string -> string)

  predicate HasRequiredFields(b: PublishBody) {
    Truthy(b.subject) && Truthy(b.htmlContent)
  }

  /** `textContent || stripHtml(htmlContent)`. */
  function BodyText(textContent: Option<string>, html: string): (r: string)
    ensures Truthy(textContent) ==> r == textContent.value
    ensures !Truthy(textContent) ==> r == StripHtml(html)
  {
    if Truthy(textContent) then textContent.value else StripHtml(html)
  }

  // The test message's subject marker and the placeholder token of its footer.
  const TestSubjectPrefix := "[TEST] "
  const TestToken := "test-token"

  /** The single message of test mode: marked in the subject, footer with a
      placeholder token, no personalisation. */
  function TestEmail(b: PublishBody, env: Environment): (m: OutgoingEmail)
    requires HasRequiredFields(b) && Truthy(b.testEmail)
    ensures m.to == b.testEmail.value && m.subject == TestSubjectPrefix + b.subject.value
    ensures Contains(m.html, UnsubscribeUrl(env.domain, b.testEmail.value, TestToken))
  {
    Email(b.testEmail.value, TestSubjectPrefix + b.subject.value,
          AddNewsletterFooter(b.htmlContent.value, env.domain, b.testEmail.value, TestToken),
          BodyText(b.textContent, b.htmlContent.value))
  }

  /** The campaign of a production send. */
  function CampaignOf(b: PublishBody, env: Environment): (c: Campaign)
    requires HasRequiredFields(b)
    ensures c.subject == b.subject.value && c.html == b.htmlContent.value
    ensures c.text == BodyText(b.textContent, b.htmlContent.value)
  {
    Campaign(b.subject.value, b.htmlContent.value, BodyText(b.textContent, b.htmlContent.value),
             env.sha256Hex, env.saltEnv, env.domain)
  }

  /** Every subscriber's newsletter, in order. */
  ghost predicate Newsletters(outbox: seq<OutgoingEmail>, subs: seq<Subscriber>, c: Campaign) {
    |outbox| == |subs| && forall k :: 0 <= k < |subs| ==> outbox[k] == Newsletter(subs[k], c)
  }

  /** Test mode: the one test message, and 500 when SES rejects it. */
  method PublishTest(b: PublishBody, env: Environment, testSend: SendOutcome)
    returns (resp: PublishResponse, outbox: seq<OutgoingEmail>)
    requires HasRequiredFields(b) && Truthy(b.testEmail)
    ensures outbox == [TestEmail(b, env)]
    ensures resp == if testSend.Delivered? then TestSent else Failure(500, PublishFailedMessage)
  {
    outbox := [TestEmail(b, env)];
    resp := if testSend.Delivered? then TestSent else Failure(500, PublishFailedMessage);
  }

  /** Production mode: every subscriber's newsletter, the write-backs, and the
      counts; a metric that CloudWatch refuses turns the answer into 500 after
      the sends. */
  method PublishAll(t: Table, subs: seq<Subscriber>, b: PublishBody, env: Environment,
                    ses: nat -> SendOutcome, metricsOk: bool)
    returns (resp: PublishResponse, outbox: seq<OutgoingEmail>)
    requires HasRequiredFields(b) && t.Valid()
    modifies t
    ensures t.Valid()
    ensures Newsletters(outbox, subs, CampaignOf(b, env))
    ensures t.items == WriteBacks(old(t.items), subs, |subs|, ses, env.sha256Hex, env.saltEnv)
    ensures metricsOk ==>
              resp.Sent? && resp.total == |subs| && resp.sent + resp.failed == |subs| &&
              resp.errors == Failures(subs, |subs|, ses) && resp.failed == |resp.errors|
    ensures !metricsOk ==> resp == Failure(500, PublishFailedMessage)
  {
    var c := CampaignOf(b, env);
    var res, batches, pauses;
    res, outbox, batches, pauses := SendBulkEmails(t, subs, ses, (sub: Subscriber) => Newsletter(sub, c), c);
    resp := if metricsOk then Sent(|subs|, res.success, res.failed, res.errors)
            else Failure(500, PublishFailedMessage);
  }

  /** The publish handler. `scan` is what the subscriber scan returns (None
      when it fails), `testSend` the outcome of the test send, `ses` the
      outcomes of a production send and `metricsOk` whether CloudWatch accepts
      the metrics sent after it. */
  method Publish(t: Table, body: Option<PublishBody>, env: Environment, scan: Option<seq<ScanPage>>,
                 testSend: SendOutcome, ses: nat -> SendOutcome, metricsOk: bool)
    returns (resp: PublishResponse, outbox: seq<OutgoingEmail>)
    requires t.Valid()
    requires scan.Some? ==> HasFinalPage(scan.value)
    modifies t
    ensures t.Valid()
    ensures body.None? ==> resp == Failure(400, InvalidRequestBody)
    ensures body.Some? && body.value.apiKey != env.publishApiKey ==> resp == Failure(401, UnauthorizedMessage)
    ensures body.Some? && body.value.apiKey == env.publishApiKey && !HasRequiredFields(body.value) ==>
              resp == Failure(400, MissingFieldsMessage)
    ensures body.None? || body.value.apiKey != env.publishApiKey || !HasRequiredFields(body.value) ==>
              outbox == [] && t.items == old(t.items)
    ensures body.Some? && body.value.apiKey == env.publishApiKey && HasRequiredFields(body.value) ==>
              match scan
              case None =>
                resp == Failure(500, PublishFailedMessage) && outbox == [] && t.items == old(t.items)
              case Some(pages) =>
                var b := body.value;
                var subs := ActiveSubscribers(pages);
                if subs == [] then
                  resp == NoActiveSubscribers && outbox == [] && t.items == old(t.items)
                else if b.testMode && !Truthy(b.testEmail) then
                  resp == Failure(400, TestEmailRequiredMessage) && outbox == [] && t.items == old(t.items)
                else if b.testMode then
                  outbox == [TestEmail(b, env)] && t.items == old(t.items) &&
                  resp == (if testSend.Delivered? then TestSent else Failure(500, PublishFailedMessage))
                else
                  Newsletters(outbox, subs, CampaignOf(b, env)) &&
                  t.items == WriteBacks(old(t.items), subs, |subs|, ses, env.sha256Hex, env.saltEnv) &&
                  if metricsOk then
                    resp.Sent? && resp.total == |subs| && resp.sent + resp.failed == |subs| &&
                    resp.errors == Failures(subs, |subs|, ses) && resp.failed == |resp.errors|
                  else
                    resp == Failure(500, PublishFailedMessage)
  {
    outbox := [];
    if body.None? {
      return Failure(400, InvalidRequestBody), outbox;
    }
    var b := body.value;
    if b.apiKey != env.publishApiKey {
      return Failure(401, UnauthorizedMessage), outbox;
    }
    if !HasRequiredFields(b) {
      return Failure(400, MissingFieldsMessage), outbox;
    }
    if scan.None? {
      return Failure(500, PublishFailedMessage), outbox;
    }
    var subs := GetActiveSubscribers(scan.value);
    if |subs| == 0 {
      return NoActiveSubscribers, outbox;
    }
    if b.testMode {
      if !Truthy(b.testEmail) {
        return Failure(400, TestEmailRequiredMessage), outbox;
      }
      resp, outbox := PublishTest(b, env, testSend);
      return;
    }
    resp, outbox := PublishAll(t, subs, b, env, ses, metricsOk);
  }
}
