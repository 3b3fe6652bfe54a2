/**
 * The subscriber table the three Lambda handlers share, keyed by e-mail
 * address, and the HTTP responses the handlers return.
 *
 * An item holds only the attributes that have been written to it. A DynamoDB
 * `update` on a key that is not in the table creates the item (an upsert), so
 * an item may lack any attribute but its key; `Bare` is such an item.
 */
module Store {
  import opened Wrappers

  datatype Status = Pending | Active | Unsubscribed | Bounced | Complained

  datatype Metadata = Metadata(userAgent: string, ip: string)

  datatype Subscriber = Subscriber(
    email: string,
    name: Option<string>,
    status: Option<Status>,
    confirmToken: Option<string>,
    unsubscribeToken: Option<string>,
    subscribedAt: Option<string>,
    source: Option<string>,
    tags: Option<seq<string>>,
    metadata: Option<Metadata>,
    confirmedAt: Option<string>,
    unsubscribedAt: Option<string>,
    unsubscribeMethod: Option<string>,
    unsubscribeReason: Option<string>,
    unsubscribeFeedback: Option<string>,
    resubscribedAt: Option<string>,
    bouncedAt: Option<string>,
    bounceType: Option<string>,
    bounceSubType: Option<string>,
    transientBounceCount: Option<nat>,
    lastTransientBounce: Option<string>,
    complainedAt: Option<string>,
    complaintFeedbackType: Option<string>)

  /** The item an `update` starts from when the key is not in the table. */
  function Bare(email: string): (r: Subscriber)
    ensures r.email == email && r.status.None? && r.unsubscribeToken.None? && r.transientBounceCount.None?
  {
    Subscriber(email, None, None, None, None, None, None, None, None, None, None, None, None,
               None, None, None, None, None, None, None, None, None)
  }

  /** The item stored under `email`, if any (`get(...).Item`). */
  function Lookup(items: map<string, Subscriber>, email: string): Option<Subscriber> {
    if email in items then Some(items[email]) else None
  }

  /** The item an `update` on `email` modifies: the stored one, or a bare one.
      This is DynamoDB's upsert behaviour of `update`, taken as given; the
      ensures clauses spell that assumption out rather than prove a property. */
  function Current(items: map<string, Subscriber>, email: string): (r: Subscriber)
    ensures email in items ==> r == items[email]
    ensures email !in items ==> r == Bare(email)
  {
    if email in items then items[email] else Bare(email)
  }

  /** Every item is stored under its own key. */
  ghost predicate Keyed(items: map<string, Subscriber>) {
    forall e :: e in items ==> items[e].email == e
  }

  /** The answer every handler gives to a body that is not JSON. */
  const InvalidRequestBody := "Invalid request body"

  /** An HTTP response: a JSON body with a status code, or a 302 redirect. */
  datatype Response = Json(statusCode: int, message: string) | Redirect(location: string) {
    function Code(): int {
      if Json? then statusCode else 302
    }
  }

  /** The DynamoDB table as the handlers see it through the document client. */
  class Table {
    var items: map<string, Subscriber>

    ghost predicate Valid()
      reads this
    {
      Keyed(items)
    }

    constructor (initial: map<string, Subscriber>)
      requires Keyed(initial)
      ensures Valid() && items == initial
    {
      items := initial;
    }

    /** `get({Key: {email}})`. */
    method Get(email: string) returns (item: Option<Subscriber>)
      ensures item == Lookup(items, email)
      ensures item.Some? ==> email in items && item.value == items[email]
    {
      item := if email in items then Some(items[email]) else None;
    }

    /** `put({Item})`: the whole item under its key is replaced. */
    method Put(item: Subscriber)
      requires Valid()
      modifies this
      ensures Valid()
      ensures items == old(items)[item.email := item]
    {
      items := items[item.email := item];
    }

    /** `update({Key: {email}, UpdateExpression})`: the update expression is applied
        to the stored item, or to a bare item when the key is absent. */
    method Update(email: string, change: Subscriber -> Subscriber)
      requires Valid()
      requires change(Current(items, email)).email == email
      modifies this
      ensures Valid()
      ensures items == old(items)[email := change(Current(old(items), email))]
    {
      items := items[email := change(Current(items, email))];
    }
  }
}
