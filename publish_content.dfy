/**
 * The string transforms of the publish Lambda: personalisation of a
 * newsletter body, the unsubscribe footer and its link, and the plain-text
 * version of an HTML body.
 */
module PublishContent {
  import opened Wrappers
  import opened Strings
  import opened Url
  import opened Store

  // ---------------------------------------------------------------------------
  // personalizeContent

  // The placeholders a newsletter body may carry.
  const NamePlaceholder := "{{name}}"
  const EmailPlaceholder := "{{email}}"
  const FirstNamePlaceholder := "{{firstName}}"

  /** What `{{name}}` becomes: the name, or `Subscriber` without one. */
  function NameFor(sub: Subscriber): (r: string)
    ensures Truthy(sub.name) ==> r == sub.name.value
    ensures !Truthy(sub.name) ==> r == "Subscriber"
  {
    if Truthy(sub.name) then sub.name.value else "Subscriber"
  }

  /** What `{{firstName}}` becomes: the first space-separated word of the name, or `Friend`. */
  function FirstNameFor(sub: Subscriber): (r: string)
    ensures ' ' !in r
    ensures Truthy(sub.name) ==> r <= sub.name.value
    ensures !Truthy(sub.name) ==> r == "Friend"
  {
    if Truthy(sub.name) then FirstWord(sub.name.value) else "Friend"
  }

  /** personalizeContent: the three placeholders replaced, everywhere, in this order. */
  function PersonalizeContent(content: Option<string>, sub: Subscriber): (r: string)
    ensures !Truthy(content) ==> r == ""
    ensures (Truthy(content) && !Contains(content.value, NamePlaceholder) && !Contains(content.value, EmailPlaceholder) &&
             !Contains(content.value, FirstNamePlaceholder)) ==> r == content.value
  {
    if !Truthy(content) then ""
    else
      var named := ReplaceAll(content.value, NamePlaceholder, NameFor(sub));
      var addressed := ReplaceAll(named, EmailPlaceholder, sub.email);
      ReplaceAll(addressed, FirstNamePlaceholder, FirstNameFor(sub))
  }

  /** A placeholder `{{w}}` cannot overlap itself. */
  lemma PlaceholderOverlapFree(w: string)
    requires w != [] && '{' !in w
    ensures SelfOverlapFree("{{" + w + "}}")
  {
    var p := "{{" + w + "}}";
    forall d | 1 <= d < |p| ensures !Overlaps(p, d) {
      if d == 1 {
        assert p[d..][1] == w[0] && p[..|p| - d][1] == '{';
      } else {
        assert p[d] in w || p[d] == '}';
        assert p[d..][0] == p[d] && p[..|p| - d][0] == '{';
      }
    }
  }

  lemma PlaceholdersOverlapFree()
    ensures SelfOverlapFree(NamePlaceholder) && SelfOverlapFree(EmailPlaceholder) &&
            SelfOverlapFree(FirstNamePlaceholder)
  {
    assert NamePlaceholder == "{{" + "name" + "}}";
    PlaceholderOverlapFree("name");
    assert EmailPlaceholder == "{{" + "email" + "}}";
    PlaceholderOverlapFree("email");
    assert FirstNamePlaceholder == "{{" + "firstName" + "}}";
    PlaceholderOverlapFree("firstName");
  }

  /** `{{name}}` between any two texts becomes the subscriber's name (or
      `Subscriber`), when the texts carry no `{{name}}` of their own and the
      later passes find nothing to replace. */
  lemma NamePlaceholderReplaced(a: string, b: string, sub: Subscriber)
    requires !Contains(a, NamePlaceholder) && !Contains(b, NamePlaceholder)
    requires !Contains(a + NameFor(sub) + b, EmailPlaceholder) && !Contains(a + NameFor(sub) + b, FirstNamePlaceholder)
    ensures PersonalizeContent(Some(a + NamePlaceholder + b), sub) == a + NameFor(sub) + b
  {
    PlaceholdersOverlapFree();
    ReplaceAllSingle(a, NamePlaceholder, b, NameFor(sub));
  }

  /** `{{email}}` between any two texts becomes the subscriber's address, when
      the content has no `{{name}}`, the texts no `{{email}}`, and the result
      no `{{firstName}}`. */
  lemma EmailPlaceholderReplaced(a: string, b: string, sub: Subscriber)
    requires !Contains(a + EmailPlaceholder + b, NamePlaceholder)
    requires !Contains(a, EmailPlaceholder) && !Contains(b, EmailPlaceholder)
    requires !Contains(a + sub.email + b, FirstNamePlaceholder)
    ensures PersonalizeContent(Some(a + EmailPlaceholder + b), sub) == a + sub.email + b
  {
    PlaceholdersOverlapFree();
    ReplaceAllSingle(a, EmailPlaceholder, b, sub.email);
  }

  /** `{{firstName}}` between any two texts becomes the first word of the name
      (or `Friend`), when the content has no other placeholder and the texts
      no `{{firstName}}` of their own. */
  lemma FirstNamePlaceholderReplaced(a: string, b: string, sub: Subscriber)
    requires !Contains(a + FirstNamePlaceholder + b, NamePlaceholder)
    requires !Contains(a + FirstNamePlaceholder + b, EmailPlaceholder)
    requires !Contains(a, FirstNamePlaceholder) && !Contains(b, FirstNamePlaceholder)
    ensures PersonalizeContent(Some(a + FirstNamePlaceholder + b), sub) == a + FirstNameFor(sub) + b
  {
    PlaceholdersOverlapFree();
    ReplaceAllSingle(a, FirstNamePlaceholder, b, FirstNameFor(sub));
  }

  // ---------------------------------------------------------------------------
  // addNewsletterFooter

  // The fixed parts of the unsubscribe link.
  const HttpsScheme := "https://"
  const UnsubscribeQuery := "/unsubscribe?email="
  const TokenParameter := "&token="

  /** The unsubscribe link of the footer. The address is percent-encoded; the token is not. */
  function UnsubscribeUrl(domain: string, email: string, token: string): (r: string)
    ensures LinkPrefix(domain) <= r && EndsWith(r, TokenParameter + token)
  {
    var r := LinkPrefix(domain) + EncodeUriComponent(email) + TokenParameter + token;
    assert r == LinkPrefix(domain) + (EncodeUriComponent(email) + (TokenParameter + token));
    r
  }

  /** The link up to the encoded address. */
  function LinkPrefix(domain: string): string {
    HttpsScheme + domain + UnsubscribeQuery
  }

  /** The `email` parameter of the link ends at the first `&` after it: the
      address is read back as the whole encoded address, and the `token`
      parameter follows it. */
  lemma UnsubscribeUrlParameters(domain: string, email: string, token: string)
    ensures IndexOfFrom(UnsubscribeUrl(domain, email, token), "&", |LinkPrefix(domain)|) ==
            Some(|LinkPrefix(domain)| + |EncodeUriComponent(email)|)
  {
    AmpersandNotEncoded(email);
    EmailParameterEnds(UnsubscribeUrl(domain, email, token), LinkPrefix(domain), EncodeUriComponent(email), token);
  }

  lemma AmpersandNotEncoded(email: string)
    ensures !Contains(EncodeUriComponent(email), "&")
  {
    var value := EncodeUriComponent(email);
    EncodedValuesHaveNoDelimiters(email);
    forall i | 0 <= i < |value| ensures !OccursAt(value, "&", i) {
      assert value[i] != '&' && value[i..i + 1][0] == value[i];
    }
  }

  /** In `prefix + value + "&token=" + token`, the first `&` after the prefix
      ends a value that has none. */
  lemma EmailParameterEnds(url: string, prefix: string, value: string, token: string)
    requires !Contains(value, "&") && url == prefix + value + TokenParameter + token
    ensures IndexOfFrom(url, "&", |prefix|) == Some(|prefix| + |value|)
  {
    forall k | 0 <= k < |value| ensures value[k] != '&' {
      if value[k] == '&' {
        assert value[k..k + 1] == "&";
        assert OccursAt(value, "&", k);
      }
    }
    var rest := TokenParameter[1..] + token;
    assert url == prefix + value + (['&'] + rest);
    FirstAfter(url, prefix, value, '&', rest);
  }

  /** The footer text up to the unsubscribe link, line by line. */
  const FooterHead: string :=
    "\n        <div style=\"margin-top: 50px; padding-top: 30px; " +
    "border-top: 1px solid #eee; text-align: center; " +
    "color: #666; font-size: 12px; font-family: Arial, sans-serif;\">" +
    "\n            <p>" +
    "\n                You're receiving this because you subscribed to Build MLOps newsletter." +
    "\n                <br>" +
    "\n                <a href=\""

  /** The footer text after the unsubscribe link: the site link, the site's
      name (with its bullet as three mis-decoded characters) and the address. */
  function FooterTail(domain: string, email: string): string {
    "\" style=\"color: #3b82f6; text-decoration: none;\">Unsubscribe</a> | " +
    "\n                <a href=\"https://" + domain +
    "\" style=\"color: #3b82f6; text-decoration: none;\">Visit Website</a>" +
    "\n            </p>" +
    "\n            <p style=\"margin-top: 10px;\">" +
    "\n                Build MLOps \U{E2}\U{20AC}\U{A2} Production ML Engineering" +
    "\n            </p>" +
    "\n            <p style=\"margin-top: 10px; font-size: 10px;\">" +
    "\n                " + email +
    "\n            </p>" +
    "\n        </div>" +
    "\n    "
  }

  /** The footer appended to every newsletter. */
  function Footer(domain: string, email: string, token: string): string {
    FooterHead + UnsubscribeUrl(domain, email, token) + FooterTail(domain, email)
  }

  /** Every footer carries the subscriber's own unsubscribe link. */
  lemma FooterCarriesUnsubscribeLink(domain: string, email: string, token: string)
    ensures Contains(Footer(domain, email, token), UnsubscribeUrl(domain, email, token))
  {
    InfixOccurs(FooterHead, UnsubscribeUrl(domain, email, token), FooterTail(domain, email));
  }

  /** The footer goes just before the first `</body>`, or at the end when
      there is none; the body itself is kept whole. */
  function InsertFooter(html: string, footer: string): (r: string)
    ensures match IndexOf(html, "</body>")
      case None => r == html + footer
      case Some(i) => r == html[..i] + footer + html[i..]
  {
    if Contains(html, "</body>") then
      ReplaceFirstInserts(html, "</body>", footer);
      ReplaceFirst(html, "</body>", footer + "</body>")
    else
      html + footer
  }

  /** addNewsletterFooter: whatever the body, the page sent carries the
      subscriber's unsubscribe link. */
  function AddNewsletterFooter(html: string, domain: string, email: string, token: string): (r: string)
    ensures Contains(r, UnsubscribeUrl(domain, email, token))
  {
    FooterCarriesUnsubscribeLink(domain, email, token);
    InsertFooterKeepsContents(html, Footer(domain, email, token), UnsubscribeUrl(domain, email, token));
    InsertFooter(html, Footer(domain, email, token))
  }

  /** The footer sits at the first `</body>` or at the end, and the body
      around it comes back unchanged. */
  lemma FooterInsertionKeepsBody(html: string, footer: string)
    ensures var r := InsertFooter(html, footer);
            var i := IndexOf(html, "</body>").GetOr(|html|);
            i <= |html| && r[..i] == html[..i] && r[i..i + |footer|] == footer && r[i + |footer|..] == html[i..]
  {
    match IndexOf(html, "</body>")
    case None =>
      assert html[..|html|] == html && html[|html|..] == [];
    case Some(i) =>
  }

  /** Whatever occurs in the footer occurs in the page it is inserted into. */
  lemma InsertFooterKeepsContents(html: string, footer: string, x: string)
    requires Contains(footer, x)
    ensures Contains(InsertFooter(html, footer), x)
  {
    var r := InsertFooter(html, footer);
    FooterInsertionKeepsBody(html, footer);
    var i := IndexOf(html, "</body>").GetOr(|html|);
    assert OccursAt(r, footer, i);
    ContainsTransitive(r, footer, x);
  }

  // ---------------------------------------------------------------------------
  // stripHtml

  /** There is a `<` followed, somewhere later, by a `>`. */
  predicate HasTag(s: string) {
    exists i, j | 0 <= i < j < |s| :: s[i] == '<' && s[j] == '>'
  }

  /** `s.replace(/<[^>]*>/g, '')`: from each `<` up to the first `>` after it is
      removed; a `<` with no `>` after it stays, and so does the rest. */
  function RemoveTags(s: string): (r: string)
    decreases |s|
    ensures |r| <= |s|
    ensures '<' !in s || '>' !in s ==> r == s
  {
    if s == [] then []
    else if s[0] == '<' && Contains(s, ">") then
      var j := IndexOf(s, ">").value;
      RemoveTags(s[j + 1..])
    else
      [s[0]] + RemoveTags(s[1..])
  }

  /** No tag survives: no `<` is followed, later, by a `>`. */
  lemma {:induction false} RemoveTagsLeavesNoTag(s: string)
    decreases |s|
    ensures !HasTag(RemoveTags(s))
  {
    if s == [] {
    } else if s[0] == '<' && Contains(s, ">") {
      RemoveTagsLeavesNoTag(s[IndexOf(s, ">").value + 1..]);
    } else {
      var rest := RemoveTags(s[1..]);
      RemoveTagsLeavesNoTag(s[1..]);
      NoCloseInTail(s);
      var r := [s[0]] + rest;
      assert forall k | 1 <= k < |r| :: r[k] == rest[k - 1];
    }
  }

  /** A tag at the front, from its `<` to the first `>`, is dropped and the
      rest is stripped on its own. */
  lemma TagAtFront(t: string, b: string)
    requires '>' !in t
    ensures RemoveTags("<" + t + ">" + b) == RemoveTags(b)
  {
    var s := "<" + t + ">" + b;
    var j := |t| + 1;
    assert OccursAt(s, ">", j);
    assert s[..j] == "<" + t;
    forall i | 0 <= i < j
      ensures !OccursAt(s, ">", i)
    {
      assert s[i] == s[..j][i];
    }
    assert IndexOf(s, ">") == Some(j);
    assert s[j + 1..] == b;
  }

  /** A character other than `<` is kept and the scan moves on. */
  lemma KeepFirst(c: char, rest: string)
    requires c != '<'
    ensures RemoveTags([c] + rest) == [c] + RemoveTags(rest)
  {
    assert ([c] + rest)[1..] == rest;
  }

  /** Text before the first `<` is kept as it is: tag removal keeps what lies
      outside the tags. */
  lemma {:induction false} PlainPrefixKept(a: string, rest: string)
    requires '<' !in a
    ensures RemoveTags(a + rest) == a + RemoveTags(rest)
    decreases |a|
  {
    if a == [] {
      assert a + rest == rest;
    } else {
      var tail := a[1..] + rest;
      PlainPrefixKept(a[1..], rest);
      KeepFirst(a[0], tail);
      ConsAppend(a, rest);
      ConsAppend(a, RemoveTags(rest));
    }
  }

  /** Text, a tag, and more text: the text is kept, the tag dropped. */
  lemma TagBetweenText(a: string, t: string, b: string)
    requires '<' !in a && '>' !in t
    ensures RemoveTags(a + "<" + t + ">" + b) == a + RemoveTags(b)
  {
    assert a + "<" + t + ">" + b == a + ("<" + t + ">" + b);
    PlainPrefixKept(a, "<" + t + ">" + b);
    TagAtFront(t, b);
  }

  /** Without a `>` in `s`, there is none after its first character either. */
  lemma NoCloseInTail(s: string)
    requires s != []
    ensures !Contains(s, ">") ==> '>' !in s[1..]
  {
    if '>' in s[1..] {
      var k :| 0 <= k < |s[1..]| && s[1..][k] == '>';
      assert OccursAt(s, ">", k + 1);
    }
  }

  /** The character references `stripHtml` decodes, each with the text it
      becomes, in the order it decodes them. */
  const Entities: seq<(string, string)> :=
    [("&nbsp;", " "), ("&amp;", "&"), ("&lt;", "<"), ("&gt;", ">"), ("&quot;", "\""), ("&#039;", "'")]

  /** Each reference starts with `&` and has no other, and no two references
      share their second character. */
  predicate EntityTable(es: seq<(string, string)>) {
    (forall k :: 0 <= k < |es| ==> |es[k].0| >= 2 && es[k].0[0] == '&' && '&' !in es[k].0[1..]) &&
    (forall i, j :: 0 <= i < j < |es| && |es[i].0| >= 2 && |es[j].0| >= 2 ==> es[i].0[1] != es[j].0[1])
  }

  lemma EntitiesWellFormed()
    ensures EntityTable(Entities)
  {
    var seconds := "nalgq#";
    forall k | 0 <= k < |Entities|
      ensures |Entities[k].0| >= 2 && Entities[k].0[0] == '&' && '&' !in Entities[k].0[1..]
      ensures Entities[k].0[1] == seconds[k]
    {
    }
    forall i, j | 0 <= i < j < |seconds| ensures seconds[i] != seconds[j] {
    }
  }

  lemma EntityTableTail(es: seq<(string, string)>)
    requires EntityTable(es) && es != []
    ensures EntityTable(es[1..])
  {
    assert forall k :: 0 <= k < |es[1..]| ==> es[1..][k] == es[k + 1];
  }

  /** The references of `es` decoded one after the other, each everywhere in the text. */
  function DecodeWith(s: string, es: seq<(string, string)>): string
    requires EntityTable(es)
    decreases |es|
  {
    if es == [] then s
    else
      EntityTableTail(es);
      DecodeWith(ReplaceAll(s, es[0].0, es[0].1), es[1..])
  }

  /** The `.replace` chain of `stripHtml` after the tags are removed. */
  function DecodeEntities(s: string): (r: string)
    ensures '&' !in s ==> r == s
  {
    EntitiesWellFormed();
    assert '&' !in s ==> DecodeWith(s, Entities) == s by {
      if '&' !in s { DecodeWithoutReferences(s, Entities); }
    }
    DecodeWith(s, Entities)
  }

  /** Text without `&` holds no reference and is kept. */
  lemma {:induction false} DecodeWithoutReferences(s: string, es: seq<(string, string)>)
    requires EntityTable(es) && '&' !in s
    ensures DecodeWith(s, es) == s
    decreases |es|
  {
    if es != [] {
      EntityTableTail(es);
      MissingCharNoOccurrence(s, es[0].0, 0);
      DecodeWithoutReferences(s, es[1..]);
    }
  }

  /** Text without `&` in front is kept, and the decoding goes on after it. */
  lemma {:induction false} DecodeWithPlainPrefix(a: string, b: string, es: seq<(string, string)>)
    requires EntityTable(es) && '&' !in a
    ensures DecodeWith(a + b, es) == a + DecodeWith(b, es)
    decreases |es|
  {
    if es != [] {
      EntityTableTail(es);
      ReplaceAllPlainPrefix(a, b, es[0].0, es[0].1);
      DecodeWithPlainPrefix(a, ReplaceAll(b, es[0].0, es[0].1), es[1..]);
    }
  }

  /** A reference in front is not taken for another one. */
  lemma ReferenceKept(e: string, b: string, pat: string, rep: string)
    requires |e| >= 2 && e[0] == '&' && '&' !in e[1..]
    requires |pat| >= 2 && pat[0] == '&' && pat[1] != e[1]
    ensures ReplaceAll(e + b, pat, rep) == e + ReplaceAll(b, pat, rep)
  {
    var s := e + b;
    assert s[1..] == e[1..] + b;
    if |s| >= |pat| {
      assert s[..|pat|][1] == e[1];
      ReplaceAllSkips(s, pat, rep);
    } else {
      assert |b| < |pat| && |s[1..]| < |pat|;
    }
    ReplaceAllPlainPrefix(e[1..], b, pat, rep);
    ConsAppend(e, ReplaceAll(b, pat, rep));
  }

  /** A reference that becomes no `&` is decoded, and the decoding goes on after it. */
  lemma {:induction false} DecodeWithReference(es: seq<(string, string)>, k: nat, b: string)
    requires EntityTable(es) && k < |es| && '&' !in es[k].1
    ensures DecodeWith(es[k].0 + b, es) == es[k].1 + DecodeWith(b, es)
    decreases k
  {
    EntityTableTail(es);
    var e := es[k].0;
    if k == 0 {
      assert [] + e + b == e + b;
      ReplaceAllFirstOccurrence([], e, b, es[0].1);
      DecodeWithPlainPrefix(es[0].1, ReplaceAll(b, e, es[0].1), es[1..]);
    } else {
      ReferenceKept(e, b, es[0].0, es[0].1);
      assert es[1..][k - 1] == es[k];
      DecodeWithReference(es[1..], k - 1, ReplaceAll(b, es[0].0, es[0].1));
    }
  }

  /** Text without `&` in front comes out of the decoding unchanged. */
  lemma DecodeKeepsPlainText(a: string, b: string)
    requires '&' !in a
    ensures DecodeEntities(a + b) == a + DecodeEntities(b)
  {
    EntitiesWellFormed();
    DecodeWithPlainPrefix(a, b, Entities);
  }

  /** Each of `&nbsp;`, `&lt;`, `&gt;`, `&quot;` and `&#039;` becomes its
      character, and the rest is decoded on its own. */
  lemma DecodesReference(k: nat, b: string)
    requires k < |Entities| && Entities[k].0 != "&amp;"
    ensures DecodeEntities(Entities[k].0 + b) == Entities[k].1 + DecodeEntities(b)
  {
    EntitiesWellFormed();
    DecodeWithReference(Entities, k, b);
  }

  /** `&amp;` becomes `&` when what follows cannot complete a reference decoded after it. */
  lemma DecodesAmpersand(b: string)
    requires '&' !in b && (b == [] || b[0] !in "lgq#")
    ensures DecodeEntities("&amp;" + b) == "&" + b
  {
    DecodeAfterFirstTwo("&amp;" + b);
    AmpersandStep(b);
    LoneAmpersandKept(b, Entities[2..]);
  }

  /** The decoding as its first two passes followed by the other four. */
  lemma DecodeAfterFirstTwo(s: string)
    ensures EntityTable(Entities[2..])
    ensures DecodeEntities(s) == DecodeWith(ReplaceAll(ReplaceAll(s, "&nbsp;", " "), "&amp;", "&"), Entities[2..])
  {
    EntitiesWellFormed();
    EntityTableTail(Entities);
    EntityTableTail(Entities[1..]);
    assert Entities[1..][1..] == Entities[2..];
  }

  /** The first two passes turn `&amp;` into `&`. */
  lemma AmpersandStep(b: string)
    requires '&' !in b
    ensures ReplaceAll(ReplaceAll("&amp;" + b, "&nbsp;", " "), "&amp;", "&") == "&" + b
  {
    ReferenceKept("&amp;", b, "&nbsp;", " ");
    MissingCharNoOccurrence(b, "&nbsp;", 0);
    assert [] + "&amp;" + b == "&amp;" + b;
    ReplaceAllFirstOccurrence([], "&amp;", b, "&");
    MissingCharNoOccurrence(b, "&amp;", 0);
  }

  /** A lone `&` whose next character starts none of the references is kept. */
  lemma {:induction false} LoneAmpersandKept(b: string, es: seq<(string, string)>)
    requires EntityTable(es) && '&' !in b
    requires b != [] ==> forall k :: 0 <= k < |es| ==> es[k].0[1] != b[0]
    ensures DecodeWith("&" + b, es) == "&" + b
    decreases |es|
  {
    if es != [] {
      EntityTableTail(es);
      var s := "&" + b;
      assert s[1..] == b;
      if |s| >= |es[0].0| {
        assert s[..|es[0].0|][1] == b[0];
        ReplaceAllSkips(s, es[0].0, es[0].1);
      }
      MissingCharNoOccurrence(b, es[0].0, 0);
      LoneAmpersandKept(b, es[1..]);
    }
  }

  /** `&amp;` is decoded before `&lt;`, so a doubly encoded `<` is decoded
      twice, whatever text follows it. */
  lemma DoublyEncodedIsDecodedTwice(x: string)
    requires '&' !in x
    ensures DecodeEntities("&amp;lt;" + x) == "<" + x
  {
    assert "&amp;lt;" + x == "&amp;" + ("lt;" + x);
    DecodeAfterFirstTwo("&amp;lt;" + x);
    AmpersandStep("lt;" + x);
    AmpersandThenLessThan(x);
    LessThanLast(x);
  }

  /** The last four passes decode a leading `&lt;`. */
  lemma LessThanLast(x: string)
    requires '&' !in x
    ensures EntityTable(Entities[2..])
    ensures DecodeWith("&lt;" + x, Entities[2..]) == "<" + x
  {
    var rest := Entities[2..];
    DecodeAfterFirstTwo(x);
    assert rest[0] == ("&lt;", "<");
    DecodeWithReference(rest, 0, x);
    DecodeWithoutReferences(x, rest);
  }

  lemma AmpersandThenLessThan(x: string)
    ensures "&" + ("lt;" + x) == "&lt;" + x
  {
    assert "&" + ("lt;" + x) == ("&" + "lt;") + x;
  }

  /** stripHtml: tags removed, then entities decoded, then surrounding white space trimmed. */
  function StripHtml(html: string): (r: string)
    ensures r != [] ==> !IsJsSpace(r[0]) && !IsJsSpace(r[|r| - 1])
  {
    Trim(DecodeEntities(RemoveTags(html)))
  }

  /** Text with no markup, no entity and no surrounding white space is its own plain text. */
  lemma StripHtmlKeepsPlainText(s: string)
    requires '<' !in s && '&' !in s
    requires s != [] ==> !IsJsSpace(s[0]) && !IsJsSpace(s[|s| - 1])
    ensures StripHtml(s) == s
  {
    if s != [] {
      TrimOfUnpadded(s);
    }
  }

  /** Markup-free input is only decoded and trimmed. */
  lemma StripHtmlOfUntagged(html: string)
    requires '<' !in html
    ensures StripHtml(html) == Trim(DecodeEntities(html))
  {
  }

  /** An encoded tag is not removed: entities are decoded only after tags are
      removed, so `&lt;x&gt;`, which has no markup, comes out as the tag `<x>`. */
  lemma EncodedTagSurvives(x: string)
    requires '<' !in x && '&' !in x
    ensures StripHtml("&lt;" + x + "&gt;") == "<" + x + ">"
  {
    var s := "&lt;" + x + "&gt;";
    assert '<' !in s;
    assert RemoveTags(s) == s;
    EncodedTagDecodes(x);
    TrimOfUnpadded("<" + x + ">");
  }

  lemma EncodedTagDecodes(x: string)
    requires '&' !in x
    ensures DecodeEntities("&lt;" + x + "&gt;") == "<" + x + ">"
  {
    assert "&lt;" + x + "&gt;" == "&lt;" + (x + "&gt;");
    DecodesLessThan(x + "&gt;");
    DecodeKeepsPlainText(x, "&gt;");
    DecodesLoneGreaterThan();
  }

  lemma DecodesLessThan(b: string)
    ensures DecodeEntities("&lt;" + b) == "<" + DecodeEntities(b)
  {
    DecodesReference(2, b);
  }

  lemma DecodesLoneGreaterThan()
    ensures DecodeEntities("&gt;") == ">"
  {
    assert "&gt;" == Entities[3].0 + [];
    DecodesReference(3, []);
  }

  /** `trim` keeps a string that has no white space at either end. */
  lemma TrimOfUnpadded(s: string)
    requires s != [] && !IsJsSpace(s[0]) && !IsJsSpace(s[|s| - 1])
    ensures Trim(s) == s
  {
    var r := Trim(s);
    var i :| SliceBetweenSpaces(s, r, i);
    assert i == 0;
  }
}
