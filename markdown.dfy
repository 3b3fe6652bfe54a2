/**
 * The newsletter admin page's Markdown-to-HTML conversion and the request
 * body the page posts to the publish endpoint.
 *
 * The conversion is a chain of regular-expression replacements, each stated
 * here as the left-to-right scan the expression performs: headings at the
 * start of a line (`### `, then `## `, then `# `), `**bold**`, then
 * `*italic*`, then `[text](url)` links, then every blank line (`\n\n`)
 * closes one paragraph and opens the next; the result is wrapped in one
 * `<p>` element.
 */
module NewsletterAdmin {
  import opened Wrappers
  import opened Strings
  import opened PublishLambda

  const H1Open := "<h1>"
  const H1Close := "</h1>"
  const H2Open := "<h2>"
  const H2Close := "</h2>"
  const H3Open := "<h3>"
  const H3Close := "</h3>"
  const H1Marker := "# "
  const H2Marker := "## "
  const H3Marker := "### "
  const StrongOpen := "<strong>"
  const StrongClose := "</strong>"
  const EmOpen := "<em>"
  const EmClose := "</em>"
  const BoldDelimiter := "**"
  const ItalicDelimiter := "*"
  const BlankLine := "\n\n"
  const ParagraphBreak := "</p><p>"
  const ParagraphOpen := "<p>"
  const ParagraphClose := "</p>"

  /** The characters that end a line for `^`, `$` and `.` in a regular expression. */
  predicate IsLineTerminator(c: char) {
    c == '\n' || c == '\r' || c == '\U{2028}' || c == '\U{2029}'
  }

  predicate SingleLine(s: string) {
    forall k :: 0 <= k < |s| ==> !IsLineTerminator(s[k])
  }

  /** The length of the first line of `s`. */
  function LineLength(s: string): (n: nat)
    ensures n <= |s| && SingleLine(s[..n])
    ensures n < |s| ==> IsLineTerminator(s[n])
  {
    if s == [] || IsLineTerminator(s[0]) then 0
    else
      var m := LineLength(s[1..]);
      assert s[..1 + m] == [s[0]] + s[1..][..m];
      1 + m
  }

  /** One line after `replace(/^marker(.*$)/gim, open + '$1' + close)`. */
  function HeadingLine(line: string, marker: string, open: string, close: string): string {
    if |marker| <= |line| && line[..|marker|] == marker then open + line[|marker|..] + close else line
  }

  /** `replace(/^marker(.*$)/gim, ...)`: every line that starts with `marker`
      becomes `open`, the rest of the line, `close`; line ends are kept. */
  function HeadingPass(s: string, marker: string, open: string, close: string): string
    decreases |s|
  {
    var n := LineLength(s);
    var out := HeadingLine(s[..n], marker, open, close);
    if n == |s| then out else out + [s[n]] + HeadingPass(s[n + 1..], marker, open, close)
  }

  /** The three heading replacements, `###` first. Text without a `#` has no
      heading line and is kept. */
  function Headings(s: string): (r: string)
    ensures '#' !in s ==> r == s
  {
    assert '#' !in s ==> HeadingPass(s, H3Marker, H3Open, H3Close) == s by {
      if '#' !in s { HeadingPassWithoutHash(s, H3Marker, H3Open, H3Close); }
    }
    assert '#' !in s ==> HeadingPass(s, H2Marker, H2Open, H2Close) == s by {
      if '#' !in s { HeadingPassWithoutHash(s, H2Marker, H2Open, H2Close); }
    }
    assert '#' !in s ==> HeadingPass(s, H1Marker, H1Open, H1Close) == s by {
      if '#' !in s { HeadingPassWithoutHash(s, H1Marker, H1Open, H1Close); }
    }
    var h3 := HeadingPass(s, H3Marker, H3Open, H3Close);
    var h2 := HeadingPass(h3, H2Marker, H2Open, H2Close);
    HeadingPass(h2, H1Marker, H1Open, H1Close)
  }

  /** On text of one line the pass is the line rule. */
  lemma HeadingPassOfLine(line: string, marker: string, open: string, close: string)
    requires SingleLine(line)
    ensures HeadingPass(line, marker, open, close) == HeadingLine(line, marker, open, close)
  {
    assert LineLength(line) == |line|;
    assert line[..|line|] == line;
  }

  /** The pass works line by line: a line and the lines after it are
      rewritten separately. */
  lemma HeadingPassByLine(a: string, t: char, b: string, marker: string, open: string, close: string)
    requires SingleLine(a) && IsLineTerminator(t)
    ensures HeadingPass(a + [t] + b, marker, open, close) ==
      HeadingLine(a, marker, open, close) + [t] + HeadingPass(b, marker, open, close)
  {
    var s := a + [t] + b;
    var n := LineLength(s);
    assert s[|a|] == t;
    assert forall k :: 0 <= k < |a| ==> s[k] == a[k];
    assert n == |a|;
    assert s[..n] == a;
    assert s[n + 1..] == b;
  }

  lemma StartsWithout(s: string, marker: string, k: nat)
    requires k < |marker| && k < |s| && s[k] != marker[k]
    ensures !(|marker| <= |s| && s[..|marker|] == marker)
  {
  }

  /** A `### ` line becomes `<h3>`; the `##` and `#` rules that run after
      it do not see a heading any more. */
  lemma H3Line(line: string)
    requires SingleLine(line) && |line| >= 4 && line[..4] == H3Marker
    ensures Headings(line) == H3Open + line[4..] + H3Close
  {
    HeadingPassOfLine(line, H3Marker, H3Open, H3Close);
    var h3 := H3Open + line[4..] + H3Close;
    assert SingleLine(h3);
    StartsWithout(h3, H2Marker, 0);
    HeadingPassOfLine(h3, H2Marker, H2Open, H2Close);
    StartsWithout(h3, H1Marker, 0);
    HeadingPassOfLine(h3, H1Marker, H1Open, H1Close);
  }

  /** A `## ` line is not a `### ` line and becomes `<h2>`. */
  lemma H2Line(line: string)
    requires SingleLine(line) && |line| >= 3 && line[..3] == H2Marker
    ensures Headings(line) == H2Open + line[3..] + H2Close
  {
    StartsWithout(line, H3Marker, 2);
    HeadingPassOfLine(line, H3Marker, H3Open, H3Close);
    HeadingPassOfLine(line, H2Marker, H2Open, H2Close);
    var h2 := H2Open + line[3..] + H2Close;
    assert SingleLine(h2);
    StartsWithout(h2, H1Marker, 0);
    HeadingPassOfLine(h2, H1Marker, H1Open, H1Close);
  }

  /** A `# ` line is neither a `### ` nor a `## ` line and becomes `<h1>`. */
  lemma H1Line(line: string)
    requires SingleLine(line) && |line| >= 2 && line[..2] == H1Marker
    ensures Headings(line) == H1Open + line[2..] + H1Close
  {
    StartsWithout(line, H3Marker, 1);
    HeadingPassOfLine(line, H3Marker, H3Open, H3Close);
    StartsWithout(line, H2Marker, 1);
    HeadingPassOfLine(line, H2Marker, H2Open, H2Close);
    HeadingPassOfLine(line, H1Marker, H1Open, H1Close);
  }

  /** A line that does not start with `#` is no heading. */
  lemma PlainLine(line: string)
    requires SingleLine(line) && (line == [] || line[0] != '#')
    ensures Headings(line) == line
  {
    if line != [] {
      StartsWithout(line, H3Marker, 0);
      StartsWithout(line, H2Marker, 0);
      StartsWithout(line, H1Marker, 0);
    }
    HeadingPassOfLine(line, H3Marker, H3Open, H3Close);
    HeadingPassOfLine(line, H2Marker, H2Open, H2Close);
    HeadingPassOfLine(line, H1Marker, H1Open, H1Close);
  }

  /** The content of an emphasis span that starts right after an opening
      `delim`: up to the first `*`, non-empty and followed by `delim`. */
  function SpanLength(rest: string, delim: string): (j: Option<nat>)
    ensures j.Some? ==> 0 < j.value && j.value + |delim| <= |rest| && OccursAt(rest, delim, j.value)
    ensures j.Some? ==> '*' !in rest[..j.value]
  {
    match IndexOf(rest, ItalicDelimiter)
    case None => None
    case Some(j) =>
      if 0 < j && OccursAt(rest, delim, j) then
        assert forall k :: 0 <= k < j ==> rest[..j][k] != '*' by {
          forall k | 0 <= k < j ensures rest[..j][k] != '*' {
            assert !OccursAt(rest, ItalicDelimiter, k);
            assert rest[k..k + 1][0] == rest[k];
          }
        }
        Some(j)
      else None
  }

  /** The bold replacement when `delim` is `**` and the italic one when it is
      `*`: scanning left to right, an opening `delim`, a non-empty run without
      `*` and a closing `delim` become `open`, the run, `close`. Text without
      a `*` is kept. */
  function Emphasis(s: string, delim: string, open: string, close: string): (r: string)
    requires delim != []
    decreases |s|
    ensures delim[0] == '*' && '*' !in s ==> r == s
  {
    if s == [] then []
    else if |delim| <= |s| && s[..|delim|] == delim && SpanLength(s[|delim|..], delim).Some? then
      var rest := s[|delim|..];
      var j := SpanLength(rest, delim).value;
      open + rest[..j] + close + Emphasis(rest[j + |delim|..], delim, open, close)
    else
      assert [s[0]] + s[1..] == s;
      [s[0]] + Emphasis(s[1..], delim, open, close)
  }

  /** Bold, then italic. */
  function Inline(s: string): string {
    Emphasis(Emphasis(s, BoldDelimiter, StrongOpen, StrongClose), ItalicDelimiter, EmOpen, EmClose)
  }

  /** An opening `delim`, a non-empty run without `*` and a closing `delim`
      make one span, and the scan carries on after it. */
  lemma EmphasisSpan(x: string, tail: string, delim: string, open: string, close: string)
    requires x != [] && '*' !in x
    requires delim == BoldDelimiter || delim == ItalicDelimiter
    ensures Emphasis(delim + x + delim + tail, delim, open, close) == open + x + close + Emphasis(tail, delim, open, close)
  {
    var s := delim + x + delim + tail;
    var rest := s[|delim|..];
    assert rest == x + delim + tail;
    assert s[..|delim|] == delim;
    assert rest[|x|] == '*';
    assert OccursAt(rest, ItalicDelimiter, |x|);
    forall k | 0 <= k < |x| ensures !OccursAt(rest, ItalicDelimiter, k) {
      assert rest[k] == x[k];
    }
    assert IndexOf(rest, ItalicDelimiter) == Some(|x|);
    assert rest[|x|..|x| + |delim|] == delim;
    assert SpanLength(rest, delim) == Some(|x|);
    assert rest[..|x|] == x;
    assert rest[|x| + |delim|..] == tail;
  }

  /** `**x**` becomes `<strong>x</strong>` and the italic pass that follows
      does not touch it. */
  lemma BoldSpan(x: string)
    requires x != [] && '*' !in x
    ensures Inline(BoldDelimiter + x + BoldDelimiter) == StrongOpen + x + StrongClose
  {
    EmphasisSpan(x, [], BoldDelimiter, StrongOpen, StrongClose);
    assert BoldDelimiter + x + BoldDelimiter + [] == BoldDelimiter + x + BoldDelimiter;
    assert StrongOpen + x + StrongClose + [] == StrongOpen + x + StrongClose;
    assert '*' !in StrongOpen + x + StrongClose;
  }

  /** `*x*` passes the bold rule untouched and becomes `<em>x</em>`. */
  lemma ItalicSpan(x: string)
    requires x != [] && '*' !in x
    ensures Inline(ItalicDelimiter + x + ItalicDelimiter) == EmOpen + x + EmClose
  {
    var s := ItalicDelimiter + x + ItalicDelimiter;
    assert s[1] == x[0];
    StartsWithout(s, BoldDelimiter, 1);
    assert s[1..] == x + ItalicDelimiter;
    BoldSkipsRun(x);
    assert Emphasis(s, BoldDelimiter, StrongOpen, StrongClose) == s;
    EmphasisSpan(x, [], ItalicDelimiter, EmOpen, EmClose);
    assert s + [] == s;
    assert EmOpen + x + EmClose + [] == EmOpen + x + EmClose;
  }

  /** A run without `*` and then a single `*` holds no `**`. */
  lemma {:induction false} BoldSkipsRun(x: string)
    requires '*' !in x
    ensures Emphasis(x + ItalicDelimiter, BoldDelimiter, StrongOpen, StrongClose) == x + ItalicDelimiter
  {
    var s := x + ItalicDelimiter;
    if x == [] {
      assert s == "*";
    } else {
      assert s[0] == x[0];
      StartsWithout(s, BoldDelimiter, 0);
      assert s[1..] == x[1..] + ItalicDelimiter;
      BoldSkipsRun(x[1..]);
      assert [s[0]] + s[1..] == s;
    }
  }

  /** `[text](url)` at the start of `s`: the text (up to the first `]`,
      non-empty), then `(`, the url (up to the first `)`, non-empty) and `)`;
      with the length of the whole match. */
  function LinkAt(s: string): (m: Option<(string, string, nat)>)
    ensures m.Some? ==> 0 < m.value.2 <= |s|
  {
    if s == [] || s[0] != '[' then None
    else match IndexOf(s[1..], "]")
      case None => None
      case Some(j) =>
        if j == 0 || j + 2 >= |s| || s[j + 2] != '(' then None
        else match IndexOf(s[j + 3..], ")")
          case None => None
          case Some(k) => if k == 0 then None else Some((s[1..j + 1], s[j + 3..j + 3 + k], j + 4 + k))
  }

  /** `replace(/\[([^\]]+)\]\(([^)]+)\)/g, '<a href="$2">$1</a>')`. */
  function Links(s: string): (r: string)
    decreases |s|
    ensures '[' !in s ==> r == s
  {
    if s == [] then []
    else match LinkAt(s)
      case Some((text, url, len)) => "<a href=\"" + url + "\">" + text + "</a>" + Links(s[len..])
      case None =>
        assert [s[0]] + s[1..] == s;
        [s[0]] + Links(s[1..])
  }

  /** A well-formed link is matched whole: its text up to the first `]`, its
      url up to the first `)`. */
  lemma LinkAtWellFormed(text: string, url: string)
    requires text != [] && ']' !in text && url != [] && ')' !in url
    ensures LinkAt("[" + text + "](" + url + ")") == Some((text, url, |text| + |url| + 4))
  {
    var s := "[" + text + "](" + url + ")";
    var j := |text|;
    assert s[1..] == [] + text + ([']'] + ("(" + url + ")"));
    FirstAfter(s[1..], [], text, ']', "(" + url + ")");
    assert s[j + 2] == '(';
    assert s[j + 3..] == [] + url + ([')'] + []);
    FirstAfter(s[j + 3..], [], url, ')', []);
    assert s[1..j + 1] == text;
    assert s[j + 3..j + 3 + |url|] == url;
  }

  /** A well-formed link becomes an anchor to its url showing its text. */
  lemma LinkSpan(text: string, url: string)
    requires text != [] && ']' !in text && url != [] && ')' !in url
    ensures Links("[" + text + "](" + url + ")") == "<a href=\"" + url + "\">" + text + "</a>"
  {
    var s := "[" + text + "](" + url + ")";
    LinkAtWellFormed(text, url);
    assert s[|s|..] == [];
  }

  /** `replace(/\n\n/g, '</p><p>')`. */
  function Paragraphs(s: string): (r: string)
    ensures !Contains(s, BlankLine) ==> r == s
  {
    ReplaceAll(s, BlankLine, ParagraphBreak)
  }

  /** No two line feeds in a row are left: every blank line, taken left to
      right without overlap, became a paragraph break. */
  lemma {:induction false} NoBlankLineLeft(s: string)
    decreases |s|
    ensures forall k :: 0 <= k < |Paragraphs(s)| - 1 ==> !(Paragraphs(s)[k] == '\n' && Paragraphs(s)[k + 1] == '\n')
    ensures Paragraphs(s) != [] && Paragraphs(s)[0] == '\n' ==> s != [] && s[0] == '\n'
  {
    var r := Paragraphs(s);
    if |s| < 2 {
      assert r == s;
    } else if s[..2] == BlankLine {
      NoBlankLineLeft(s[2..]);
      assert r == ParagraphBreak + Paragraphs(s[2..]);
      assert r[..7] == ParagraphBreak;
    } else {
      NoBlankLineLeft(s[1..]);
      assert r == [s[0]] + Paragraphs(s[1..]);
    }
  }

  /** The first blank line becomes a paragraph break: the text before it is
      kept (it has no blank line and does not end with a line feed), and the
      replacement goes on after it. */
  lemma FirstBlankLineBreaks(a: string, b: string)
    requires !Contains(a + "\n", BlankLine)
    ensures Paragraphs(a + BlankLine + b) == a + ParagraphBreak + Paragraphs(b)
  {
    assert BlankLine[..|BlankLine| - 1] == "\n";
    ReplaceAllFirstOccurrence(a, BlankLine, b, ParagraphBreak);
  }

  /** `convertMarkdownToHtml(markdown)`. */
  function ConvertMarkdownToHtml(markdown: string): (html: string)
    ensures |html| >= 7 && html[..3] == ParagraphOpen && EndsWith(html, ParagraphClose)
  {
    var body := Paragraphs(Links(Inline(Headings(markdown))));
    var html := ParagraphOpen + body + ParagraphClose;
    assert html[..3] == ParagraphOpen;
    assert html[|html| - 4..] == ParagraphClose;
    html
  }

  /** Text with no Markdown in it is only wrapped in a paragraph. */
  lemma PlainTextOnlyWrapped(markdown: string)
    requires '#' !in markdown && '*' !in markdown && '[' !in markdown
    requires !Contains(markdown, BlankLine)
    ensures ConvertMarkdownToHtml(markdown) == ParagraphOpen + markdown + ParagraphClose
  {
  }

  lemma {:induction false} HeadingPassWithoutHash(s: string, marker: string, open: string, close: string)
    requires '#' !in s && marker != [] && marker[0] == '#'
    decreases |s|
    ensures HeadingPass(s, marker, open, close) == s
  {
    var n := LineLength(s);
    if n > 0 {
      StartsWithout(s[..n], marker, 0);
    } else if |marker| <= n {
      assert false;
    }
    if n < |s| {
      HeadingPassWithoutHash(s[n + 1..], marker, open, close);
      SplitAt(s, n);
    }
  }

  lemma SplitAt(s: string, n: nat)
    requires n < |s|
    ensures s[..n] + [s[n]] + s[n + 1..] == s
  {
    assert s[..n] + [s[n]] == s[..n + 1];
  }

  /** The request body the page posts: the converted HTML, the raw Markdown as
      the plain-text part, and a test address only in test mode. */
  function AdminPublishBody(subject: string, content: string, testMode: bool, testEmail: string, apiKey: string): (b: PublishBody)
    ensures b.htmlContent == Some(ConvertMarkdownToHtml(content))
    ensures b.textContent == Some(content)
    ensures b.testMode == testMode
    ensures b.testEmail.Some? <==> testMode
    ensures HasRequiredFields(b) <==> subject != ""
  {
    var b := PublishBody(Some(subject), Some(ConvertMarkdownToHtml(content)), Some(content), testMode,
                         if testMode then Some(testEmail) else None, Some(apiKey));
    b
  }
}
