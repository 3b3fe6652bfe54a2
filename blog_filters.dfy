/**
 * The blog index's filter bar: a free-text search over title and excerpt and
 * a single selected tag, both mirrored into the page URL's query string so a
 * filtered listing can be linked to and restored.
 *
 * The component's React state is a `FilterBar` object; `router.push` appends
 * to its `pushed` history.
 */
module BlogFilters {
  import opened Wrappers
  import opened Strings
  import opened Url
  import opened Posts

  const SearchKey := "search"
  const TagKey := "tag"

  /** The search clause: an empty query matches everything, otherwise the
      lower-cased query must occur in the lower-cased title or excerpt. */
  predicate MatchesSearch(post: Post, query: string) {
    query == "" || Contains(ToLower(post.title), ToLower(query)) || Contains(ToLower(post.excerpt), ToLower(query))
  }

  /** The tag clause: no tag (or an empty one) matches everything, otherwise
      the tag must be one of the post's tags exactly. */
  predicate MatchesTag(post: Post, tag: Option<string>) {
    !Truthy(tag) || tag.value in post.tags
  }

  /** The search ignores case: a query and its lower-cased form match the same posts. */
  lemma SearchIgnoresCase(post: Post, query: string)
    ensures MatchesSearch(post, query) == MatchesSearch(post, ToLower(query))
  {
    ToLowerIdempotent(query);
  }

  predicate Shows(post: Post, query: string, tag: Option<string>) {
    MatchesSearch(post, query) && MatchesTag(post, tag)
  }

  /** `filteredPosts`: `posts.filter(...)` with both clauses. */
  function FilteredPosts(posts: seq<Post>, query: string, tag: Option<string>): (r: seq<Post>)
    ensures |r| <= |posts|
  {
    if posts == [] then []
    else (if Shows(posts[0], query, tag) then [posts[0]] else []) + FilteredPosts(posts[1..], query, tag)
  }

  /** Filtering works post by post: it distributes over concatenation, so the
      posts kept keep their relative order. */
  lemma {:induction false} FilterDistributes(a: seq<Post>, b: seq<Post>, query: string, tag: Option<string>)
    ensures FilteredPosts(a + b, query, tag) == FilteredPosts(a, query, tag) + FilteredPosts(b, query, tag)
  {
    if a != [] {
      var head := if Shows(a[0], query, tag) then [a[0]] else [];
      TailOfAppend(a, b);
      FilteredHead(a + b, query, tag);
      FilteredHead(a, query, tag);
      FilterDistributes(a[1..], b, query, tag);
      AppendAssociates(head, FilteredPosts(a[1..], query, tag), FilteredPosts(b, query, tag));
    } else {
      assert a + b == b;
    }
  }

  lemma FilteredHead(posts: seq<Post>, query: string, tag: Option<string>)
    requires posts != []
    ensures FilteredPosts(posts, query, tag) ==
            (if Shows(posts[0], query, tag) then [posts[0]] else []) + FilteredPosts(posts[1..], query, tag)
  {
  }

  lemma AppendAssociates(x: seq<Post>, y: seq<Post>, z: seq<Post>)
    ensures x + (y + z) == (x + y) + z
  {
  }

  lemma TailOfAppend(a: seq<Post>, b: seq<Post>)
    requires a != []
    ensures (a + b)[0] == a[0] && (a + b)[1..] == a[1..] + b
  {
  }

  /** A post is shown exactly when it is in the list and matches both clauses. */
  lemma {:induction false} FilteredExactly(posts: seq<Post>, query: string, tag: Option<string>, p: Post)
    ensures p in FilteredPosts(posts, query, tag) <==> p in posts && Shows(p, query, tag)
  {
    if posts != [] {
      FilteredExactly(posts[1..], query, tag, p);
      assert p in posts <==> p == posts[0] || p in posts[1..];
    }
  }

  /** With an empty search and no tag every post is shown, in order. */
  lemma {:induction false} NoFilterShowsAll(posts: seq<Post>, tag: Option<string>)
    requires !Truthy(tag)
    ensures FilteredPosts(posts, "", tag) == posts
  {
    if posts != [] {
      NoFilterShowsAll(posts[1..], tag);
    }
  }

  /** An empty tag filters like no tag at all. */
  lemma {:induction false} EmptyTagIsNoTag(posts: seq<Post>, query: string)
    ensures FilteredPosts(posts, query, Some("")) == FilteredPosts(posts, query, None)
  {
    if posts != [] {
      EmptyTagIsNoTag(posts[1..], query);
    }
  }

  /** The parameters `updateURL` sets, in order: `search` when non-empty and
      `tag` when set and non-empty. */
  function Params(search: string, tag: Option<string>): (r: seq<(string, string)>)
    ensures |r| <= 2
    ensures (SearchKey, search) in r <==> search != ""
    ensures Truthy(tag) <==> (TagKey, tag.GetOr("")) in r
  {
    (if search != "" then [(SearchKey, search)] else [])
    + (if Truthy(tag) then [(TagKey, tag.value)] else [])
  }

  /** `params.get(key)`: the first value set under `key`, if any. */
  function Get(params: seq<(string, string)>, key: string): (r: Option<string>)
    ensures r.Some? ==> exists k :: 0 <= k < |params| && params[k] == (key, r.value) &&
                                    forall j :: 0 <= j < k ==> params[j].0 != key
    ensures r.None? ==> forall k :: 0 <= k < |params| ==> params[k].0 != key
  {
    if params == [] then None
    else if params[0].0 == key then Some(params[0].1)
    else Get(params[1..], key)
  }

  /** One parameter as `params.toString()` writes it. */
  function Pair(param: (string, string)): (r: string)
    ensures |param.0| < |r| && r[|param.0|] == '='
    ensures r[..|param.0|] == param.0 && r[|param.0| + 1..] == FormEncode(param.1)
  {
    var r := param.0 + "=" + FormEncode(param.1);
    assert r[|param.0|] == '=';
    assert r[..|param.0|] == param.0 && r[|param.0| + 1..] == FormEncode(param.1);
    r
  }

  /** `params.toString()`: the pairs joined by `&`. */
  function Serialize(params: seq<(string, string)>): (r: string)
    ensures params == [] <==> r == ""
  {
    if params == [] then ""
    else if |params| == 1 then Pair(params[0])
    else Pair(params[0]) + "&" + Serialize(params[1..])
  }

  /** `s.split('&')`. */
  function SplitAmpersand(s: string): (r: seq<string>)
    ensures |r| >= 1
  {
    if s == [] then [""]
    else
      var rest := SplitAmpersand(s[1..]);
      if s[0] == '&' then [""] + rest else [[s[0]] + rest[0]] + rest[1..]
  }

  lemma {:induction false} SplitAfter(a: string, b: string)
    requires '&' !in a
    ensures SplitAmpersand(a + "&" + b) == [a] + SplitAmpersand(b)
  {
    if a == [] {
      assert a + "&" + b == "&" + b;
      assert ("&" + b)[1..] == b;
    } else {
      assert (a + "&" + b)[1..] == a[1..] + "&" + b;
      SplitAfter(a[1..], b);
      assert [a[0]] + a[1..] == a;
    }
  }

  lemma {:induction false} SplitWithoutAmpersand(s: string)
    requires '&' !in s
    ensures SplitAmpersand(s) == [s]
  {
    if s != [] {
      SplitWithoutAmpersand(s[1..]);
      assert [s[0]] + s[1..] == s;
    }
  }

  /** The serialised query splits back at `&` into one piece per parameter, in
      order: an encoded value never carries an `&` that would start a
      parameter of its own. */
  lemma {:induction false} SerializeSplits(params: seq<(string, string)>)
    requires params != []
    requires forall k :: 0 <= k < |params| ==> '&' !in params[k].0
    ensures |SplitAmpersand(Serialize(params))| == |params|
    ensures forall k :: 0 <= k < |params| ==> SplitAmpersand(Serialize(params))[k] == Pair(params[k])
  {
    EncodedValuesHaveNoDelimiters(params[0].1);
    assert '&' !in Pair(params[0]);
    if |params| == 1 {
      SplitWithoutAmpersand(Pair(params[0]));
    } else {
      SerializeSplits(params[1..]);
      SplitAfter(Pair(params[0]), Serialize(params[1..]));
    }
  }

  /** The URL `updateURL(search, tag)` pushes. */
  function TargetUrl(pathname: string, search: string, tag: Option<string>): (r: string)
    ensures r == pathname <==> search == "" && !Truthy(tag)
  {
    var query := Serialize(Params(search, tag));
    if query != "" then
      assert (pathname + "?" + query)[|pathname|] == '?';
      pathname + "?" + query
    else pathname
  }

  /** The filter state the URL-reading effect restores from the parameters
      `updateURL` set is the state that produced them; a tag that was set but
      empty comes back as no tag, which filters the same way. */
  lemma ParamsRestoreState(search: string, tag: Option<string>)
    ensures Get(Params(search, tag), SearchKey).GetOr("") == search
    ensures Truthy(tag) ==> Get(Params(search, tag), TagKey) == tag
    ensures !Truthy(tag) ==> Get(Params(search, tag), TagKey).None?
  {
    var ps := Params(search, tag);
    if search != "" {
      assert ps[0] == (SearchKey, search);
      if Truthy(tag) {
        assert ps[1..] == [(TagKey, tag.value)];
      }
    } else if Truthy(tag) {
      assert ps == [(TagKey, tag.value)];
    }
  }

  /** The component's state: the search box, the selected tag and the URLs
      pushed to the router so far, on the page at `pathname`. */
  class FilterBar {
    const pathname: string
    var searchQuery: string
    var selectedTag: Option<string>
    var pushed: seq<string>

    constructor (pathname: string)
      ensures this.pathname == pathname
      ensures searchQuery == "" && selectedTag.None? && pushed == []
    {
      this.pathname := pathname;
      searchQuery := "";
      selectedTag := None;
      pushed := [];
    }

    /** The posts the page lists in the current state. */
    function Shown(posts: seq<Post>): (r: seq<Post>)
      reads this
      ensures |r| <= |posts|
    {
      FilteredPosts(posts, searchQuery, selectedTag)
    }

    /** The effect on `searchParams`: `search || ''` and `tag || null`. */
    method InitFromUrl(search: Option<string>, tag: Option<string>)
      modifies this
      ensures searchQuery == search.GetOr("")
      ensures selectedTag == (if Truthy(tag) then tag else None)
      ensures pushed == old(pushed)
    {
      searchQuery := if Truthy(search) then search.value else "";
      selectedTag := if Truthy(tag) then tag else None;
    }

    /** `updateURL(search, tag)`. */
    method UpdateUrl(search: string, tag: Option<string>)
      modifies this
      ensures pushed == old(pushed) + [TargetUrl(pathname, search, tag)]
      ensures searchQuery == old(searchQuery) && selectedTag == old(selectedTag)
    {
      pushed := pushed + [TargetUrl(pathname, search, tag)];
    }

    /** `handleSearchChange(value)`: the new query, with the current tag, goes
        into the state and the URL. */
    method SearchChange(value: string)
      modifies this
      ensures searchQuery == value && selectedTag == old(selectedTag)
      ensures pushed == old(pushed) + [TargetUrl(pathname, value, selectedTag)]
    {
      searchQuery := value;
      UpdateUrl(value, selectedTag);
    }

    /** `handleTagChange(tag)`: the new tag, with the current query, goes into
        the state and the URL. */
    method TagChange(tag: Option<string>)
      modifies this
      ensures selectedTag == tag && searchQuery == old(searchQuery)
      ensures pushed == old(pushed) + [TargetUrl(pathname, searchQuery, tag)]
    {
      selectedTag := tag;
      UpdateUrl(searchQuery, tag);
    }

    /** The "All Posts" button clears the tag and keeps the query. */
    method AllPosts()
      modifies this
      ensures selectedTag.None? && searchQuery == old(searchQuery)
      ensures pushed == old(pushed) + [TargetUrl(pathname, searchQuery, None)]
    {
      TagChange(None);
    }

    /** A tag button: clicking the selected tag clears it, any other selects it. */
    method ClickTag(tag: string)
      modifies this
      ensures old(selectedTag) == Some(tag) ==> selectedTag.None?
      ensures old(selectedTag) != Some(tag) ==> selectedTag == Some(tag)
      ensures searchQuery == old(searchQuery)
      ensures pushed == old(pushed) + [TargetUrl(pathname, searchQuery, selectedTag)]
    {
      TagChange(if Some(tag) == selectedTag then None else Some(tag));
    }

    /** "Clear filters": both filters reset and the bare page URL is pushed. */
    method ClearFilters()
      modifies this
      ensures searchQuery == "" && selectedTag.None?
      ensures pushed == old(pushed) + [pathname]
    {
      searchQuery := "";
      selectedTag := None;
      UpdateUrl("", None);
    }
  }

  /** After "Clear filters" the page lists every post, in order. */
  method ClearThenShowAll(bar: FilterBar, posts: seq<Post>) returns (shown: seq<Post>)
    modifies bar
    ensures shown == posts
    ensures bar.pushed == old(bar.pushed) + [bar.pathname]
  {
    bar.ClearFilters();
    shown := bar.Shown(posts);
    NoFilterShowsAll(posts, None);
  }

  /** Clicking the same tag twice restores the tag selection it started from,
      unless that was a tag other than the one clicked: then the first click
      selects the clicked tag and the second clears it. */
  method ToggleTwice(bar: FilterBar, tag: string)
    modifies bar
    ensures old(bar.selectedTag) == Some(tag) ==> bar.selectedTag == Some(tag)
    ensures old(bar.selectedTag).None? ==> bar.selectedTag.None?
    ensures old(bar.selectedTag).Some? && old(bar.selectedTag) != Some(tag) ==> bar.selectedTag.None?
    ensures bar.searchQuery == old(bar.searchQuery)
    ensures |bar.pushed| == |old(bar.pushed)| + 2
  {
    bar.ClickTag(tag);
    bar.ClickTag(tag);
  }
}
