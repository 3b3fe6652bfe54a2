/**
 * The blog's post loader: the posts directory holds one Markdown or MDX file
 * per post; each file's front matter supplies the title, date, excerpt and
 * tags, with defaults for the ones that are missing, and the list of posts is
 * ordered newest first by its date string.
 *
 * The file system is a `PostsDirectory` object: whether the directory exists,
 * the names `readdirSync` lists and the parsed contents of each file (front
 * matter and body, as gray-matter returns them). The reading-time estimate and
 * the current time are parameters.
 */
module Posts {
  import opened Wrappers
  import opened Strings

  const MdxExtension := ".mdx"
  const MdExtension := ".md"

  /** The front-matter fields a post reads; any of them may be absent. */
  datatype FrontMatter = FrontMatter(
    title: Option<string>,
    date: Option<string>,
    excerpt: Option<string>,
    tags: Option<seq<string>>)

  /** A post file as gray-matter splits it: front matter and body. */
  datatype PostFile = PostFile(data: FrontMatter, content: string)

  datatype Post = Post(
    slug: string,
    title: string,
    date: string,
    excerpt: string,
    content: string,
    readingTime: string,
    tags: seq<string>)

  /** The file names that become posts. */
  predicate IsPostFile(name: string) {
    EndsWith(name, MdxExtension) || EndsWith(name, MdExtension)
  }

  /** The file name without its trailing `.mdx` or `.md`. */
  function Slug(name: string): (r: string)
    requires IsPostFile(name)
    ensures EndsWith(name, MdxExtension) ==> name == r + MdxExtension
    ensures !EndsWith(name, MdxExtension) ==> name == r + MdExtension
  {
    if EndsWith(name, MdxExtension) then name[..|name| - 4] else name[..|name| - 3]
  }

  /** The post built from one file: an empty or missing title falls back to the
      slug, a missing date to the current time, a missing excerpt to the empty
      string and missing tags to no tags. */
  function PostFrom(slug: string, file: PostFile, readingTime: string -> string, now: string): (p: Post)
    ensures p.slug == slug && p.content == file.content && p.readingTime == readingTime(file.content)
    ensures p.title == (if Truthy(file.data.title) then file.data.title.value else slug)
    ensures p.date == (if Truthy(file.data.date) then file.data.date.value else now)
    ensures p.excerpt == (if Truthy(file.data.excerpt) then file.data.excerpt.value else "")
    ensures file.data.tags.None? ==> p.tags == []
    ensures file.data.tags.Some? ==> p.tags == file.data.tags.value
  {
    Post(slug,
         if Truthy(file.data.title) then file.data.title.value else slug,
         if Truthy(file.data.date) then file.data.date.value else now,
         if Truthy(file.data.excerpt) then file.data.excerpt.value else "",
         file.content,
         readingTime(file.content),
         file.data.tags.GetOr([]))
  }

  /** `a` comes no later than `b` in the listing: its date is not smaller. */
  predicate NotOlder(a: Post, b: Post) {
    !LexLess(a.date, b.date)
  }

  /** Newest first: no post is followed by one with a larger date. */
  predicate NewestFirst(s: seq<Post>) {
    forall i, j :: 0 <= i < j < |s| ==> NotOlder(s[i], s[j])
  }

  lemma NotOlderTransitive(a: Post, b: Post, c: Post)
    requires NotOlder(a, b) && NotOlder(b, c)
    ensures NotOlder(a, c)
  {
    if LexLess(a.date, c.date) {
      LexLessTotal(a.date, b.date);
      if a.date != b.date {
        LexLessTransitive(b.date, a.date, c.date);
      }
    }
  }

  /** Puts `p` into a newest-first list, in front of the first post whose date
      is not larger than its own. */
  function Insert(p: Post, s: seq<Post>): (r: seq<Post>)
    requires NewestFirst(s)
    ensures multiset(r) == multiset(s) + multiset{p}
    ensures NewestFirst(r)
  {
    if s == [] then [p]
    else if NotOlder(p, s[0]) then
      NotOlderThanHead(p, s);
      ConsNewestFirst(p, s);
      [p] + s
    else
      var rest := Insert(p, s[1..]);
      HeadBeforeInserted(p, s, rest);
      ConsNewestFirst(s[0], rest);
      assert s == [s[0]] + s[1..];
      [s[0]] + rest
  }

  /** A post no older than the head of a newest-first list is no older than any of it. */
  lemma NotOlderThanHead(p: Post, s: seq<Post>)
    requires NewestFirst(s) && s != [] && NotOlder(p, s[0])
    ensures forall j :: 0 <= j < |s| ==> NotOlder(p, s[j])
  {
    forall j | 0 < j < |s| ensures NotOlder(p, s[j]) {
      NotOlderTransitive(p, s[0], s[j]);
    }
  }

  /** When `p` goes after the head, the head is no older than anything in the
      rest with `p` inserted. */
  lemma HeadBeforeInserted(p: Post, s: seq<Post>, rest: seq<Post>)
    requires NewestFirst(s) && s != [] && !NotOlder(p, s[0])
    requires multiset(rest) == multiset(s[1..]) + multiset{p}
    ensures forall j :: 0 <= j < |rest| ==> NotOlder(s[0], rest[j])
  {
    LexLessAsymmetric(p.date, s[0].date);
    forall j | 0 <= j < |rest| ensures NotOlder(s[0], rest[j]) {
      assert rest[j] in multiset(rest);
      if rest[j] != p {
        assert rest[j] in multiset(s[1..]);
        var k :| 0 <= k < |s[1..]| && s[1..][k] == rest[j];
        assert s[k + 1] == rest[j];
      }
    }
  }

  /** A post no older than every post of a newest-first list can go in front. */
  lemma ConsNewestFirst(p: Post, s: seq<Post>)
    requires NewestFirst(s) && forall j :: 0 <= j < |s| ==> NotOlder(p, s[j])
    ensures NewestFirst([p] + s)
  {
    var r := [p] + s;
    forall i, j | 0 <= i < j < |r| ensures NotOlder(r[i], r[j]) {
      assert r[j] == s[j - 1];
      if i > 0 {
        assert r[i] == s[i - 1];
      }
    }
  }

  /** The `sort` with comparator `a.date > b.date ? -1 : 1`: a permutation of
      the posts, newest first. Posts with equal dates may end up in any order. */
  function SortByDate(s: seq<Post>): (r: seq<Post>)
    ensures multiset(r) == multiset(s)
    ensures NewestFirst(r)
  {
    if s == [] then []
    else
      assert s == [s[0]] + s[1..];
      Insert(s[0], SortByDate(s[1..]))
  }

  /** The posts the listed file names yield, in listing order, before sorting. */
  function PostsOf(names: seq<string>, files: map<string, PostFile>, readingTime: string -> string, now: string): (r: seq<Post>)
    requires forall n :: n in names ==> n in files
    ensures |r| <= |names|
  {
    if names == [] then []
    else
      var rest := PostsOf(names[1..], files, readingTime, now);
      if IsPostFile(names[0]) then [PostFrom(Slug(names[0]), files[names[0]], readingTime, now)] + rest
      else rest
  }

  /** A post comes from a listed post file, and every listed post file gives a post. */
  lemma {:induction false} PostsOfExactly(names: seq<string>, files: map<string, PostFile>, readingTime: string -> string, now: string, p: Post)
    requires forall n :: n in names ==> n in files
    ensures p in PostsOf(names, files, readingTime, now) <==>
      exists n :: n in names && IsPostFile(n) && p == PostFrom(Slug(n), files[n], readingTime, now)
  {
    if names != [] {
      PostsOfExactly(names[1..], files, readingTime, now, p);
      assert forall n :: n in names <==> n == names[0] || n in names[1..];
    }
  }

  /** The result of `getAllPosts` for a directory that exists. */
  function AllPosts(names: seq<string>, files: map<string, PostFile>, readingTime: string -> string, now: string): (r: seq<Post>)
    requires forall n :: n in names ==> n in files
    ensures NewestFirst(r)
    ensures |r| <= |names|
  {
    var unsorted := PostsOf(names, files, readingTime, now);
    assert |SortByDate(unsorted)| == |multiset(unsorted)|;
    SortByDate(unsorted)
  }

  /** Only post files become posts, each with its own slug and front-matter
      defaults, and every post file is listed. */
  lemma AllPostsFromPostFiles(names: seq<string>, files: map<string, PostFile>, readingTime: string -> string, now: string, p: Post)
    requires forall n :: n in names ==> n in files
    ensures p in AllPosts(names, files, readingTime, now) <==>
      exists n :: n in names && IsPostFile(n) && p == PostFrom(Slug(n), files[n], readingTime, now)
  {
    var unsorted := PostsOf(names, files, readingTime, now);
    assert p in AllPosts(names, files, readingTime, now) <==> p in multiset(unsorted);
    PostsOfExactly(names, files, readingTime, now, p);
  }

  /** `getPostBySlug(slug)`: `slug.mdx` when it exists, otherwise `slug.md`;
      a file that cannot be read gives `null`. */
  function PostBySlug(files: map<string, PostFile>, slug: string, readingTime: string -> string, now: string): (r: Option<Post>)
    ensures slug + MdxExtension in files ==> r == Some(PostFrom(slug, files[slug + MdxExtension], readingTime, now))
    ensures slug + MdxExtension !in files && slug + MdExtension in files ==> r == Some(PostFrom(slug, files[slug + MdExtension], readingTime, now))
    ensures r.None? <==> slug + MdxExtension !in files && slug + MdExtension !in files
  {
    var path := if slug + MdxExtension in files then slug + MdxExtension else slug + MdExtension;
    if path in files then Some(PostFrom(slug, files[path], readingTime, now)) else None
  }

  /** Every post in the listing can be opened by its slug, and it is the same
      post unless an `.md` file has an `.mdx` sibling, which then wins. */
  lemma ListedPostFoundBySlug(files: map<string, PostFile>, name: string, readingTime: string -> string, now: string)
    requires name in files && IsPostFile(name)
    ensures PostBySlug(files, Slug(name), readingTime, now).Some?
    ensures EndsWith(name, MdxExtension) || Slug(name) + MdxExtension !in files ==>
      PostBySlug(files, Slug(name), readingTime, now) == Some(PostFrom(Slug(name), files[name], readingTime, now))
  {
  }

  /** The posts directory: whether it exists, the names it lists and what
      each listed file holds. */
  class PostsDirectory {
    var present: bool
    var names: seq<string>
    var files: map<string, PostFile>

    /** Every listed name can be read, and a missing directory lists and holds nothing. */
    ghost predicate Valid()
      reads this
    {
      (forall n :: n in names ==> n in files) && (!present ==> names == [] && files == map[])
    }

    constructor (present: bool, names: seq<string>, files: map<string, PostFile>)
      requires forall n :: n in names ==> n in files
      requires !present ==> names == [] && files == map[]
      ensures Valid()
      ensures this.present == present && this.names == names && this.files == files
    {
      this.present := present;
      this.names := names;
      this.files := files;
    }

    /** `getAllPosts()`: a missing directory is created and gives no posts;
        otherwise the post files are read, and nothing on disk changes. */
    method GetAllPosts(readingTime: string -> string, now: string) returns (posts: seq<Post>)
      requires Valid()
      modifies this
      ensures Valid() && present
      ensures !old(present) ==> posts == [] && names == [] && files == map[]
      ensures old(present) ==> posts == AllPosts(names, files, readingTime, now)
      ensures old(present) ==> names == old(names) && files == old(files)
    {
      if !present {
        present := true;
        return [];
      }
      posts := AllPosts(names, files, readingTime, now);
    }
  }
}
