/** The page of one blog post: the post file is looked up by the slug of the
    route, and the page shows a loading notice, a not-found notice or the
    article with its meta description, its link rendering and its title
    layout. */
module BlogPostPage {
  import opened Base
  import opened Strings

  /** A post's front matter and body, as parsed from its markdown file. */
  datatype Post = Post(title: Option<string>, excerpt: Option<string>, content: string)

  /** One entry of the post-file table: the file's path and what it holds. */
  datatype PostFile = PostFile(path: string, post: Post)

  /** The lookup key of a post file: the last '/'-separated piece of its
      path with the first ".md" removed. */
  function FileKey(path: string): string
  {
    var parts := Split(path, '/');
    ReplaceFirst(parts[|parts| - 1], ".md", "")
  }

  /** The key is what follows the last '/' of the path, with the first
      ".md" removed wherever it occurs in that piece. */
  lemma FileKeyAfterLastSlash(path: string)
    ensures FileKey(path) == ReplaceFirst(path[LastIndexOf(path, '/') + 1..], ".md", "")
  {
    var parts := Split(path, '/');
    var last := parts[|parts| - 1];
    assert FileKey(path) == ReplaceFirst(last, ".md", "");
    SplitLast(path, '/');
    assert last == path[LastIndexOf(path, '/') + 1..];
  }

  /** A file `dir/name.md` whose name has no '/' and no ".md" of its own is
      found under `name`. */
  lemma FileKeyOfMarkdown(dir: string, name: string)
    requires '/' !in name && forall k :: !OccursAt(name, ".md", k)
    ensures FileKey(dir + "/" + name + ".md") == name
  {
    var path := dir + "/" + name + ".md";
    var file := name + ".md";
    FileKeyAfterLastSlash(path);
    AfterLastSlash(dir, name, path);
    MarkdownSuffixFirst(name);
    assert file[..|name|] == name;
    assert file[|name| + 3..] == "";
  }

  /** What follows the last '/' of `dir/name.md`. */
  lemma AfterLastSlash(dir: string, name: string, path: string)
    requires '/' !in name && path == dir + "/" + name + ".md"
    ensures path[LastIndexOf(path, '/') + 1..] == name + ".md"
  {
    var file := name + ".md";
    assert path == dir + "/" + file;
    assert forall k :: |dir| < k < |path| ==> path[k] == file[k - |dir| - 1];
    LastIndexOfAt(path, '/', |dir|);
    assert path[|dir| + 1..] == file;
  }

  /** In `name.md`, when `name` has no ".md" of its own, the first ".md" is
      the suffix. */
  lemma MarkdownSuffixFirst(name: string)
    requires forall k :: !OccursAt(name, ".md", k)
    ensures IndexOfSub(name + ".md", ".md") == |name|
  {
    var file := name + ".md";
    MarkdownOccurrences(name, file);
    IndexOfSubAt(file, ".md", |name|);
  }

  /** In `name.md`, ".md" occurs at the suffix and nowhere before it. */
  lemma MarkdownOccurrences(name: string, file: string)
    requires forall k :: !OccursAt(name, ".md", k)
    requires file == name + ".md"
    ensures OccursAt(file, ".md", |name|)
    ensures forall k :: 0 <= k < |name| ==> !OccursAt(file, ".md", k)
  {
    assert file[|name|..|name| + 3] == ".md";
    forall k | 0 <= k < |name| ensures !OccursAt(file, ".md", k) {
      NoEarlyMarkdown(name, k);
    }
  }

  lemma NoEarlyMarkdown(name: string, k: int)
    requires forall k :: !OccursAt(name, ".md", k)
    requires 0 <= k < |name|
    ensures !OccursAt(name + ".md", ".md", k)
  {
    var file := name + ".md";
    if k + 3 <= |name| {
      assert file[k..k + 3] == name[k..k + 3];
      assert !OccursAt(name, ".md", k);
    } else {
      NoStraddle(name, k);
    }
  }

  /** ".md" cannot begin in the last two characters of a name and run into
      an appended ".md". */
  lemma NoStraddle(name: string, k: int)
    requires |name| - 3 < k < |name| && 0 <= k
    ensures !OccursAt(name + ".md", ".md", k)
  {
    var file := name + ".md";
    assert file[|name|] == '.';
    if k + 3 <= |file| {
      assert file[k..k + 3][|name| - k] == '.';
    }
  }

  /** The ".md" removed need not be a suffix: a file `a.mdx.md` is found
      under "ax.md". */
  lemma FileKeyNotSuffix()
    ensures FileKey("posts/a.mdx.md") == "ax.md"
  {
    FileKeyAfterLastSlash("posts/a.mdx.md");
    ExampleName("posts/a.mdx.md");
    ExampleReplace("a.mdx.md");
  }

  lemma ExampleName(path: string)
    requires path == "posts/a.mdx.md"
    ensures path[LastIndexOf(path, '/') + 1..] == "a.mdx.md"
  {
    LastIndexOfAt(path, '/', 5);
  }

  lemma ExampleReplace(name: string)
    requires name == "a.mdx.md"
    ensures ReplaceFirst(name, ".md", "") == "ax.md"
  {
    assert name[0] == 'a';
    assert OccursAt(name, ".md", 1);
    assert !OccursAt(name, ".md", 0);
    IndexOfSubAt(name, ".md", 1);
    var key := name[..1] + "" + name[4..];
    assert |key| == 5;
    forall j | 0 <= j < 5 ensures key[j] == "ax.md"[j] {
      assert key[j] == if j == 0 then name[0] else name[j + 3];
    }
  }

  /** The `find` test: the file's key is the slug. */
  function HasKey(slug: string): PostFile -> bool
  {
    (f: PostFile) => FileKey(f.path) == slug
  }

  /** `fetchPost`'s `find`: the index of the first entry whose key is the
      slug, or None when no entry has it. */
  function FindPost(files: seq<PostFile>, slug: string): (found: Option<nat>)
    ensures found.Some? ==> found.value < |files| && FileKey(files[found.value].path) == slug
                            && forall k :: 0 <= k < found.value ==> FileKey(files[k].path) != slug
    ensures found.None? <==> forall k :: 0 <= k < |files| ==> FileKey(files[k].path) != slug
  {
    FindFirst(files, HasKey(slug))
  }

  /** The description shown to search engines when a post has no excerpt. */
  const MetaFallback := "Luxury interiors and custom furniture insights from D&D Design Center."

  /** The meta description: the excerpt when it is present and non-empty,
      otherwise the fallback. It is never empty. */
  function MetaDescription(post: Post): (description: string)
    ensures description != ""
    ensures post.excerpt.Some? && post.excerpt.value != "" ==> description == post.excerpt.value
    ensures !(post.excerpt.Some? && post.excerpt.value != "") ==> description == MetaFallback
  {
    if post.excerpt.Some? && post.excerpt.value != "" then post.excerpt.value else MetaFallback
  }

  /** How a link in the post body is rendered. */
  datatype Anchor = FooterLink(target: string) | PlainLink(href: Option<string>, newTab: bool)

  /** `isFooterLink`: exactly the two footer targets. */
  predicate IsFooterLink(href: Option<string>)
  {
    href == Some("#footer") || href == Some("/footer")
  }

  /** `isExternal`: a non-empty target that is neither site-relative nor a
      fragment. */
  predicate IsExternal(href: Option<string>)
  {
    href.Some? && href.value != "" && !StartsWith(href.value, "/") && !StartsWith(href.value, "#")
  }

  /** The link renderer: footer links scroll to the contact form; every
      other link opens in a new tab exactly when it is external. */
  function RenderLink(href: Option<string>): (a: Anchor)
    ensures a.FooterLink? <==> IsFooterLink(href)
    ensures a.PlainLink? ==> a.href == href && (a.newTab <==> IsExternal(href))
  {
    if IsFooterLink(href) then FooterLink(href.value) else PlainLink(href, IsExternal(href))
  }

  /** A footer target is never treated as external. */
  lemma FooterLinkNotExternal(href: Option<string>)
    ensures IsFooterLink(href) ==> !IsExternal(href) && RenderLink(href) == FooterLink(href.value)
  {
  }

  /** The index of the first whitespace character of `s`, or -1;
      `FirstSpaceFirst` states that none comes before it. */
  function FirstSpace(s: string): (r: int)
    ensures -1 <= r < |s|
    ensures r >= 0 ==> IsSpace(s[r])
  {
    if |s| == 0 then -1
    else if IsSpace(s[0]) then 0
    else
      var r := FirstSpace(s[1..]);
      if r == -1 then -1 else r + 1
  }

  /** No whitespace precedes the position `FirstSpace` finds, and there is
      none at all when it finds none. */
  lemma {:induction false} FirstSpaceFirst(s: string)
    ensures FirstSpace(s) >= 0 ==> forall k :: 0 <= k < FirstSpace(s) ==> !IsSpace(s[k])
    ensures FirstSpace(s) == -1 ==> forall k :: 0 <= k < |s| ==> !IsSpace(s[k])
    decreases |s|
  {
    if |s| > 0 && !IsSpace(s[0]) {
      FirstSpaceFirst(s[1..]);
      assert forall k :: 1 <= k < |s| ==> s[k] == s[1..][k - 1];
    }
  }

  /** `s.split(/\s+/)`: the pieces between maximal whitespace runs; by
      `SplitWordsSpaceFree` no piece holds whitespace. */
  function SplitWords(s: string): (parts: seq<string>)
    ensures |parts| >= 1
    decreases |s|
  {
    var k := FirstSpace(s);
    if k == -1 then [s]
    else
      TrimStartShorter(s[k..]);
      [s[..k]] + SplitWords(TrimStart(s[k..]))
  }

  /** A text without white space. */
  predicate SpaceFree(w: string)
  {
    forall k :: 0 <= k < |w| ==> !IsSpace(w[k])
  }

  /** No piece of `SplitWords(s)` holds whitespace. */
  lemma {:induction false} SplitWordsSpaceFree(s: string)
    ensures forall w :: w in SplitWords(s) ==> SpaceFree(w)
    decreases |s|
  {
    var k := FirstSpace(s);
    FirstSpaceFirst(s);
    if k == -1 {
      assert SplitWords(s) == [s];
    } else {
      var t := TrimStart(s[k..]);
      TrimStartShorter(s[k..]);
      SplitWordsSpaceFree(t);
      SplitWordsCons(s, k);
      assert SpaceFree(s[..k]) by {
        forall j | 0 <= j < k ensures !IsSpace(s[..k][j]) {
          assert s[..k][j] == s[j];
        }
      }
    }
  }

  /** One step of `SplitWords`. */
  lemma SplitWordsCons(s: string, k: int)
    requires k == FirstSpace(s) && k != -1
    ensures SplitWords(s) == [s[..k]] + SplitWords(TrimStart(s[k..]))
  {
  }

  /** Words made of non-whitespace characters. */
  predicate AreWords(ws: seq<string>)
  {
    forall i :: 0 <= i < |ws| ==> |ws[i]| > 0 && SpaceFree(ws[i])
  }

  /** Splitting words joined by single spaces gives the words back. */
  lemma {:induction false} SplitWordsJoin(ws: seq<string>)
    requires |ws| > 0 && AreWords(ws)
    ensures SplitWords(Join(ws, ' ')) == ws
    decreases |ws|
  {
    if |ws| == 1 {
      assert FirstSpace(ws[0]) == -1;
      assert ws == [ws[0]];
    } else {
      var tail := Join(ws[1..], ' ');
      JoinHead(ws, ' ');
      SplitWordsJoin(ws[1..]);
      JoinStartsWithWord(ws[1..]);
      SplitWordsStep(ws[0], tail);
    }
  }

  /** A word, one space and the rest split into the word and the pieces of
      the rest. */
  lemma SplitWordsStep(w: string, tail: string)
    requires |w| > 0 && (forall k :: 0 <= k < |w| ==> !IsSpace(w[k]))
    requires |tail| > 0 && !IsSpace(tail[0])
    ensures SplitWords(w + ([' '] + tail)) == [w] + SplitWords(tail)
  {
    var s := w + ([' '] + tail);
    FirstSpaceAfterWord(w, [' '] + tail);
    assert s[|w|..] == [' '] + tail;
    TrimStartOneSpace(tail);
    assert s[..|w|] == w;
  }

  /** A word followed by whitespace: the first whitespace is right after it. */
  lemma FirstSpaceAfterWord(w: string, rest: string)
    requires |w| > 0 && (forall k :: 0 <= k < |w| ==> !IsSpace(w[k]))
    requires |rest| > 0 && IsSpace(rest[0])
    ensures FirstSpace(w + rest) == |w|
  {
    var s := w + rest;
    assert forall k :: 0 <= k < |w| ==> s[k] == w[k];
    assert s[|w|] == rest[0];
    FirstSpaceAt(s, |w|);
  }

  /** The first whitespace is determined by the characters before it. */
  lemma {:induction false} FirstSpaceAt(s: string, i: int)
    requires 0 <= i < |s| && IsSpace(s[i]) && forall k :: 0 <= k < i ==> !IsSpace(s[k])
    ensures FirstSpace(s) == i
  {
    if i > 0 {
      FirstSpaceAt(s[1..], i - 1);
    }
  }

  /** Trimming the start of one space and then a word drops just the space. */
  lemma TrimStartOneSpace(tail: string)
    requires |tail| > 0 && !IsSpace(tail[0])
    ensures TrimStart([' '] + tail) == tail
  {
    var t := [' '] + tail;
    assert IsSpace(t[0]);
    assert TrimStart(tail) == tail;
    assert t[1..] == tail;
  }

  /** Words joined by single spaces start with a non-whitespace character. */
  lemma JoinStartsWithWord(ws: seq<string>)
    requires |ws| > 0 && AreWords(ws)
    ensures |Join(ws, ' ')| > 0 && !IsSpace(Join(ws, ' ')[0])
  {
    if |ws| > 1 {
      JoinHead(ws, ' ');
      assert Join(ws, ' ')[0] == ws[0][0];
    }
  }

  /** A title is long when, trimmed, it splits into more than five words. */
  predicate LongTitle(title: Option<string>)
  {
    title.Some? && title.value != "" && |SplitWords(Trim(title.value))| > 5
  }

  /** The heading's maximum width: "22ch" for a long title, none otherwise. */
  function TitleMaxWidth(title: Option<string>): (width: Option<string>)
    ensures width.Some? <==> LongTitle(title)
    ensures width.Some? ==> width.value == "22ch"
  {
    if LongTitle(title) then Some("22ch") else None
  }

  /** A title of words separated by single spaces is long exactly when it
      has more than five words. */
  lemma LongTitleOfWords(ws: seq<string>)
    requires |ws| > 0 && AreWords(ws)
    ensures LongTitle(Some(Join(ws, ' '))) <==> |ws| > 5
  {
    var s := Join(ws, ' ');
    JoinStartsWithWord(ws);
    JoinEndsWithWord(ws);
    TrimNoEdges(s);
    SplitWordsJoin(ws);
  }

  /** Words joined by single spaces end with a non-whitespace character. */
  lemma {:induction false} JoinEndsWithWord(ws: seq<string>)
    requires |ws| > 0 && AreWords(ws)
    ensures |Join(ws, ' ')| > 0 && !IsSpace(Join(ws, ' ')[|Join(ws, ' ')| - 1])
    decreases |ws|
  {
    if |ws| > 1 {
      JoinEndsWithWord(ws[1..]);
      var tail := Join(ws[1..], ' ');
      JoinHead(ws, ' ');
      assert Join(ws, ' ')[|Join(ws, ' ')| - 1] == tail[|tail| - 1];
    }
  }

  /** What the page shows. */
  datatype View = Loading | NotFound | Article(post: Post, description: string, maxWidth: Option<string>)

  /** The page component's state: the post table, the loaded post and the
      loading flag. */
  class PostPage {
    const files: seq<PostFile>
    var post: Option<Post>
    var loading: bool

    /** The page mounts with no post, loading. */
    constructor(files: seq<PostFile>)
      ensures this.files == files && post == None && loading
    {
      this.files := files;
      post := None;
      loading := true;
    }

    /** `fetchPost` for the route's slug: the first file whose key is the
        slug is loaded; when there is none, the post is cleared. Either
        way loading ends. */
    method FetchPost(slug: string)
      modifies this
      ensures !loading
      ensures FindPost(files, slug).None? ==> post == None
      ensures FindPost(files, slug).Some? ==> post == Some(files[FindPost(files, slug).value].post)
    {
      loading := true;
      var entry := FindPost(files, slug);
      if entry.None? {
        post := None;
        loading := false;
        return;
      }
      post := Some(files[entry.value].post);
      loading := false;
    }

    /** The rendered page: a loading notice while loading, a not-found
        notice without a post, else the article. */
    function Render(): (v: View)
      reads this
      ensures loading <==> v == Loading
      ensures v == NotFound <==> !loading && post.None?
      ensures v.Article? ==> post == Some(v.post) && v.description == MetaDescription(v.post)
                             && v.maxWidth == TitleMaxWidth(v.post.title)
    {
      if loading then Loading
      else if post.None? then NotFound
      else Article(post.value, MetaDescription(post.value), TitleMaxWidth(post.value.title))
    }
  }
}
