/** A blog card: the post's URL slug, taken from its front matter or derived
    from its title, and the link the card points to. */
module BlogPost {
  import opened Base
  import opened Strings

  /** The characters a derived slug keeps: `[a-z0-9]`. */
  predicate SlugChar(c: char)
  {
    'a' <= c <= 'z' || '0' <= c <= '9'
  }

  /** A well-formed slug: lower-case letters, digits and single hyphens,
      with no hyphen at either end. */
  predicate IsSlug(s: string)
  {
    Hyphenated(s) && (|s| > 0 ==> s[0] != '-' && s[|s| - 1] != '-')
  }

  /** Letters, digits and single hyphens. */
  predicate Hyphenated(s: string)
  {
    (forall i :: 0 <= i < |s| ==> SlugChar(s[i]) || s[i] == '-')
    && (forall i :: 0 <= i < |s| - 1 ==> !(s[i] == '-' && s[i + 1] == '-'))
  }

  /** `s` without its leading run of characters outside `[a-z0-9]`. */
  function DropRun(s: string): (r: string)
    ensures |r| <= |s| && r == s[|s| - |r|..]
    ensures |r| > 0 ==> SlugChar(r[0])
    ensures forall i :: 0 <= i < |s| - |r| ==> !SlugChar(s[i])
  {
    if |s| == 0 || SlugChar(s[0]) then s else DropRun(s[1..])
  }

  /** The global replace of `[^a-z0-9]+` by "-": each maximal run of other
      characters becomes a single hyphen. */
  function Hyphenate(s: string): (r: string)
    ensures Hyphenated(r)
    ensures |s| > 0 ==> |r| > 0 && (if SlugChar(s[0]) then r[0] == s[0] else r[0] == '-')
    decreases |s|
  {
    if |s| == 0 then ""
    else if SlugChar(s[0]) then [s[0]] + Hyphenate(s[1..])
    else "-" + Hyphenate(DropRun(s[1..]))
  }

  /** The global replace of `^-|-$` by "": a leading and a trailing hyphen go. */
  function StripEdges(h: string): (r: string)
    ensures |r| <= |h|
  {
    var a := if |h| > 0 && h[0] == '-' then h[1..] else h;
    if |a| > 0 && a[|a| - 1] == '-' then a[..|a| - 1] else a
  }

  /** The slug derived from a title: lower-cased, runs of other characters
      turned into one hyphen, edge hyphens removed. It is always well formed. */
  function DeriveSlug(title: string): (slug: string)
    ensures IsSlug(slug)
  {
    var h := Hyphenate(ToLower(title));
    StripEdgesSlug(h);
    StripEdges(h)
  }

  /** Removing the edge hyphens of a hyphenated string leaves a slug. */
  lemma StripEdgesSlug(h: string)
    requires Hyphenated(h)
    ensures IsSlug(StripEdges(h))
  {
    var a := if |h| > 0 && h[0] == '-' then h[1..] else h;
    assert Hyphenated(a) && (|a| > 0 ==> a[0] != '-') by {
      if |h| > 0 && h[0] == '-' {
        assert forall i :: 0 <= i < |a| ==> a[i] == h[i + 1];
      }
    }
    var r := StripEdges(h);
    if |a| > 0 && a[|a| - 1] == '-' {
      assert r == a[..|a| - 1];
      assert forall i :: 0 <= i < |r| ==> r[i] == a[i];
    } else {
      assert r == a;
    }
  }

  /** The slug a card uses: the front-matter slug when it is present and
      non-empty, otherwise the one derived from the title. */
  function SlugOf(frontMatterSlug: Option<string>, title: string): (slug: string)
    ensures frontMatterSlug.Some? && frontMatterSlug.value != "" ==> slug == frontMatterSlug.value
    ensures !(frontMatterSlug.Some? && frontMatterSlug.value != "") ==> IsSlug(slug)
  {
    if frontMatterSlug.Some? && frontMatterSlug.value != "" then frontMatterSlug.value
    else DeriveSlug(title)
  }

  /** The card's link target: the blog route followed by the slug. */
  function CardLink(frontMatterSlug: Option<string>, title: string): (href: string)
    ensures StartsWith(href, "/blog/") && href[6..] == SlugOf(frontMatterSlug, title)
  {
    "/blog/" + SlugOf(frontMatterSlug, title)
  }

  /** A string of slug characters and single hyphens is left as it is by
      the hyphen replace. */
  lemma {:induction false} HyphenateFixed(s: string)
    requires Hyphenated(s)
    ensures Hyphenate(s) == s
    decreases |s|
  {
    if |s| > 0 {
      HyphenateFixed(s[1..]);
      if !SlugChar(s[0]) {
        assert |s| > 1 ==> SlugChar(s[1]);
        assert DropRun(s[1..]) == s[1..];
      }
    }
  }

  /** A word of slug characters is copied unchanged in front of the
      replace of the rest. */
  lemma {:induction false} HyphenateWord(w: string, t: string)
    requires forall i :: 0 <= i < |w| ==> SlugChar(w[i])
    ensures Hyphenate(w + t) == w + Hyphenate(t)
    decreases |w|
  {
    if |w| > 0 {
      HyphenateWord(w[1..], t);
      HyphenateWordStep(w, t);
    } else {
      assert w + t == t;
    }
  }

  /** One letter more in front of the word. */
  lemma HyphenateWordStep(w: string, t: string)
    requires |w| > 0 && SlugChar(w[0])
    requires Hyphenate(w[1..] + t) == w[1..] + Hyphenate(t)
    ensures Hyphenate(w + t) == w + Hyphenate(t)
  {
    var c, w' := w[0], w[1..];
    assert w == [c] + w';
    AppendAssoc([c], w', t);
    HyphenateCons(c, w' + t);
    AppendAssoc([c], w', Hyphenate(t));
  }

  lemma HyphenateCons(c: char, rest: string)
    requires SlugChar(c)
    ensures Hyphenate([c] + rest) == [c] + Hyphenate(rest)
  {
    assert ([c] + rest)[1..] == rest;
  }

  /** A maximal run of characters outside `[a-z0-9]` becomes exactly one
      hyphen: the run is non-empty and the rest is empty or starts with a
      slug character. */
  lemma HyphenateRun(run: string, t: string)
    requires |run| > 0 && forall i :: 0 <= i < |run| ==> !SlugChar(run[i])
    requires |t| > 0 ==> SlugChar(t[0])
    ensures Hyphenate(run + t) == "-" + Hyphenate(t)
  {
    var c, rest := run[0], run[1..];
    assert run == [c] + rest;
    AppendAssoc([c], rest, t);
    HyphenateOther(c, rest + t);
    DropRunPast(rest, t);
  }

  lemma HyphenateOther(c: char, rest: string)
    requires !SlugChar(c)
    ensures Hyphenate([c] + rest) == "-" + Hyphenate(DropRun(rest))
  {
    assert ([c] + rest)[1..] == rest;
  }

  /** Dropping the leading run of `run + t` leaves exactly `t`. */
  lemma {:induction false} DropRunPast(run: string, t: string)
    requires forall i :: 0 <= i < |run| ==> !SlugChar(run[i])
    requires |t| > 0 ==> SlugChar(t[0])
    ensures DropRun(run + t) == t
    decreases |run|
  {
    if |run| == 0 {
      assert run + t == t;
    } else {
      assert (run + t)[1..] == run[1..] + t;
      DropRunPast(run[1..], t);
    }
  }

  /** Deriving a slug from a well-formed slug returns it unchanged. */
  lemma DeriveSlugFixed(s: string)
    requires IsSlug(s)
    ensures DeriveSlug(s) == s
  {
    assert ToLower(s) == s;
    HyphenateFixed(s);
    assert DeriveSlug(s) == StripEdges(s);
    if |s| > 0 {
      assert s[0] != '-' && s[|s| - 1] != '-';
    }
  }

  /** Derivation is idempotent. */
  lemma DeriveSlugIdempotent(title: string)
    ensures DeriveSlug(DeriveSlug(title)) == DeriveSlug(title)
  {
    DeriveSlugFixed(DeriveSlug(title));
  }

  /** The hyphen replace keeps every letter and digit, in order. */
  lemma {:induction false} HyphenateKeepsLetters(s: string)
    ensures Filter(Hyphenate(s), SlugChar) == Filter(s, SlugChar)
    decreases |s|
  {
    if |s| > 0 {
      if SlugChar(s[0]) {
        HyphenateKeepsLetters(s[1..]);
        assert ([s[0]] + Hyphenate(s[1..]))[1..] == Hyphenate(s[1..]);
      } else {
        var rest := s[1..];
        var d := DropRun(rest);
        HyphenateKeepsLetters(d);
        assert ("-" + Hyphenate(d))[1..] == Hyphenate(d);
        assert rest == rest[..|rest| - |d|] + d;
        FilterAppend(rest[..|rest| - |d|], d, SlugChar);
        FilterNone(rest[..|rest| - |d|], SlugChar);
      }
    }
  }

  /** Removing edge hyphens keeps every letter and digit. */
  lemma StripEdgesKeepsLetters(h: string)
    ensures Filter(StripEdges(h), SlugChar) == Filter(h, SlugChar)
  {
    var a := if |h| > 0 && h[0] == '-' then h[1..] else h;
    if |h| > 0 && h[0] == '-' {
      assert h == "-" + a;
      FilterAppend("-", a, SlugChar);
    }
    if |a| > 0 && a[|a| - 1] == '-' {
      assert a == a[..|a| - 1] + "-";
      FilterAppend(a[..|a| - 1], "-", SlugChar);
    }
  }

  /** A derived slug holds exactly the letters and digits of the lower-cased
      title, in their order, separated by hyphens. */
  lemma DeriveSlugKeepsLetters(title: string)
    ensures Filter(DeriveSlug(title), SlugChar) == Filter(ToLower(title), SlugChar)
  {
    HyphenateKeepsLetters(ToLower(title));
    StripEdgesKeepsLetters(Hyphenate(ToLower(title)));
  }

  /** The derived slug is empty exactly when the title has no ASCII letter
      or digit. */
  lemma DeriveSlugEmptyIff(title: string)
    ensures DeriveSlug(title) == "" <==> forall i :: 0 <= i < |title| ==> !SlugChar(LowerChar(title[i]))
  {
    var slug := DeriveSlug(title);
    var lower := ToLower(title);
    DeriveSlugKeepsLetters(title);
    if slug == "" {
      forall i | 0 <= i < |title| ensures !SlugChar(LowerChar(title[i])) {
        assert lower[i] == LowerChar(title[i]);
      }
    } else {
      FilterMembers(lower, SlugChar);
      assert slug[0] in Filter(slug, SlugChar);
      var c := slug[0];
      assert c in Filter(lower, SlugChar);
      var j :| 0 <= j < |lower| && lower[j] == c;
      assert SlugChar(LowerChar(title[j]));
    }
  }
}
