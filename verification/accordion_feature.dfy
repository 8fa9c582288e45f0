/** The room-feature accordion: one tab per room, whose description is
    rendered as paragraphs with `**bold**` spans, and a large picture of
    the tab last clicked. */
module AccordionFeature {
  import opened Base
  import opened Strings

  /** One accordion tab. */
  datatype FeatureItem = FeatureItem(id: int, title: string, image: string, description: string)

  /** The paragraph separator: an empty line. */
  const ParagraphBreak := "\n\n"

  /** `s.split(sep)` for a non-empty string separator: the pieces between
      the occurrences of `sep` found from the left, without overlap; by
      `SplitOnPiecesFree` no piece holds `sep`. */
  function SplitOn(s: string, sep: string): (parts: seq<string>)
    requires |sep| > 0
    ensures |parts| >= 1
    decreases |s|
  {
    var i := IndexOfSub(s, sep);
    if i == -1 then [s]
    else [s[..i]] + SplitOn(s[i + |sep|..], sep)
  }

  /** No piece of `s.split(sep)` holds `sep`. */
  lemma {:induction false} SplitOnPiecesFree(s: string, sep: string)
    requires |sep| > 0
    ensures forall w, k :: w in SplitOn(s, sep) ==> !OccursAt(w, sep, k)
    decreases |s|
  {
    var i := IndexOfSub(s, sep);
    IndexOfSubFirst(s, sep);
    if i == -1 {
      SplitOnNone(s, sep);
    } else {
      var rest := s[i + |sep|..];
      SplitOnPiecesFree(rest, sep);
      SplitOnCons(s, sep, i);
      forall k | OccursAt(s[..i], sep, k) ensures OccursAt(s, sep, k) {
        assert s[..i][k..k + |sep|] == s[k..k + |sep|];
      }
    }
  }

  /** `parts.join(sep)`. */
  function JoinWith(parts: seq<string>, sep: string): string
  {
    if |parts| == 0 then ""
    else if |parts| == 1 then parts[0]
    else parts[0] + sep + JoinWith(parts[1..], sep)
  }

  /** Joining the pieces back with the separator gives the text again. */
  lemma {:induction false} JoinSplitOn(s: string, sep: string)
    requires |sep| > 0
    ensures JoinWith(SplitOn(s, sep), sep) == s
    decreases |s|
  {
    var i := IndexOfSub(s, sep);
    if i != -1 {
      assert OccursAt(s, sep, i);
      var rest := s[i + |sep|..];
      JoinSplitOn(rest, sep);
      SplitOnCons(s, sep, i);
      JoinWithCons(s[..i], SplitOn(rest, sep), sep);
      SplitAround(s, sep, i);
    } else {
      SplitOnNone(s, sep);
    }
  }

  /** Cutting `s` around an occurrence of `sep`. */
  lemma SplitAround(s: string, sep: string, i: int)
    requires OccursAt(s, sep, i)
    ensures s == s[..i] + sep + s[i + |sep|..]
  {
    assert s[i..i + |sep|] == sep;
    assert s == s[..i] + s[i..i + |sep|] + s[i + |sep|..];
  }

  /** One step of `SplitOn`. */
  lemma SplitOnCons(s: string, sep: string, i: int)
    requires |sep| > 0 && i == IndexOfSub(s, sep) && i != -1
    ensures SplitOn(s, sep) == [s[..i]] + SplitOn(s[i + |sep|..], sep)
  {
  }

  /** Without a separator, `SplitOn` gives the whole text. */
  lemma SplitOnNone(s: string, sep: string)
    requires |sep| > 0 && IndexOfSub(s, sep) == -1
    ensures SplitOn(s, sep) == [s]
  {
  }

  /** One step of `JoinWith`. */
  lemma JoinWithCons(p: string, parts: seq<string>, sep: string)
    requires |parts| >= 1
    ensures JoinWith([p] + parts, sep) == p + sep + JoinWith(parts, sep)
  {
    assert ([p] + parts)[1..] == parts;
  }

  /** A paragraph free of line breaks. */
  predicate OneLine(p: string)
  {
    forall k :: 0 <= k < |p| ==> p[k] != '\n'
  }

  /** Paragraphs without line breaks, joined by empty lines, are split back
      into the same paragraphs: one more paragraph than separators. */
  lemma {:induction false} SplitJoinParagraphs(ps: seq<string>)
    requires |ps| > 0 && forall i :: 0 <= i < |ps| ==> OneLine(ps[i])
    ensures SplitOn(JoinWith(ps, ParagraphBreak), ParagraphBreak) == ps
    decreases |ps|
  {
    if |ps| == 1 {
      NoBreakIn(ps[0]);
    } else {
      SplitJoinParagraphs(ps[1..]);
      FirstBreakAfter(ps[0], JoinWith(ps[1..], ParagraphBreak));
    }
  }

  lemma NoBreakIn(p: string)
    requires OneLine(p)
    ensures IndexOfSub(p, ParagraphBreak) == -1
  {
    var i := IndexOfSub(p, ParagraphBreak);
    if i >= 0 {
      BreakStartsWithNewline(p, i);
    }
  }

  lemma BreakStartsWithNewline(s: string, i: int)
    requires OccursAt(s, ParagraphBreak, i)
    ensures s[i] == '\n'
  {
    assert s[i] == s[i..i + 2][0];
  }

  /** In `p + "\n\n" + rest` with `p` on one line, the first separator is
      the one after `p`. */
  lemma FirstBreakAfter(p: string, rest: string)
    requires OneLine(p)
    ensures var s := p + ParagraphBreak + rest;
            IndexOfSub(s, ParagraphBreak) == |p| && s[..|p|] == p && s[|p| + 2..] == rest
  {
    var s := p + ParagraphBreak + rest;
    assert OccursAt(s, ParagraphBreak, |p|);
    forall k | 0 <= k < |p| ensures !OccursAt(s, ParagraphBreak, k) {
      assert s[k] == p[k];
    }
    IndexOfSubAt(s, ParagraphBreak, |p|);
    assert s[..|p|] == p;
    assert s[|p| + 2..] == rest;
  }

  /** A "**" starts at `m`. */
  predicate DoubleStarAt(s: string, m: int)
  {
    0 <= m && m + 1 < |s| && s[m] == '*' && s[m + 1] == '*'
  }

  /** The lazy `(.*?)\*\*` part of the bold pattern, tried from position
      `k`: the first closing "**" reached without crossing a line break. */
  function CloseFrom(s: string, k: nat): (j: Option<nat>)
    ensures j.Some? ==> k <= j.value && j.value + 2 <= |s| && s[j.value] == '*' && s[j.value + 1] == '*'
    ensures j.Some? ==> SingleLine(s[k..j.value])
    ensures j.Some? ==> forall m :: k <= m < j.value ==> !DoubleStarAt(s, m)
    ensures j.None? ==> forall m :: k <= m && DoubleStarAt(s, m) ==> !SingleLine(s[k..m])
    decreases |s| - k
  {
    if k + 2 > |s| then None
    else if s[k] == '*' && s[k + 1] == '*' then Some(k)
    else if IsLineTerminator(s[k]) then None
    else
      var r := CloseFrom(s, k + 1);
      assert r.Some? ==> s[k..r.value] == [s[k]] + s[k + 1..r.value];
      r
  }

  /** The global replace of `\*\*(.*?)\*\*` by `<strong>$1</strong>`: from
      the left, each "**" that has a closing "**" later on the same line
      opens a bold span that ends at the nearest such closing "**"; the scan
      resumes after it. */
  function Embolden(s: string): (r: string)
    decreases |s|
  {
    if |s| < 2 then s
    else if s[0] == '*' && s[1] == '*' && CloseFrom(s, 2).Some? then
      var j := CloseFrom(s, 2).value;
      "<strong>" + s[2..j] + "</strong>" + Embolden(s[j + 2..])
    else [s[0]] + Embolden(s[1..])
  }

  /** A complete `**x**` pair: an opening "**" at `i` closed by a "**" at
      `j` on the same line. */
  predicate PairAt(s: string, i: int, j: int)
  {
    0 <= i && i + 2 <= j && j + 2 <= |s|
    && s[i] == '*' && s[i + 1] == '*' && s[j] == '*' && s[j + 1] == '*'
    && SingleLine(s[i + 2..j])
  }

  /** A paragraph with no complete pair is left unchanged. */
  lemma {:induction false} EmboldenNoPair(s: string)
    requires forall i, j :: !PairAt(s, i, j)
    ensures Embolden(s) == s
    decreases |s|
  {
    if |s| >= 2 {
      if s[0] == '*' && s[1] == '*' && CloseFrom(s, 2).Some? {
        var j := CloseFrom(s, 2).value;
        assert PairAt(s, 0, j);
      }
      forall i, j ensures PairAt(s[1..], i, j) ==> PairAt(s, i + 1, j + 1) {
        PairShift(s, i, j);
      }
      EmboldenNoPair(s[1..]);
    }
  }

  /** A pair in the tail of `s` is a pair of `s`, one position later. */
  lemma PairShift(s: string, i: int, j: int)
    requires |s| > 0
    ensures PairAt(s[1..], i, j) ==> PairAt(s, i + 1, j + 1)
  {
    if 0 <= i && i + 2 <= j && j + 2 <= |s| - 1 {
      assert s[1..][i + 2..j] == s[i + 3..j + 1];
    }
  }

  /** No "**" anywhere in `w`. */
  predicate NoDoubleStar(w: string)
  {
    forall m :: 0 <= m < |w| ==> !DoubleStarAt(w, m)
  }

  /** Text in which no "**" starts, even once a '*' follows it, and then a
      pair around a one-line span likewise free of "**": the text is kept,
      the span becomes bold, and the rest is rendered on its own. Single
      stray asterisks are allowed anywhere. Applied twice it shows that
      separate spans in a paragraph are handled independently. */
  lemma {:induction false} EmboldenSpan(x: string, y: string, z: string)
    requires NoDoubleStar(x + "*")
    requires SingleLine(y) && NoDoubleStar(y + "*")
    ensures Embolden(x + ("**" + y + "**" + z)) == x + ("<strong>" + y + "</strong>" + Embolden(z))
    decreases |x|
  {
    var t := "**" + y + "**" + z;
    var r := "<strong>" + y + "</strong>" + Embolden(z);
    if |x| == 0 {
      assert x + t == t && x + r == r;
      EmboldenLeadingSpan(y, z);
    } else {
      var w := x + "*";
      assert x[1..] + "*" == w[1..];
      forall m ensures !DoubleStarAt(w[1..], m) {
        assert DoubleStarAt(w[1..], m) ==> DoubleStarAt(w, m + 1);
      }
      EmboldenSpan(x[1..], y, z);
      ConsAppend(x, t);
      assert (x + t)[1] == w[1];
      assert !DoubleStarAt(w, 0);
      EmboldenPlain(x + t);
      ConsAppend(x, r);
    }
  }

  /** Taking the head off `x + t`. */
  lemma ConsAppend(x: string, t: string)
    requires |x| > 0
    ensures (x + t)[0] == x[0] && (x + t)[1..] == x[1..] + t
    ensures x + t == [x[0]] + (x[1..] + t)
  {
  }

  /** A character that does not start "**" is copied as it is. */
  lemma EmboldenPlain(s: string)
    requires |s| > 0 && !DoubleStarAt(s, 0)
    ensures Embolden(s) == [s[0]] + Embolden(s[1..])
  {
  }

  lemma EmboldenLeadingSpan(y: string, z: string)
    requires SingleLine(y) && NoDoubleStar(y + "*")
    ensures Embolden("**" + y + "**" + z) == "<strong>" + y + "</strong>" + Embolden(z)
  {
    var s := "**" + y + "**" + z;
    SpanParts(y, z, s);
    assert CloseFrom(s, 2) == Some(2 + |y|) by {
      var e := 2 + |y|;
      assert DoubleStarAt(s, e);
      assert s[2..e] == y;
      var j := CloseFrom(s, 2).value;
      if j < e {
        SpanStar(y, z, s, j);
      }
    }
  }

  /** A "**" of `**y**z` starting inside `y` is one of `y + "*"`. */
  lemma SpanStar(y: string, z: string, s: string, j: int)
    requires s == "**" + y + "**" + z && 2 <= j < 2 + |y|
    ensures DoubleStarAt(s, j) ==> DoubleStarAt(y + "*", j - 2)
  {
    SpanParts(y, z, s);
    var w := y + "*";
    assert w[j - 2] == s[j];
    assert w[j - 1] == s[j + 1];
  }

  /** The pieces of `**y**z`. */
  lemma SpanParts(y: string, z: string, s: string)
    requires s == "**" + y + "**" + z
    ensures |s| == |y| + |z| + 4 && s[0] == '*' && s[1] == '*'
    ensures s[2 + |y|] == '*' && s[3 + |y|] == '*'
    ensures forall p :: 2 <= p < 2 + |y| ==> s[p] == y[p - 2]
    ensures s[2..2 + |y|] == y && s[2 + |y| + 2..] == z
  {
  }

  /** `renderFormattedDescription`: one paragraph per piece between empty
      lines, each with its bold spans rendered. */
  function RenderDescription(description: string): (paragraphs: seq<string>)
    ensures |paragraphs| == |SplitOn(description, ParagraphBreak)|
    ensures forall i :: 0 <= i < |paragraphs| ==>
              paragraphs[i] == Embolden(SplitOn(description, ParagraphBreak)[i])
  {
    var parts := SplitOn(description, ParagraphBreak);
    seq(|parts|, i requires 0 <= i < |parts| => Embolden(parts[i]))
  }

  /** A description written as one-line paragraphs separated by empty lines
      renders one paragraph per written paragraph. */
  lemma RenderParagraphCount(ps: seq<string>)
    requires |ps| > 0 && forall i :: 0 <= i < |ps| ==> OneLine(ps[i])
    ensures |RenderDescription(JoinWith(ps, ParagraphBreak))| == |ps|
  {
    SplitJoinParagraphs(ps);
  }

  /** What the consultation button runs. */
  datatype ConsultationHandler = LocalFooterScroll | Warning

  /** The consultation button always runs the section's own footer scroll:
      that local function always exists, and a handler passed by the
      caller is never read. */
  function ConsultationClick(handlerPassed: bool): (h: ConsultationHandler)
    ensures h == LocalFooterScroll
  {
    LocalFooterScroll
  }

  /** The accordion's state: the highlighted tab and the large picture. */
  class Accordion {
    const features: seq<FeatureItem>
    var activeTabId: Option<int>
    var activeImage: string

    /** The picture shown is the picture of the highlighted tab. */
    predicate Consistent()
      reads this
    {
      exists i :: 0 <= i < |features| && activeTabId == Some(features[i].id) && activeImage == features[i].image
    }

    /** The section starts with tab id 1 highlighted and the first tab's
        picture; the two agree when the first tab has id 1. */
    constructor(features: seq<FeatureItem>)
      requires |features| > 0
      ensures this.features == features
      ensures activeTabId == Some(1) && activeImage == features[0].image
      ensures features[0].id == 1 ==> Consistent()
    {
      this.features := features;
      activeTabId := Some(1);
      activeImage := features[0].image;
      new;
      if features[0].id == 1 {
        assert activeTabId == Some(features[0].id);
      }
    }

    /** A tab is highlighted when its id is the active one. */
    predicate Highlighted(i: int)
      requires 0 <= i < |features|
      reads this
    {
      activeTabId == Some(features[i].id)
    }

    /** Clicking tab `i` shows its picture and highlights it, together. */
    method ClickTab(i: int)
      requires 0 <= i < |features|
      modifies this
      ensures activeImage == features[i].image && activeTabId == Some(features[i].id)
      ensures Consistent() && Highlighted(i)
    {
      activeImage := features[i].image;
      activeTabId := Some(features[i].id);
    }
  }
}
