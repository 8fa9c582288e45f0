/** String operations of the JavaScript runtime that the site's code relies
    on, over `seq<char>`, one char per Unicode scalar value. */
module Strings {

  /** The characters JavaScript's `\s` and `String.prototype.trim` treat as
      white space: the ECMAScript WhiteSpace and LineTerminator sets. */
  predicate IsSpace(c: char)
  {
    c == ' ' || c == '\t' || c == '\n' || c == '\r' || c == '\U{000B}' || c == '\U{000C}'
    || c == '\U{00A0}' || c == '\U{FEFF}' || c == '\U{1680}' || ('\U{2000}' <= c <= '\U{200A}')
    || c == '\U{2028}' || c == '\U{2029}' || c == '\U{202F}' || c == '\U{205F}' || c == '\U{3000}'
  }

  /** The characters a regular-expression `.` does not match. */
  predicate IsLineTerminator(c: char)
  {
    c == '\n' || c == '\r' || c == '\U{2028}' || c == '\U{2029}'
  }

  predicate SingleLine(s: string)
  {
    forall i :: 0 <= i < |s| ==> !IsLineTerminator(s[i])
  }

  predicate AllSpace(s: string)
  {
    forall i :: 0 <= i < |s| ==> IsSpace(s[i])
  }

  /** Number of white-space characters `s` starts with. */
  function LeadingSpaces(s: string): (n: nat)
    ensures n <= |s| && (n < |s| ==> !IsSpace(s[n]))
  {
    if |s| > 0 && IsSpace(s[0]) then 1 + LeadingSpaces(s[1..]) else 0
  }

  /** Number of white-space characters `s` ends with. */
  function TrailingSpaces(s: string): (n: nat)
    ensures n <= |s| && (n < |s| ==> !IsSpace(s[|s| - 1 - n]))
  {
    if |s| > 0 && IsSpace(s[|s| - 1]) then 1 + TrailingSpaces(s[..|s| - 1]) else 0
  }

  /** The leading run is all white space. */
  lemma {:induction false} LeadingSpacesAreSpace(s: string)
    ensures AllSpace(s[..LeadingSpaces(s)])
  {
    if |s| > 0 && IsSpace(s[0]) {
      LeadingSpacesAreSpace(s[1..]);
      var n := LeadingSpaces(s);
      forall i | 1 <= i < n ensures IsSpace(s[..n][i]) {
        assert s[..n][i] == s[1..][..n - 1][i - 1];
      }
    }
  }

  /** The trailing run is all white space. */
  lemma {:induction false} TrailingSpacesAreSpace(s: string)
    ensures AllSpace(s[|s| - TrailingSpaces(s)..])
  {
    if |s| > 0 && IsSpace(s[|s| - 1]) {
      var t := s[..|s| - 1];
      TrailingSpacesAreSpace(t);
      var n := TrailingSpaces(s);
      var u := s[|s| - n..];
      forall i | 0 <= i < n - 1 ensures IsSpace(u[i]) {
        assert u[i] == t[|t| - (n - 1)..][i];
      }
    }
  }

  /** `s.trimStart()`: `s` without its leading white space. */
  function TrimStart(s: string): (r: string)
    ensures |r| <= |s| && (|r| > 0 ==> !IsSpace(r[0]))
  {
    s[LeadingSpaces(s)..]
  }

  /** Trimming a text that starts with white space shortens it. */
  lemma TrimStartShorter(s: string)
    requires |s| > 0 && IsSpace(s[0])
    ensures |TrimStart(s)| < |s|
  {
  }

  /** `s.trimEnd()`: `s` without its trailing white space. */
  function TrimEnd(s: string): (r: string)
    ensures |r| <= |s| && (|r| > 0 ==> !IsSpace(r[|r| - 1]))
  {
    s[..|s| - TrailingSpaces(s)]
  }

  /** `r` sits in `s` at `a`, with only white space before and after it. */
  predicate CoreAt(s: string, r: string, a: int)
  {
    0 <= a && a + |r| <= |s| && r == s[a..a + |r|]
    && AllSpace(s[..a]) && AllSpace(s[a + |r|..])
  }

  /** `s.trim()`: `s` without its leading and trailing white space. */
  function Trim(s: string): (r: string)
    ensures |r| > 0 ==> !IsSpace(r[0]) && !IsSpace(r[|r| - 1])
    ensures |r| <= |s|
    ensures exists a :: CoreAt(s, r, a)
  {
    var a := LeadingSpaces(s);
    var t := TrimStart(s);
    LeadingSpacesAreSpace(s);
    TrailingSpacesAreSpace(t);
    assert s[a + |TrimEnd(t)|..] == t[|t| - TrailingSpaces(t)..];
    assert TrimEnd(t) == s[a..a + |TrimEnd(t)|];
    assert CoreAt(s, TrimEnd(t), a);
    TrimEnd(t)
  }

  /** The trimmed string is the only part of `s` with white space on
      either side and none at its own ends. */
  lemma TrimUnique(s: string, r: string, a: int)
    requires CoreAt(s, r, a) && |r| > 0 && !IsSpace(r[0]) && !IsSpace(r[|r| - 1])
    ensures Trim(s) == r
  {
    var t := Trim(s);
    var b :| CoreAt(s, t, b);
    TrimEmptyIffBlank(s);
    assert !IsSpace(s[a]) && !IsSpace(s[a + |r| - 1]);
    assert |t| > 0;
    assert !IsSpace(s[b]) && !IsSpace(s[b + |t| - 1]);
    assert a == b;
    assert |t| == |r|;
  }

  /** A string trims to "" exactly when it consists of white space only. */
  lemma TrimEmptyIffBlank(s: string)
    ensures Trim(s) == "" <==> AllSpace(s)
  {
    var t := TrimStart(s);
    if |t| > 0 {
      TrailingSpacesBelow(t);
    }
    if Trim(s) == "" {
      LeadingSpacesAreSpace(s);
      assert s[..LeadingSpaces(s)] == s;
    }
  }

  /** A text that starts with a character that is not white space does not
      end in white space only. */
  lemma {:induction false} TrailingSpacesBelow(s: string)
    requires |s| > 0 && !IsSpace(s[0])
    ensures TrailingSpaces(s) < |s|
  {
    if |s| > 1 && IsSpace(s[|s| - 1]) {
      TrailingSpacesBelow(s[..|s| - 1]);
    }
  }

  /** Trimming a string that has no white space at either end changes nothing. */
  lemma TrimNoEdges(s: string)
    requires |s| > 0 ==> !IsSpace(s[0]) && !IsSpace(s[|s| - 1])
    ensures Trim(s) == s
  {
    assert s[0..] == s;
    assert s[..|s|] == s;
  }

  predicate StartsWith(s: string, prefix: string)
  {
    |prefix| <= |s| && s[..|prefix|] == prefix
  }

  /** `s.includes(sub)`. */
  predicate Contains(s: string, sub: string)
    decreases |s|
  {
    StartsWith(s, sub) || (|s| > 0 && Contains(s[1..], sub))
  }

  /** `sub` occurs in `s` at position `i`. */
  predicate OccursAt(s: string, sub: string, i: int)
  {
    0 <= i && i + |sub| <= |s| && s[i..i + |sub|] == sub
  }

  /** `Contains` means: `sub` occurs at some position of `s`. */
  lemma {:induction false} ContainsIff(s: string, sub: string)
    ensures Contains(s, sub) <==> exists i :: OccursAt(s, sub, i)
    decreases |s|
  {
    if StartsWith(s, sub) {
      assert OccursAt(s, sub, 0);
    }
    if |s| > 0 {
      ContainsIff(s[1..], sub);
      if exists i :: OccursAt(s, sub, i) {
        var i :| OccursAt(s, sub, i);
        if i > 0 {
          assert OccursAt(s[1..], sub, i - 1);
        }
      }
      if Contains(s[1..], sub) {
        var i :| OccursAt(s[1..], sub, i);
        assert OccursAt(s, sub, i + 1);
      }
    }
  }

  /** `s.indexOf(sub)`: the first position where `sub` occurs, or -1;
      `IndexOfSubFirst` states that it is the first. */
  function IndexOfSub(s: string, sub: string): (r: int)
    ensures -1 <= r <= |s|
    ensures r >= 0 ==> OccursAt(s, sub, r)
    decreases |s|
  {
    if StartsWith(s, sub) then 0
    else if |s| == 0 then -1
    else
      var r := IndexOfSub(s[1..], sub);
      assert r >= 0 ==> s[1..][r..r + |sub|] == s[r + 1..r + 1 + |sub|];
      if r == -1 then -1 else r + 1
  }

  /** `sub` occurs nowhere before the position `indexOf` finds, and nowhere
      at all when it finds none. */
  lemma {:induction false} IndexOfSubFirst(s: string, sub: string)
    ensures IndexOfSub(s, sub) >= 0 ==> forall k :: 0 <= k < IndexOfSub(s, sub) ==> !OccursAt(s, sub, k)
    ensures IndexOfSub(s, sub) == -1 ==> forall k :: !OccursAt(s, sub, k)
    decreases |s|
  {
    if !StartsWith(s, sub) && |s| > 0 {
      IndexOfSubFirst(s[1..], sub);
      forall k | 1 <= k && OccursAt(s, sub, k) ensures OccursAt(s[1..], sub, k - 1) {
        assert s[1..][k - 1..k - 1 + |sub|] == s[k..k + |sub|];
      }
      assert !OccursAt(s, sub, 0);
    }
  }

  /** The first occurrence determines `indexOf`. */
  lemma IndexOfSubAt(s: string, sub: string, i: int)
    requires OccursAt(s, sub, i) && forall k :: 0 <= k < i ==> !OccursAt(s, sub, k)
    ensures IndexOfSub(s, sub) == i
  {
    IndexOfSubFirst(s, sub);
  }

  /** `s.replace(pat, rep)` with a string pattern: only the first
      occurrence of `pat` is replaced. */
  function ReplaceFirst(s: string, pat: string, rep: string): (r: string)
    ensures |r| == if IndexOfSub(s, pat) == -1 then |s| else |s| - |pat| + |rep|
    ensures (forall k :: !OccursAt(s, pat, k)) ==> r == s
    ensures forall i :: OccursAt(s, pat, i) && (forall k :: 0 <= k < i ==> !OccursAt(s, pat, k)) ==>
              r == s[..i] + rep + s[i + |pat|..]
  {
    IndexOfSubFirst(s, pat);
    var i := IndexOfSub(s, pat);
    if i == -1 then s else s[..i] + rep + s[i + |pat|..]
  }

  /** JavaScript `toLowerCase`, restricted to the ASCII letters. */
  function LowerChar(c: char): (r: char)
    ensures 'A' <= c <= 'Z' ==> r != c && 'a' <= r <= 'z'
    ensures !('A' <= c <= 'Z') ==> r == c
  {
    if 'A' <= c <= 'Z' then (c as int - 'A' as int + 'a' as int) as char else c
  }

  function ToLower(s: string): (r: string)
    ensures |r| == |s|
    ensures forall i :: 0 <= i < |s| ==> r[i] == LowerChar(s[i])
  {
    seq(|s|, i requires 0 <= i < |s| => LowerChar(s[i]))
  }

  /** Lower-casing twice is lower-casing once. */
  lemma ToLowerIdempotent(s: string)
    ensures ToLower(ToLower(s)) == ToLower(s)
  {
  }

  /** `s.replace(/x/g, y)` for a single character `x` and `y`. */
  function ReplaceChar(s: string, x: char, y: char): (r: string)
    ensures |r| == |s|
    ensures forall i :: 0 <= i < |s| ==> r[i] == if s[i] == x then y else s[i]
  {
    seq(|s|, i requires 0 <= i < |s| => if s[i] == x then y else s[i])
  }

  /** Index of the first `c` in `s`; `IndexOfFirst` states that no `c`
      comes before it. */
  function IndexOf(s: string, c: char): (r: int)
    ensures -1 <= r < |s|
    ensures r >= 0 ==> s[r] == c
  {
    if |s| == 0 then -1
    else if s[0] == c then 0
    else var r := IndexOf(s[1..], c); if r == -1 then -1 else r + 1
  }

  /** Index of the last `c` in `s`; `LastIndexOfLast` states that no `c`
      comes after it. */
  function LastIndexOf(s: string, c: char): (r: int)
    ensures -1 <= r < |s|
    ensures r >= 0 ==> s[r] == c
  {
    if |s| == 0 then -1
    else if s[|s| - 1] == c then |s| - 1
    else LastIndexOf(s[..|s| - 1], c)
  }

  /** No `c` precedes the one `IndexOf` finds, and there is none at all
      when it finds none. */
  lemma {:induction false} IndexOfFirst(s: string, c: char)
    ensures IndexOf(s, c) >= 0 ==> forall k :: 0 <= k < IndexOf(s, c) ==> s[k] != c
    ensures IndexOf(s, c) == -1 ==> forall k :: 0 <= k < |s| ==> s[k] != c
    decreases |s|
  {
    if |s| > 0 && s[0] != c {
      IndexOfFirst(s[1..], c);
      assert forall k :: 1 <= k < |s| ==> s[k] == s[1..][k - 1];
    }
  }

  /** No `c` follows the one `LastIndexOf` finds, and there is none at all
      when it finds none. */
  lemma {:induction false} LastIndexOfLast(s: string, c: char)
    ensures LastIndexOf(s, c) >= 0 ==> forall k :: LastIndexOf(s, c) < k < |s| ==> s[k] != c
    ensures LastIndexOf(s, c) == -1 ==> forall k :: 0 <= k < |s| ==> s[k] != c
    decreases |s|
  {
    if |s| > 0 && s[|s| - 1] != c {
      LastIndexOfLast(s[..|s| - 1], c);
      assert forall k :: 0 <= k < |s| - 1 ==> s[k] == s[..|s| - 1][k];
    }
  }

  /** The position of the first `c` is determined by the characters before it. */
  lemma {:induction false} IndexOfAt(s: string, c: char, i: int)
    requires 0 <= i < |s| && s[i] == c && forall k :: 0 <= k < i ==> s[k] != c
    ensures IndexOf(s, c) == i
  {
    if i > 0 {
      IndexOfAt(s[1..], c, i - 1);
    }
  }

  /** The position of the last `c` is determined by the characters after it. */
  lemma {:induction false} LastIndexOfAt(s: string, c: char, i: int)
    requires 0 <= i < |s| && s[i] == c && forall k :: i < k < |s| ==> s[k] != c
    ensures LastIndexOf(s, c) == i
    decreases |s|
  {
    if i < |s| - 1 {
      LastIndexOfAt(s[..|s| - 1], c, i);
    }
  }

  /** `s.split(c)` for a one-character separator: the pieces between the
      separators, so that joining them back with `c` gives `s`. */
  function Split(s: string, c: char): (parts: seq<string>)
    ensures |parts| >= 1
    decreases |s|
  {
    var k := IndexOf(s, c);
    if k == -1 then [s] else [s[..k]] + Split(s[k + 1..], c)
  }

  /** No piece of `s.split(c)` holds a `c`. */
  lemma {:induction false} SplitPiecesFree(s: string, c: char)
    ensures forall w :: w in Split(s, c) ==> c !in w
    decreases |s|
  {
    var k := IndexOf(s, c);
    IndexOfFirst(s, c);
    if k == -1 {
      SplitNone(s, c);
    } else {
      SplitPiecesFree(s[k + 1..], c);
      SplitCons(s, c, k);
      assert forall j :: 0 <= j < k ==> s[..k][j] == s[j];
    }
  }

  /** What follows the last `c` of `s`, found by skipping separators from
      the left as `Split` does. */
  function AfterLast(s: string, c: char): (r: string)
    decreases |s|
  {
    var k := IndexOf(s, c);
    if k == -1 then s else AfterLast(s[k + 1..], c)
  }

  /** The last piece of `s.split(c)` (what `pop` returns) is what follows
      the last `c`. */
  lemma SplitLast(s: string, c: char)
    ensures Split(s, c)[|Split(s, c)| - 1] == s[LastIndexOf(s, c) + 1..]
  {
    SplitLastIsAfterLast(s, c);
    AfterLastSuffix(s, c);
  }

  lemma {:induction false} SplitLastIsAfterLast(s: string, c: char)
    ensures Split(s, c)[|Split(s, c)| - 1] == AfterLast(s, c)
    decreases |s|
  {
    var k := IndexOf(s, c);
    if k != -1 {
      SplitLastIsAfterLast(s[k + 1..], c);
      SplitLastOfCons(s, c, k);
      AfterLastCons(s, c, k);
    } else {
      SplitNone(s, c);
    }
  }

  /** One step of `AfterLast`. */
  lemma AfterLastCons(s: string, c: char, k: int)
    requires k == IndexOf(s, c) && k != -1
    ensures AfterLast(s, c) == AfterLast(s[k + 1..], c)
  {
  }

  lemma {:induction false} AfterLastSuffix(s: string, c: char)
    ensures AfterLast(s, c) == s[LastIndexOf(s, c) + 1..]
    decreases |s|
  {
    var k := IndexOf(s, c);
    if k != -1 {
      AfterLastSuffix(s[k + 1..], c);
      LastIndexOfAfter(s, c, k);
      AfterLastCons(s, c, k);
    } else {
      IndexOfFirst(s, c);
      assert LastIndexOf(s, c) == -1;
      assert s[0..] == s;
    }
  }

  /** Past the first separator, the last piece is the last piece of the rest. */
  lemma SplitLastOfCons(s: string, c: char, k: int)
    requires k == IndexOf(s, c) && k != -1
    ensures var t := s[k + 1..]; Split(s, c)[|Split(s, c)| - 1] == Split(t, c)[|Split(t, c)| - 1]
  {
    SplitCons(s, c, k);
  }

  /** One step of `Split`. */
  lemma SplitCons(s: string, c: char, k: int)
    requires k == IndexOf(s, c) && k != -1
    ensures Split(s, c) == [s[..k]] + Split(s[k + 1..], c)
  {
  }

  /** After a `c` at `k`, the last `c` of `s` is found in `s[k + 1..]`, or
      is the one at `k`; either way the same text follows it. */
  lemma LastIndexOfAfter(s: string, c: char, k: int)
    requires 0 <= k < |s| && s[k] == c
    ensures var t := s[k + 1..]; s[LastIndexOf(s, c) + 1..] == t[LastIndexOf(t, c) + 1..]
  {
    var t := s[k + 1..];
    var j := LastIndexOf(t, c);
    LastIndexOfLast(t, c);
    if j == -1 {
      forall p | k < p < |s| ensures s[p] != c {
        assert s[p] == t[p - k - 1];
      }
      LastIndexOfAt(s, c, k);
    } else {
      assert s[k + 1 + j] == t[j];
      forall p | k + 1 + j < p < |s| ensures s[p] != c {
        assert s[p] == t[p - k - 1];
      }
      LastIndexOfAt(s, c, k + 1 + j);
      assert s[k + 1 + j + 1..] == t[j + 1..];
    }
  }

  function Join(parts: seq<string>, c: char): string
  {
    if |parts| <= 1 then (if |parts| == 0 then "" else parts[0])
    else parts[0] + [c] + Join(parts[1..], c)
  }

  /** One step of `Join` on a list of at least two pieces. */
  lemma JoinHead(parts: seq<string>, c: char)
    requires |parts| > 1
    ensures Join(parts, c) == parts[0] + ([c] + Join(parts[1..], c))
  {
  }

  /** Splitting and joining back with the same separator is the identity. */
  lemma {:induction false} JoinSplit(s: string, c: char)
    ensures Join(Split(s, c), c) == s
    decreases |s|
  {
    var k := IndexOf(s, c);
    if k != -1 {
      var t := s[k + 1..];
      JoinSplit(t, c);
      SplitCons(s, c, k);
      JoinCons(s[..k], Split(t, c), c);
      assert s == s[..k] + [c] + t;
    } else {
      SplitNone(s, c);
    }
  }

  /** Joining pieces that hold no separator and splitting the result gives
      the pieces back. */
  lemma {:induction false} SplitJoin(parts: seq<string>, c: char)
    requires |parts| > 0 && forall i :: 0 <= i < |parts| ==> c !in parts[i]
    ensures Split(Join(parts, c), c) == parts
    decreases |parts|
  {
    var p := parts[0];
    if |parts| == 1 {
      NoSeparator(p, c);
      SplitNone(p, c);
    } else {
      var s := Join(parts, c);
      var t := Join(parts[1..], c);
      SplitJoin(parts[1..], c);
      assert s[..|p|] == p && s[|p|] == c && s[|p| + 1..] == t by {
        JoinHead(parts, c);
      }
      assert IndexOf(s, c) == |p| by {
        assert forall k :: 0 <= k < |p| ==> s[k] == s[..|p|][k];
        IndexOfAt(s, c, |p|);
      }
      SplitCons(s, c, |p|);
    }
  }

  /** A text without `c` has no index of `c`. */
  lemma NoSeparator(s: string, c: char)
    requires c !in s
    ensures IndexOf(s, c) == -1
  {
  }

  /** One step of `Join`. */
  lemma JoinCons(p: string, parts: seq<string>, c: char)
    requires |parts| >= 1
    ensures Join([p] + parts, c) == p + [c] + Join(parts, c)
  {
    assert ([p] + parts)[1..] == parts;
  }

  /** Without a separator, `Split` gives the whole text. */
  lemma SplitNone(s: string, c: char)
    requires IndexOf(s, c) == -1
    ensures Split(s, c) == [s]
  {
  }

  /** The number of pieces of `s.split(c)` is one more than the number of `c`s. */
  lemma {:induction false} SplitCount(s: string, c: char)
    ensures |Split(s, c)| == CountChar(s, c) + 1
    decreases |s|
  {
    var k := IndexOf(s, c);
    IndexOfFirst(s, c);
    if k == -1 {
      SplitNone(s, c);
      CountCharNone(s, c);
    } else {
      SplitCount(s[k + 1..], c);
      SplitCons(s, c, k);
      assert s == s[..k] + ([c] + s[k + 1..]);
      CountCharAppend(s[..k], [c] + s[k + 1..], c);
      CountCharNone(s[..k], c);
      assert ([c] + s[k + 1..])[1..] == s[k + 1..];
    }
  }

  function CountChar(s: string, c: char): nat
  {
    if |s| == 0 then 0 else (if s[0] == c then 1 else 0) + CountChar(s[1..], c)
  }

  lemma {:induction false} CountCharNone(s: string, c: char)
    requires forall k :: 0 <= k < |s| ==> s[k] != c
    ensures CountChar(s, c) == 0
  {
    if |s| > 0 { CountCharNone(s[1..], c); }
  }

  lemma {:induction false} CountCharAppend(s: string, t: string, c: char)
    ensures CountChar(s + t, c) == CountChar(s, c) + CountChar(t, c)
  {
    if |s| == 0 {
      assert s + t == t;
    } else {
      assert (s + t)[1..] == s[1..] + t;
      CountCharAppend(s[1..], t, c);
    }
  }
}
