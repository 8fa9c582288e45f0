/** The email step's submit handler: it checks the address, posts the
    answers to the style-analysis webhook and turns whatever comes back into
    quiz results, falling back to a tally of the user's own picks when the
    request fails, the status is not OK or the reply is not JSON. */
module EmailCapture {
  import opened Base
  import opened Strings
  import opened StyleTally
  import opened QuizTypes

  const EmptyEmailError := "Please enter your email address"
  const InvalidEmailError := "Please enter a valid email address"
  const ProcessingError := "We're having trouble processing your results. Please try again."
  const FallbackWarning :=
    "We had trouble connecting to our style analysis service, but we've generated results based on your selections."
  const NoDominantError := "Something went wrong with our style analysis. Please try again or contact support."
  const NoSelectionError := "Something went wrong. Please try again or contact our support team."

  // ---------------------------------------------------------------------
  // Address check: `/^[^\s@]+@[^\s@]+\.[^\s@]+$/`

  /** A character of the class `[^\s@]`. */
  predicate AddressChar(c: char)
  {
    !IsSpace(c) && c != '@'
  }

  predicate AddressChars(s: string)
  {
    forall i :: 0 <= i < |s| ==> AddressChar(s[i])
  }

  /** The pattern read as a decomposition: a non-empty local part, '@', a
      non-empty domain part, '.', and a non-empty last part, none of them
      holding white space or '@'. */
  ghost predicate MatchesEmailPattern(s: string)
  {
    exists i, j :: 0 < i && i + 1 < j && j + 1 < |s| && s[i] == '@' && s[j] == '.'
      && AddressChars(s[..i]) && AddressChars(s[i + 1..j]) && AddressChars(s[j + 1..])
  }

  /** The address test as the handler computes it: exactly one '@', not in
      front, no white space, and a '.' strictly inside the part after '@'. */
  function ValidEmail(s: string): bool
  {
    var at := IndexOf(s, '@');
    at >= 1 && LastIndexOf(s, '@') == at
    && (forall k :: 0 <= k < |s| ==> !IsSpace(s[k]))
    && |s| - at >= 4 && '.' in s[at + 2..|s| - 1]
  }

  /** The computed test accepts exactly the addresses the pattern matches. */
  lemma ValidEmailMatchesPattern(s: string)
    ensures ValidEmail(s) <==> MatchesEmailPattern(s)
  {
    if ValidEmail(s) {
      ValidEmailSound(s);
    }
    if MatchesEmailPattern(s) {
      var i, j :| 0 < i && i + 1 < j && j + 1 < |s| && s[i] == '@' && s[j] == '.'
        && AddressChars(s[..i]) && AddressChars(s[i + 1..j]) && AddressChars(s[j + 1..]);
      PatternValid(s, i, j);
    }
  }

  lemma ValidEmailSound(s: string)
    requires ValidEmail(s)
    ensures MatchesEmailPattern(s)
  {
    var at := IndexOf(s, '@');
    OnlyOneAt(s);
    assert exists j :: at + 2 <= j < |s| - 1 && s[j] == '.' by {
      var k :| 0 <= k < |s[at + 2..|s| - 1]| && s[at + 2..|s| - 1][k] == '.';
      assert s[at + 2 + k] == '.';
    }
    var j :| at + 2 <= j < |s| - 1 && s[j] == '.';
    PatternWitness(s, at, j);
  }

  /** An '@' and a later '.' with characters of the class `[^\s@]` around
      them match the pattern. */
  lemma PatternWitness(s: string, i: int, j: int)
    requires 0 < i && i + 1 < j && j + 1 < |s| && s[i] == '@' && s[j] == '.'
    requires forall m :: 0 <= m < |s| && m != i ==> AddressChar(s[m])
    ensures MatchesEmailPattern(s)
  {
    AddressCharsSlice(s, 0, i);
    AddressCharsSlice(s, i + 1, j);
    AddressCharsSlice(s, j + 1, |s|);
  }

  /** An accepted address has its one '@' where `indexOf` finds it, and
      every other character is of the class `[^\s@]`. */
  lemma OnlyOneAt(s: string)
    requires ValidEmail(s)
    ensures s[IndexOf(s, '@')] == '@'
    ensures forall m :: 0 <= m < |s| && m != IndexOf(s, '@') ==> AddressChar(s[m])
  {
    IndexOfFirst(s, '@');
    LastIndexOfLast(s, '@');
  }

  lemma AddressCharsSlice(s: string, a: int, b: int)
    requires 0 <= a <= b <= |s| && forall m :: a <= m < b ==> AddressChar(s[m])
    ensures AddressChars(s[a..b])
  {
    forall m | 0 <= m < b - a ensures AddressChar(s[a..b][m]) {
      assert s[a..b][m] == s[a + m];
    }
  }

  lemma PatternValid(s: string, i: int, j: int)
    requires 0 < i && i + 1 < j && j + 1 < |s| && s[i] == '@' && s[j] == '.'
    requires AddressChars(s[..i]) && AddressChars(s[i + 1..j]) && AddressChars(s[j + 1..])
    ensures ValidEmail(s)
  {
    forall k | 0 <= k < |s| && k != i ensures AddressChar(s[k]) {
      if k < i {
        assert s[..i][k] == s[k];
      } else if k < j {
        assert s[i + 1..j][k - i - 1] == s[k];
      } else if k > j {
        assert s[j + 1..][k - j - 1] == s[k];
      }
    }
    IndexOfAt(s, '@', i);
    LastIndexOfAt(s, '@', i);
    assert s[i + 2..|s| - 1][j - i - 2] == '.';
  }

  /** The examples the handler's pattern is meant for. */
  lemma ValidEmailExamples()
    ensures ValidEmail("a@b.com")
    ensures !ValidEmail("abc") && !ValidEmail("a@b") && !ValidEmail(" a@b.com")
  {
    AcceptedExample("a@b.com");
    NoAtExample("abc");
    NoDotExample("a@b");
    assert IsSpace(" a@b.com"[0]);
  }

  lemma AcceptedExample(s: string)
    requires s == "a@b.com"
    ensures ValidEmail(s)
  {
    IndexOfAt(s, '@', 1);
    LastIndexOfAt(s, '@', 1);
    assert s[3..6][0] == '.';
  }

  lemma NoAtExample(s: string)
    requires s == "abc"
    ensures !ValidEmail(s)
  {
    IndexOfFirst(s, '@');
  }

  lemma NoDotExample(s: string)
    requires s == "a@b"
    ensures !ValidEmail(s)
  {
    IndexOfAt(s, '@', 1);
  }

  // ---------------------------------------------------------------------
  // Style name from the webhook title: `/is\s+(.*?)(\s+✨|$)/`

  const Sparkles: char := '\U{2728}'

  /** Length of the run of white space starting at `i`. */
  function SpaceRun(s: string, i: nat): (n: nat)
    requires i <= |s|
    ensures i + n <= |s|
    ensures i + n == |s| || !IsSpace(s[i + n])
    decreases |s| - i
  {
    if i < |s| && IsSpace(s[i]) then 1 + SpaceRun(s, i + 1) else 0
  }

  /** The run is all white space. */
  lemma {:induction false} SpaceRunAllSpace(s: string, i: nat)
    requires i <= |s|
    ensures forall k :: i <= k < i + SpaceRun(s, i) ==> IsSpace(s[k])
    decreases |s| - i
  {
    if i < |s| && IsSpace(s[i]) {
      SpaceRunAllSpace(s, i + 1);
    }
  }

  /** The alternative `(\s+✨|$)` matches at position `q`. */
  predicate TailAt(s: string, q: nat)
    requires q <= |s|
  {
    q == |s| || (SpaceRun(s, q) > 0 && q + SpaceRun(s, q) < |s| && s[q + SpaceRun(s, q)] == Sparkles)
  }

  /** The lazy group `(.*?)` opened at `q`: the first position at which the
      alternative matches, as long as no line terminator is crossed. */
  function LazyEnd(s: string, q: nat): (e: Option<nat>)
    requires q <= |s|
    ensures e.Some? ==> q <= e.value <= |s| && TailAt(s, e.value)
    decreases |s| - q
  {
    if TailAt(s, q) then Some(q)
    else if q < |s| && !IsLineTerminator(s[q]) then LazyEnd(s, q + 1)
    else None
  }

  /** The group closes at the first position where the tail matches, and
      holds no line terminator. */
  lemma {:induction false} LazyEndFirst(s: string, q: nat)
    requires q <= |s|
    ensures LazyEnd(s, q).Some? ==> forall k :: q <= k < LazyEnd(s, q).value ==> !TailAt(s, k)
    ensures LazyEnd(s, q).Some? ==> forall k :: q <= k < LazyEnd(s, q).value ==> !IsLineTerminator(s[k])
    decreases |s| - q
  {
    if !TailAt(s, q) && q < |s| && !IsLineTerminator(s[q]) {
      LazyEndFirst(s, q + 1);
    }
  }

  /** Without a line terminator ahead the lazy group always closes: at the
      latest `$` matches at the end. */
  lemma {:induction false} LazyEndSingleLine(s: string, q: nat)
    requires q <= |s|
    requires forall k :: q <= k < |s| ==> !IsLineTerminator(s[k])
    ensures LazyEnd(s, q).Some?
    decreases |s| - q
  {
    if !TailAt(s, q) {
      LazyEndSingleLine(s, q + 1);
    }
  }

  /** `\s+` after "is" ending at `g0`: try `w` white-space characters, then
      fewer, until the rest of the pattern matches. */
  function GroupWith(s: string, g0: nat, w: nat): (g: Option<string>)
    requires g0 + w <= |s|
    decreases w
  {
    if w == 0 then None
    else match LazyEnd(s, g0 + w)
      case Some(e) => Some(s[g0 + w..e])
      case None => GroupWith(s, g0, w - 1)
  }

  /** The first capture group of the leftmost match starting at `p` or later. */
  function TitleMatchFrom(s: string, p: nat): (g: Option<string>)
    requires p <= |s|
    decreases |s| - p
  {
    if p + 2 > |s| then None
    else if s[p] == 'i' && s[p + 1] == 's' then
      match GroupWith(s, p + 2, SpaceRun(s, p + 2))
        case Some(g) => Some(g)
        case None => TitleMatchFrom(s, p + 1)
    else TitleMatchFrom(s, p + 1)
  }

  /** `title.match(/is\s+(.*?)(\s+✨|$)/)[1]`, `None` when there is no match. */
  function TitleMatch(s: string): Option<string>
  {
    TitleMatchFrom(s, 0)
  }

  /** "is" followed by white space at position `p`. */
  predicate IsThenSpace(s: string, p: int)
  {
    0 <= p && p + 3 <= |s| && s[p] == 'i' && s[p + 1] == 's' && IsSpace(s[p + 2])
  }

  /** A position without "is" followed by white space starts no match. */
  lemma SkipPosition(s: string, p: nat)
    requires p + 2 <= |s| && !IsThenSpace(s, p)
    ensures TitleMatchFrom(s, p) == TitleMatchFrom(s, p + 1)
  {
    if s[p] == 'i' && s[p + 1] == 's' {
      assert SpaceRun(s, p + 2) == 0;
    }
  }

  /** Without "is" followed by white space the pattern never matches. */
  lemma {:induction false} NoIsNoMatch(s: string, p: nat)
    requires p <= |s|
    requires forall q :: p <= q ==> !IsThenSpace(s, q)
    ensures TitleMatchFrom(s, p) == None
    decreases |s| - p
  {
    if p + 2 <= |s| {
      SkipPosition(s, p);
      NoIsNoMatch(s, p + 1);
    }
  }

  /** A single-line title with "is" and white space at `q` matches there. */
  lemma MatchAt(s: string, q: nat)
    requires SingleLine(s) && IsThenSpace(s, q)
    ensures var g0 := q + 2 + SpaceRun(s, q + 2);
            LazyEnd(s, g0).Some? && TitleMatchFrom(s, q) == Some(s[g0..LazyEnd(s, g0).value])
  {
    var w := SpaceRun(s, q + 2);
    var g0 := q + 2 + w;
    assert w > 0;
    assert LazyEnd(s, g0).Some? by {
      LazyEndSingleLine(s, g0);
    }
    var e := LazyEnd(s, g0).value;
    assert GroupWith(s, q + 2, w) == Some(s[g0..e]);
  }

  /** On a title without line breaks the match starts at the first "is"
      followed by white space; the group begins after the whole run of
      white space and ends at the first "white space then ✨" or at the end. */
  lemma {:induction false} SingleLineTitleMatch(s: string, p: nat, q: nat)
    requires SingleLine(s)
    requires p <= q && IsThenSpace(s, q)
    requires forall r :: p <= r < q ==> !IsThenSpace(s, r)
    ensures var g0 := q + 2 + SpaceRun(s, q + 2);
            LazyEnd(s, g0).Some? && TitleMatchFrom(s, p) == Some(s[g0..LazyEnd(s, g0).value])
    decreases q - p
  {
    MatchAt(s, q);
    if p < q {
      SkipPosition(s, p);
      SingleLineTitleMatch(s, p + 1, q);
    }
  }

  /** The style name shown to the user: the trimmed capture of a matching
      string title, the title itself when the capture is empty or there is
      no match, and "Modern Sophisticate" when there is no string title. */
  function MainStyleOf(title: Field): (style: string)
    ensures !title.Text? || title.s == "" ==> style == "Modern Sophisticate"
    ensures title.Text? && title.s != "" ==>
              match TitleMatch(title.s)
                case Some(g) => style == (if g != "" then Trim(g) else title.s)
                case None => style == title.s
  {
    if title.Text? && title.s != "" then
      match TitleMatch(title.s)
        case Some(g) => if g != "" then Trim(g) else title.s
        case None => title.s
    else "Modern Sophisticate"
  }

  /** The style name of a single-line title whose first "is" followed by
      white space sits at `q`, and whose group, opening at `g0`, closes at
      `e`. */
  lemma MainStyleAt(s: string, q: nat, g0: nat, e: nat)
    requires SingleLine(s)
    requires IsThenSpace(s, q) && forall r :: 0 <= r < q ==> !IsThenSpace(s, r)
    requires g0 == q + 2 + SpaceRun(s, q + 2)
    requires g0 <= e <= |s| && TailAt(s, e) && forall k :: g0 <= k < e ==> !TailAt(s, k)
    ensures MainStyleOf(Text(s)) == if g0 < e then Trim(s[g0..e]) else s
  {
    SingleLineTitleMatch(s, 0, q);
    LazyEndUnique(s, g0, e);
  }

  /** The lazy group closes at the first position where the tail matches. */
  lemma LazyEndUnique(s: string, g0: nat, e: nat)
    requires g0 <= e <= |s| && TailAt(s, e) && forall k :: g0 <= k < e ==> !TailAt(s, k)
    requires LazyEnd(s, g0).Some?
    ensures LazyEnd(s, g0).value == e
  {
    LazyEndFirst(s, g0);
  }

  /** A title made of a prefix without an 'i', then "is ", then a name, and
      then either nothing or " ✨", yields the name, provided the name is on
      one line, has no white space at its ends and holds no ✨. */
  lemma MainStyleOfTitle(pre: string, name: string, tail: string)
    requires 'i' !in pre && SingleLine(pre)
    requires SingleLine(name) && Sparkles !in name
    requires |name| > 0 && !IsSpace(name[0]) && !IsSpace(name[|name| - 1])
    requires tail == "" || tail == [' ', Sparkles]
    ensures MainStyleOf(Text(pre + "is " + name + tail)) == name
  {
    var s := pre + "is " + name + tail;
    var q := |pre|;
    var g0 := q + 3;
    var e := g0 + |name|;
    TitleSingleLine(s, pre, name, tail);
    TitleOpens(s, pre, name, tail);
    TitleCloses(s, pre, name, tail);
    MainStyleAt(s, q, g0, e);
    assert s[g0..e] == name;
    TrimNoEdges(name);
  }

  /** The match of such a title starts at the "is" after the prefix, and
      the group opens right after its single space. */
  lemma TitleOpens(s: string, pre: string, name: string, tail: string)
    requires s == pre + "is " + name + tail
    requires 'i' !in pre
    requires |name| > 0 && !IsSpace(name[0])
    ensures IsThenSpace(s, |pre|) && forall r :: 0 <= r < |pre| ==> !IsThenSpace(s, r)
    ensures |pre| + 3 == |pre| + 2 + SpaceRun(s, |pre| + 2)
  {
    var q := |pre|;
    assert s[q] == 'i' && s[q + 1] == 's' && s[q + 2] == ' ' && s[q + 3] == name[0];
    assert forall r :: 0 <= r < q ==> s[r] == pre[r];
    NoIsBefore(s, q);
    SingleSpace(s, q + 2);
  }

  /** Without an 'i' before `q` no match starts before `q`. */
  lemma NoIsBefore(s: string, q: int)
    requires q <= |s| && forall r :: 0 <= r < q ==> s[r] != 'i'
    ensures forall r :: 0 <= r < q ==> !IsThenSpace(s, r)
  {
  }

  /** One white-space character followed by another character is a run of one. */
  lemma SingleSpace(s: string, i: nat)
    requires i + 1 < |s| && IsSpace(s[i]) && !IsSpace(s[i + 1])
    ensures SpaceRun(s, i) == 1
  {
    assert SpaceRun(s, i + 1) == 0;
  }

  lemma TitleSingleLine(s: string, pre: string, name: string, tail: string)
    requires s == pre + "is " + name + tail
    requires SingleLine(pre) && SingleLine(name)
    requires tail == "" || tail == [' ', Sparkles]
    ensures SingleLine(s)
  {
    var t := "is " + name + tail;
    assert s == pre + t;
    forall k | 0 <= k < |s| ensures !IsLineTerminator(s[k]) {
      if k < |pre| {
        assert s[k] == pre[k];
      } else if k < |pre| + 3 {
        assert s[k] == "is "[k - |pre|];
      } else if k < |pre| + 3 + |name| {
        assert s[k] == name[k - |pre| - 3];
      } else {
        assert s[k] == tail[k - |pre| - 3 - |name|];
      }
    }
  }

  /** The group of such a title closes right after the name. */
  lemma TitleCloses(s: string, pre: string, name: string, tail: string)
    requires s == pre + "is " + name + tail
    requires Sparkles !in name
    requires |name| > 0 && !IsSpace(name[|name| - 1])
    requires tail == "" || tail == [' ', Sparkles]
    ensures TailAt(s, |pre| + 3 + |name|)
    ensures forall k :: |pre| + 3 <= k < |pre| + 3 + |name| ==> !TailAt(s, k)
  {
    var g0 := |pre| + 3;
    var e := g0 + |name|;
    assert forall k :: g0 <= k < e ==> s[k] == name[k - g0];
    if tail != "" {
      assert s[e] == ' ' && s[e + 1] == Sparkles;
      assert SpaceRun(s, e + 1) == 0;
    }
    forall k | g0 <= k < e ensures !TailAt(s, k) {
      if SpaceRun(s, k) > 0 {
        SpaceRunStops(s, k, e - 1);
      }
    }
  }

  /** A run of white space stops at the first character that is not. */
  lemma {:induction false} SpaceRunStops(s: string, i: nat, j: int)
    requires i <= j < |s| && !IsSpace(s[j])
    ensures i + SpaceRun(s, i) <= j
    decreases j - i
  {
    if i < j && IsSpace(s[i]) {
      SpaceRunStops(s, i + 1, j);
    }
  }

  /** The title the webhook usually sends yields the style name alone. */
  lemma MainStyleExample()
    ensures MainStyleOf(Text("Your style " + "is " + "Coastal Chic" + [' ', Sparkles])) == "Coastal Chic"
  {
    MainStyleOfTitle("Your style ", "Coastal Chic", [' ', Sparkles]);
  }

  /** The pattern has no word boundary: in "This is Modern" the "is" of
      "This" starts the match, and the style name keeps the second "is". */
  lemma MainStyleInsideWord()
    ensures MainStyleOf(Text("Th" + "is " + "is Modern")) == "is Modern"
  {
    MainStyleOfTitle("Th", "is Modern", "");
    assert "Th" + "is " + "is Modern" + "" == "Th" + "is " + "is Modern";
  }

  // ---------------------------------------------------------------------
  // The webhook response, an untyped JSON value

  /** A JSON property as JavaScript sees it: missing or falsy (`Absent`), a
      string, or some other truthy value, carried as its string form. */
  datatype Field = Absent | Text(s: string) | NonText(shown: string)

  /** JavaScript truthiness of the property. */
  predicate Truthy(f: Field)
  {
    f.NonText? || (f.Text? && f.s != "")
  }

  /** `f || fallback` for a property used as a string. */
  function OrElse(f: Field, fallback: string): (r: string)
    ensures Truthy(f) && f.Text? ==> r == f.s
    ensures Truthy(f) && f.NonText? ==> r == f.shown
    ensures !Truthy(f) ==> r == fallback
  {
    if f.Text? && f.s != "" then f.s else if f.NonText? then f.shown else fallback
  }

  datatype ImageFields = ImageFields(id: Field, title: Field, description: Field, url: Field)

  /** An element of the `recommendedImages` array: `null` or an object. */
  datatype Element = NullElement | Object(fields: ImageFields)

  /** The `recommendedImages` property: falsy, an array, or one truthy
      non-array value. */
  datatype ImagesField = NoImages | ImageList(items: seq<Element>) | SingleImage(item: ImageFields)

  /** The parsed body: `null`, or a value whose properties are read. */
  datatype Response = NullResponse | Response(title: Field, description: Field, recommendedImages: ImagesField)

  /** What the request produced: a parsed body, or a failure (the request
      threw, the status was not OK, or the body was not JSON). */
  datatype Network = Ok(response: Response) | Failed

  /** What the submit handler ends with. */
  datatype Outcome =
    | Error(message: string)
    | Advance(results: QuizResults)
    | AdvanceWithWarning(results: QuizResults, warning: string)

  /** `recommendedImagesArray`: an array is kept, a single truthy value is
      wrapped, a falsy one gives the empty list. */
  function ImagesArray(f: ImagesField): (items: seq<Element>)
    ensures f.NoImages? ==> items == []
    ensures f.SingleImage? ==> items == [Object(f.item)]
    ensures f.ImageList? ==> items == f.items
  {
    match f
      case NoImages => []
      case ImageList(items) => items
      case SingleImage(item) => [Object(item)]
  }

  const DefaultSubStyles: seq<string> := ["Contemporary", "Modern", "Elegant"]

  /** `img.title || ""` for every element, then the truthy ones. */
  function TitleTexts(items: seq<ImageFields>): (titles: seq<string>)
    ensures |titles| <= |items|
    ensures forall i :: 0 <= i < |titles| ==> titles[i] != ""
  {
    Filter(seq(|items|, k requires 0 <= k < |items| => OrElse(items[k].title, "")), (t: string) => t != "")
  }

  /** `[...new Set(titles)]`, or the three defaults when the webhook sent no
      pictures. */
  function SubStylesOf(items: seq<ImageFields>): (subStyles: seq<string>)
  {
    if |items| > 0 then Distinct(TitleTexts(items)) else DefaultSubStyles
  }

  function RoomOrDefault(priorityRoom: string): string
  {
    if priorityRoom != "" then priorityRoom else "Living Room"
  }

  /** One webhook picture with its gaps filled in; `nonce` stands for the
      random suffix of a generated id. */
  function NormalizeImage(f: ImageFields, k: nat, mainStyle: string, priorityRoom: string,
                          nonce: nat -> string): QuizImage
  {
    QuizImage(
      OrElse(f.id, "ai-generated-" + nonce(k)),
      OrElse(f.title, "Style Element"),
      OrElse(f.url, ""),
      RoomOrDefault(priorityRoom),
      OrElse(f.title, "Complementary Style"),
      Some(OrElse(f.description, "This element complements your " + mainStyle + " style beautifully.")))
  }

  /** The user's first three picks with the description rewritten. */
  function Backfill(selected: seq<QuizImage>, mainStyle: string): (images: seq<QuizImage>)
    ensures |images| == if |selected| < 3 then |selected| else 3
    ensures forall i :: 0 <= i < |images| ==>
              images[i] == selected[i].(description := Some("A perfect complement to your " + mainStyle + " style."))
  {
    var first := Take(selected, 3);
    seq(|first|, i requires 0 <= i < |first| =>
      first[i].(description := Some("A perfect complement to your " + mainStyle + " style.")))
  }

  function TitleOf(title: Field, mainStyle: string): string
  {
    if title.Text? && Trim(title.s) != "" then title.s else mainStyle + " Style"
  }

  const AlignOpening := "Your design preferences align with the "
  const AlignClosing := " style, which features elegant balance and thoughtful composition."
  const RevealOpening := "Your selections reveal a preference for "
  const RevealClosing := " design elements."

  /** A blank description is replaced by one of two sentences around the
      style name. */
  function DescriptionOf(description: Field, mainStyle: string): string
  {
    if description.Text? && Trim(description.s) != "" then description.s
    else if description.Text? && description.s != "" then
      AlignOpening + mainStyle + AlignClosing
    else RevealOpening + mainStyle + RevealClosing
  }

  /** The results built from a response whose elements are all objects. */
  function ResolvedResults(title: Field, description: Field, items: seq<ImageFields>,
                           data: QuizData, nonce: nat -> string): QuizResults
  {
    var mainStyle := MainStyleOf(title);
    var images := seq(|items|, k requires 0 <= k < |items| =>
      NormalizeImage(items[k], k, mainStyle, data.priorityRoom, nonce));
    QuizResults(
      mainStyle,
      Some(TitleOf(title, mainStyle)),
      Some(DescriptionOf(description, mainStyle)),
      SubStylesOf(items),
      if |images| == 0 && |data.selectedImages| > 0 then Backfill(data.selectedImages, mainStyle) else images)
  }

  /** Reading a property of `null`, or calling `trim` on a title or
      description that is not a string, throws inside the processing block. */
  predicate ProcessingThrows(r: Response)
  {
    r.NullResponse?
    || (exists k :: 0 <= k < |ImagesArray(r.recommendedImages)| && ImagesArray(r.recommendedImages)[k].NullElement?)
    || r.title.NonText? || r.description.NonText?
  }

  /** The processing block of the handler for a parsed body. */
  function Normalize(r: Response, data: QuizData, nonce: nat -> string): (o: Outcome)
    ensures o.Error? <==> ProcessingThrows(r)
    ensures o.Error? ==> o.message == ProcessingError
    ensures !o.AdvanceWithWarning?
  {
    if ProcessingThrows(r) then Error(ProcessingError)
    else Advance(ResolvedResults(r.title, r.description, ItemFields(r), data, nonce))
  }

  /** The properties of the pictures of a response with no `null` among them. */
  function ItemFields(r: Response): (fields: seq<ImageFields>)
    requires !ProcessingThrows(r)
    ensures |fields| == |ImagesArray(r.recommendedImages)|
    ensures forall k :: 0 <= k < |fields| ==> ImagesArray(r.recommendedImages)[k] == Object(fields[k])
  {
    var items := ImagesArray(r.recommendedImages);
    seq(|items|, k requires 0 <= k < |items| => items[k].fields)
  }

  /** A string with a character that is not white space does not trim to "". */
  lemma NotBlank(s: string, k: int)
    requires 0 <= k < |s| && !IsSpace(s[k])
    ensures Trim(s) != ""
  {
    TrimEmptyIffBlank(s);
  }

  /** The title is never blank: a blank one is replaced by the style name
      and " Style". */
  lemma TitleNotBlank(title: Field, mainStyle: string)
    ensures Trim(TitleOf(title, mainStyle)) != ""
  {
    if !(title.Text? && Trim(title.s) != "") {
      var t := mainStyle + " Style";
      assert t[|mainStyle| + 1] == 'S';
      NotBlank(t, |mainStyle| + 1);
    }
  }

  /** The description is never blank: a blank one is replaced by one of
      two sentences, both starting with "Your". */
  lemma DescriptionNotBlank(description: Field, mainStyle: string)
    ensures Trim(DescriptionOf(description, mainStyle)) != ""
  {
    if !(description.Text? && Trim(description.s) != "") {
      if description.Text? && description.s != "" {
        SentenceNotBlank(AlignOpening, mainStyle, AlignClosing);
      } else {
        SentenceNotBlank(RevealOpening, mainStyle, RevealClosing);
      }
    }
  }

  /** A sentence that opens with a character that is not white space is not blank. */
  lemma SentenceNotBlank(a: string, b: string, c: string)
    requires |a| > 0 && !IsSpace(a[0])
    ensures Trim(a + b + c) != ""
  {
    assert (a + b + c)[0] == a[0];
    NotBlank(a + b + c, 0);
  }

  /** Whatever the webhook sends, processed results carry a title and a
      description that are not blank. */
  lemma NormalizedTextsNotBlank(r: Response, data: QuizData, nonce: nat -> string)
    requires !ProcessingThrows(r)
    ensures var res := Normalize(r, data, nonce).results;
            res.title.Some? && Trim(res.title.value) != ""
            && res.description.Some? && Trim(res.description.value) != ""
  {
    var m := MainStyleOf(r.title);
    TitleNotBlank(r.title, m);
    DescriptionNotBlank(r.description, m);
    var res := Normalize(r, data, nonce).results;
    assert res.title == Some(TitleOf(r.title, m));
    assert res.description == Some(DescriptionOf(r.description, m));
  }

  /** The pictures of processed results: one per webhook picture with its
      gaps filled in, or, when the webhook sent none, the user's first three
      picks with a rewritten description. */
  lemma NormalizedImages(r: Response, data: QuizData, nonce: nat -> string)
    requires !ProcessingThrows(r)
    ensures var items := ItemFields(r);
            var res := Normalize(r, data, nonce).results;
            var images := res.recommendedImages;
            (|items| > 0 ==>
               |images| == |items|
               && forall k :: 0 <= k < |items| ==>
                    images[k].room == RoomOrDefault(data.priorityRoom)
                    && images[k].id == OrElse(items[k].id, "ai-generated-" + nonce(k))
                    && images[k].title == OrElse(items[k].title, "Style Element")
                    && images[k].style == OrElse(items[k].title, "Complementary Style")
                    && images[k].url == OrElse(items[k].url, "")
                    && images[k].description.Some?)
            && (|items| == 0 ==> images == Backfill(data.selectedImages, res.mainStyle))
  {
    var items := ItemFields(r);
    var res := ResolvedResults(r.title, r.description, items, data, nonce);
    assert Normalize(r, data, nonce).results == res;
    ResolvedImages(r.title, r.description, items, data, nonce);
    forall k | 0 <= k < |items| && |items| > 0
      ensures res.recommendedImages[k] == NormalizeImage(items[k], k, res.mainStyle, data.priorityRoom, nonce)
    {
    }
  }

  /** The pictures of resolved results: each webhook picture normalized, or
      the backfill when there is none. */
  lemma ResolvedImages(title: Field, description: Field, items: seq<ImageFields>,
                       data: QuizData, nonce: nat -> string)
    ensures var res := ResolvedResults(title, description, items, data, nonce);
            (|items| > 0 ==>
               |res.recommendedImages| == |items|
               && forall k :: 0 <= k < |items| ==>
                    res.recommendedImages[k] == NormalizeImage(items[k], k, res.mainStyle, data.priorityRoom, nonce))
            && (|items| == 0 ==> res.recommendedImages == Backfill(data.selectedImages, res.mainStyle))
  {
    var res := ResolvedResults(title, description, items, data, nonce);
    if |items| == 0 && |data.selectedImages| == 0 {
      assert |Backfill(data.selectedImages, res.mainStyle)| == 0;
    }
  }

  /** The secondary styles of processed results: the distinct non-empty
      picture titles in order of first appearance, or the three defaults
      when the webhook sent no pictures. */
  lemma SubStylesProperties(items: seq<ImageFields>)
    ensures |items| == 0 ==> SubStylesOf(items) == DefaultSubStyles
    ensures |items| > 0 ==>
              var subs := SubStylesOf(items);
              NoDuplicates(subs)
              && (forall i :: 0 <= i < |subs| ==>
                    (subs[i] != "" && exists k :: 0 <= k < |items| && OrElse(items[k].title, "") == subs[i]))
              && forall k :: 0 <= k < |items| && OrElse(items[k].title, "") != "" ==>
                   OrElse(items[k].title, "") in subs
  {
    if |items| > 0 {
      var titles := seq(|items|, k requires 0 <= k < |items| => OrElse(items[k].title, ""));
      var kept := TitleTexts(items);
      FilterMembers(titles, (t: string) => t != "");
      DistinctProperties(kept);
      forall k | 0 <= k < |items| && OrElse(items[k].title, "") != ""
        ensures OrElse(items[k].title, "") in SubStylesOf(items)
      {
        assert titles[k] in kept;
        var i :| 0 <= i < |kept| && kept[i] == titles[k];
      }
      forall i | 0 <= i < |SubStylesOf(items)|
        ensures exists k :: 0 <= k < |items| && OrElse(items[k].title, "") == SubStylesOf(items)[i]
      {
        var x := SubStylesOf(items)[i];
        assert x in kept;
        var j :| 0 <= j < |kept| && kept[j] == x;
        assert x in titles;
        var k :| 0 <= k < |titles| && titles[k] == x;
      }
    }
  }

  /** A title that is not a non-empty string leaves the default style name. */
  lemma MainStyleDefault(r: Response, data: QuizData, nonce: nat -> string)
    requires !ProcessingThrows(r) && !Truthy(r.title)
    ensures Normalize(r, data, nonce).results.mainStyle == "Modern Sophisticate"
    ensures Normalize(r, data, nonce).results.title == Some("Modern Sophisticate" + " Style")
  {
    assert !(r.title.Text? && Trim(r.title.s) != "");
    assert MainStyleOf(r.title) == "Modern Sophisticate";
  }

  // ---------------------------------------------------------------------
  // Local fallback

  function Styles(images: seq<QuizImage>): (styles: seq<string>)
    ensures |styles| == |images|
    ensures forall i :: 0 <= i < |images| ==> styles[i] == images[i].style
  {
    seq(|images|, i requires 0 <= i < |images| => images[i].style)
  }

  function OtherStyle(d: string): string -> bool
  {
    (k: string) => k != d
  }

  function HasStyle(d: string): QuizImage -> bool
  {
    (img: QuizImage) => img.style == d
  }

  const FallbackOpening := "Your selections showed a strong preference for "
  const FallbackClosing := " design elements. This style is characterized by its distinctive aesthetic and approach to space."

  /** The results of the local fallback for dominant style `d`. */
  function FallbackResults(selected: seq<QuizImage>, t: seq<Entry>, d: string): QuizResults
  {
    QuizResults(
      d,
      Some(d + " Style"),
      Some(FallbackOpening + d + FallbackClosing),
      Take(Filter(Keys(t), OtherStyle(d)), 3),
      FallbackPicks(selected, d))
  }

  /** The first three picks of style `d`, each with a new description. */
  function FallbackPicks(selected: seq<QuizImage>, d: string): (images: seq<QuizImage>)
    ensures var picks := Take(Filter(selected, HasStyle(d)), 3);
            |images| == |picks|
            && forall i :: 0 <= i < |picks| ==> images[i] == picks[i].(description := images[i].description)
  {
    var picks := Take(Filter(selected, HasStyle(d)), 3);
    seq(|picks|, i requires 0 <= i < |picks| =>
      picks[i].(description := Some("This " + picks[i].style + " design element complements your "
                                    + d + " style preference.")))
  }

  /** The catch branch of the handler. */
  function FallbackOutcome(selected: seq<QuizImage>): Outcome
  {
    if |selected| == 0 then Error(NoSelectionError)
    else
      var t := TallyOf(Styles(selected));
      var d := DominantOf(t);
      if d == "" then Error(NoDominantError)
      else AdvanceWithWarning(FallbackResults(selected, t, d), FallbackWarning)
  }

  /** A fallback that advances has picks, a dominant style that is not "",
      and the results built for it. */
  lemma FallbackAdvances(selected: seq<QuizImage>)
    requires FallbackOutcome(selected).AdvanceWithWarning?
    ensures var t := TallyOf(Styles(selected));
            |selected| > 0 && DominantOf(t) != ""
            && FallbackOutcome(selected).results == FallbackResults(selected, t, DominantOf(t))
  {
  }

  /** The fallback's style is the most frequent style of the picks, the
      first one picked among equally frequent ones. */
  lemma FallbackStyle(selected: seq<QuizImage>)
    requires FallbackOutcome(selected).AdvanceWithWarning?
    ensures var st := Styles(selected);
            var d := FallbackOutcome(selected).results.mainStyle;
            d != "" && d in st
            && (forall s :: Occurrences(st, s) <= Occurrences(st, d))
            && exists i :: 0 <= i < |Distinct(st)| && Distinct(st)[i] == d
                 && forall j :: 0 <= j < i ==> Occurrences(st, Distinct(st)[j]) < Occurrences(st, d)
  {
    FallbackAdvances(selected);
    MostFrequent(Styles(selected));
  }

  /** The first three styles other than `d` among distinct styles `st`
      that contain `d`. */
  lemma OtherStylesTaken(st: seq<string>, d: string)
    requires d in st
    ensures var subs := Take(Filter(Distinct(st), OtherStyle(d)), 3);
            subs <= Filter(Distinct(st), OtherStyle(d))
            && |subs| == (if |Distinct(st)| - 1 < 3 then |Distinct(st)| - 1 else 3)
            && d !in subs && NoDuplicates(subs)
  {
    DistinctProperties(st);
    var others := Filter(Distinct(st), OtherStyle(d));
    var k0 :| 0 <= k0 < |Distinct(st)| && Distinct(st)[k0] == d;
    FilterDropsOne(Distinct(st), OtherStyle(d), d, k0);
    FilterIsSubsequence(Distinct(st), OtherStyle(d));
    SubsequenceNoDuplicates(others, Distinct(st));
    var subs := Take(others, 3);
    forall i, j | 0 <= i < j < |subs| ensures subs[i] != subs[j] {
      assert subs[i] == others[i] && subs[j] == others[j];
    }
  }

  /** The fallback's secondary styles: the first three picked styles other
      than the main one, in order of first appearance, without repetition. */
  lemma FallbackSubStyles(selected: seq<QuizImage>)
    requires FallbackOutcome(selected).AdvanceWithWarning?
    ensures var st := Styles(selected);
            var res := FallbackOutcome(selected).results;
            var d := res.mainStyle;
            res.subStyles <= Filter(Distinct(st), OtherStyle(d))
            && |res.subStyles| == (if |Distinct(st)| - 1 < 3 then |Distinct(st)| - 1 else 3)
            && d !in res.subStyles && NoDuplicates(res.subStyles)
  {
    var st := Styles(selected);
    var t := TallyOf(st);
    var d := DominantOf(t);
    FallbackAdvances(selected);
    assert Keys(t) == Distinct(st) by {
      TallyOfProperties(st);
    }
    assert d in st by {
      MostFrequent(st);
    }
    OtherStylesTaken(st, d);
  }

  /** The pictures of the fallback for a style `d` some pick has. */
  lemma PicturesOfStyle(selected: seq<QuizImage>, d: string, i0: int)
    requires 0 <= i0 < |selected| && selected[i0].style == d
    ensures var images := FallbackPicks(selected, d);
            0 < |images| <= 3
            && forall i :: 0 <= i < |images| ==>
                 images[i].style == d
                 && exists j :: 0 <= j < |selected|
                      && images[i] == selected[j].(description := images[i].description)
  {
    var kept := Filter(selected, HasStyle(d));
    assert |kept| > 0 by {
      assert HasStyle(d)(selected[i0]);
      FilterMembers(selected, HasStyle(d));
    }
    var picks := Take(kept, 3);
    var images := FallbackPicks(selected, d);
    forall i | 0 <= i < |images|
      ensures images[i].style == d
      ensures exists j :: 0 <= j < |selected| && images[i] == selected[j].(description := images[i].description)
    {
      assert picks[i] == kept[i];
      assert kept[i] in selected by {
        FilterMembers(selected, HasStyle(d));
      }
      var j :| 0 <= j < |selected| && selected[j] == picks[i];
    }
  }

  /** The fallback's pictures: between one and three of the picks, all of
      the main style, each unchanged but for its description. */
  lemma FallbackPictures(selected: seq<QuizImage>)
    requires FallbackOutcome(selected).AdvanceWithWarning?
    ensures var res := FallbackOutcome(selected).results;
            var images := res.recommendedImages;
            0 < |images| <= 3
            && forall i :: 0 <= i < |images| ==>
                 images[i].style == res.mainStyle
                 && exists j :: 0 <= j < |selected|
                      && images[i] == selected[j].(description := images[i].description)
  {
    var st := Styles(selected);
    var d := DominantOf(TallyOf(st));
    FallbackAdvances(selected);
    assert d in st by {
      MostFrequent(st);
    }
    var i0 :| 0 <= i0 < |st| && st[i0] == d;
    PicturesOfStyle(selected, d, i0);
  }

  /** Without picks the fallback reports an error; with picks it reports
      one exactly when the most frequent (first seen) style is "". */
  lemma FallbackErrors(selected: seq<QuizImage>)
    ensures |selected| == 0 ==> FallbackOutcome(selected) == Error(NoSelectionError)
    ensures |selected| > 0 ==>
              (FallbackOutcome(selected).Error? <==> DominantOf(TallyOf(Styles(selected))) == "")
    ensures FallbackOutcome(selected).Error? ==>
              FallbackOutcome(selected).message in {NoSelectionError, NoDominantError}
  {
  }

  /** The whole handler as a function of the quiz record, the network
      outcome and the random suffixes. */
  function SubmitOutcome(data: QuizData, net: Network, nonce: nat -> string): Outcome
  {
    if Trim(data.email) == "" then Error(EmptyEmailError)
    else if !ValidEmail(data.email) then Error(InvalidEmailError)
    else match net
      case Ok(r) => Normalize(r, data, nonce)
      case Failed => FallbackOutcome(data.selectedImages)
  }

  /** The address is checked before anything else: a rejected address gives
      one of the two address messages whatever the network does, and an
      accepted one never does. A reply is never combined with the
      connection warning: a failed request (it throws, the status is not OK
      or the reply is not JSON) always takes the local fallback. */
  lemma SubmitOutcomes(data: QuizData, net: Network, nonce: nat -> string)
    ensures var o := SubmitOutcome(data, net, nonce);
            (!ValidEmail(data.email) ==> o == Error(EmptyEmailError) || o == Error(InvalidEmailError))
            && (Trim(data.email) == "" ==> o == Error(EmptyEmailError))
            && (ValidEmail(data.email) ==> !(o.Error? && o.message in {EmptyEmailError, InvalidEmailError}))
            && (ValidEmail(data.email) && net.Ok? ==>
                  (!o.AdvanceWithWarning? && (o.Error? <==> ProcessingThrows(net.response))))
            && (ValidEmail(data.email) && net.Failed? ==> o == FallbackOutcome(data.selectedImages))
  {
    if ValidEmail(data.email) {
      NotBlank(data.email, 0);
      var o := SubmitOutcome(data, net, nonce);
      if o.Error? {
        if net.Ok? {
          assert o.message == ProcessingError;
        } else {
          FallbackErrors(data.selectedImages);
        }
      }
    }
  }

  /** Results are only ever stored for an address the pattern accepts. */
  lemma AdvanceNeedsValidEmail(data: QuizData, net: Network, nonce: nat -> string)
    ensures !SubmitOutcome(data, net, nonce).Error? ==> ValidEmail(data.email)
  {
  }

  /** The `reduce` that counts the styles of the picks into a fresh object. */
  method CountStyles(images: seq<QuizImage>) returns (t: seq<Entry>)
    ensures t == TallyOf(Styles(images))
  {
    t := [];
    var i := 0;
    while i < |images|
      invariant 0 <= i <= |images|
      invariant t == TallyOf(Styles(images)[..i])
    {
      assert Styles(images)[..i + 1][..i] == Styles(images)[..i];
      t := Bump(t, images[i].style);
      i := i + 1;
    }
    assert Styles(images)[..i] == Styles(images);
  }

  /** The catch branch as the handler runs it: count, scan for the strict
      maximum, then build the fallback results. */
  method Fallback(selected: seq<QuizImage>) returns (o: Outcome)
    ensures o == FallbackOutcome(selected)
  {
    if |selected| == 0 {
      return Error(NoSelectionError);
    }
    var t := CountStyles(selected);
    assert forall j :: 0 <= j < |t| ==> t[j].count > 0 by {
      TallyOfProperties(Styles(selected));
    }
    var dominant, maxCount := FindDominant(t);
    if dominant == "" {
      return Error(NoDominantError);
    }
    o := AdvanceWithWarning(FallbackResults(selected, t, dominant), FallbackWarning);
  }

  /** The handler as it runs: checks, then the processing block or the
      fallback. */
  method Submit(data: QuizData, net: Network, nonce: nat -> string) returns (o: Outcome)
    ensures o == SubmitOutcome(data, net, nonce)
  {
    if Trim(data.email) == "" {
      return Error(EmptyEmailError);
    }
    if !ValidEmail(data.email) {
      return Error(InvalidEmailError);
    }
    match net {
      case Ok(r) =>
        o := Normalize(r, data, nonce);
      case Failed =>
        o := Fallback(data.selectedImages);
    }
  }
}
