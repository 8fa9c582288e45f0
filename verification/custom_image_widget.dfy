/** The CMS image widget's URL reader: from the address of a Cloudinary
    image it derives the gallery entry's id, slug, title, room and style;
    two small helpers then put values into the form's text fields and
    drop-downs. */
module CustomImageWidget {
  import opened Base
  import opened Strings

  /** A character of the class `[a-zA-Z0-9]`. */
  predicate IsAlnum(c: char)
  {
    'a' <= c <= 'z' || 'A' <= c <= 'Z' || '0' <= c <= '9'
  }

  predicate IsDigit(c: char)
  {
    '0' <= c <= '9'
  }

  // ---------------------------------------------------------------------
  // The public id: `/\/([^\/]+)\.[a-zA-Z0-9]+$/`

  /** The pattern read as a decomposition of `url`: a '/' at `i`, the group
      from `i + 1` up to a '.' at `d`, holding no '/', and one or more
      letters or digits from `d + 1` to the end. */
  ghost predicate FileNameMatch(url: string, i: int, d: int)
  {
    0 <= i && i + 1 < d && d + 1 < |url| && url[i] == '/' && url[d] == '.'
    && (forall k :: i < k < d ==> url[k] != '/')
    && (forall k :: d < k < |url| ==> IsAlnum(url[k]))
  }

  /** `imageUrl.match(...)[1]`: the last path segment without its
      extension, or `None` when the address does not end that way. */
  function PublicId(url: string): (id: Option<string>)
  {
    var slash := LastIndexOf(url, '/');
    if slash < 0 then None
    else
      var seg := url[slash + 1..];
      var dot := LastIndexOf(seg, '.');
      if 1 <= dot < |seg| - 1 && forall k :: dot < k < |seg| ==> IsAlnum(seg[k]) then Some(seg[..dot])
      else None
  }

  /** The computed public id is exactly the group of a match of the
      pattern, and there is none when the pattern does not match. */
  lemma PublicIdMatchesPattern(url: string)
    ensures PublicId(url).Some? ==>
              exists i, d :: FileNameMatch(url, i, d) && PublicId(url).value == url[i + 1..d]
    ensures forall i, d :: FileNameMatch(url, i, d) ==> PublicId(url) == Some(url[i + 1..d])
  {
    var slash := LastIndexOf(url, '/');
    if PublicId(url).Some? {
      LastIndexOfLast(url, '/');
      var seg := url[slash + 1..];
      var dot := LastIndexOf(seg, '.');
      var d := slash + 1 + dot;
      forall k | slash < k < d ensures url[k] != '/' {
        assert url[k] == seg[k - slash - 1];
      }
      forall k | d < k < |url| ensures IsAlnum(url[k]) {
        assert url[k] == seg[k - slash - 1];
      }
      assert FileNameMatch(url, slash, d);
      assert url[slash + 1..d] == seg[..dot];
    }
    forall i, d | FileNameMatch(url, i, d) ensures PublicId(url) == Some(url[i + 1..d]) {
      FileNameMatchUnique(url, i, d);
    }
  }

  lemma FileNameMatchUnique(url: string, i: int, d: int)
    requires FileNameMatch(url, i, d)
    ensures PublicId(url) == Some(url[i + 1..d])
  {
    assert forall k :: i < k < |url| ==> url[k] != '/';
    LastIndexOfAt(url, '/', i);
    var seg := url[i + 1..];
    assert forall k :: d - i - 1 < k < |seg| ==> seg[k] == url[k + i + 1];
    LastIndexOfAt(seg, '.', d - i - 1);
    assert seg[..d - i - 1] == url[i + 1..d];
  }

  // ---------------------------------------------------------------------
  // The full path: `/\/upload\/(?:v\d+\/)?(.+)\.[a-zA-Z0-9]+$/`

  /** Position of the '.' that starts the extension: the address ends with
      '.' and one or more letters or digits. */
  function ExtensionDot(url: string): (dot: Option<nat>)
    ensures dot.Some? ==> dot.value < |url| - 1 && url[dot.value] == '.'
                          && forall k :: dot.value < k < |url| ==> IsAlnum(url[k])
  {
    var dot := LastIndexOf(url, '.');
    if 0 <= dot < |url| - 1 && forall k :: dot < k < |url| ==> IsAlnum(url[k]) then Some(dot) else None
  }

  /** The end of `v\d+\/` starting at `p`, if it is there. */
  function VersionEnd(url: string, p: nat): (q: Option<nat>)
    ensures q.Some? ==> p + 3 <= q.value <= |url| && url[p] == 'v' && url[q.value - 1] == '/'
  {
    if p < |url| && url[p] == 'v' then
      var n := DigitRun(url, p + 1);
      if n > 0 && p + 1 + n < |url| && url[p + 1 + n] == '/' then Some(p + 2 + n) else None
    else None
  }

  /** Between the 'v' and the '/' of a version there are only digits. */
  lemma VersionDigits(url: string, p: nat)
    requires VersionEnd(url, p).Some?
    ensures forall k :: p < k < VersionEnd(url, p).value - 1 ==> IsDigit(url[k])
  {
    DigitRunDigits(url, p + 1);
  }

  /** Length of the run of digits starting at `i`. */
  function DigitRun(s: string, i: nat): (n: nat)
    requires i <= |s|
    ensures i + n <= |s| && (i + n == |s| || !IsDigit(s[i + n]))
    decreases |s| - i
  {
    if i < |s| && IsDigit(s[i]) then 1 + DigitRun(s, i + 1) else 0
  }

  /** The run is all digits. */
  lemma {:induction false} DigitRunDigits(s: string, i: nat)
    requires i <= |s|
    ensures forall k :: i <= k < i + DigitRun(s, i) ==> IsDigit(s[k])
    decreases |s| - i
  {
    if i < |s| && IsDigit(s[i]) {
      DigitRunDigits(s, i + 1);
    }
  }

  /** The group `(.+)` from `q` up to the extension's '.', when it is
      non-empty and crosses no line terminator. */
  function GroupBefore(url: string, q: nat, dot: nat): Option<string>
    requires dot <= |url|
  {
    if q < dot && forall k :: q <= k < dot ==> !IsLineTerminator(url[k]) then Some(url[q..dot]) else None
  }

  /** The leftmost match whose "/upload/" starts at `o` or later. */
  function UploadPathFrom(url: string, o: nat, dot: nat): (path: Option<string>)
    requires dot < |url|
    ensures path.Some? ==> |path.value| > 0 && SingleLine(path.value)
    decreases |url| - o
  {
    if o >= |url| then None
    else if OccursAt(url, "/upload/", o) then
      var p := o + 8;
      var withVersion := match VersionEnd(url, p)
                           case Some(q) => GroupBefore(url, q, dot)
                           case None => None;
      if withVersion.Some? then withVersion
      else if GroupBefore(url, p, dot).Some? then GroupBefore(url, p, dot)
      else UploadPathFrom(url, o + 1, dot)
    else UploadPathFrom(url, o + 1, dot)
  }

  /** `pathMatch[1]`: the path after "/upload/" and an optional version,
      without the extension. */
  function UploadPath(url: string): (path: Option<string>)
    ensures path.Some? ==> |path.value| > 0 && SingleLine(path.value)
  {
    match ExtensionDot(url)
      case None => None
      case Some(dot) => UploadPathFrom(url, 0, dot)
  }

  /** A way for the pattern to match with its "/upload/" at `u` and its
      group starting at `q`, right after the "/upload/" or after a version
      such as "v12/", and ending at the extension's '.' at `dot`. */
  ghost predicate UploadMatch(url: string, dot: nat, u: int, q: nat)
    requires dot <= |url|
  {
    0 <= u && OccursAt(url, "/upload/", u)
    && (q == u + 8 || VersionEnd(url, u + 8) == Some(q))
    && GroupBefore(url, q, dot).Some?
  }

  /** The optional version is tried first: when skipping it leaves a group,
      the group starts after it. */
  ghost predicate VersionFirst(url: string, dot: nat, u: nat, q: nat)
    requires dot <= |url|
  {
    VersionEnd(url, u + 8).Some? && GroupBefore(url, VersionEnd(url, u + 8).value, dot).Some?
    ==> q == VersionEnd(url, u + 8).value
  }

  /** The scan from `o` finds the leftmost "/upload/" at `o` or later that
      can start a match, prefers the version, and finds one whenever there
      is a match at all. */
  lemma {:induction false} UploadPathFromMatch(url: string, o: nat, dot: nat)
    requires dot < |url|
    ensures UploadFound(url, o, dot)
    ensures UploadComplete(url, o, dot)
    decreases |url| - o
  {
    if o < |url| {
      UploadPathFromMatch(url, o + 1, dot);
      UploadStep(url, o, dot);
    } else {
      forall u, q: nat | o <= u ensures !UploadMatch(url, dot, u, q) {
      }
    }
  }

  /** What the scan from `o` returns is the group of the leftmost match at
      `o` or later, with the version preferred. */
  ghost predicate UploadFound(url: string, o: nat, dot: nat)
    requires dot < |url|
  {
    UploadPathFrom(url, o, dot).Some? ==>
      exists u: nat, q: nat :: o <= u && UploadMatch(url, dot, u, q) && VersionFirst(url, dot, u, q)
        && UploadPathFrom(url, o, dot).value == url[q..dot]
        && forall u', q' :: o <= u' < u ==> !UploadMatch(url, dot, u', q')
  }

  /** The scan from `o` finds something when there is a match at `o` or later. */
  ghost predicate UploadComplete(url: string, o: nat, dot: nat)
    requires dot < |url|
  {
    (exists u, q :: o <= u && UploadMatch(url, dot, u, q)) ==> UploadPathFrom(url, o, dot).Some?
  }

  /** One step of the scan: trying the "/upload/" at `o` first. */
  lemma UploadStep(url: string, o: nat, dot: nat)
    requires dot < |url| && o < |url|
    requires UploadFound(url, o + 1, dot) && UploadComplete(url, o + 1, dot)
    ensures UploadFound(url, o, dot) && UploadComplete(url, o, dot)
  {
    if OccursAt(url, "/upload/", o) {
      var p := o + 8;
      var v := VersionEnd(url, p);
      if v.Some? && GroupBefore(url, v.value, dot).Some? {
        assert UploadMatch(url, dot, o, v.value) && VersionFirst(url, dot, o, v.value);
      } else if GroupBefore(url, p, dot).Some? {
        assert UploadMatch(url, dot, o, p) && VersionFirst(url, dot, o, p);
      } else {
        assert forall q: nat :: !UploadMatch(url, dot, o, q);
        UploadSkip(url, o, dot);
      }
    } else {
      assert forall q: nat :: !UploadMatch(url, dot, o, q);
      UploadSkip(url, o, dot);
    }
  }

  /** When nothing matches at `o`, the scan from `o` is the scan from `o + 1`. */
  lemma UploadSkip(url: string, o: nat, dot: nat)
    requires dot < |url| && o < |url|
    requires UploadPathFrom(url, o, dot) == UploadPathFrom(url, o + 1, dot)
    requires forall q: nat :: !UploadMatch(url, dot, o, q)
    requires UploadFound(url, o + 1, dot) && UploadComplete(url, o + 1, dot)
    ensures UploadFound(url, o, dot) && UploadComplete(url, o, dot)
  {
  }

  /** `pathMatch[1]` is the group of the pattern's match: there is one
      exactly when the address ends with an extension and some "/upload/"
      can start a match; then the leftmost such "/upload/" is used, the
      version is skipped whenever that still leaves a group, and the group
      runs up to the extension's '.'. */
  lemma UploadPathShape(url: string)
    ensures UploadPath(url).Some? <==>
              ExtensionDot(url).Some? && exists u, q :: UploadMatch(url, ExtensionDot(url).value, u, q)
    ensures UploadPath(url).Some? ==>
              var dot := ExtensionDot(url).value;
              exists u: nat, q: nat :: UploadMatch(url, dot, u, q) && VersionFirst(url, dot, u, q)
                && UploadPath(url).value == url[q..dot]
                && forall u', q' :: u' < u ==> !UploadMatch(url, dot, u', q')
  {
    if ExtensionDot(url).Some? {
      UploadPathFromMatch(url, 0, ExtensionDot(url).value);
    }
  }

  // ---------------------------------------------------------------------
  // The extracted record

  datatype ExtractedData = ExtractedData(id: string, slug: string, title: string, room: string, style: string)

  predicate StyledRoom(room: string)
  {
    room == "Kitchen" || room == "Furniture"
  }

  /** The record for a path with at least two '/'-separated parts: the
      second part is the room, the file name and the style come from the
      remaining parts. */
  function Structured(fullPath: string, parts: seq<string>): ExtractedData
    requires |parts| >= 2
  {
    var room := parts[1];
    var style := if |parts| > 3 || (|parts| == 3 && StyledRoom(room)) then parts[2] else "";
    var filename := if |parts| >= 3 then (if |parts| > 3 || StyledRoom(room) then parts[|parts| - 1] else parts[2])
                    else room;
    ExtractedData(
      fullPath,
      ReplaceChar(ToLower(filename), '_', '-'),
      ReplaceChar(filename, '_', ' '),
      if room == "Lighting" then "Light" else room,
      if StyledRoom(room) then style else "")
  }

  /** `extractAndFillFields` up to the form update: the record it fills
      the form with, or `None` when it gives up. */
  function ExtractFields(url: string): (data: Option<ExtractedData>)
    ensures data.Some? <==> PublicId(url).Some?
  {
    match PublicId(url)
      case None => None
      case Some(publicId) =>
        var fullPath := match UploadPath(url) case Some(p) => p case None => publicId;
        if '/' in fullPath then
          var parts := Split(fullPath, '/');
          if |parts| >= 2 then Some(Structured(fullPath, parts))
          else Some(ExtractedData(fullPath, ToLower(publicId), publicId, "", ""))
        else Some(ExtractedData(fullPath, ToLower(publicId), publicId, "", ""))
  }

  /** The path the record is built from. */
  function FullPath(url: string): string
    requires PublicId(url).Some?
  {
    match UploadPath(url) case Some(p) => p case None => PublicId(url).value
  }

  /** A path with a '/' splits into at least two parts. */
  lemma SplitAtSeparator(s: string, c: char)
    requires c in s
    ensures |Split(s, c)| >= 2
  {
    var k := IndexOf(s, c);
    IndexOfFirst(s, c);
    SplitCons(s, c, k);
  }

  /** A simple path, without '/', gives the public id as title, its lower
      case as slug, and no room or style. */
  lemma ExtractSimple(url: string)
    requires PublicId(url).Some? && '/' !in FullPath(url)
    ensures var data := ExtractFields(url).value;
            var publicId := PublicId(url).value;
            data == ExtractedData(FullPath(url), ToLower(publicId), publicId, "", "")
  {
  }

  /** A structured path: its parts join back into it, and the record is
      `Structured` of them, with the shape `StructuredShape` states. */
  lemma ExtractStructured(url: string)
    requires PublicId(url).Some? && '/' in FullPath(url)
    ensures var parts := Split(FullPath(url), '/');
            |parts| >= 2 && Join(parts, '/') == FullPath(url)
            && ExtractFields(url) == Some(Structured(FullPath(url), parts))
            && StructuredShape(FullPath(url), parts, ExtractFields(url).value)
  {
    ExtractFieldsStructured(url);
    JoinSplit(FullPath(url), '/');
    StructuredFields(FullPath(url), Split(FullPath(url), '/'));
  }

  /** What a record built from a split path says: the id is the path, the
      room its second part ("Lighting" shown as "Light"), the slug and
      title the file name with '_' turned into '-' (lower case) and ' ',
      and a style only for kitchens and furniture, from the third part. */
  predicate StructuredShape(fullPath: string, parts: seq<string>, data: ExtractedData)
    requires |parts| >= 2
  {
    && data.id == fullPath
    && data.room == (if parts[1] == "Lighting" then "Light" else parts[1])
    && '_' !in data.slug && '_' !in data.title && |data.slug| == |data.title|
    && (forall k :: 0 <= k < |data.slug| ==> !('A' <= data.slug[k] <= 'Z'))
    && (data.style != "" ==> StyledRoom(parts[1]) && |parts| >= 3 && data.style == parts[2])
    && (StyledRoom(parts[1]) && |parts| == 3 ==> data.title == ReplaceChar(data.style, '_', ' '))
  }

  lemma StructuredFields(fullPath: string, parts: seq<string>)
    requires |parts| >= 2
    ensures StructuredShape(fullPath, parts, Structured(fullPath, parts))
  {
    var data := Structured(fullPath, parts);
    forall k | 0 <= k < |data.slug| ensures !('A' <= data.slug[k] <= 'Z') && data.slug[k] != '_' {
    }
    forall k | 0 <= k < |data.title| ensures data.title[k] != '_' {
    }
  }

  /** An address with a version and a three-part path for a bathroom. */
  lemma ExtractExample()
    ensures ExtractFields("/upload/v1/P_2/Bath/Bath_1.jpg")
            == Some(ExtractedData("P_2/Bath/Bath_1", "bath-1", "Bath 1", "Bath", ""))
  {
    var url := "/upload/v1/P_2/Bath/Bath_1.jpg";
    ExamplePublicId(url);
    ExampleUploadPath(url);
    ExampleSplit("P_2/Bath/Bath_1");
    ExampleSlugTitle("Bath_1");
    var parts := ["P_2", "Bath", "Bath_1"];
    assert FullPath(url) == "P_2/Bath/Bath_1";
    ExtractFieldsStructured(url);
    assert !StyledRoom(parts[1]) && parts[1] != "Lighting";
    assert Structured("P_2/Bath/Bath_1", parts)
           == ExtractedData("P_2/Bath/Bath_1", ReplaceChar(ToLower("Bath_1"), '_', '-'),
                            ReplaceChar("Bath_1", '_', ' '), "Bath", "");
  }

  /** A structured path goes through `Structured`. */
  lemma ExtractFieldsStructured(url: string)
    requires PublicId(url).Some? && '/' in FullPath(url)
    ensures |Split(FullPath(url), '/')| >= 2
    ensures ExtractFields(url) == Some(Structured(FullPath(url), Split(FullPath(url), '/')))
  {
    SplitAtSeparator(FullPath(url), '/');
  }

  lemma ExampleSlugTitle(f: string)
    requires f == "Bath_1"
    ensures ReplaceChar(ToLower(f), '_', '-') == "bath-1"
    ensures ReplaceChar(f, '_', ' ') == "Bath 1"
  {
    var lower := ToLower(f);
    assert LowerChar('B') == 'b';
    forall k | 1 <= k < 6 ensures lower[k] == f[k] {
      assert !('A' <= f[k] <= 'Z');
    }
    assert lower == "bath_1";
    var slug := ReplaceChar(lower, '_', '-');
    forall k | 0 <= k < 6 ensures slug[k] == "bath-1"[k] {
    }
    var title := ReplaceChar(f, '_', ' ');
    forall k | 0 <= k < 6 ensures title[k] == "Bath 1"[k] {
    }
  }

  lemma ExamplePublicId(url: string)
    requires url == "/upload/v1/P_2/Bath/Bath_1.jpg"
    ensures PublicId(url) == Some("Bath_1")
  {
    LastIndexOfAt(url, '/', 19);
    var seg := url[20..];
    assert seg == "Bath_1.jpg";
    LastIndexOfAt(seg, '.', 6);
    assert forall k :: 6 < k < |seg| ==> IsAlnum(seg[k]);
    assert seg[..6] == "Bath_1";
  }

  lemma ExampleUploadPath(url: string)
    requires url == "/upload/v1/P_2/Bath/Bath_1.jpg"
    ensures UploadPath(url) == Some("P_2/Bath/Bath_1")
  {
    ExampleDot(url);
    ExampleVersion(url);
    ExampleGroup(url);
    assert OccursAt(url, "/upload/", 0) by {
      assert url[0..8] == "/upload/";
    }
  }

  lemma ExampleDot(url: string)
    requires url == "/upload/v1/P_2/Bath/Bath_1.jpg"
    ensures ExtensionDot(url) == Some(26)
  {
    LastIndexOfAt(url, '.', 26);
  }

  lemma ExampleVersion(url: string)
    requires url == "/upload/v1/P_2/Bath/Bath_1.jpg"
    ensures VersionEnd(url, 8) == Some(11)
  {
    assert url[8] == 'v' && IsDigit(url[9]) && url[10] == '/';
    assert DigitRun(url, 10) == 0;
  }

  lemma ExampleGroup(url: string)
    requires url == "/upload/v1/P_2/Bath/Bath_1.jpg"
    ensures GroupBefore(url, 11, 26) == Some("P_2/Bath/Bath_1")
  {
    assert forall k :: 11 <= k < 26 ==> !IsLineTerminator(url[k]);
    assert url[11..26] == "P_2/Bath/Bath_1";
  }

  lemma ExampleSplit(path: string)
    requires path == "P_2/Bath/Bath_1"
    ensures '/' in path && Split(path, '/') == ["P_2", "Bath", "Bath_1"]
  {
    var parts := ["P_2", "Bath", "Bath_1"];
    assert Join(parts[2..], '/') == "Bath_1";
    assert Join(parts[1..], '/') == "Bath" + "/" + "Bath_1";
    assert Join(parts, '/') == path;
    SplitJoin(parts, '/');
  }

  // ---------------------------------------------------------------------
  // Form helpers

  /** `isValidOption`: a scan of the option values for an exact match. */
  method IsValidOption(options: seq<string>, value: string) returns (valid: bool)
    ensures valid <==> value in options
  {
    var i := 0;
    while i < |options|
      invariant 0 <= i <= |options|
      invariant value !in options[..i]
    {
      if options[i] == value {
        return true;
      }
      assert options[..i + 1] == options[..i] + [options[i]];
      i := i + 1;
    }
    assert options[..i] == options;
    return false;
  }

  /** A drop-down: its option values and the selected index. */
  class Select {
    var options: seq<string>
    var selectedIndex: int

    constructor(options: seq<string>, selectedIndex: int)
      ensures this.options == options && this.selectedIndex == selectedIndex
    {
      this.options := options;
      this.selectedIndex := selectedIndex;
    }
  }

  /** `setSelectValue`: select the first option with the value and report
      a change; without such an option, or without a drop-down, nothing
      changes and nothing is reported. */
  method SetSelectValue(select: Select?, value: string) returns (changed: bool)
    modifies select
    ensures select == null ==> !changed
    ensures select != null ==>
              select.options == old(select.options)
              && (changed <==> value in select.options)
              && (changed ==> 0 <= select.selectedIndex < |select.options|
                                && select.options[select.selectedIndex] == value
                                && forall k :: 0 <= k < select.selectedIndex ==> select.options[k] != value)
              && (!changed ==> select.selectedIndex == old(select.selectedIndex))
  {
    if select == null {
      return false;
    }
    var i := 0;
    while i < |select.options|
      invariant 0 <= i <= |select.options|
      invariant forall k :: 0 <= k < i ==> select.options[k] != value
      invariant select.selectedIndex == old(select.selectedIndex)
    {
      if select.options[i] == value {
        select.selectedIndex := i;
        return true;
      }
      i := i + 1;
    }
    return false;
  }

  /** A text input. */
  class TextField {
    var value: string

    constructor(value: string)
      ensures this.value == value
    {
      this.value := value;
    }
  }

  /** `setFieldValue`: write the value and report input and change events,
      unless there is no field or it already holds the value. */
  method SetFieldValue(field: TextField?, value: string) returns (changed: bool)
    modifies field
    ensures changed <==> field != null && old(field.value) != value
    ensures field != null ==> field.value == value
  {
    if field == null || field.value == value {
      return false;
    }
    field.value := value;
    return true;
  }
}
