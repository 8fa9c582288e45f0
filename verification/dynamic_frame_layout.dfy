/** A two-by-two grid of framed pictures: the hovered picture's row and
    column grow, each picture scales from its outer corner, and a click on
    a picture's overlay opens its brand's website (on touch screens, after
    a first tap that reveals the description). */
module DynamicFrameLayout {
  import opened Base

  /** A grid position: `row` is the frame's `defaultPos.y`, `col` its
      `defaultPos.x`. */
  datatype Pos = Pos(row: int, col: int)

  /** A frame, reduced to what the layout's logic reads. */
  datatype Frame = Frame(id: int, x: int, y: int, website: string, description: string)

  function PosOf(f: Frame): Pos
  {
    Pos(f.y, f.x)
  }

  /** A two-track grid template: the weights of the two tracks in `fr`. */
  datatype Tracks = Tracks(first: nat, second: nat)

  /** Decimal digits of a natural number. */
  function NatString(n: nat): (s: string)
    ensures |s| > 0 && forall i :: 0 <= i < |s| ==> '0' <= s[i] <= '9'
  {
    if n < 10 then [('0' as int + n) as char] else NatString(n / 10) + NatString(n % 10)
  }

  /** The CSS text of a template: "<a>fr <b>fr". */
  function Css(t: Tracks): string
  {
    NatString(t.first) + "fr " + NatString(t.second) + "fr"
  }

  /** `getRowSizes`: even rows when nothing is hovered; otherwise the
      hovered frame's row gets `hoverSize` shares, the first row when the
      hovered row is 0 and the second row for any other value. */
  function RowSizes(hovered: Option<Pos>, hoverSize: nat): (t: Tracks)
    ensures hovered.None? ==> t == Tracks(1, 1)
    ensures hovered.Some? && hovered.value.row == 0 ==> t == Tracks(hoverSize, 1)
    ensures hovered.Some? && hovered.value.row != 0 ==> t == Tracks(1, hoverSize)
  {
    if hovered.None? then Tracks(1, 1)
    else if hovered.value.row == 0 then Tracks(hoverSize, 1)
    else Tracks(1, hoverSize)
  }

  /** `getColSizes`: the same rule keyed on the hovered column. */
  function ColSizes(hovered: Option<Pos>, hoverSize: nat): (t: Tracks)
    ensures hovered.None? ==> t == Tracks(1, 1)
    ensures hovered.Some? && hovered.value.col == 0 ==> t == Tracks(hoverSize, 1)
    ensures hovered.Some? && hovered.value.col != 0 ==> t == Tracks(1, hoverSize)
  {
    if hovered.None? then Tracks(1, 1)
    else if hovered.value.col == 0 then Tracks(hoverSize, 1)
    else Tracks(1, hoverSize)
  }

  /** With nothing hovered the grid is "1fr 1fr" both ways. */
  lemma RestingGrid(hoverSize: nat)
    ensures Css(RowSizes(None, hoverSize)) == "1fr 1fr"
    ensures Css(ColSizes(None, hoverSize)) == "1fr 1fr"
  {
    assert NatString(1) == "1";
  }

  /** The first word of a vertical-horizontal origin starts it, and the
      second ends it. */
  lemma OriginParts(vertical: string, horizontal: string)
    requires vertical in {"top", "bottom"} && horizontal in {"left", "right"}
    ensures var o := vertical + " " + horizontal;
            |o| >= 8 && (o[..3] == "top" <==> vertical == "top")
            && (o[|o| - 4..] == "left" <==> horizontal == "left")
  {
    var o := vertical + " " + horizontal;
    assert o[..3] == vertical[..3];
    assert o[|o| - 4..] == horizontal[|horizontal| - 4..];
    assert "bottom"[..3][0] != "top"[0];
    assert "right"[1..][0] != "left"[0];
  }

  /** `getTransformOrigin(x, y)`: "top" exactly when `y` is 0, else
      "bottom"; then "left" exactly when `x` is 0, else "right". */
  function TransformOrigin(x: int, y: int): (origin: string)
    ensures origin == (if y == 0 then "top" else "bottom") + " " + (if x == 0 then "left" else "right")
    ensures |origin| >= 8
    ensures origin[..3] == "top" <==> y == 0
    ensures origin[|origin| - 4..] == "left" <==> x == 0
  {
    var vertical := if y == 0 then "top" else "bottom";
    var horizontal := if x == 0 then "left" else "right";
    var origin := vertical + " " + horizontal;
    OriginParts(vertical, horizontal);
    origin
  }

  /** The origin a frame scales from, called with its column then its row:
      each of the four cells grows away from its own outer corner. */
  function FrameOrigin(f: Frame): (origin: string)
    ensures f.y == 0 && f.x == 0 ==> origin == "top left"
    ensures f.y == 0 && f.x != 0 ==> origin == "top right"
    ensures f.y != 0 && f.x == 0 ==> origin == "bottom left"
    ensures f.y != 0 && f.x != 0 ==> origin == "bottom right"
  {
    var row := f.y;
    var col := f.x;
    TransformOrigin(col, row)
  }

  /** `isHovered` for a frame: the hovered position is the frame's own. */
  predicate IsHovered(hovered: Option<Pos>, f: Frame)
  {
    hovered.Some? && hovered.value.row == f.y && hovered.value.col == f.x
  }

  /** A frame is highlighted exactly when the hovered position is its
      position, so frames sharing a position are highlighted together. */
  lemma HoveredIffSamePos(hovered: Option<Pos>, f: Frame, g: Frame)
    ensures IsHovered(hovered, f) <==> hovered == Some(PosOf(f))
    ensures PosOf(f) == PosOf(g) ==> (IsHovered(hovered, f) <==> IsHovered(hovered, g))
  {
  }

  /** The grid and its hover state. */
  class Layout {
    const frames: seq<Frame>
    const hoverSize: nat
    var hovered: Option<Pos>

    /** Nothing is hovered at first. */
    constructor(frames: seq<Frame>, hoverSize: nat)
      ensures this.frames == frames && this.hoverSize == hoverSize && hovered == None
    {
      this.frames := frames;
      this.hoverSize := hoverSize;
      hovered := None;
    }

    /** The pointer enters frame `i`: its position becomes the hovered one,
        so the frames highlighted are exactly those at that position, and
        its row and column take the larger share. */
    method MouseEnter(i: int)
      requires 0 <= i < |frames|
      modifies this
      ensures hovered == Some(PosOf(frames[i]))
      ensures forall j :: 0 <= j < |frames| ==> (IsHovered(hovered, frames[j]) <==> PosOf(frames[j]) == PosOf(frames[i]))
      ensures RowSizes(hovered, hoverSize) == (if frames[i].y == 0 then Tracks(hoverSize, 1) else Tracks(1, hoverSize))
      ensures ColSizes(hovered, hoverSize) == (if frames[i].x == 0 then Tracks(hoverSize, 1) else Tracks(1, hoverSize))
    {
      var row := frames[i].y;
      var col := frames[i].x;
      hovered := Some(Pos(row, col));
    }

    /** The pointer leaves a frame: nothing is hovered and no frame is
        highlighted. */
    method MouseLeave()
      modifies this
      ensures hovered == None
      ensures forall j :: 0 <= j < |frames| ==> !IsHovered(hovered, frames[j])
    {
      hovered := None;
    }
  }

  /** The result of a click on a frame's overlay: the new tap count and
      whether the website is opened. */
  datatype ClickResult = ClickResult(tapCount: int, opens: bool)

  /** The overlay's click handler: on a desktop a click opens the website
      when the frame is hovered; on a touch screen the first tap only
      counts, and a tap after it opens the website. */
  function ClickStep(isMobile: bool, isHovered: bool, tapCount: int): (r: ClickResult)
  {
    if !isMobile && isHovered then ClickResult(tapCount, true)
    else if isMobile then
      if tapCount == 0 then ClickResult(1, false)
      else if tapCount == 1 then ClickResult(tapCount, true)
      else ClickResult(tapCount, false)
    else ClickResult(tapCount, false)
  }

  /** On a desktop a click opens the website exactly when the frame is
      hovered, and the tap count is untouched. */
  lemma DesktopClick(isHovered: bool, tapCount: int)
    ensures ClickStep(false, isHovered, tapCount).opens <==> isHovered
    ensures ClickStep(false, isHovered, tapCount).tapCount == tapCount
  {
  }

  /** On a touch screen, from a reset overlay the first tap never opens the
      website and the second one does. */
  lemma MobileTwoTaps(isHovered: bool, isHovered2: bool)
    ensures !ClickStep(true, isHovered, 0).opens
    ensures ClickStep(true, isHovered, 0).tapCount == 1
    ensures ClickStep(true, isHovered2, ClickStep(true, isHovered, 0).tapCount).opens
  {
  }

  /** The tap count only ever holds 0 or 1. */
  lemma TapCountBinary(isMobile: bool, isHovered: bool, tapCount: int)
    requires tapCount == 0 || tapCount == 1
    ensures ClickStep(isMobile, isHovered, tapCount).tapCount == 0
            || ClickStep(isMobile, isHovered, tapCount).tapCount == 1
  {
  }

  /** Whether the description and "Click to visit" are shown. */
  predicate ShowsDescription(isMobile: bool, isHovered: bool, tapCount: int)
  {
    if isMobile then tapCount >= 1 else isHovered || tapCount >= 1
  }

  /** One frame's overlay: the viewport test and the tap count. */
  class Overlay {
    const website: string
    var isMobile: bool
    var tapCount: int

    /** Every overlay starts as desktop, with no tap. */
    constructor(website: string)
      ensures this.website == website && !isMobile && tapCount == 0
    {
      this.website := website;
      isMobile := false;
      tapCount := 0;
    }

    /** The mount effect: a viewport narrower than 768 pixels is a touch
        screen. */
    method DetectViewport(innerWidth: int)
      modifies this
      ensures isMobile <==> innerWidth < 768
      ensures tapCount == old(tapCount)
    {
      isMobile := innerWidth < 768;
    }

    /** A click on the overlay; `visit` is the website opened, if any. */
    method Click(isHovered: bool) returns (visit: Option<string>)
      modifies this
      ensures var r := ClickStep(old(isMobile), isHovered, old(tapCount));
              tapCount == r.tapCount && (visit.Some? <==> r.opens)
      ensures visit.Some? ==> visit.value == website
      ensures isMobile == old(isMobile)
    {
      visit := None;
      if !isMobile && isHovered {
        visit := Some(website);
      } else if isMobile {
        if tapCount == 0 {
          tapCount := 1;
        } else if tapCount == 1 {
          visit := Some(website);
        }
      }
    }

    /** The pointer leaves the overlay: the tap count is reset. */
    method MouseLeave()
      modifies this
      ensures tapCount == 0 && isMobile == old(isMobile)
    {
      tapCount := 0;
    }
  }

  /** On a desktop the tap count stays 0, so the description shows exactly
      while the frame is hovered. */
  lemma DesktopDescription(isHovered: bool)
    ensures ShowsDescription(false, isHovered, ClickStep(false, isHovered, 0).tapCount) <==> isHovered
  {
  }
}
