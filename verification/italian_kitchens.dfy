/** The Italian kitchens page: accordion sections of which at most one is
    open, kitchen-style tabs of which one is shown, and per-style "Read
    more" toggles over a description cut at 100 characters. */
module ItalianKitchens {
  import opened Base

  /** One kitchen style tab. */
  datatype KitchenStyle = KitchenStyle(id: string, name: string, description: string, image: string)

  /** `toggleAccordion`'s update: the open section closes, any other
      section opens in its place. */
  function ToggleSection(active: Option<string>, id: string): (next: Option<string>)
  {
    if active == Some(id) then None else Some(id)
  }

  /** A section is open when it is the active one. */
  predicate IsOpen(active: Option<string>, id: string)
  {
    active == Some(id)
  }

  /** Toggling closes the open section and opens any other, and afterwards
      no other section is open. */
  lemma ToggleSectionOpens(active: Option<string>, id: string, other: string)
    ensures IsOpen(active, id) ==> ToggleSection(active, id) == None
    ensures !IsOpen(active, id) ==> IsOpen(ToggleSection(active, id), id)
    ensures other != id ==> !IsOpen(ToggleSection(active, id), other)
  {
  }

  /** Two toggles of the same section from a closed page close it again. */
  lemma ToggleSectionTwice(id: string)
    ensures ToggleSection(ToggleSection(None, id), id) == None
  {
  }

  /** `expandedText[id]` read as a boolean: a missing key counts as false. */
  function Expanded(m: map<string, bool>, id: string): (b: bool)
    ensures b <==> id in m && m[id]
  {
    id in m && m[id]
  }

  /** `toggleTextExpansion`'s update: the given key flips, every other key
      is kept as it was. */
  function ToggleExpansion(m: map<string, bool>, id: string): (r: map<string, bool>)
    ensures id in r && (r[id] <==> !Expanded(m, id))
    ensures forall k :: k != id ==> (k in r <==> k in m) && (k in m ==> r[k] == m[k])
  {
    m[id := !Expanded(m, id)]
  }

  /** Two toggles of a key restore whether it reads as expanded, and never
      touch another key. */
  lemma ToggleExpansionTwice(m: map<string, bool>, id: string)
    ensures Expanded(ToggleExpansion(ToggleExpansion(m, id), id), id) == Expanded(m, id)
    ensures forall k :: k != id ==> Expanded(ToggleExpansion(ToggleExpansion(m, id), id), k) == Expanded(m, k)
  {
  }

  /** The description shown for a style: all of it when expanded, else its
      first 100 characters followed by "..." (also when it is shorter). */
  function ShownDescription(description: string, expanded: bool): (text: string)
    ensures expanded ==> text == description
    ensures !expanded ==> |text| == (if |description| < 100 then |description| else 100) + 3
    ensures !expanded ==> text[..|text| - 3] <= description && text[|text| - 3..] == "..."
  {
    if expanded then description
    else
      var cut := if |description| < 100 then |description| else 100;
      description[..cut] + "..."
  }

  /** The style cards rendered: only the style whose id is the active one
      (every style with that id, in order). */
  function RenderedStyles(styles: seq<KitchenStyle>, activeStyle: string): (shown: seq<KitchenStyle>)
    ensures forall s :: s in shown ==> s.id == activeStyle
    ensures forall i :: 0 <= i < |styles| && styles[i].id == activeStyle ==> styles[i] in shown
  {
    if |styles| == 0 then []
    else (if styles[0].id == activeStyle then [styles[0]] else []) + RenderedStyles(styles[1..], activeStyle)
  }

  /** With distinct style ids and an active id among them, exactly one card
      is rendered. */
  lemma {:induction false} OneStyleRendered(styles: seq<KitchenStyle>, activeStyle: string, i: int)
    requires 0 <= i < |styles| && styles[i].id == activeStyle
    requires forall a, b :: 0 <= a < b < |styles| ==> styles[a].id != styles[b].id
    ensures RenderedStyles(styles, activeStyle) == [styles[i]]
  {
    if i == 0 {
      NoStyleRendered(styles[1..], activeStyle);
    } else {
      assert styles[0].id != activeStyle;
      OneStyleRendered(styles[1..], activeStyle, i - 1);
    }
  }

  lemma {:induction false} NoStyleRendered(styles: seq<KitchenStyle>, activeStyle: string)
    requires forall k :: 0 <= k < |styles| ==> styles[k].id != activeStyle
    ensures RenderedStyles(styles, activeStyle) == []
  {
    if |styles| > 0 {
      NoStyleRendered(styles[1..], activeStyle);
    }
  }

  /** The page's interactive state. */
  class KitchensPage {
    const styles: seq<KitchenStyle>
    var activeAccordion: Option<string>
    var activeStyle: string
    var expandedText: map<string, bool>

    /** No section open, the "modern" style shown, nothing expanded. */
    constructor(styles: seq<KitchenStyle>)
      ensures this.styles == styles
      ensures activeAccordion == None && activeStyle == "modern" && expandedText == map[]
    {
      this.styles := styles;
      activeAccordion := None;
      activeStyle := "modern";
      expandedText := map[];
    }

    /** A section header (benefit or question). */
    method ToggleAccordion(id: string)
      modifies this
      ensures activeAccordion == ToggleSection(old(activeAccordion), id)
      ensures activeStyle == old(activeStyle) && expandedText == old(expandedText)
    {
      activeAccordion := if activeAccordion == Some(id) then None else Some(id);
    }

    /** A "Read more"/"Read less" button. */
    method ToggleTextExpansion(id: string)
      modifies this
      ensures expandedText == ToggleExpansion(old(expandedText), id)
      ensures activeAccordion == old(activeAccordion) && activeStyle == old(activeStyle)
    {
      var flipped := !(id in expandedText && expandedText[id]);
      expandedText := expandedText[id := flipped];
    }

    /** A style tab. */
    method SelectStyle(i: int)
      requires 0 <= i < |styles|
      modifies this
      ensures activeStyle == styles[i].id
      ensures styles[i] in RenderedStyles(styles, activeStyle)
      ensures activeAccordion == old(activeAccordion) && expandedText == old(expandedText)
    {
      activeStyle := styles[i].id;
    }

    /** The description text of the style card for style `i`. */
    function StyleText(i: int): (text: string)
      requires 0 <= i < |styles|
      reads this
      ensures text == ShownDescription(styles[i].description, Expanded(expandedText, styles[i].id))
      ensures Expanded(expandedText, styles[i].id) ==> text == styles[i].description
      ensures !Expanded(expandedText, styles[i].id) ==> |text| <= 103
    {
      ShownDescription(styles[i].description, Expanded(expandedText, styles[i].id))
    }
  }
}
