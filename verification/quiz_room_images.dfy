/** The quiz's picture pool: room pictures read from four JSON lists, each
    tagged with its room and with a style guessed from its description. */
module QuizRoomImages {
  import opened Base
  import opened Strings
  import opened QuizTypes

  /** One entry of a room JSON list. */
  datatype RoomJsonData = RoomJsonData(title: string, description: string, link: string)

  /** The eight labels the classifier can answer. */
  const StyleLabels: seq<string> :=
    ["Modern", "Traditional", "Minimalist", "Industrial", "Rustic", "Scandinavian", "Bohemian", "Eclectic"]

  /** Keyword groups in the order they are tried, with the label each gives. */
  datatype KeywordGroup = KeywordGroup(style: string, keywords: seq<string>)

  const Groups: seq<KeywordGroup> := [
    KeywordGroup("Modern", ["modern", "contemporary"]),
    KeywordGroup("Traditional", ["traditional", "classic"]),
    KeywordGroup("Minimalist", ["minimal", "minimalist"]),
    KeywordGroup("Industrial", ["industrial"]),
    KeywordGroup("Rustic", ["rustic", "farmhouse"]),
    KeywordGroup("Scandinavian", ["scandinavian"]),
    KeywordGroup("Bohemian", ["bohemian", "boho"])
  ]

  /** The groups give the first seven labels, in order. */
  lemma GroupLabels()
    ensures |Groups| == 7 && forall i :: 0 <= i < |Groups| ==> Groups[i].style == StyleLabels[i]
  {
  }

  /** Some keyword of `g` occurs in `d`. */
  predicate GroupMatches(g: KeywordGroup, d: string)
  {
    AnyContained(d, g.keywords)
  }

  predicate AnyContained(d: string, keywords: seq<string>)
  {
    |keywords| > 0 && (Contains(d, keywords[0]) || AnyContained(d, keywords[1..]))
  }

  /** The label of the first group with a keyword contained in `d`, or
      "Eclectic" when no group has one. */
  function FirstMatchingLabel(groups: seq<KeywordGroup>, d: string): (style: string)
    ensures style == "Eclectic" || exists i :: 0 <= i < |groups| && style == groups[i].style
    ensures (forall i :: 0 <= i < |groups| ==> !GroupMatches(groups[i], d)) ==> style == "Eclectic"
    ensures forall i :: (0 <= i < |groups| && GroupMatches(groups[i], d)
                         && forall j :: 0 <= j < i ==> !GroupMatches(groups[j], d)) ==> style == groups[i].style
  {
    if |groups| == 0 then "Eclectic"
    else if GroupMatches(groups[0], d) then groups[0].style
    else
      var r := FirstMatchingLabel(groups[1..], d);
      assert forall i :: 1 <= i < |groups| ==> groups[i] == groups[1..][i - 1];
      r
  }

  /** `determineStyle`: lower-case the description, then try the keyword
      groups in order; the first group with a keyword contained in the
      description decides the label, "Eclectic" when none does. */
  function DetermineStyle(description: string): (style: string)
    ensures style in StyleLabels
  {
    var style := FirstMatchingLabel(Groups, ToLower(description));
    GroupLabels();
    style
  }

  /** A description mentioning both a Modern and a Rustic keyword, in any
      case, is classified by the earlier group. */
  lemma DetermineStyleExample()
    ensures DetermineStyle("A RUSTIC kitchen, Contemporary lines") == "Modern"
  {
    var d := ToLower("A RUSTIC kitchen, Contemporary lines");
    ContemporaryAt("A RUSTIC kitchen, Contemporary lines", d);
    ContainsIff(d, "contemporary");
    AnyContainedPair(d, "modern", "contemporary");
  }

  lemma ContemporaryAt(src: string, d: string)
    requires src == "A RUSTIC kitchen, Contemporary lines" && d == ToLower(src)
    ensures OccursAt(d, "contemporary", 18)
  {
    var w := src[18..30];
    assert w == "Contemporary";
    LowerContemporary(w);
    assert forall k :: 0 <= k < 12 ==> d[18 + k] == ToLower(w)[k];
    assert d[18..30] == ToLower(w);
  }

  lemma LowerContemporary(w: string)
    requires w == "Contemporary"
    ensures ToLower(w) == "contemporary"
  {
    assert LowerChar('C') == 'c';
    forall k | 1 <= k < 12 ensures ToLower(w)[k] == w[k] {
      assert !('A' <= w[k] <= 'Z');
    }
  }

  lemma AnyContainedOne(d: string, a: string)
    ensures AnyContained(d, [a]) <==> Contains(d, a)
  {
    assert [a][1..] == [];
  }

  lemma AnyContainedPair(d: string, a: string, b: string)
    ensures AnyContained(d, [a, b]) <==> Contains(d, a) || Contains(d, b)
  {
    assert [a, b][1..] == [b];
    AnyContainedOne(d, b);
  }

  /** Upper and lower case are not distinguished. */
  lemma DetermineStyleIgnoresCase(description: string)
    ensures DetermineStyle(ToLower(description)) == DetermineStyle(description)
  {
    ToLowerIdempotent(description);
  }

  /** Picture `img` is JSON entry `d` converted for `room`: title, link and
      description copied, and the style classified from the description. */
  predicate Converted(img: QuizImage, d: RoomJsonData, room: string)
  {
    img.title == d.title && img.url == d.link && img.description == Some(d.description)
    && img.room == room && img.style == DetermineStyle(d.description)
  }

  /** The picture made from entry `d` for `room`, with identifier `id`. */
  function ConvertOne(d: RoomJsonData, room: string, id: string): (img: QuizImage)
    ensures Converted(img, d, room) && img.id == id && img.style in StyleLabels
  {
    QuizImage(id, d.title, d.link, room, DetermineStyle(d.description), Some(d.description))
  }

  /** `convertToQuizImage`: one quiz picture per JSON entry, in order; the
      identifiers are drawn from `uuid` in turn, entry `k` getting
      `uuid(first + k)`. */
  function ConvertToQuizImage(data: seq<RoomJsonData>, room: string, uuid: nat -> string, first: nat): (images: seq<QuizImage>)
    ensures |images| == |data|
    ensures forall i :: 0 <= i < |data| ==> images[i] == ConvertOne(data[i], room, uuid(first + i))
  {
    seq(|data|, i requires 0 <= i < |data| => ConvertOne(data[i], room, uuid(first + i)))
  }

  /** `allRoomImages`: bedroom, dining, living and kitchen pictures, one
      block after the other, each block the conversion of its room's entries
      with its room label, the identifiers drawn in turn across the blocks. */
  function AllRoomImages(bedroom: seq<RoomJsonData>, dining: seq<RoomJsonData>,
                         living: seq<RoomJsonData>, kitchen: seq<RoomJsonData>,
                         uuid: nat -> string): (images: seq<QuizImage>)
    ensures |images| == |bedroom| + |dining| + |living| + |kitchen|
    ensures var b := |bedroom|; var d := b + |dining|; var l := d + |living|;
            images[..b] == ConvertToQuizImage(bedroom, "Bedroom", uuid, 0)
            && images[b..d] == ConvertToQuizImage(dining, "Dining", uuid, b)
            && images[d..l] == ConvertToQuizImage(living, "Living", uuid, d)
            && images[l..] == ConvertToQuizImage(kitchen, "Kitchen", uuid, l)
  {
    var b := |bedroom|;
    var d := b + |dining|;
    var l := d + |living|;
    var bs := ConvertToQuizImage(bedroom, "Bedroom", uuid, 0);
    var ds := ConvertToQuizImage(dining, "Dining", uuid, b);
    var ls := ConvertToQuizImage(living, "Living", uuid, d);
    var ks := ConvertToQuizImage(kitchen, "Kitchen", uuid, l);
    var images := bs + ds + ls + ks;
    assert images[..b] == bs;
    assert images[b..d] == ds;
    assert images[d..l] == ls;
    assert images[l..] == ks;
    images
  }

  /** A stretch of pictures equal to one converted block holds, picture by
      picture, its entries converted for the block's room, with the
      identifiers drawn in order from `off`; with the block equations of
      `AllRoomImages` this gives every picture of the page's list. */
  lemma BlockConverted(images: seq<QuizImage>, off: nat, data: seq<RoomJsonData>, room: string,
                       uuid: nat -> string)
    requires off + |data| <= |images|
    requires images[off..off + |data|] == ConvertToQuizImage(data, room, uuid, off)
    ensures forall i :: 0 <= i < |data| ==>
              Converted(images[off + i], data[i], room) && images[off + i].id == uuid(off + i)
  {
    var block := ConvertToQuizImage(data, room, uuid, off);
    forall i | 0 <= i < |data|
      ensures Converted(images[off + i], data[i], room) && images[off + i].id == uuid(off + i)
    {
      assert images[off + i] == block[i];
    }
  }
}
