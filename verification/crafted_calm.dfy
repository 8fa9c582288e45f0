/** The "Crafted Calm" page's quiz pictures: the product gallery without
    the rooms the quiz does not ask about, reshaped into quiz pictures. */
module CraftedCalm {
  import opened Base
  import opened QuizTypes

  /** One product-gallery entry; `style` may be missing from its JSON. */
  datatype GalleryItem = GalleryItem(slug: string, id: string, image: string, room: string,
                                     style: Option<string>, title: string)

  /** The rooms left out of the quiz. */
  const ExcludedRooms: seq<string> := ["Light", "Closet", "Outdoor", "Office"]

  lemma ExcludedRoomsIff(room: string)
    ensures room in ExcludedRooms <==> room == "Light" || room == "Closet" || room == "Outdoor" || room == "Office"
  {
  }

  /** The filter: the item's room is none of the excluded ones. */
  predicate KeptRoom(item: GalleryItem)
  {
    item.room != "Light" && item.room != "Closet" && item.room != "Outdoor" && item.room != "Office"
  }

  /** The map: a quiz picture with the gallery image as its URL and the
      style, or "" when the item has none. */
  function ToQuizImage(item: GalleryItem): (image: QuizImage)
    ensures image.id == item.id && image.title == item.title && image.url == item.image && image.room == item.room
    ensures image.style == (if item.style.Some? then item.style.value else "")
  {
    QuizImage(item.id, item.title, item.image, item.room,
              if item.style.Some? then item.style.value else "", None)
  }

  /** `quizImages`: the kept gallery items, in their order, as quiz
      pictures. No picture is of an excluded room. */
  function QuizImages(gallery: seq<GalleryItem>): (images: seq<QuizImage>)
    ensures var kept := Filter(gallery, KeptRoom);
            |images| == |kept| && forall i :: 0 <= i < |kept| ==> images[i] == ToQuizImage(kept[i])
    ensures forall i :: 0 <= i < |images| ==> images[i].room !in ExcludedRooms
  {
    var kept := Filter(gallery, KeptRoom);
    seq(|kept|, i requires 0 <= i < |kept| => ToQuizImage(kept[i]))
  }

  /** The kept items are exactly the gallery items of the other rooms, in
      their gallery order. */
  lemma QuizImagesKeepOthers(gallery: seq<GalleryItem>)
    ensures IsSubsequence(Filter(gallery, KeptRoom), gallery)
    ensures forall i :: 0 <= i < |gallery| && gallery[i].room !in ExcludedRooms ==>
              gallery[i] in Filter(gallery, KeptRoom)
    ensures forall x :: x in Filter(gallery, KeptRoom) ==> x.room !in ExcludedRooms
  {
    var kept := Filter(gallery, KeptRoom);
    FilterIsSubsequence(gallery, KeptRoom);
    forall i | 0 <= i < |gallery| && gallery[i].room !in ExcludedRooms ensures gallery[i] in kept {
      KeptRoomIff(gallery[i]);
      FilterMembers(gallery, KeptRoom);
    }
    forall x | x in kept ensures x.room !in ExcludedRooms {
      var k :| 0 <= k < |kept| && kept[k] == x;
      KeptRoomIff(x);
    }
  }

  /** The filter keeps an item exactly when its room is not excluded. */
  lemma KeptRoomIff(item: GalleryItem)
    ensures KeptRoom(item) <==> item.room !in ExcludedRooms
  {
    ExcludedRoomsIff(item.room);
  }

  /** A gallery without excluded rooms is carried over item for item. */
  lemma QuizImagesAllKept(gallery: seq<GalleryItem>)
    requires forall i :: 0 <= i < |gallery| ==> gallery[i].room !in ExcludedRooms
    ensures |QuizImages(gallery)| == |gallery|
    ensures forall i :: 0 <= i < |gallery| ==> QuizImages(gallery)[i] == ToQuizImage(gallery[i])
  {
    FilterAll(gallery, KeptRoom);
  }
}
