/** The quiz wizard: the container's state (the current step, the quiz
    record and the picture pool), the shallow merge every step writes
    through, the wiring of each step's buttons, and the legacy local
    results calculator. */
module QuizContainer {
  import opened Base
  import opened Strings
  import opened StyleTally
  import opened QuizTypes
  import ImageSelection
  import RoomSelection
  import NameCapture
  import EmailCapture

  // ---------------------------------------------------------------------
  // `updateQuizData`: `{...prevData, ...newData}`

  /** The shallow merge of a partial record into the quiz record: every
      property the patch carries replaces the old value, every other
      property keeps it. */
  function Merge(d: QuizData, p: QuizPatch): (r: QuizData)
    ensures r.selectedImages == (if p.selectedImages.Some? then p.selectedImages.value else d.selectedImages)
    ensures r.selectedRooms == (if p.selectedRooms.Some? then p.selectedRooms.value else d.selectedRooms)
    ensures r.priorityRoom == (if p.priorityRoom.Some? then p.priorityRoom.value else d.priorityRoom)
    ensures r.name == (if p.name.Some? then p.name.value else d.name)
    ensures r.email == (if p.email.Some? then p.email.value else d.email)
    ensures r.results == (if p.results.Some? then p.results.value else d.results)
  {
    QuizData(
      if p.selectedImages.Some? then p.selectedImages.value else d.selectedImages,
      if p.selectedRooms.Some? then p.selectedRooms.value else d.selectedRooms,
      if p.priorityRoom.Some? then p.priorityRoom.value else d.priorityRoom,
      if p.name.Some? then p.name.value else d.name,
      if p.email.Some? then p.email.value else d.email,
      if p.results.Some? then p.results.value else d.results)
  }

  function Pick<T>(first: Option<T>, second: Option<T>): Option<T>
  {
    if second.Some? then second else first
  }

  /** `{...p, ...q}`: the later patch wins property by property. */
  function Combine(p: QuizPatch, q: QuizPatch): QuizPatch
  {
    QuizPatch(
      Pick(p.selectedImages, q.selectedImages), Pick(p.selectedRooms, q.selectedRooms),
      Pick(p.priorityRoom, q.priorityRoom), Pick(p.name, q.name),
      Pick(p.email, q.email), Pick(p.results, q.results))
  }

  /** An empty partial record changes nothing. */
  lemma MergeNoPatch(d: QuizData)
    ensures Merge(d, NoPatch) == d
  {
  }

  /** Applying the same partial record twice is applying it once. */
  lemma MergeIdempotent(d: QuizData, p: QuizPatch)
    ensures Merge(Merge(d, p), p) == Merge(d, p)
  {
  }

  /** Two updates in a row are one update with the combined patch. */
  lemma MergeTwice(d: QuizData, p: QuizPatch, q: QuizPatch)
    ensures Merge(Merge(d, p), q) == Merge(d, Combine(p, q))
  {
  }

  /** The patch a step sends when it writes one property. */
  function ImagesPatch(images: seq<QuizImage>): QuizPatch { NoPatch.(selectedImages := Some(images)) }
  function RoomsPatch(rooms: seq<string>): QuizPatch { NoPatch.(selectedRooms := Some(rooms)) }
  function PriorityPatch(room: string): QuizPatch { NoPatch.(priorityRoom := Some(room)) }
  function NamePatch(name: string): QuizPatch { NoPatch.(name := Some(name)) }
  function EmailPatch(email: string): QuizPatch { NoPatch.(email := Some(email)) }
  function ResultsPatch(results: QuizResults): QuizPatch { NoPatch.(results := Some(results)) }

  // ---------------------------------------------------------------------
  // `processQuizData`: the legacy local results calculator

  /** The style an image counts for: its own non-empty style, else the
      first rule of the room/title chain that applies. */
  function StyleOf(img: QuizImage): (style: string)
    ensures style != ""
    ensures img.style != "" ==> style == img.style
  {
    if img.style != "" then img.style
    else if img.room == "Kitchen" && Contains(img.title, "Modern") then "Modern"
    else if img.room == "Kitchen" && Contains(img.title, "Traditional") then "Traditional"
    else if img.room == "Kitchen" && Contains(img.title, "Art_Deco") then "Art Deco"
    else if img.room == "Furniture" && Contains(img.title, "Living") then "Contemporary"
    else if img.room == "Furniture" && Contains(img.title, "Dining") then "Elegant"
    else if img.room == "Furniture" && Contains(img.title, "Bedroom") then "Luxurious"
    else if img.room == "Bath" then "Spa-Inspired"
    else if img.room == "Office" then "Professional"
    else if img.room == "Outdoor" then "Natural"
    else if img.room == "Kitchen" then "Modern"
    else if img.room == "Furniture" then "Contemporary"
    else "Eclectic"
  }

  /** Without a style of its own, an image's style depends on its room
      alone, except in the kitchen and among furniture, where the title
      picks one of three styles. */
  lemma StyleOfByRoom(img: QuizImage)
    requires img.style == ""
    ensures img.room == "Kitchen" ==> StyleOf(img) in {"Modern", "Traditional", "Art Deco"}
    ensures img.room == "Kitchen" && !Contains(img.title, "Traditional") && !Contains(img.title, "Art_Deco") ==>
              StyleOf(img) == "Modern"
    ensures img.room == "Furniture" ==> StyleOf(img) in {"Contemporary", "Elegant", "Luxurious"}
    ensures img.room == "Bath" ==> StyleOf(img) == "Spa-Inspired"
    ensures img.room == "Office" ==> StyleOf(img) == "Professional"
    ensures img.room == "Outdoor" ==> StyleOf(img) == "Natural"
    ensures img.room !in {"Kitchen", "Furniture", "Bath", "Office", "Outdoor"} ==> StyleOf(img) == "Eclectic"
  {
  }

  function SelectionStyles(images: seq<QuizImage>): (styles: seq<string>)
    ensures |styles| == |images|
    ensures forall i :: 0 <= i < |images| ==> styles[i] == StyleOf(images[i])
  {
    seq(|images|, i requires 0 <= i < |images| => StyleOf(images[i]))
  }

  /** The filter callback of the recommendations. */
  function Recommended(mainStyle: string, priorityRoom: string, subStyles: seq<string>): QuizImage -> bool
  {
    (img: QuizImage) => img.style == mainStyle || img.room == priorityRoom || img.style in subStyles
  }

  function Min(a: int, b: int): int
  {
    if a < b then a else b
  }

  /** The keys of `sorted.slice(1, Math.min(4, sorted.length))`. */
  function RunnersUp(sorted: seq<Entry>): (subs: seq<string>)
    ensures |subs| == (if |sorted| <= 1 then 0 else Min(4, |sorted|) - 1)
    ensures forall k :: 0 <= k < |subs| ==> subs[k] == sorted[k + 1].key
  {
    if |sorted| <= 1 then [] else Keys(sorted[1..Min(4, |sorted|)])
  }

  /** The results the calculator returns for the quiz record and the
      page's picture list. */
  function ProcessedResults(data: QuizData, quizImages: seq<QuizImage>): QuizResults
  {
    var sorted := SortByCountDesc(TallyOf(SelectionStyles(data.selectedImages)));
    var mainStyle := if |sorted| > 0 then sorted[0].key else "Contemporary";
    var subStyles := RunnersUp(sorted);
    QuizResults(mainStyle, None, None, subStyles,
                Take(Filter(quizImages, Recommended(mainStyle, data.priorityRoom, subStyles)), 6))
  }

  /** `processQuizData` as it runs: count with a loop, sort, slice, filter. */
  method ProcessQuizData(data: QuizData, quizImages: seq<QuizImage>) returns (r: QuizResults)
    ensures r == ProcessedResults(data, quizImages)
  {
    var styleCounts: seq<Entry> := [];
    var i := 0;
    while i < |data.selectedImages|
      invariant 0 <= i <= |data.selectedImages|
      invariant styleCounts == TallyOf(SelectionStyles(data.selectedImages)[..i])
    {
      assert SelectionStyles(data.selectedImages)[..i + 1][..i] == SelectionStyles(data.selectedImages)[..i];
      styleCounts := Bump(styleCounts, StyleOf(data.selectedImages[i]));
      i := i + 1;
    }
    assert SelectionStyles(data.selectedImages)[..i] == SelectionStyles(data.selectedImages);
    var sorted := SortByCountDesc(styleCounts);
    var mainStyle := if |sorted| > 0 then sorted[0].key else "Contemporary";
    var subStyles := RunnersUp(sorted);
    var recommendedImages := Take(Filter(quizImages, Recommended(mainStyle, data.priorityRoom, subStyles)), 6);
    r := QuizResults(mainStyle, None, None, subStyles, recommendedImages);
  }

  /** The calculated main style is "Contemporary" without selections, and
      otherwise the most frequent style of the selections, the first one
      seen among equally frequent ones. */
  lemma ProcessedMainStyle(data: QuizData, quizImages: seq<QuizImage>)
    ensures |data.selectedImages| == 0 ==> ProcessedResults(data, quizImages).mainStyle == "Contemporary"
    ensures |data.selectedImages| > 0 ==>
              var st := SelectionStyles(data.selectedImages);
              var m := ProcessedResults(data, quizImages).mainStyle;
              m in st
              && (forall s :: Occurrences(st, s) <= Occurrences(st, m))
              && exists i :: 0 <= i < |Distinct(st)| && Distinct(st)[i] == m
                   && forall j :: 0 <= j < i ==> Occurrences(st, Distinct(st)[j]) < Occurrences(st, m)
  {
    var st := SelectionStyles(data.selectedImages);
    if |st| > 0 {
      TallyOfProperties(st);
      DistinctProperties(st);
      assert st[0] in Distinct(st);
      MostFrequent(st);
    }
  }

  /** A style of the selections sits in the sorted tally, with its number
      of occurrences as count. */
  lemma SortedPosition(st: seq<string>, x: string)
    requires x in st
    ensures exists q :: 0 <= q < |SortByCountDesc(TallyOf(st))| && SortByCountDesc(TallyOf(st))[q].key == x
  {
    var t := TallyOf(st);
    TallyOfProperties(st);
    DistinctProperties(st);
    SortedEntries(t);
    var a :| 0 <= a < |Distinct(st)| && Distinct(st)[a] == x;
    assert Keys(t)[a] == x;
    assert t[a] in SortByCountDesc(t);
  }

  /** The runners-up of a sorted tally are distinct and differ from its
      head. */
  lemma RunnersUpDistinct(st: seq<string>)
    ensures var sorted := SortByCountDesc(TallyOf(st));
            var subs := RunnersUp(sorted);
            NoDuplicates(subs) && (|sorted| > 0 ==> sorted[0].key !in subs)
  {
    var t := TallyOf(st);
    var sorted := SortByCountDesc(t);
    TallyOfProperties(st);
    DistinctProperties(st);
    SortedEntries(t);
    var subs := RunnersUp(sorted);
    forall i, j | 0 <= i < j < |subs| ensures subs[i] != subs[j] {
      assert Keys(sorted)[i + 1] != Keys(sorted)[j + 1];
    }
    if |sorted| > 0 {
      forall k | 0 <= k < |subs| ensures subs[k] != sorted[0].key {
        assert Keys(sorted)[0] != Keys(sorted)[k + 1];
      }
    }
  }

  /** Every runner-up is a style of `st`, no more frequent than the head. */
  lemma RunnersUpCounts(st: seq<string>)
    requires |st| > 0
    ensures var sorted := SortByCountDesc(TallyOf(st));
            var subs := RunnersUp(sorted);
            |sorted| > 0
            && |subs| == Min(3, |Distinct(st)| - 1)
            && forall k :: 0 <= k < |subs| ==>
                 subs[k] in st && Occurrences(st, subs[k]) <= Occurrences(st, sorted[0].key)
  {
    var sorted := SortByCountDesc(TallyOf(st));
    var subs := RunnersUp(sorted);
    RunnersUpLength(st);
    assert forall k :: 0 <= k < |subs| ==>
             subs[k] in st && Occurrences(st, subs[k]) <= Occurrences(st, sorted[0].key) by {
      forall k | 0 <= k < |subs|
        ensures subs[k] in st && Occurrences(st, subs[k]) <= Occurrences(st, sorted[0].key)
      {
        RunnerUpAt(st, sorted, k);
      }
    }
  }

  /** The sorted tally of a non-empty list has one entry per distinct
      style, so there are three runners-up or one fewer than the styles. */
  lemma RunnersUpLength(st: seq<string>)
    requires |st| > 0
    ensures |SortByCountDesc(TallyOf(st))| == |Distinct(st)| > 0
    ensures |RunnersUp(SortByCountDesc(TallyOf(st)))| == Min(3, |Distinct(st)| - 1)
  {
    TallyOfProperties(st);
    SortProperties(TallyOf(st));
    SortedPosition(st, st[0]);
  }

  /** One runner-up at a time. */
  lemma RunnerUpAt(st: seq<string>, sorted: seq<Entry>, k: int)
    requires sorted == SortByCountDesc(TallyOf(st)) && 0 <= k < |RunnersUp(sorted)|
    ensures RunnersUp(sorted)[k] in st
    ensures Occurrences(st, RunnersUp(sorted)[k]) <= Occurrences(st, sorted[0].key)
  {
    RankedCounts(st, sorted, 0, k + 1);
  }

  /** A style of `st` that is neither the head nor a runner-up ranks fifth
      or lower: there are three runners-up, each at least as frequent. */
  lemma RunnersUpBeatTheRest(st: seq<string>, x: string)
    requires x in st
    ensures var sorted := SortByCountDesc(TallyOf(st));
            var subs := RunnersUp(sorted);
            x != sorted[0].key && x !in subs ==>
              |subs| == 3 && forall k :: 0 <= k < 3 ==> Occurrences(st, x) <= Occurrences(st, subs[k])
  {
    var sorted := SortByCountDesc(TallyOf(st));
    var subs := RunnersUp(sorted);
    SortedPosition(st, x);
    var q :| 0 <= q < |sorted| && sorted[q].key == x;
    if 1 <= q < 4 {
      assert subs[q - 1] == x;
    }
    if x != sorted[0].key && x !in subs {
      forall k | 0 <= k < 3 ensures Occurrences(st, x) <= Occurrences(st, subs[k]) {
        RankedCounts(st, sorted, k + 1, q);
      }
    }
  }

  /** The calculated secondary styles are the styles ranked second to
      fourth: at most three, distinct, different from the main style, none
      more frequent than it, any other style of the selections is no
      more frequent than each of them, and ties go to the styles seen
      first, in that order. */
  lemma ProcessedSubStyles(data: QuizData, quizImages: seq<QuizImage>)
    ensures var st := SelectionStyles(data.selectedImages);
            var res := ProcessedResults(data, quizImages);
            var subs := res.subStyles;
            |subs| <= 3 && NoDuplicates(subs) && res.mainStyle !in subs
            && (|st| > 0 ==> |subs| == Min(3, |Distinct(st)| - 1))
            && (forall k :: 0 <= k < |subs| ==>
                  subs[k] in st && Occurrences(st, subs[k]) <= Occurrences(st, res.mainStyle))
            && forall x :: x in st && x != res.mainStyle && x !in subs ==>
                 |subs| == 3 && forall k :: 0 <= k < 3 ==> Occurrences(st, x) <= Occurrences(st, subs[k])
    ensures TiesInFirstSeenOrder(SelectionStyles(data.selectedImages), ProcessedResults(data, quizImages))
  {
    var st := SelectionStyles(data.selectedImages);
    RunnersUpDistinct(st);
    if |st| > 0 {
      RunnersUpCounts(st);
    }
    ProcessedTies(data, quizImages);
    forall x | x in st
      ensures var sorted := SortByCountDesc(TallyOf(st));
              var subs := RunnersUp(sorted);
              x != sorted[0].key && x !in subs ==>
                |subs| == 3 && forall k :: 0 <= k < 3 ==> Occurrences(st, x) <= Occurrences(st, subs[k])
    {
      RunnersUpBeatTheRest(st, x);
    }
  }

  /** Of two equally frequent styles, if the one seen later is chosen as
      main or secondary style, the one seen first is chosen too and comes
      before it: the stable sort keeps ties in order of first appearance,
      so the cut after the fourth place keeps the earliest of them. */
  lemma ChosenTiesInOrder(st: seq<string>, i: int, j: int)
    requires |st| > 0 && 0 <= i < j < |Distinct(st)|
    requires Occurrences(st, Distinct(st)[i]) == Occurrences(st, Distinct(st)[j])
    ensures var sorted := SortByCountDesc(TallyOf(st));
            var chosen := [sorted[0].key] + RunnersUp(sorted);
            Distinct(st)[j] in chosen ==>
              exists p, q :: 0 <= p < q < |chosen| && chosen[p] == Distinct(st)[i] && chosen[q] == Distinct(st)[j]
  {
    var p, q := TiedEntriesSorted(st, i, j);
    KeysDistinct(SortByCountDesc(TallyOf(st)));
    ChosenInOrder(SortByCountDesc(TallyOf(st)), p, q);
  }

  /** Of two keys of a sorted tally, if the later one is among the main and
      secondary styles, so is the earlier one, in front of it. */
  lemma ChosenInOrder(sorted: seq<Entry>, p: int, q: int)
    requires forall a, b :: 0 <= a < b < |sorted| ==> sorted[a].key != sorted[b].key
    requires 0 <= p < q < |sorted|
    ensures var chosen := [sorted[0].key] + RunnersUp(sorted);
            sorted[q].key in chosen ==>
              exists p', q' :: 0 <= p' < q' < |chosen| && chosen[p'] == sorted[p].key && chosen[q'] == sorted[q].key
  {
    var chosen := [sorted[0].key] + RunnersUp(sorted);
    if sorted[q].key in chosen {
      var q' :| 0 <= q' < |chosen| && chosen[q'] == sorted[q].key;
      ChosenAt(sorted, q');
      assert q' == q;
      ChosenAt(sorted, p);
    }
  }

  /** The main style followed by the secondary styles are the first keys of
      the sorted tally. */
  lemma ChosenAt(sorted: seq<Entry>, k: int)
    requires |sorted| > 0 && 0 <= k < |[sorted[0].key] + RunnersUp(sorted)|
    ensures k < |sorted| && ([sorted[0].key] + RunnersUp(sorted))[k] == sorted[k].key
  {
    if k > 0 {
      assert ([sorted[0].key] + RunnersUp(sorted))[k] == RunnersUp(sorted)[k - 1];
    }
  }

  /** Distinct keys, read entry by entry. */
  lemma KeysDistinct(sorted: seq<Entry>)
    requires NoDuplicates(Keys(sorted))
    ensures forall a, b :: 0 <= a < b < |sorted| ==> sorted[a].key != sorted[b].key
  {
    forall a, b | 0 <= a < b < |sorted| ensures sorted[a].key != sorted[b].key {
      assert Keys(sorted)[a] != Keys(sorted)[b];
    }
  }

  /** The tally entries of two equally frequent styles keep their order of
      first appearance in the sorted tally. */
  lemma TiedEntriesSorted(st: seq<string>, i: int, j: int) returns (p: int, q: int)
    requires 0 <= i < j < |Distinct(st)|
    requires Occurrences(st, Distinct(st)[i]) == Occurrences(st, Distinct(st)[j])
    ensures 0 <= p < q < |SortByCountDesc(TallyOf(st))|
    ensures SortByCountDesc(TallyOf(st))[p].key == Distinct(st)[i]
    ensures SortByCountDesc(TallyOf(st))[q].key == Distinct(st)[j]
    ensures NoDuplicates(Keys(SortByCountDesc(TallyOf(st))))
  {
    var t := TallyOf(st);
    TallyOfProperties(st);
    DistinctProperties(st);
    assert Keys(t) == Distinct(st);
    DistinctKeysDistinctEntries(t);
    LookupAt(t, i);
    LookupAt(t, j);
    SortKeepsTieOrder(t, i, j);
    p, q :| 0 <= p < q < |SortByCountDesc(t)| && SortByCountDesc(t)[p] == t[i] && SortByCountDesc(t)[q] == t[j];
    SortedEntries(t);
  }


  /** Among equally frequent styles of `st`, the chosen ones (main style
      first, then the secondary styles) are the earliest seen, in the order
      they were first seen. */
  ghost predicate TiesInFirstSeenOrder(st: seq<string>, res: QuizResults)
  {
    var chosen := [res.mainStyle] + res.subStyles;
    forall i, j :: 0 <= i < j < |Distinct(st)| && Distinct(st)[j] in chosen
      && Occurrences(st, Distinct(st)[i]) == Occurrences(st, Distinct(st)[j])
      ==> exists p, q :: 0 <= p < q < |chosen| && chosen[p] == Distinct(st)[i] && chosen[q] == Distinct(st)[j]
  }

  lemma ProcessedTies(data: QuizData, quizImages: seq<QuizImage>)
    ensures TiesInFirstSeenOrder(SelectionStyles(data.selectedImages), ProcessedResults(data, quizImages))
  {
    var st := SelectionStyles(data.selectedImages);
    if |st| > 0 {
      RunnersUpCounts(st);
      forall i, j | 0 <= i < j < |Distinct(st)|
        && Occurrences(st, Distinct(st)[i]) == Occurrences(st, Distinct(st)[j])
        ensures var sorted := SortByCountDesc(TallyOf(st));
                var chosen := [sorted[0].key] + RunnersUp(sorted);
                Distinct(st)[j] in chosen ==>
                  exists p, q :: 0 <= p < q < |chosen| && chosen[p] == Distinct(st)[i] && chosen[q] == Distinct(st)[j]
      {
        ChosenTiesInOrder(st, i, j);
      }
    } else {
      assert Distinct(st) == [];
    }
  }

  /** A style ranked later in the sorted tally occurs no more often than
      one ranked earlier. */
  lemma RankedCounts(st: seq<string>, sorted: seq<Entry>, p: int, q: int)
    requires sorted == SortByCountDesc(TallyOf(st)) && 0 <= p <= q < |sorted|
    ensures sorted[q].key in st
    ensures Occurrences(st, sorted[q].key) <= Occurrences(st, sorted[p].key)
  {
    SortProperties(TallyOf(st));
    assert sorted[q].count <= sorted[p].count;
    EntryCount(st, sorted, p);
    EntryCount(st, sorted, q);
  }

  /** An entry of the sorted tally of `st` counts the occurrences of its
      key in `st`. */
  lemma EntryCount(st: seq<string>, sorted: seq<Entry>, q: int)
    requires sorted == SortByCountDesc(TallyOf(st)) && 0 <= q < |sorted|
    ensures sorted[q].key in st && sorted[q].count == Occurrences(st, sorted[q].key)
  {
    var t := TallyOf(st);
    TallyOfProperties(st);
    DistinctProperties(st);
    SortedEntries(t);
    var a :| 0 <= a < |t| && t[a] == sorted[q];
    assert Keys(t)[a] == sorted[q].key;
  }

  /** The recommendations: at most six pictures of the page's list, in its
      order, each of the main or a secondary style or of the priority room;
      when fewer than six come back, every such picture is among them. */
  lemma ProcessedRecommendations(data: QuizData, quizImages: seq<QuizImage>)
    ensures var res := ProcessedResults(data, quizImages);
            var rec := res.recommendedImages;
            var keep := Recommended(res.mainStyle, data.priorityRoom, res.subStyles);
            |rec| <= 6 && IsSubsequence(rec, quizImages)
            && (forall i :: 0 <= i < |rec| ==>
                  rec[i].style == res.mainStyle || rec[i].room == data.priorityRoom
                  || rec[i].style in res.subStyles)
            && (|rec| < 6 ==> forall i :: 0 <= i < |quizImages| && keep(quizImages[i]) ==> quizImages[i] in rec)
  {
    var res := ProcessedResults(data, quizImages);
    var keep := Recommended(res.mainStyle, data.priorityRoom, res.subStyles);
    var all := Filter(quizImages, keep);
    var rec := res.recommendedImages;
    FilterIsSubsequence(quizImages, keep);
    FilterMembers(quizImages, keep);
    PrefixIsSubsequence(rec, all, quizImages);
    forall i | 0 <= i < |rec|
      ensures rec[i].style == res.mainStyle || rec[i].room == data.priorityRoom || rec[i].style in res.subStyles
    {
      assert rec[i] == all[i];
      assert keep(all[i]);
    }
  }

  // ---------------------------------------------------------------------
  // The container

  /** The container's state: `quizStep` (0 before the quiz, 1 to 7 for the
      steps), `quizData` and `availableImages`. */
  class Quiz {
    var step: int
    var data: QuizData
    var availableImages: seq<QuizImage>

    /** The states the buttons can reach: the step stays between 0 and 7,
        and each step past a form holds what that form demanded. */
    predicate Valid()
      reads this
    {
      0 <= step <= 7
      && (step >= 2 ==> |data.selectedImages| > 0)
      && (step >= 3 ==> |data.selectedRooms| > 0)
      && (step >= 4 ==> data.priorityRoom in data.selectedRooms)
      && (step >= 5 ==> NameCapture.NameError(data.name) == "")
      && (step >= 6 ==> EmailCapture.ValidEmail(data.email))
    }

    /** The initial state: step 0, the empty quiz record, no pictures. */
    constructor()
      ensures step == 0 && data == InitialQuizData && availableImages == []
      ensures Valid()
    {
      step := 0;
      data := InitialQuizData;
      availableImages := [];
    }

    /** `updateQuizData`: merge a partial record; nothing else changes. */
    method UpdateQuizData(p: QuizPatch)
      modifies this
      ensures data == Merge(old(data), p)
      ensures step == old(step) && availableImages == old(availableImages)
    {
      data := Merge(data, p);
    }

    /** `nextStep`: one step on, without a bound. */
    method NextStep()
      modifies this
      ensures step == old(step) + 1
      ensures data == old(data) && availableImages == old(availableImages)
    {
      step := step + 1;
    }

    /** `prevStep`: one step back, without a bound. */
    method PrevStep()
      modifies this
      ensures step == old(step) - 1
      ensures data == old(data) && availableImages == old(availableImages)
    {
      step := step - 1;
    }

    /** `resetQuiz`: back to the initial state from any state. */
    method ResetQuiz()
      modifies this
      ensures step == 0 && data == InitialQuizData && availableImages == []
      ensures Valid()
    {
      step := 0;
      data := InitialQuizData;
      availableImages := [];
    }

    /** `closeQuiz`: the same as `resetQuiz`. */
    method CloseQuiz()
      modifies this
      ensures step == 0 && data == InitialQuizData && availableImages == []
    {
      ResetQuiz();
    }

    /** The effect that fills the picture pool: only at step 1 with an
        empty pool, and then with the room pictures. */
    method LoadImages(allRoomImages: seq<QuizImage>)
      modifies this
      ensures availableImages == (if old(step) == 1 && |old(availableImages)| == 0 then allRoomImages
                                  else old(availableImages))
      ensures step == old(step) && data == old(data)
      ensures Valid() <==> old(Valid())
    {
      if step == 1 && |availableImages| == 0 {
        availableImages := allRoomImages;
      }
    }

    /** The intro's start button: step 0 to step 1. */
    method StartQuiz()
      requires step == 0
      modifies this
      ensures step == 1 && data == old(data) && availableImages == old(availableImages)
      ensures old(Valid()) ==> Valid()
    {
      step := 1;
    }

    // Step 1: pictures

    /** A click on a picture toggles it; only `selectedImages` changes. */
    method ClickImage(image: QuizImage)
      requires step == 1
      modifies this
      ensures data == old(data).(selectedImages := ImageSelection.ToggleImage(old(data).selectedImages, image))
      ensures step == old(step) && availableImages == old(availableImages)
      ensures old(Valid()) ==> Valid()
    {
      UpdateQuizData(ImagesPatch(ImageSelection.ToggleImage(data.selectedImages, image)));
    }

    /** Continue: disabled while nothing is selected. */
    method ImagesContinue()
      requires step == 1
      modifies this
      ensures step == (if |old(data).selectedImages| > 0 then 2 else 1)
      ensures data == old(data) && availableImages == old(availableImages)
      ensures old(Valid()) ==> Valid()
    {
      if ImageSelection.CanContinue(data.selectedImages) {
        NextStep();
      }
    }

    /** Back on the first step resets the whole quiz. */
    method ImagesBack()
      requires step == 1
      modifies this
      ensures step == 0 && data == InitialQuizData && availableImages == []
      ensures Valid()
    {
      ResetQuiz();
    }

    // Step 2: rooms

    /** A click on a room toggles it; only `selectedRooms` changes, so a
        priority room chosen earlier stays even when it is deselected. */
    method ClickRoom(room: string)
      requires step == 2
      modifies this
      ensures data == old(data).(selectedRooms := RoomSelection.ToggleRoom(old(data).selectedRooms, room))
      ensures step == old(step) && availableImages == old(availableImages)
      ensures old(Valid()) ==> Valid()
    {
      UpdateQuizData(RoomsPatch(RoomSelection.ToggleRoom(data.selectedRooms, room)));
    }

    /** Continue: disabled while no room is selected. */
    method RoomsContinue()
      requires step == 2
      modifies this
      ensures step == (if |old(data).selectedRooms| > 0 then 3 else 2)
      ensures data == old(data) && availableImages == old(availableImages)
      ensures old(Valid()) ==> Valid()
    {
      if RoomSelection.CanContinue(data.selectedRooms) {
        NextStep();
      }
    }

    method RoomsBack()
      requires step == 2
      modifies this
      ensures step == 1 && data == old(data) && availableImages == old(availableImages)
      ensures old(Valid()) ==> Valid()
    {
      PrevStep();
    }

    // Step 3: priority room

    /** The choices are the selected rooms; choosing one records it and
        moves on. */
    method ChoosePriorityRoom(room: string)
      requires step == 3 && room in data.selectedRooms
      modifies this
      ensures data == old(data).(priorityRoom := room)
      ensures step == 4 && availableImages == old(availableImages)
      ensures old(Valid()) ==> Valid()
    {
      UpdateQuizData(PriorityPatch(room));
      NextStep();
    }

    method PriorityBack()
      requires step == 3
      modifies this
      ensures step == 2 && data == old(data) && availableImages == old(availableImages)
      ensures old(Valid()) ==> Valid()
    {
      PrevStep();
    }

    // Step 4: name

    /** Typing in the name field writes `name` only. */
    method EditName(name: string)
      requires step == 4
      modifies this
      ensures data == old(data).(name := name)
      ensures step == old(step) && availableImages == old(availableImages)
      ensures old(Valid()) ==> Valid()
    {
      UpdateQuizData(NamePatch(name));
    }

    /** Submitting a blank name shows the error and stays; any other name
        clears the error and moves on. */
    method SubmitName() returns (formError: string)
      requires step == 4
      modifies this
      ensures formError == NameCapture.NameError(old(data).name)
      ensures step == (if formError == "" then 5 else 4)
      ensures data == old(data) && availableImages == old(availableImages)
      ensures old(Valid()) ==> Valid()
    {
      formError := NameCapture.NameError(data.name);
      if formError == "" {
        NextStep();
      }
    }

    method NameBack()
      requires step == 4
      modifies this
      ensures step == 3 && data == old(data) && availableImages == old(availableImages)
      ensures old(Valid()) ==> Valid()
    {
      PrevStep();
    }

    // Step 5: email

    /** Typing in the email field writes `email` only. */
    method EditEmail(email: string)
      requires step == 5
      modifies this
      ensures data == old(data).(email := email)
      ensures step == old(step) && availableImages == old(availableImages)
      ensures old(Valid()) ==> Valid()
    {
      UpdateQuizData(EmailPatch(email));
    }

    /** Submitting the email: on an error the message is shown and nothing
        else changes; otherwise the results are stored and the two delayed
        `nextStep` calls take the quiz through the processing step to the
        results, with the connection warning shown after a fallback. */
    method SubmitEmail(net: EmailCapture.Network, nonce: nat -> string) returns (formError: string)
      requires step == 5
      modifies this
      ensures var o := EmailCapture.SubmitOutcome(old(data), net, nonce);
              match o
                case Error(m) => formError == m && step == 5 && data == old(data)
                case Advance(res) => formError == "" && step == 7 && data == old(data).(results := res)
                case AdvanceWithWarning(res, w) => formError == w && step == 7 && data == old(data).(results := res)
      ensures availableImages == old(availableImages)
      ensures old(Valid()) ==> Valid()
    {
      var o := EmailCapture.Submit(data, net, nonce);
      EmailCapture.AdvanceNeedsValidEmail(data, net, nonce);
      formError := ApplyOutcome(o);
    }

    /** What the email step does with the calculator's outcome. */
    method ApplyOutcome(o: EmailCapture.Outcome) returns (formError: string)
      requires step == 5 && (!o.Error? ==> EmailCapture.ValidEmail(data.email))
      modifies this
      ensures match o
                case Error(m) => formError == m && step == 5 && data == old(data)
                case Advance(res) => formError == "" && step == 7 && data == old(data).(results := res)
                case AdvanceWithWarning(res, w) => formError == w && step == 7 && data == old(data).(results := res)
      ensures availableImages == old(availableImages)
      ensures old(Valid()) ==> Valid()
    {
      match o {
        case Error(m) =>
          formError := m;
        case Advance(res) =>
          formError := "";
          UpdateQuizData(ResultsPatch(res));
          NextStep();
          NextStep();
        case AdvanceWithWarning(res, w) =>
          formError := w;
          UpdateQuizData(ResultsPatch(res));
          NextStep();
          NextStep();
      }
    }

    method EmailBack()
      requires step == 5
      modifies this
      ensures step == 4 && data == old(data) && availableImages == old(availableImages)
      ensures old(Valid()) ==> Valid()
    {
      PrevStep();
    }

    // Step 7: results

    /** Restart on the results page is the container's `resetQuiz`. */
    method ResultsRestart()
      requires step == 7
      modifies this
      ensures step == 0 && data == InitialQuizData && availableImages == []
      ensures Valid()
    {
      ResetQuiz();
    }

    /** The consultation button: the footer contact form is opened (outside
        this model), the quiz is closed, and the restart handler resets it
        once more. */
    method ResultsConsultation()
      requires step == 7
      modifies this
      ensures step == 0 && data == InitialQuizData && availableImages == []
      ensures Valid()
    {
      CloseQuiz();
      ResetQuiz();
    }
  }
}
