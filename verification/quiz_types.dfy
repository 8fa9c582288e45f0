/** The records the style quiz passes between its steps. Optional
    properties of the TypeScript interfaces become `Option` fields. */
module QuizTypes {
  import opened Base

  datatype QuizImage = QuizImage(
    id: string,
    title: string,
    url: string,
    room: string,
    style: string,
    description: Option<string>)

  datatype QuizResults = QuizResults(
    mainStyle: string,
    title: Option<string>,
    description: Option<string>,
    subStyles: seq<string>,
    recommendedImages: seq<QuizImage>)

  datatype QuizData = QuizData(
    selectedImages: seq<QuizImage>,
    selectedRooms: seq<string>,
    priorityRoom: string,
    name: string,
    email: string,
    results: QuizResults)

  /** A `Partial<QuizData>`: `Some` for every property the partial object
      carries. */
  datatype QuizPatch = QuizPatch(
    selectedImages: Option<seq<QuizImage>>,
    selectedRooms: Option<seq<string>>,
    priorityRoom: Option<string>,
    name: Option<string>,
    email: Option<string>,
    results: Option<QuizResults>)

  /** The results record before any result has been computed. */
  const EmptyResults := QuizResults("", None, None, [], [])

  /** The quiz record the container starts from and resets to. */
  const InitialQuizData := QuizData([], [], "", "", "", EmptyResults)

  const NoPatch := QuizPatch(None, None, None, None, None, None)
}
