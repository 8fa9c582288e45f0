# Design-center site: quiz, image widget, blog and page widgets

This project models the interactive core of the D&D Design Center web site
and proves properties of it.

- **The style quiz.** The quiz container walks the visitor through seven steps:
  - pictures (step 1), rooms (2), the priority room (3), the name (4) and the email (5);
  - a processing screen (6) and the results (7).

  Every step writes into one quiz record by a shallow merge. The email step
  checks the address and sends the record to the style-analysis webhook. It
  then normalizes the reply, or falls back to a local tally of the picked
  styles when the request fails, the status is not OK or the reply is not
  JSON. The container also holds a
  legacy local calculator (`processQuizData`). The quiz's picture pool is
  built from four JSON lists, each picture classified by keywords in its
  description.
- **The CMS image widget.** It reads a Cloudinary address and derives a
  gallery entry's id, slug, title, room and style from it. It then writes
  them into the form's text fields and drop-downs.
- **The blog.**
  - Cards link to a slug derived from the title.
  - The post page finds the Markdown file whose name is the slug, and renders links and the meta description.
  - The title's width depends on its word count.
  - The index filters posts by category.
- **Page widgets.**
  - The designer carousel, which wraps around.
  - The 2×2 brand frame grid, which enlarges the hovered row and column; its overlay needs two taps on a touch screen.
  - The accordion feature section, which renders paragraphs and `**bold**` spans.
  - The "Crafted Calm" quiz gallery filter.
  - The Italian kitchens page's accordion, style tabs and "Read more" toggles.

## Layout

- Each source file becomes one module.
- Code that updates state step by step is a class whose methods change its fields:
  - `QuizContainer.Quiz`, the quiz container;
  - `BlogGrid.Grid`, `BlogPostPage.PostPage` and `DesignerProfile.Carousel`;
  - `DynamicFrameLayout.Layout` and `DynamicFrameLayout.Overlay`;
  - `AccordionFeature.Accordion` and `ItalianKitchens.KitchensPage`;
  - the widget's `Select` and `TextField`.
- Pure list and string logic is written as functions, with lemmas about them.
- Loops of the source are methods with loop invariants, proved against a specification function:
  - `processQuizData`'s `forEach`;
  - the fallback's `reduce` and its maximum scan;
  - the widget's `isValidOption` and `setSelectValue`.
- Three shared modules model the JavaScript built-ins that the core relies on:
  - `Base`: `filter`, `slice`, `findIndex` and `new Set`;
  - `Strings`: `trim`, `indexOf`, `lastIndexOf`, `split`, `join`, `replace` and ASCII `toLowerCase`;
  - `StyleTally`: a `Record<string, number>` counter with insertion-ordered keys, and the stable sort by decreasing count.
- Values the program does not control are parameters:
  - the webhook's reply, or the failure to reach it;
  - random ids, as a `nonce`/`uuid` function from an index to a string;
  - the viewport width;
  - the Markdown files found at build time.

## Model

| member | source | states |
|---|---|---|
| QuizContainer.Merge | src/components/quiz/QuizContainer.tsx:182-187 | each property the partial record carries replaces the old value; every other property is kept |
| QuizContainer.MergeNoPatch | src/components/quiz/QuizContainer.tsx:182-187 | an update with an empty partial record leaves the quiz record unchanged |
| QuizContainer.MergeIdempotent | src/components/quiz/QuizContainer.tsx:182-187 | applying the same update twice is the same as applying it once |
| QuizContainer.MergeTwice | src/components/quiz/QuizContainer.tsx:182-187 | two updates in a row equal one update with the combined record, where the later value wins |
| QuizContainer.StyleOf | src/components/quiz/QuizContainer.tsx:119-146 | every image counts for a non-empty style; an image with its own style counts for that style |
| QuizContainer.StyleOfByRoom | src/components/quiz/QuizContainer.tsx:123-146 | without its own style, an image's style depends only on its room, except that kitchens and furniture choose among three styles by title (a kitchen defaults to Modern); unknown rooms get Eclectic |
| QuizContainer.SelectionStyles | src/components/quiz/QuizContainer.tsx:117-150 | the list of styles counted has one entry per selected image, in selection order |
| QuizContainer.RunnersUp | src/components/quiz/QuizContainer.tsx:159-161 | the secondary styles are the keys ranked second to fourth, and there are as many as the tally allows, up to three |
| QuizContainer.ProcessQuizData | src/components/quiz/QuizContainer.tsx:113-179 | the loop that counts styles, then sorts, slices and filters, returns exactly the calculator's specified results |
| QuizContainer.ProcessedMainStyle | src/components/quiz/QuizContainer.tsx:153-156 | with no selections the main style is Contemporary; otherwise it is a selected style that is at least as frequent as every other, and the first seen among the styles tied for most frequent |
| QuizContainer.SortedPosition | src/components/quiz/QuizContainer.tsx:153-154 | every selected style appears in the sorted tally |
| QuizContainer.RunnersUpDistinct | src/components/quiz/QuizContainer.tsx:159-161 | the secondary styles do not repeat, and none is the main style |
| QuizContainer.RunnersUpCounts | src/components/quiz/QuizContainer.tsx:153-161 | the number of secondary styles is the number of distinct styles minus one, capped at three; each is a selected style no more frequent than the main one |
| QuizContainer.RunnersUpBeatTheRest | src/components/quiz/QuizContainer.tsx:153-161 | a selected style left out of both the main and the secondary styles means that there are three secondary styles, each at least as frequent as it |
| QuizContainer.ProcessedSubStyles | src/components/quiz/QuizContainer.tsx:152-161 | the calculator's secondary styles: at most three, distinct, not the main style, none more frequent than it, each at least as frequent as any style left out, and among equally frequent styles the chosen ones are the first seen, in that order |
| QuizContainer.ProcessedTies | src/components/quiz/QuizContainer.tsx:152-161 | if a style is chosen as main or secondary style, every equally frequent style seen before it is chosen too and comes before it |
| QuizContainer.ChosenTiesInOrder | src/components/quiz/QuizContainer.tsx:153-161 | the stable sort and the cut after the fourth place keep tied styles in order of first appearance and keep the earliest of them |
| QuizContainer.RankedCounts | src/components/quiz/QuizContainer.tsx:153-154 | in the sorted tally, a later style occurs no more often in the selections than an earlier one |
| QuizContainer.EntryCount | src/components/quiz/QuizContainer.tsx:149-154 | each entry of the sorted tally holds the number of times its style was selected |
| QuizContainer.ProcessedRecommendations | src/components/quiz/QuizContainer.tsx:164-172 | at most six pictures, in page order, each of the main style, a secondary style or the priority room; when fewer than six come back, every matching picture is included |
| QuizContainer.Quiz.constructor | src/components/quiz/QuizContainer.tsx:23-42 | the quiz starts before step 1 with an empty record and no pictures |
| QuizContainer.Quiz.UpdateQuizData | src/components/quiz/QuizContainer.tsx:182-187 | the record becomes the merge of the update; the step and the picture pool are unchanged |
| QuizContainer.Quiz.NextStep | src/components/quiz/QuizContainer.tsx:195 | the step goes up by one, with no upper bound; nothing else changes |
| QuizContainer.Quiz.PrevStep | src/components/quiz/QuizContainer.tsx:196 | the step goes down by one, with no lower bound; nothing else changes |
| QuizContainer.Quiz.ResetQuiz | src/components/quiz/QuizContainer.tsx:199-214 | from any state, the quiz returns to the initial state |
| QuizContainer.Quiz.CloseQuiz | src/components/quiz/QuizContainer.tsx:190-192 | closing the quiz is a reset |
| QuizContainer.Quiz.LoadImages | src/components/quiz/QuizContainer.tsx:58-62 | the picture pool is filled from the room pictures only at step 1 with an empty pool, and only the pool changes |
| QuizContainer.Quiz.StartQuiz | src/components/quiz/QuizContainer.tsx:220 | the intro's button moves from step 0 to step 1 |
| QuizContainer.Quiz.ClickImage | src/components/quiz/ImageSelectionStep.tsx:20-32 | a picture click toggles it in the selection; nothing else in the record changes |
| QuizContainer.Quiz.ImagesContinue | src/components/quiz/ImageSelectionStep.tsx:114-120 | Continue leads to step 2 exactly when a picture is selected, and otherwise nothing happens |
| QuizContainer.Quiz.ImagesBack | src/components/quiz/QuizContainer.tsx:221-230 | Back on the first step resets the whole quiz |
| QuizContainer.Quiz.ClickRoom | src/components/quiz/RoomSelectionStep.tsx:31-43 | a room click toggles it; a priority room chosen earlier is kept even when that room is deselected |
| QuizContainer.Quiz.RoomsContinue | src/components/quiz/RoomSelectionStep.tsx:133-139 | Continue leads to step 3 exactly when a room is selected |
| QuizContainer.Quiz.RoomsBack | src/components/quiz/RoomSelectionStep.tsx:125-126 | Back returns to step 1 and keeps the record |
| QuizContainer.Quiz.ChoosePriorityRoom | src/components/quiz/PriorityRoomStep.tsx:31-34 | choosing a room records it as the priority room and moves to step 4 |
| QuizContainer.Quiz.PriorityBack | src/components/quiz/PriorityRoomStep.tsx:131 | Back returns to step 2 and keeps the record |
| QuizContainer.Quiz.EditName | src/components/quiz/NameCaptureStep.tsx:137 | typing writes the name exactly as typed |
| QuizContainer.Quiz.SubmitName | src/components/quiz/NameCaptureStep.tsx:20-28 | submitting shows the name error and stays on a blank name; any other name clears the error and moves on |
| QuizContainer.Quiz.NameBack | src/components/quiz/NameCaptureStep.tsx:150 | Back returns to step 3 and keeps the record |
| QuizContainer.Quiz.EditEmail | src/components/quiz/EmailCaptureStep.tsx:358 | typing writes the email exactly as typed |
| QuizContainer.Quiz.SubmitEmail | src/components/quiz/EmailCaptureStep.tsx:26-234 | an error shows its message and changes nothing else; a success stores the results and ends at the results step (7), with the connection warning shown after a fallback; the reachable states are preserved |
| QuizContainer.Quiz.ApplyOutcome | src/components/quiz/EmailCaptureStep.tsx:143-161 | the results are stored and the two delayed next-step calls reach step 7; on an error only the message changes |
| QuizContainer.Quiz.EmailBack | src/components/quiz/EmailCaptureStep.tsx:377 | Back returns to step 4 and keeps the record |
| QuizContainer.Quiz.ResultsRestart | src/components/quiz/ResultsStep.tsx:26-28 | Restart on the results page resets the quiz |
| QuizContainer.Quiz.ResultsConsultation | src/components/quiz/QuizContainer.tsx:271-279 | the consultation button closes and resets the quiz |
| ImageSelection.ToggleImage | src/components/quiz/ImageSelectionStep.tsx:20-32 | a picture that is not selected is appended; a selected one is removed with every entry of its id, and every other picture keeps its number of entries |
| ImageSelection.ToggleImageKeepsOrder | src/components/quiz/ImageSelectionStep.tsx:25 | removing a picture keeps the order of the others |
| ImageSelection.ToggleImageTwice | src/components/quiz/ImageSelectionStep.tsx:20-32 | toggling an unselected picture twice gives back the original selection |
| ImageSelection.ToggleImageKeepsIdsDistinct | src/components/quiz/ImageSelectionStep.tsx:20-32 | selected ids never repeat under toggling |
| RoomSelection.RoomChoicesDistinct | src/components/quiz/RoomSelectionStep.tsx:7-15 | seven distinct rooms are offered |
| RoomSelection.ToggleRoom | src/components/quiz/RoomSelectionStep.tsx:31-43 | an unselected room is appended; a selected one is removed, and every other room keeps its number of entries |
| RoomSelection.ToggleRoomKeepsOrder | src/components/quiz/RoomSelectionStep.tsx:36 | removing a room keeps the order of the others |
| RoomSelection.ToggleRoomTwice | src/components/quiz/RoomSelectionStep.tsx:31-43 | toggling an unselected room twice gives back the original selection |
| RoomSelection.ToggleRoomKeepsSelectionValid | src/components/quiz/RoomSelectionStep.tsx:151-154 | toggling offered rooms keeps the selection free of repetition and within the offered rooms |
| NameCapture.NameError | src/components/quiz/NameCaptureStep.tsx:22-26 | the only possible error is "Please enter your name" |
| NameCapture.NameErrorIffBlank | src/components/quiz/NameCaptureStep.tsx:22 | a name is refused exactly when it is white space only |
| EmailCapture.ValidEmailMatchesPattern | src/components/quiz/EmailCaptureStep.tsx:34-35 | the address test accepts exactly the strings matched by `^[^\s@]+@[^\s@]+\.[^\s@]+$` |
| EmailCapture.ValidEmailSound | src/components/quiz/EmailCaptureStep.tsx:34-35 | every accepted address matches the pattern |
| EmailCapture.PatternValid | src/components/quiz/EmailCaptureStep.tsx:34-35 | every address the pattern matches is accepted |
| EmailCapture.ValidEmailExamples | src/components/quiz/EmailCaptureStep.tsx:34-35 | "a@b.com" is accepted; "abc", "a@b" and " a@b.com" are refused |
| EmailCapture.LazyEnd | src/components/quiz/EmailCaptureStep.tsx:93 | the lazy group `(.*?)` closes where `\s+✨` or the end of the text matches |
| EmailCapture.LazyEndFirst | src/components/quiz/EmailCaptureStep.tsx:93 | the group closes at the first such position and crosses no line terminator |
| EmailCapture.LazyEndSingleLine | src/components/quiz/EmailCaptureStep.tsx:93 | on a single line the group always closes |
| EmailCapture.NoIsNoMatch | src/components/quiz/EmailCaptureStep.tsx:93 | without "is" followed by white space the title pattern never matches |
| EmailCapture.SingleLineTitleMatch | src/components/quiz/EmailCaptureStep.tsx:93 | a single-line title matches at its first "is" followed by white space; the group starts after that whole white-space run |
| EmailCapture.MainStyleOf | src/components/quiz/EmailCaptureStep.tsx:90-100 | the style name is "Modern Sophisticate" without a string title, the trimmed group when it is not empty, and otherwise the title itself |
| EmailCapture.MainStyleOfTitle | src/components/quiz/EmailCaptureStep.tsx:90-100 | in a title of the form "… is NAME" or "… is NAME ✨", the style name is NAME |
| EmailCapture.MainStyleExample | src/components/quiz/EmailCaptureStep.tsx:93-95 | "Your style is Coastal Chic ✨" yields "Coastal Chic" |
| EmailCapture.MainStyleInsideWord | src/components/quiz/EmailCaptureStep.tsx:93 | the pattern has no word boundary: "This is Modern" yields "is Modern" |
| EmailCapture.OrElse | src/components/quiz/EmailCaptureStep.tsx:106-118 | `value \|\| fallback`: a truthy value is used as shown, and anything else gives the fallback |
| EmailCapture.ImagesArray | src/components/quiz/EmailCaptureStep.tsx:78-88 | a list of pictures is kept, a single truthy value is wrapped, and a falsy one gives no pictures |
| EmailCapture.TitleTexts | src/components/quiz/EmailCaptureStep.tsx:109 | the picture titles kept are all non-empty, and there are no more of them than pictures |
| EmailCapture.Backfill | src/components/quiz/EmailCaptureStep.tsx:126-131 | the user's first three picks, each with only its description rewritten |
| EmailCapture.Normalize | src/components/quiz/EmailCaptureStep.tsx:65-166 | processing a reply fails exactly when it throws, and then shows the processing message; it never shows the connection warning |
| EmailCapture.TitleNotBlank | src/components/quiz/EmailCaptureStep.tsx:134-136 | the stored title is never blank |
| EmailCapture.DescriptionNotBlank | src/components/quiz/EmailCaptureStep.tsx:138-140 | the stored description is never blank |
| EmailCapture.NormalizedTextsNotBlank | src/components/quiz/EmailCaptureStep.tsx:103-140 | whatever the webhook sends, processed results have a title and a description that are not blank |
| EmailCapture.NormalizedImages | src/components/quiz/EmailCaptureStep.tsx:111-131 | one result picture per webhook picture, with the priority room (or Living Room) and its id, title, style and URL filled in by their defaults; without webhook pictures, the backfill of the user's picks |
| EmailCapture.ResolvedImages | src/components/quiz/EmailCaptureStep.tsx:111-131 | each webhook picture is normalized in place, or the backfill is used when there are none |
| EmailCapture.SubStylesProperties | src/components/quiz/EmailCaptureStep.tsx:108-110 | the secondary styles are the distinct non-empty picture titles, every such title included; without pictures they are Contemporary, Modern and Elegant |
| EmailCapture.MainStyleDefault | src/components/quiz/EmailCaptureStep.tsx:91-106 | without a title the style is "Modern Sophisticate" and the title becomes "Modern Sophisticate Style" |
| EmailCapture.FallbackPicks | src/components/quiz/EmailCaptureStep.tsx:200-205 | the first three picks of the dominant style, each unchanged except for its description |
| EmailCapture.FallbackAdvances | src/components/quiz/EmailCaptureStep.tsx:192-206 | a fallback that advances had picks and a non-empty dominant style, and built its results from them |
| EmailCapture.FallbackStyle | src/components/quiz/EmailCaptureStep.tsx:175-196 | the fallback's style is a picked style at least as frequent as every other, the first picked among ties |
| EmailCapture.FallbackSubStyles | src/components/quiz/EmailCaptureStep.tsx:199 | the fallback's secondary styles are the first three other picked styles, in order of first appearance, without repetition |
| EmailCapture.FallbackPictures | src/components/quiz/EmailCaptureStep.tsx:200-205 | the fallback shows one to three picks, all of the main style, each unchanged except for its description |
| EmailCapture.FallbackErrors | src/components/quiz/EmailCaptureStep.tsx:192-230 | with no picks the fallback reports the generic error; with picks it reports the analysis error exactly when the dominant style is "" |
| EmailCapture.SubmitOutcomes | src/components/quiz/EmailCaptureStep.tsx:26-234 | the address is checked first; a reply never comes with the connection warning; a failed request (it throws, the status is not OK or the reply is not JSON) always takes the local fallback, and only it can bring the connection warning |
| EmailCapture.AdvanceNeedsValidEmail | src/components/quiz/EmailCaptureStep.tsx:28-38 | results are stored only for an address the pattern accepts |
| EmailCapture.CountStyles | src/components/quiz/EmailCaptureStep.tsx:175-179 | the `reduce` loop builds exactly the style tally of the picks |
| EmailCapture.Fallback | src/components/quiz/EmailCaptureStep.tsx:171-230 | the catch branch, as run with its loops, gives exactly the specified fallback outcome |
| EmailCapture.Submit | src/components/quiz/EmailCaptureStep.tsx:26-234 | the handler, as run, gives exactly the specified outcome |
| StyleTally.Bump | src/components/quiz/QuizContainer.tsx:149 | a count update either keeps the number of keys or adds one |
| StyleTally.BumpKeys | src/components/quiz/EmailCaptureStep.tsx:176-177 | a new key is appended at the end, and an existing key keeps its place |
| StyleTally.BumpLookup | src/components/quiz/QuizContainer.tsx:149 | the bumped key's count goes up by one, and no other count changes |
| StyleTally.TallyOfProperties | src/components/quiz/QuizContainer.tsx:115-150 | the tally's keys are the distinct styles in order of first occurrence; each count is positive and equals that style's number of occurrences |
| StyleTally.FindDominant | src/components/quiz/EmailCaptureStep.tsx:182-190 | the strict maximum scan returns "" when no count is positive; otherwise it returns the first entry with the largest count |
| StyleTally.InsertProperties | src/components/quiz/QuizContainer.tsx:153-154 | inserting into a list sorted by decreasing count keeps it sorted and adds exactly the new entry |
| StyleTally.SortProperties | src/components/quiz/QuizContainer.tsx:153-154 | the sort is a permutation of the tally, ordered by decreasing count |
| StyleTally.SortStable | src/components/quiz/QuizContainer.tsx:153-154 | the sort is stable: any two sorted entries with equal counts appear in the tally in the same order |
| StyleTally.SortKeepsTieOrder | src/components/quiz/QuizContainer.tsx:153-154 | of two tally entries with equal counts, the one counted first comes first after sorting |
| StyleTally.SortHeadIsFirstMax | src/components/quiz/QuizContainer.tsx:153-156 | the head of the stable sort is the entry that the strict maximum scan finds |
| StyleTally.FirstMaxIsSortHead | src/components/quiz/QuizContainer.tsx:153-156 | the first entry with the largest count is the one the sort puts first |
| StyleTally.MostFrequent | src/components/quiz/QuizContainer.tsx:153-156 | the leading style occurs at least as often as any other, and is the first seen among those tied with it |
| StyleTally.SortedEntries | src/components/quiz/QuizContainer.tsx:153-154 | sorting keeps the same entries and the distinct keys, with each count still its key's count |
| QuizRoomImages.FirstMatchingLabel | src/data/quizRoomImages.ts:31-39 | the label of the first keyword group found in the description, or Eclectic when none is found |
| QuizRoomImages.DetermineStyle | src/data/quizRoomImages.ts:28-40 | the style is always one of the eight labels |
| QuizRoomImages.DetermineStyleExample | src/data/quizRoomImages.ts:29-35 | a description with both a Modern and a Rustic keyword is classified Modern, whatever its case |
| QuizRoomImages.DetermineStyleIgnoresCase | src/data/quizRoomImages.ts:29 | classification does not depend on letter case |
| QuizRoomImages.ConvertOne | src/data/quizRoomImages.ts:16-23 | the picture made from one entry copies its title, its link as the url and its description, carries the room and the given id, and has the style `DetermineStyle` gives for the entry's description (one of the eight labels) |
| QuizRoomImages.ConvertToQuizImage | src/data/quizRoomImages.ts:15-24 | one picture per JSON entry, in order: picture `k` is entry `k` converted for the room with id `uuid(first + k)`, the ids drawn in turn |
| QuizRoomImages.AllRoomImages | src/data/quizRoomImages.ts:43-54 | the list is the bedroom, dining, living and kitchen blocks in that order, each block exactly its room's entries converted with its room label, the ids drawn on across the blocks |
| QuizRoomImages.BlockConverted | src/data/quizRoomImages.ts:43-54 | within a converted block of the list, each picture is its entry converted for the block's room (title, url, description, style from the description) with the id for its position |
| CraftedCalm.ToQuizImage | src/pages/CraftedCalm.tsx:21-27 | a gallery item becomes a quiz picture with the same id, title, image and room; a missing style becomes "" |
| CraftedCalm.QuizImages | src/pages/CraftedCalm.tsx:14-27 | the quiz pictures are the kept gallery items, in order, and none is of an excluded room |
| CraftedCalm.QuizImagesKeepOthers | src/pages/CraftedCalm.tsx:14-20 | the filter keeps gallery order, and keeps exactly the items of rooms other than Light, Closet, Outdoor and Office |
| CraftedCalm.KeptRoomIff | src/pages/CraftedCalm.tsx:14-20 | an item is kept exactly when its room is not excluded |
| CraftedCalm.QuizImagesAllKept | src/pages/CraftedCalm.tsx:14-27 | a gallery with no excluded room is carried over item for item |
| CustomImageWidget.PublicIdMatchesPattern | public/admin/customImageWidget.js:155-163 | the public id is exactly the group of a match of `\/([^\/]+)\.[a-zA-Z0-9]+$`, and there is none when the pattern does not match |
| CustomImageWidget.ExtensionDot | public/admin/customImageWidget.js:167 | the extension is a '.' followed by one or more letters or digits up to the end |
| CustomImageWidget.VersionDigits | public/admin/customImageWidget.js:167 | a version segment `v…/` holds only digits |
| CustomImageWidget.UploadPathShape | public/admin/customImageWidget.js:167-168 | there is a full path exactly when the address ends with an extension and some "/upload/" can start a match; the leftmost such "/upload/" is used, a version `v<digits>/` is skipped whenever a group remains after it, and the path runs up to the extension's '.' |
| CustomImageWidget.ExtractFields | public/admin/customImageWidget.js:150-221 | the widget fills the form exactly when a public id can be read, and otherwise gives up |
| CustomImageWidget.ExtractSimple | public/admin/customImageWidget.js:171-178 | for a path without '/', the id is the path, the title is the public id and the slug is its lower case, with no room and no style |
| CustomImageWidget.ExtractStructured | public/admin/customImageWidget.js:180-219 | a structured path splits into parts that join back into it; the room is the second part ("Lighting" shown as "Light"); slug and title come from the file name with '_' replaced; there is a style only for kitchens and furniture |
| CustomImageWidget.StructuredFields | public/admin/customImageWidget.js:184-219 | the record built from two or more parts has the shape stated for structured paths |
| CustomImageWidget.ExtractExample | public/admin/customImageWidget.js:180-219 | "/upload/v1/P_2/Bath/Bath_1.jpg" gives id "P_2/Bath/Bath_1", slug "bath-1", title "Bath 1", room "Bath" and no style |
| CustomImageWidget.IsValidOption | public/admin/customImageWidget.js:433-440 | the scan reports true exactly when the value is one of the options |
| CustomImageWidget.SetSelectValue | public/admin/customImageWidget.js:467-491 | selects the first option with the value and reports a change; without such an option, or without a drop-down, nothing changes |
| CustomImageWidget.SetFieldValue | public/admin/customImageWidget.js:443-464 | the field ends up holding the value; events fire exactly when there is a field and its value was different |
| BlogPost.Hyphenate | src/components/blog/BlogPost.tsx:23 | the result holds only slug characters and single hyphens, and starts with the input's first character or a hyphen |
| BlogPost.HyphenateWord | src/components/blog/BlogPost.tsx:23 | a word of `[a-z0-9]` characters is copied unchanged |
| BlogPost.HyphenateRun | src/components/blog/BlogPost.tsx:23 | a maximal run of characters outside `[a-z0-9]` becomes exactly one hyphen, at its place |
| BlogPost.DeriveSlug | src/components/blog/BlogPost.tsx:23 | a derived slug is always well formed: letters, digits and single inner hyphens |
| BlogPost.SlugOf | src/components/blog/BlogPost.tsx:23 | a non-empty front-matter slug wins; otherwise the slug is derived from the title |
| BlogPost.CardLink | src/components/blog/BlogPost.tsx:33 | the card links to "/blog/" followed by its slug |
| BlogPost.HyphenateFixed | src/components/blog/BlogPost.tsx:23 | the hyphen replace leaves hyphenated text as it is |
| BlogPost.DeriveSlugFixed | src/components/blog/BlogPost.tsx:23 | a well-formed slug used as a title gives itself back |
| BlogPost.DeriveSlugIdempotent | src/components/blog/BlogPost.tsx:23 | deriving a slug twice is deriving it once |
| BlogPost.DeriveSlugKeepsLetters | src/components/blog/BlogPost.tsx:23 | the slug keeps exactly the lower-cased title's letters and digits, in order |
| BlogPost.DeriveSlugEmptyIff | src/components/blog/BlogPost.tsx:23 | the slug is empty exactly when the title has no ASCII letter or digit |
| BlogPostPage.FileKeyAfterLastSlash | src/components/blog/BlogPostPage.tsx:67 | a file's key is what follows the last '/', with its first ".md" removed |
| BlogPostPage.FileKeyOfMarkdown | src/components/blog/BlogPostPage.tsx:66-68 | a file `dir/name.md` is found under `name` when the name holds no '/' and no ".md" |
| BlogPostPage.FileKeyNotSuffix | src/components/blog/BlogPostPage.tsx:67 | the ".md" removed need not be the suffix: `a.mdx.md` is found under "ax.md" |
| BlogPostPage.FindPost | src/components/blog/BlogPostPage.tsx:66-69 | the first file whose key is the slug, or none exactly when no key matches |
| BlogPostPage.MetaDescription | src/components/blog/BlogPostPage.tsx:95-96 | the meta description is never empty: the excerpt when there is one, otherwise the site fallback |
| BlogPostPage.RenderLink | src/components/blog/BlogPostPage.tsx:131-156 | footer links scroll to the contact form; any other link opens in a new tab exactly when it is external |
| BlogPostPage.FooterLinkNotExternal | src/components/blog/BlogPostPage.tsx:132-133 | a footer target is never treated as external |
| BlogPostPage.SplitWordsSpaceFree | src/components/blog/BlogPostPage.tsx:330 | no piece of the word split holds white space |
| BlogPostPage.SplitWordsJoin | src/components/blog/BlogPostPage.tsx:330 | splitting words joined by single spaces gives the words back |
| BlogPostPage.TitleMaxWidth | src/components/blog/BlogPostPage.tsx:340-343 | the heading is limited to "22ch" exactly for a long title |
| BlogPostPage.LongTitleOfWords | src/components/blog/BlogPostPage.tsx:330 | a title of words separated by single spaces is long exactly when it has more than five words |
| BlogPostPage.PostPage.constructor | src/components/blog/BlogPostPage.tsx:41-42 | the page mounts without a post and loading |
| BlogPostPage.PostPage.FetchPost | src/components/blog/BlogPostPage.tsx:64-80 | the matching post is loaded, or cleared when none matches; loading ends either way |
| BlogPostPage.PostPage.Render | src/components/blog/BlogPostPage.tsx:85-93 | a loading notice while loading; a not-found notice without a post; otherwise the article with its description and title width |
| BlogGrid.WithImages | src/components/blog/BlogGrid.tsx:40-43 | post `i` gets image `i` when there is one; nothing else about it changes |
| BlogGrid.WithImagesKeepsPosts | src/components/blog/BlogGrid.tsx:40-43 | attaching images keeps each post's id, title and category, in order |
| BlogGrid.FilteredPosts | src/components/blog/BlogGrid.tsx:55-57 | "All" shows every post; any other category shows the posts of that category |
| BlogGrid.FilteredPostsExact | src/components/blog/BlogGrid.tsx:55-57 | under a category, a post is shown exactly when it belongs to it, and order is kept |
| BlogGrid.Grid.constructor | src/components/blog/BlogGrid.tsx:30-33 | "All" is selected, no posts are loaded, the grid is loading and the filters are folded |
| BlogGrid.Grid.FetchPosts | src/components/blog/BlogGrid.tsx:35-53 | the posts with images are stored and loading ends; the selection is kept |
| BlogGrid.Grid.SelectCategory | src/components/blog/BlogGrid.tsx:79 | a category button selects that category and changes nothing else |
| BlogGrid.Grid.ToggleFilters | src/components/blog/BlogGrid.tsx:67 | the filter button flips whether the category row shows |
| BlogGrid.Grid.View | src/components/blog/BlogGrid.tsx:93-106 | a spinner exactly while loading; otherwise the filtered posts |
| DesignerProfile.ShownWorks | src/components/designers/DesignerProfile.tsx:29 | at most six works are shown, the first ones in order |
| DesignerProfile.StepsAreModular | src/components/designers/DesignerProfile.tsx:31-32 | next and previous are steps of one modulo the number of works, and stay in range |
| DesignerProfile.PrevUndoesNext | src/components/designers/DesignerProfile.tsx:31-32 | previous undoes next, and next undoes previous |
| DesignerProfile.NextTimesWraps | src/components/designers/DesignerProfile.tsx:32 | up to n presses of next move that many places, wrapping past the last work |
| DesignerProfile.NextFullCycle | src/components/designers/DesignerProfile.tsx:32 | as many presses of next as there are works return to the start |
| DesignerProfile.Carousel.constructor | src/components/designers/DesignerProfile.tsx:28-29 | the carousel starts at the first shown work |
| DesignerProfile.Carousel.Shown | src/components/designers/DesignerProfile.tsx:28-29 | the displayed work is one of the shown works |
| DesignerProfile.Carousel.Next | src/components/designers/DesignerProfile.tsx:32 | the arrow moves one step forward with wrap-around and stays in range |
| DesignerProfile.Carousel.Prev | src/components/designers/DesignerProfile.tsx:31 | the arrow moves one step back with wrap-around and stays in range |
| DesignerProfile.Carousel.SelectDot | src/components/designers/DesignerProfile.tsx:128-135 | a dot shows its own work |
| DynamicFrameLayout.RowSizes | src/components/ui/dynamic-frame-layout.tsx:178-182 | rows are even when nothing is hovered; otherwise the hovered row takes `hoverSize` shares |
| DynamicFrameLayout.ColSizes | src/components/ui/dynamic-frame-layout.tsx:184-188 | columns follow the same rule, keyed on the hovered column |
| DynamicFrameLayout.RestingGrid | src/components/ui/dynamic-frame-layout.tsx:179 | at rest the grid is "1fr 1fr" in both directions |
| DynamicFrameLayout.TransformOrigin | src/components/ui/dynamic-frame-layout.tsx:190-194 | the origin starts with "top" exactly when y = 0 and ends with "left" exactly when x = 0 |
| DynamicFrameLayout.FrameOrigin | src/components/ui/dynamic-frame-layout.tsx:209-212 | each of the four cells grows away from its own outer corner |
| DynamicFrameLayout.HoveredIffSamePos | src/components/ui/dynamic-frame-layout.tsx:237 | a frame is highlighted exactly when the hovered position is its own, so frames at the same position are highlighted together |
| DynamicFrameLayout.Layout.constructor | src/components/ui/dynamic-frame-layout.tsx:176 | nothing is hovered at first |
| DynamicFrameLayout.Layout.MouseEnter | src/components/ui/dynamic-frame-layout.tsx:222 | entering a frame highlights exactly the frames at its position and enlarges its row and column |
| DynamicFrameLayout.Layout.MouseLeave | src/components/ui/dynamic-frame-layout.tsx:223 | leaving clears the highlight |
| DynamicFrameLayout.DesktopClick | src/components/ui/dynamic-frame-layout.tsx:87-95 | on a desktop a click opens the website exactly when the frame is hovered |
| DynamicFrameLayout.MobileTwoTaps | src/components/ui/dynamic-frame-layout.tsx:91-94 | on a touch screen the first tap never opens the website, and the second one does |
| DynamicFrameLayout.TapCountBinary | src/components/ui/dynamic-frame-layout.tsx:92-96 | the tap count only ever holds 0 or 1 |
| DynamicFrameLayout.Overlay.constructor | src/components/ui/dynamic-frame-layout.tsx:55-61 | each overlay starts as a desktop with no tap |
| DynamicFrameLayout.Overlay.DetectViewport | src/components/ui/dynamic-frame-layout.tsx:56-60 | a viewport narrower than 768 pixels is treated as a touch screen |
| DynamicFrameLayout.Overlay.Click | src/components/ui/dynamic-frame-layout.tsx:87-95 | a click opens the frame's own website exactly when the click rule says so |
| DynamicFrameLayout.Overlay.MouseLeave | src/components/ui/dynamic-frame-layout.tsx:96 | leaving the overlay resets the tap count |
| DynamicFrameLayout.DesktopDescription | src/components/ui/dynamic-frame-layout.tsx:110 | on a desktop the description shows exactly while the frame is hovered |
| AccordionFeature.SplitOnPiecesFree | src/components/ui/accordion-feature-section.tsx:107 | no paragraph holds the "\n\n" separator |
| AccordionFeature.JoinSplitOn | src/components/ui/accordion-feature-section.tsx:107 | joining the paragraphs back with the separator gives the text |
| AccordionFeature.SplitJoinParagraphs | src/components/ui/accordion-feature-section.tsx:107 | one-line paragraphs joined by empty lines split back into the same paragraphs |
| AccordionFeature.CloseFrom | src/components/ui/accordion-feature-section.tsx:112 | the lazy `(.*?)\*\*` closes at the nearest "**" without crossing a line break, and finds none exactly when a line break comes before every later "**" |
| AccordionFeature.EmboldenNoPair | src/components/ui/accordion-feature-section.tsx:111-114 | a paragraph with no complete `**…**` pair is left unchanged |
| AccordionFeature.EmboldenSpan | src/components/ui/accordion-feature-section.tsx:111-114 | text in which no "**" starts (single asterisks allowed) is kept, a one-line `**span**` whose span holds no "**" becomes `<strong>span</strong>`, and the rest is rendered in the same way |
| AccordionFeature.RenderDescription | src/components/ui/accordion-feature-section.tsx:105-124 | one paragraph per piece between empty lines, each with its bold spans rendered |
| AccordionFeature.RenderParagraphCount | src/components/ui/accordion-feature-section.tsx:105-124 | a description written as one-line paragraphs renders one paragraph per written paragraph |
| AccordionFeature.ConsultationClick | src/components/ui/accordion-feature-section.tsx:126-134 | the consultation button always runs the section's own footer scroll, and the warning branch cannot be reached |
| AccordionFeature.Accordion.constructor | src/components/ui/accordion-feature-section.tsx:81-82 | tab id 1 is highlighted and the first tab's picture is shown; these agree only when the first tab has id 1 |
| AccordionFeature.Accordion.ClickTab | src/components/ui/accordion-feature-section.tsx:152-155 | clicking a tab shows its picture and highlights it together |
| ItalianKitchens.ToggleSectionOpens | src/pages/ItalianKitchens.tsx:155-157 | toggling closes the open section or opens another in its place, so at most one section is open |
| ItalianKitchens.ToggleSectionTwice | src/pages/ItalianKitchens.tsx:155-157 | two toggles from a closed page close the section again |
| ItalianKitchens.Expanded | src/pages/ItalianKitchens.tsx:595 | a missing key reads as not expanded |
| ItalianKitchens.ToggleExpansion | src/pages/ItalianKitchens.tsx:160-165 | the toggled key flips, and every other key is kept |
| ItalianKitchens.ToggleExpansionTwice | src/pages/ItalianKitchens.tsx:160-165 | two toggles restore the key and never touch another one |
| ItalianKitchens.ShownDescription | src/pages/ItalianKitchens.tsx:595-597 | all of the text when expanded; otherwise a prefix of at most 100 characters followed by "...", also for shorter texts |
| ItalianKitchens.RenderedStyles | src/pages/ItalianKitchens.tsx:578-579 | exactly the styles with the active id are rendered |
| ItalianKitchens.OneStyleRendered | src/pages/ItalianKitchens.tsx:578-579 | with distinct ids and an active id among them, exactly one card is rendered |
| ItalianKitchens.KitchensPage.constructor | src/pages/ItalianKitchens.tsx:28-38 | no section is open, "modern" is shown and nothing is expanded |
| ItalianKitchens.KitchensPage.ToggleAccordion | src/pages/ItalianKitchens.tsx:155-157 | the section toggles, and nothing else changes |
| ItalianKitchens.KitchensPage.ToggleTextExpansion | src/pages/ItalianKitchens.tsx:160-165 | the style's "Read more" flips, and nothing else changes |
| ItalianKitchens.KitchensPage.SelectStyle | src/pages/ItalianKitchens.tsx:564 | a tab makes its style the one rendered |
| ItalianKitchens.KitchensPage.StyleText | src/pages/ItalianKitchens.tsx:595-597 | the card's text is the style's description shown through `ShownDescription` under its own expansion flag: the full description when expanded, otherwise its first 100 characters (or all of a shorter one) followed by "..." |
| Strings.Trim | src/components/quiz/NameCaptureStep.tsx:22 | `trim`: the result is a contiguous part of the input with only white space before and after it, and has no white space at either end |
| Strings.TrimUnique | src/components/quiz/NameCaptureStep.tsx:22 | any non-empty part of the input with white space only around it and none at its ends is the trimmed string |
| Strings.TrimEmptyIffBlank | src/components/quiz/EmailCaptureStep.tsx:28 | a string trims to "" exactly when it is white space only |
| Strings.IndexOfSubFirst | src/components/blog/BlogPostPage.tsx:67 | `indexOf` finds the first occurrence, and -1 means there is none |
| Strings.ReplaceFirst | src/components/blog/BlogPostPage.tsx:67 | a string-pattern `replace` leaves a string without the pattern unchanged and otherwise splices the replacement in at the first occurrence only |
| Strings.ToLowerIdempotent | src/data/quizRoomImages.ts:29 | lower-casing twice is lower-casing once |
| Strings.ReplaceChar | public/admin/customImageWidget.js:215-216 | a global one-character replace changes exactly the occurrences of that character |
| Strings.LastIndexOfLast | public/admin/customImageWidget.js:155 | no occurrence follows the one `lastIndexOf` finds, and -1 means there is none |
| Strings.SplitLast | src/components/blog/BlogPostPage.tsx:67 | the last piece of a split (what `pop` returns) is what follows the last separator |
| Strings.JoinSplit | public/admin/customImageWidget.js:182 | joining the pieces of a split with the same separator gives back the text |
| Strings.SplitJoin | public/admin/customImageWidget.js:182 | splitting pieces that hold no separator, once joined, gives the pieces back |
| Strings.SplitCount | public/admin/customImageWidget.js:182-184 | a split has one more piece than there are separators |
| Base.FilterMembers | src/components/quiz/ImageSelectionStep.tsx:25 | `filter` keeps exactly the elements that pass the test |
| Base.FilterIsSubsequence | src/components/quiz/ImageSelectionStep.tsx:25 | `filter` keeps the order of the elements it keeps |
| Base.FindFirst | src/components/blog/BlogPostPage.tsx:66 | `find` gives the first element that passes the test, or none exactly when no element passes |
| Base.Take | src/components/quiz/EmailCaptureStep.tsx:129 | `slice(0, n)` is the prefix of length min(n, length) |
| Base.DistinctProperties | src/components/quiz/EmailCaptureStep.tsx:109 | `new Set` keeps every element once, and adds nothing new |

## Left out

- Network, timers and console: the webhook call is a parameter, either a parsed reply or a failure. The 500/300 ms and 1000 ms delays before the two step changes are folded into one state change. Logging is not modelled.
- `isSubmitting` is not modelled as a field. The flag is set once the address passes and disables Back and submit while the request is pending, so neither can interleave with it; `Quiz.SubmitEmail` reproduces that guard by being one atomic step. The flag is cleared (in `finally`, or in the inner catch) before the delayed `nextStep` timers run, so in the source Back and submit are live again during the 500 or 300 ms plus 1000 ms delay; the model folds the two timed steps into the submit itself and does not capture a click in that window.
- Randomness: `Math.random` ids and `uuidv4` are a function from the picture's index to a string (for the room pictures, the position in the combined list). Their uniqueness is not modelled.
- DOM, animation and layout: GSAP and Framer Motion animations, focus handling, scroll locking, fullscreen and all styling are left out. So are `window.open` targets beyond the website string, and the footer scroll with its 800 ms click.
- Markdown loading: `import.meta.glob`, `gray-matter` parsing and `ReactMarkdown` rendering are not modelled. A post file is a path paired with its already-parsed front matter.
- ItalianKitchens: the contact form (`handleSubmit`, `formData`, `formStatus`, `showContactForm`) and the `isMobile` resize listener are not modelled. They post to a server or only affect layout.
- CustomImageWidget: the form lookup and the field updates in `extractAndFillFields`, and the widget's React wrapper, are not modelled. They query the live DOM with selectors. Only the extraction and the two field helpers are modelled.
- ProcessingStep, QuizIntro's animation and ResultsStep's rendering are not modelled. They show the state but do not change it, apart from the buttons modelled as `ResultsRestart` and `ResultsConsultation`.
- Strings.ToLower: lower-cases ASCII letters only. JavaScript's `toLowerCase` also lower-cases non-ASCII letters; none of the keywords, slugs or room names involved contain any.
- Strings.Trim: white space is the ECMAScript set (including NBSP, BOM and the Unicode space separators).
- Strings are sequences of Unicode scalar values, not UTF-16 code units: lengths, indices and cuts (`ItalianKitchens.ShownDescription`'s `substring(0, 100)`, `indexOf`, `lastIndexOf`, `split`, `replace`, `trim`) count characters outside the Basic Multilingual Plane once where the source counts two units, and a cut never splits a surrogate pair.
- EmailCapture.SingleLineTitleMatch: the closed form of the match (first "is", then the whole white-space run) is stated only for titles without line terminators. `TitleMatch` itself follows the pattern's backtracking on any title, including the retry at a later "is" when `.` would have to cross a line break.
- StyleTally.TallyOfProperties: `Object.entries` is modelled in insertion order. JavaScript lists integer-like keys first, and style names are never integer-like. The tallies are plain objects, so a style named after an `Object.prototype` member ("constructor", "toString", "__proto__") would start from the inherited value in the source; the model treats every name as an ordinary key.
- DynamicFrameLayout.RowSizes: `hoverSize` is a natural number. A fractional value, which the CSS would accept, is not modelled.
- BlogPostPage.LongTitleOfWords: stated for titles whose words are separated by single spaces. The word split itself (`SplitWords`) is modelled for any white space.
- EmailCapture.SubStylesProperties: titles are compared by their text. A JavaScript `Set` keeps the number 5 and the string "5", or two distinct objects, apart; the model's string-valued titles merge them.
- AccordionFeature.Accordion.constructor: requires a non-empty feature list. The component reads `features[0].image` and would throw on an empty list; the default list is non-empty.
- QuizContainer.Quiz.NextStep / PrevStep: the container has no bounds, and the model does not add any. The per-step methods state which step each button reaches.

Places where the behaviour differs from what one might expect, which the model follows:

- Deselecting a room keeps a previously chosen priority room, so "the priority room is one of the selected rooms" holds only from step 4 on (`Quiz.Valid`).
- The default secondary styles (Contemporary, Modern, Elegant) apply only when the webhook sends no pictures. Pictures that all lack a title give no secondary styles.
- The accordion's initial highlighted tab is the literal id 1, not the first tab's id. With the default features the first tab has id 1.
