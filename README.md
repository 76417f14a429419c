# ThreeTwoA Digital Garden — a verified model of the page logic

This project models the logic behind the ThreeTwoA "digital garden", a one-page
personal site. It leaves out the page's markup and animation. For each source
file there is one Dafny module:

- **PixelGlitchText** (`pixel_glitch_text.dfy`). The particle text effect. A glyph raster is sampled on a
  grid, and every sample whose alpha is above 128 becomes a `Particle`.
  A particle is bound to its origin. Every frame the mouse pushes it away,
  it is pulled back to its origin, and friction slows it. `Particle` and
  `GlyphCanvas` are classes whose methods update their fields in place.
  Sampling is specified by the function `Samples`, and the imperative
  `InitParticles` loop is proved against it.
- **PlanSection** (`plan_section.dfy`). The kanban board. Plan items become
  tasks, tasks are split into status columns, summary statistics are
  computed, and drag and drop moves a card.
- **ChatNotesSection** (`chat_notes_section.dfy`). The keyword cloud: split,
  filter, tally in a `Map`, a stable sort by count, the top 20 and tag sizes.
  The imperative tally loop `ExtractKeywords` is proved equal to the function
  `KeywordCloud`. The module also covers the message typewriter (reset and
  step) and its progress label.
- **HomeSection** (`home_section.dfy`). The manifesto typewriter. It types,
  holds, deletes and then moves on to the next of five lines.
- **ResourcesSection** (`resources_section.dfy`). The resource library: the
  category filter, a case-insensitive search, category blocks, the empty
  state and the icon fallback.
- **BlogSection** (`blog_section.dfy`). The journal: post and content lookup,
  the detail view, the reading-mode toggle, and the three ordered
  regular-expression rewrites (headings, bold, inline code).
- **App** (`app.dfy`). The page shell: navigation sets the current section, and
  the scroll handler picks which section is current.

`wrappers.dfy` holds `Option`. `sequences.dfy` holds `Subsequence` and
substring occurrence (`OccursAt`, `Includes`), which several modules share.

Modelling conventions:

- JavaScript numbers are `real` where the source does arithmetic on them
  (particles, the scroll position). They are `int`/`nat` where they count.
- A JavaScript `null` is `None`.
- An empty string, which is falsy in JavaScript, is treated as "unset"
  wherever the source tests it for truth. This covers the active category,
  the search query, the selected post or note, and the dropped task id.
- A `Map`'s insertion order is a sequence of keys.
- `Array.prototype.sort` is stable, so it is modelled as a stable insertion sort.
- Canvas, DOM, timer and window inputs become parameters.

Facts about the code that shape the model:

- `ParticleBackground.tsx` holds only CSS-animated shapes. It has no particle
  simulation, so it is not modelled.
- The repulsion has only the squared-distance test. There is no separate
  radius guard. With radius 0 the test never passes (`ZeroRadiusNeverRepels`),
  but a negative radius still repels.
- On an empty board `Math.round(0 / 0 * 100)` is `NaN`. The model returns
  `None` there.
- The sampling loops advance by `gridSize * dpr`. With a grid size of 0 they
  would never end (src/components/PixelGlitchText.tsx:130-132), so the model's
  sampling requires a positive grid size and pixel ratio (`SampleConfig.Ok`).

## Model

| member | source | states |
|---|---|---|
| PixelGlitchText.Particle.constructor | src/components/PixelGlitchText.tsx:28-39 | a new particle starts at its origin with zero velocity, friction 0.85 and the given size, color and ease |
| PixelGlitchText.Particle.Update | src/components/PixelGlitchText.tsx:41-65 | one frame changes only position and velocity, and the new motion is `Step` of the old one (push, spring, friction, move) |
| PixelGlitchText.NoRepulsionOutsideRadius | src/components/PixelGlitchText.tsx:44-54 | when the squared distance is not strictly below the squared radius, the frame is the same as with no push at all, whatever the direction function |
| PixelGlitchText.ZeroRadiusNeverRepels | src/components/PixelGlitchText.tsx:44-49 | with radius 0 the repulsion test never passes, so the division by the radius is never reached |
| PixelGlitchText.Repels | src/components/PixelGlitchText.tsx:42-46 | the strict test `dx*dx + dy*dy < radius*radius`; its partners are `NoRepulsionOutsideRadius`, `ZeroRadiusNeverRepels` and `SentinelOutOfReach` |
| PixelGlitchText.Force | src/components/PixelGlitchText.tsx:49 | `(radius - distance) / radius`, defined for a non-zero radius; `ForceInUnitRange` bounds it |
| PixelGlitchText.Pushed | src/components/PixelGlitchText.tsx:44-54 | the velocity after the push, changed only when `Repels` holds; `NoRepulsionOutsideRadius` states the gate |
| PixelGlitchText.Step | src/components/PixelGlitchText.tsx:41-65 | one frame of motion: push, spring toward the origin, friction, move; `RestIsFixedPoint` and `Particle.Update` relate it to the particle |
| PixelGlitchText.ForceInUnitRange | src/components/PixelGlitchText.tsx:47-49 | inside a positive radius the force factor lies in (0, 1] |
| PixelGlitchText.RestIsFixedPoint | src/components/PixelGlitchText.tsx:47-64 | a particle resting at its origin with the mouse outside the radius stays exactly where it is |
| PixelGlitchText.SentinelOutOfReach | src/components/PixelGlitchText.tsx:186-188 | the mouse parked at (-2000, -2000) repels no particle on the canvas for any radius up to 2000 |
| PixelGlitchText.GlyphCanvas.MouseLeave | src/components/PixelGlitchText.tsx:186-188 | leaving the canvas parks the mouse at (-2000, -2000) |
| PixelGlitchText.GlyphCanvas.MouseMove | src/components/PixelGlitchText.tsx:176-184 | the mouse becomes the client position relative to the canvas rectangle |
| PixelGlitchText.GlyphCanvas.constructor | src/components/PixelGlitchText.tsx:86-87 | the canvas starts with no particles and the mouse parked far away |
| PixelGlitchText.GlyphCanvas.AnimateFrame | src/components/PixelGlitchText.tsx:164-167 | every particle advances by one `Step` under the current mouse, and origin, size, color, ease and friction are unchanged |
| PixelGlitchText.SampleConfig.Pitch | src/components/PixelGlitchText.tsx:130 | the sampling step `gridSize * dpr` is positive |
| PixelGlitchText.AlphaIndexInBounds | src/components/PixelGlitchText.tsx:131-134 | for a pixel inside the canvas, the alpha byte's index is inside the `4*width*height` buffer |
| PixelGlitchText.GlyphCanvas.InitParticles | src/components/PixelGlitchText.tsx:125-143 | the nested sampling loops replace the particle array with fresh, distinct particles, one per `Samples` seed in order, each at rest at its seed |
| PixelGlitchText.GlyphCanvas.SampleRow | src/components/PixelGlitchText.tsx:132-141 | the inner loop appends one fresh particle per inked sample of the row and keeps the particles already collected |
| PixelGlitchText.Samples | src/components/PixelGlitchText.tsx:125-143 | the seeds of a raster, row by row; `SamplesAreInk`, `SampledIffInk`, `SamplesInScanOrder` and `SampleCountBound` characterize it, and re-sampling the same raster gives the same seeds because it is a function of its inputs |
| PixelGlitchText.SamplesAreInk | src/components/PixelGlitchText.tsx:133-139 | every seed comes from a grid pixel whose alpha is above 128, sits at `(px/dpr, py/dpr)`, and has size `gridSize - 0.5`, the particle color and ease `returnSpeed` |
| PixelGlitchText.SampledIffInk | src/components/PixelGlitchText.tsx:131-140 | a grid pixel yields a seed exactly when its alpha is strictly above 128 |
| PixelGlitchText.AlphaThresholdBoundary | src/components/PixelGlitchText.tsx:135 | alpha 128 yields no particle and alpha 129 yields one |
| PixelGlitchText.SamplesInScanOrder | src/components/PixelGlitchText.tsx:131-132 | seeds come in row-major scan order, strictly increasing |
| PixelGlitchText.SampleCountBound | src/components/PixelGlitchText.tsx:130-142 | there are at most as many seeds as grid points (rows times columns) |
| PixelGlitchText.GridSeedsComplete | src/components/PixelGlitchText.tsx:131-140 | every inked grid pixel at or below the current row is sampled |
| PlanSection.InitialTask | src/sections/PlanSection.tsx:28-34 | each status gets its progress (100/65/0), priority (P2/P0/P1), estimate (20/15) and hours spent (20/10/0); the item's own fields are kept; hours spent never exceed the estimate; progress is 100 exactly for completed work |
| PlanSection.InitialTasks | src/sections/PlanSection.tsx:28-34 | the board has one task per plan item, in order |
| PlanSection.InitialTasksWithinEstimate | src/sections/PlanSection.tsx:32-33 | no initial task has spent more hours than estimated |
| PlanSection.TimeSpentSum | src/sections/PlanSection.tsx:77 | the sum of hours spent; `SpentWithinEstimated` and `MoveKeepsHours` state its properties |
| PlanSection.TimeEstimateSum | src/sections/PlanSection.tsx:78 | the sum of hours estimated; `SpentWithinEstimated` and `MoveKeepsHours` state its properties |
| PlanSection.Column | src/sections/PlanSection.tsx:67-71 | a column holds exactly the tasks of its status |
| PlanSection.ColumnKeepsOrder | src/sections/PlanSection.tsx:67-71 | a column keeps the board order |
| PlanSection.ColumnsPartition | src/sections/PlanSection.tsx:67-71 | the three columns together hold every task exactly once (sizes and multisets add up) |
| PlanSection.ComputeStats | src/sections/PlanSection.tsx:73-80 | the totals are the number of cards, the completed and in-progress column sizes and the hour sums; completed plus in progress never exceeds the total; the percentage is `ProgressPercent` of the completed and total counts, so it exists exactly for a non-empty board and then lies in [0, 100] |
| PlanSection.ProgressPercent | src/sections/PlanSection.tsx:79 | the percentage is undefined exactly for an empty board |
| PlanSection.ProgressPercentNearest | src/sections/PlanSection.tsx:79 | the percentage is `completed/total*100` rounded half up, to the nearest integer |
| PlanSection.ProgressPercentBounds | src/sections/PlanSection.tsx:79 | the percentage lies in [0, 100], with 100 for all completed and 0 for none |
| PlanSection.SpentWithinEstimated | src/sections/PlanSection.tsx:77-78 | when every task is within its estimate, total hours spent lie between 0 and total hours estimated |
| PlanSection.DropProgress | src/sections/PlanSection.tsx:85 | the progress a dropped card gets: 100, 50 or 0 for completed, in progress or planned |
| PlanSection.MoveCard | src/sections/PlanSection.tsx:84-86 | the per-card map step: the card with the id takes the status and `DropProgress`; `MoveTask` and `MoveKeepsCards` state it |
| PlanSection.MoveTask | src/sections/PlanSection.tsx:82-87 | a card with the id takes the new status and its drop progress (100/50/0); every other card is unchanged; length and order are kept |
| PlanSection.MoveTaskIdempotent | src/sections/PlanSection.tsx:82-87 | dropping the same card on the same column twice is the same as once |
| PlanSection.MoveUnknownIdIsIdentity | src/sections/PlanSection.tsx:83-86 | an id no card carries leaves the board unchanged |
| PlanSection.MoveKeepsCards | src/sections/PlanSection.tsx:85 | a move changes no field but status and progress |
| PlanSection.MoveKeepsHours | src/sections/PlanSection.tsx:77-86 | a move keeps both hour sums and the within-estimate invariant |
| PlanSection.MovedCardInTargetColumn | src/sections/PlanSection.tsx:67-86 | a moved card lands in the target column and in no other |
| PlanSection.InitialBoard | src/sections/PlanSection.tsx:64-65 | the board starts with the initial tasks and no card dragged |
| PlanSection.DragStart | src/sections/PlanSection.tsx:212-213 | starting a drag records the card's id and leaves the tasks unchanged |
| PlanSection.Drop | src/sections/PlanSection.tsx:177-181 | a drop with an empty id changes nothing; otherwise the card moves and the drag ends |
| PlanSection.DropHintShown | src/sections/PlanSection.tsx:284 | the hint shows while a card is dragged that is not in the column; `NoDropHintOnOwnColumn` states it |
| PlanSection.NoDropHintOnOwnColumn | src/sections/PlanSection.tsx:284 | the drop hint never shows under the dragged card's own column |
| PlanSection.DropPreservesEstimates | src/sections/PlanSection.tsx:177-181 | a drop keeps every task within its estimate, and after a real drop no hint shows |
| ChatNotesSection.SkipSeps | src/sections/ChatNotesSection.tsx:13 | skipping a separator run leaves a suffix that is empty or starts with a non-separator |
| ChatNotesSection.SplitWords | src/sections/ChatNotesSection.tsx:13 | `split` with the separator class; `SplitWordsSound`, `SplitWordsSepFree`, `SplitWordsCut` and `SplitWordsTrailing` characterize it |
| ChatNotesSection.SplitWordsSound | src/sections/ChatNotesSection.tsx:13 | the words of a split contain no separator, and together they hold exactly the non-separator characters of the message, in order |
| ChatNotesSection.SplitWordsSepFree | src/sections/ChatNotesSection.tsx:13 | a message without separators splits into itself |
| ChatNotesSection.SplitWordsCut | src/sections/ChatNotesSection.tsx:13 | a maximal separator run cuts once: the word before it is emitted whole and splitting resumes after the run |
| ChatNotesSection.SplitWordsTrailing | src/sections/ChatNotesSection.tsx:13 | a trailing separator run leaves an empty last word |
| ChatNotesSection.KeysOfSpec | src/sections/ChatNotesSection.tsx:14-16 | the tally's keys are exactly the eligible words that occur (at least two characters, not a stop word), each once |
| ChatNotesSection.TallyStep | src/sections/ChatNotesSection.tsx:15-16 | one word updates the tally as `Map.set` does: a new eligible word is appended with count 1, a known one is incremented, and an ineligible one changes nothing |
| ChatNotesSection.TallyWords | src/sections/ChatNotesSection.tsx:14-18 | the word loop keeps the tally equal to the occurrence counts of all words seen |
| ChatNotesSection.TallyNote | src/sections/ChatNotesSection.tsx:12-19 | the message loop keeps the tally equal to the occurrence counts of all words seen |
| ChatNotesSection.ExtractKeywords | src/sections/ChatNotesSection.tsx:7-26 | the nested tally loops followed by sort, slice and map compute exactly `KeywordCloud` |
| ChatNotesSection.EntriesOf | src/sections/ChatNotesSection.tsx:22 | the listed entries pair each key, in insertion order, with its count |
| ChatNotesSection.TokenEntriesSpec | src/sections/ChatNotesSection.tsx:14-22 | there is one entry per eligible occurring word, with distinct words and count equal to the number of occurrences |
| ChatNotesSection.SortByCount | src/sections/ChatNotesSection.tsx:23 | the sort is a permutation of its input |
| ChatNotesSection.SortByCountSorted | src/sections/ChatNotesSection.tsx:23 | the sort's output has non-increasing counts |
| ChatNotesSection.SortByCountStable | src/sections/ChatNotesSection.tsx:23 | entries with equal counts keep their insertion order, as a stable sort keeps them |
| ChatNotesSection.InsertSorted | src/sections/ChatNotesSection.tsx:23 | inserting into a descending list keeps it descending |
| ChatNotesSection.TagSize | src/sections/ChatNotesSection.tsx:25 | `min(1 + 0.2*count, 2)` lies in [1, 2] and reaches 2 exactly from count 5 on |
| ChatNotesSection.Take | src/sections/ChatNotesSection.tsx:24 | `slice(0, n)` keeps the first n elements, or all of them when there are fewer |
| ChatNotesSection.Cloud | src/sections/ChatNotesSection.tsx:25 | each tag carries its entry's word and count, and the size for that count |
| ChatNotesSection.TopCloud | src/sections/ChatNotesSection.tsx:22-25 | sort by count, keep 20, attach sizes; `TopCloudOmitsOnlyLesser` and the `KeywordCloud` lemmas state its properties |
| ChatNotesSection.KeywordCloud | src/sections/ChatNotesSection.tsx:7-26 | the keyword cloud of all notes; `KeywordCloudCounts`, `KeywordCloudOrdered` and `KeywordCloudTop` characterize it, and `ExtractKeywords` is proved equal to it |
| ChatNotesSection.KeywordCloudCounts | src/sections/ChatNotesSection.tsx:9-25 | at most 20 tags; each word is eligible, and its count is its number of occurrences in all messages, at least 1, with size at most 2 |
| ChatNotesSection.KeywordCloudOrdered | src/sections/ChatNotesSection.tsx:16-24 | tag words are distinct and counts are non-increasing |
| ChatNotesSection.KeywordCloudTop | src/sections/ChatNotesSection.tsx:22-24 | an eligible occurring word is left out only when all 20 places go to words counted at least as often |
| ChatNotesSection.TopCloudOmitsOnlyLesser | src/sections/ChatNotesSection.tsx:23-24 | an entry missing from the top 20 is beaten by every one of the 20 |
| ChatNotesSection.FindNote | src/sections/ChatNotesSection.tsx:41-43 | the selected note is the first note with the id, and none exists exactly when no note has it |
| ChatNotesSection.SelectedNote | src/sections/ChatNotesSection.tsx:41-43 | a null or empty selection gives no note; otherwise `FindNote` |
| ChatNotesSection.Reset | src/sections/ChatNotesSection.tsx:46-61 | selecting a note gives one untyped, incomplete copy per message with index 0; no note gives an empty list and index 0 |
| ChatNotesSection.TypingStep | src/sections/ChatNotesSection.tsx:63-92 | a step past the end changes nothing; a completed message advances the index by one; otherwise only the current message changes |
| ChatNotesSection.TypingStepReveals | src/sections/ChatNotesSection.tsx:73-90 | a shorter display grows to the content's prefix one character longer; a full display only becomes complete |
| ChatNotesSection.ResetValid | src/sections/ChatNotesSection.tsx:53-60 | a reset state satisfies the typing invariant |
| ChatNotesSection.TypingStepValid | src/sections/ChatNotesSection.tsx:63-92 | the typing invariant is preserved (displays are prefixes of content, index within bounds, earlier messages complete, later ones untouched), and ids and contents never change |
| ChatNotesSection.TypingStepDecreases | src/sections/ChatNotesSection.tsx:63-92 | while messages remain, every step makes progress, so the typewriter finishes |
| ChatNotesSection.TypingDone | src/sections/ChatNotesSection.tsx:64-65 | at the end every message is complete and fully shown, and steps change nothing |
| ChatNotesSection.ProgressLabel | src/sections/ChatNotesSection.tsx:269 | the label shows `index + 1` while messages remain and `n` once the index has passed them all, which is `min(index + 1, n)`; 0 with no note |
| ChatNotesSection.ProgressLabelRange | src/sections/ChatNotesSection.tsx:269 | within a valid typing state of a non-empty note the label lies in [1, n] |
| HomeSection.Delay | src/sections/HomeSection.tsx:26 | the step delay is 30 ms while deleting and 80 ms while typing |
| HomeSection.Tick | src/sections/HomeSection.tsx:24-46 | a step keeps the index in [0, 5), changes it only from an emptied line in delete mode and then to the start of the next line, and never starts deleting |
| HomeSection.TypingExtends | src/sections/HomeSection.tsx:29-31 | typing a shorter text shows the line's prefix one character longer |
| HomeSection.DeletingShrinks | src/sections/HomeSection.tsx:36-37 | deleting a non-empty text removes exactly its last character |
| HomeSection.EmptyAdvances | src/sections/HomeSection.tsx:38-41 | deleting at the empty text resumes typing on the next line, cyclically |
| HomeSection.FullLineIdles | src/sections/HomeSection.tsx:32-33 | at full length a step changes nothing and arms the hold timer |
| HomeSection.OnlyHoldStartsDeleting | src/sections/HomeSection.tsx:29-34 | the hold timer is armed exactly on a fully typed line, and a typing step never starts deleting |
| HomeSection.StartDeleting | src/sections/HomeSection.tsx:33 | the hold callback switches to deleting and keeps the line and text |
| HomeSection.TickValid | src/sections/HomeSection.tsx:24-44 | every step keeps the index in [0, 5) and the text a prefix of the current line |
| HomeSection.StartDeletingValid | src/sections/HomeSection.tsx:33 | the hold callback keeps the invariant |
| HomeSection.InitialValid | src/sections/HomeSection.tsx:19-21 | the initial state satisfies the invariant |
| HomeSection.TypeOut | src/sections/HomeSection.tsx:29-31 | n typing steps extend the shown prefix by n characters |
| HomeSection.DeleteDown | src/sections/HomeSection.tsx:36-37 | n deleting steps shorten the shown prefix by n characters |
| HomeSection.FullCycle | src/sections/HomeSection.tsx:24-46 | typing a whole line, the hold callback, deleting it and one more step land at the start of the next line |
| HomeSection.Cycle | src/sections/HomeSection.tsx:24-46 | a full cycle (type out, hold callback, delete, advance) keeps the typewriter state valid |
| HomeSection.CycleAdvances | src/sections/HomeSection.tsx:38-41 | a cycle from the start of a line ends at the start of the next line |
| HomeSection.FiveCyclesReturn | src/sections/HomeSection.tsx:38-41 | each cycle of the typewriter moves to the start of a different line, and five cycles return to the start of the line it began with |
| ResourcesSection.IconFallback | src/sections/ResourcesSection.tsx:164 | a name outside the icon table falls back to the external-link icon, and only such a name does |
| ResourcesSection.IconRoundTrip | src/sections/ResourcesSection.tsx:19-29 | every table icon is found under its own name |
| ResourcesSection.IconFor | src/sections/ResourcesSection.tsx:19-29 | the icon table with its `ExternalLink` fallback; `IconFallback` and `IconRoundTrip` characterize it |
| ResourcesSection.Lower | src/sections/ResourcesSection.tsx:44-45 | lower-casing keeps the length and maps each character on its own |
| ResourcesSection.LowerIdempotent | src/sections/ResourcesSection.tsx:44-45 | lower-casing twice is lower-casing once |
| ResourcesSection.Filtered | src/sections/ResourcesSection.tsx:41-47 | the offered resources are never more than the library; the `Filtered*` lemmas characterize them |
| ResourcesSection.FilteredMembers | src/sections/ResourcesSection.tsx:41-47 | a resource is offered exactly when it matches both the category and the search condition |
| ResourcesSection.FilteredKeepsOrder | src/sections/ResourcesSection.tsx:41-47 | the offered resources keep the library order |
| ResourcesSection.FilteredConcat | src/sections/ResourcesSection.tsx:41-47 | filtering a concatenation is concatenating the filtered parts |
| ResourcesSection.FilteredUnset | src/sections/ResourcesSection.tsx:42-43 | with no active category and an empty query, the whole library is offered in order |
| ResourcesSection.FilteredInCategory | src/sections/ResourcesSection.tsx:42 | with a category set, every offered resource has it |
| ResourcesSection.FilteredMatchQuery | src/sections/ResourcesSection.tsx:43-45 | with a query, every offered resource's lower-cased name or description contains the lower-cased query |
| ResourcesSection.FilteredIgnoresCase | src/sections/ResourcesSection.tsx:43-45 | the query's case does not affect the result |
| ResourcesSection.ByCategory | src/sections/ResourcesSection.tsx:49-51 | a category's list is never longer than the offered list; `ByCategoryMembers` and `ByCategoryOfFiltered` characterize it |
| ResourcesSection.ByCategoryMembers | src/sections/ResourcesSection.tsx:49-51 | a category's list holds exactly the offered resources of that category, in offered order |
| ResourcesSection.ByCategoryOfFiltered | src/sections/ResourcesSection.tsx:41-51 | a category's list equals filtering by that category directly, or is empty when another category is active |
| ResourcesSection.Blocks | src/sections/ResourcesSection.tsx:126-128 | at most one block per listed category; `BlocksShown` characterizes them |
| ResourcesSection.BlocksShown | src/sections/ResourcesSection.tsx:126-128 | a listed category gets a block exactly when its list is non-empty, and each block lists its category's resources |
| ResourcesSection.DisplayedMembers | src/sections/ResourcesSection.tsx:126-163 | an offered resource appears in the grid exactly when its category is a listed one |
| ResourcesSection.EmptyState | src/sections/ResourcesSection.tsx:212 | the notice shows exactly when no resource is offered; `NoBlocksIffEmptyState` ties it to the grid |
| ResourcesSection.NoBlocksIffEmptyState | src/sections/ResourcesSection.tsx:212 | when every offered resource has a listed category, the grid is empty exactly when the empty-state notice shows |
| ResourcesSection.ListedCategoriesShown | src/sections/ResourcesSection.tsx:41-51 | for a library of listed categories, the grid shows exactly the matching resources, and it is empty exactly with the notice |
| BlogSection.FindPost | src/sections/BlogSection.tsx:127-129 | `find` returns a post with the id, or none exactly when no post has it |
| BlogSection.FindPostFirst | src/sections/BlogSection.tsx:128 | `find` returns the earliest post with the id |
| BlogSection.SelectedPost | src/sections/BlogSection.tsx:127-129 | a null or empty selection finds no post; any other selection finds the post with that id |
| BlogSection.SelectedContent | src/sections/BlogSection.tsx:130-132 | the extended text exists exactly for a selected id that has an entry |
| BlogSection.ModalShown | src/sections/BlogSection.tsx:231 | the detail view is open when a post is selected and both its post and its text are found; `ModalShownIff` characterizes it |
| BlogSection.ModalShownIff | src/sections/BlogSection.tsx:231 | the detail view opens exactly for a selected id that names both a post and an extended text |
| BlogSection.OpenShowsPost | src/sections/BlogSection.tsx:231-241 | clicking a card with an extended text opens that post, and closing hides it again |
| BlogSection.Open | src/sections/BlogSection.tsx:169 | a card click selects its id and keeps the reading mode |
| BlogSection.Close | src/sections/BlogSection.tsx:241 | the backdrop and the close button clear the selection |
| BlogSection.ToggleReading | src/sections/BlogSection.tsx:280 | the button negates the reading mode and keeps the selection |
| BlogSection.ToggleTwice | src/sections/BlogSection.tsx:280 | pressing the reading-mode button twice restores the reader state |
| BlogSection.LineLength | src/sections/BlogSection.tsx:335 | the greedy `.*` takes the longest prefix without a line terminator |
| BlogSection.CloseBold | src/sections/BlogSection.tsx:336 | the lazy `.*?` stops at the first closing `**` on the same line |
| BlogSection.NextBacktick | src/sections/BlogSection.tsx:337 | `[^`]+` runs exactly up to the next backtick |
| BlogSection.Headings | src/sections/BlogSection.tsx:335 | the global heading rewrite; `HeadingLine`, `HeadingAfterText`, `HeadingsPassThrough` and `HeadingsPlain` characterize it |
| BlogSection.Bold | src/sections/BlogSection.tsx:336 | the global bold rewrite; `BoldPair`, `BoldNeedsOneLine`, `BoldPassThrough` and `BoldPlain` characterize it |
| BlogSection.Code | src/sections/BlogSection.tsx:337 | the global code rewrite; `CodePair`, `EmptyCodeKept`, `CodePassThrough` and `CodePlain` characterize it |
| BlogSection.Render | src/sections/BlogSection.tsx:333-337 | headings, then bold, then code; `RenderPlain` states what it leaves alone |
| BlogSection.HeadingLine | src/sections/BlogSection.tsx:335 | `## ` and the rest of its line, whatever it contains, become one h2 element |
| BlogSection.HeadingAfterText | src/sections/BlogSection.tsx:335 | a heading marker after ordinary text, not at a line start, is rewritten too |
| BlogSection.HeadingsPassThrough | src/sections/BlogSection.tsx:335 | text without `#` is copied and the rewrite goes on after it, so every later marker is replaced |
| BlogSection.BoldPair | src/sections/BlogSection.tsx:336 | a single-line span with no inner closing marker, between two `**`, becomes one strong element |
| BlogSection.BoldPassThrough | src/sections/BlogSection.tsx:336 | text without `*` is copied and the rewrite goes on after it, so every later pair is replaced |
| BlogSection.BoldNeedsOneLine | src/sections/BlogSection.tsx:336 | when a line terminator comes after an opening marker before any closing one, the opening marker matches nothing and its first star stays text |
| BlogSection.CodePair | src/sections/BlogSection.tsx:337 | a non-empty backtick-free span between backticks, line breaks included, becomes one code element |
| BlogSection.CodePassThrough | src/sections/BlogSection.tsx:337 | text without a backtick is copied and the rewrite goes on after it, so every later span is replaced |
| BlogSection.EmptyCodeKept | src/sections/BlogSection.tsx:337 | an empty backtick pair opens no code element: its first backtick stays text, and its second may still open a span with what follows |
| BlogSection.HeadingsPlain | src/sections/BlogSection.tsx:335 | text without `## ` is left unchanged by the heading rewrite |
| BlogSection.BoldPlain | src/sections/BlogSection.tsx:336 | text without `**` is left unchanged by the bold rewrite |
| BlogSection.CodePlain | src/sections/BlogSection.tsx:337 | text without a backtick is left unchanged by the code rewrite |
| BlogSection.RenderPlain | src/sections/BlogSection.tsx:333-337 | content with no heading marker, bold marker or backtick is rendered unchanged |
| App.ScrollPosition | src/App.tsx:40 | the probe point lies one third of the viewport height below the scroll offset |
| App.Resolve | src/App.tsx:39-49 | the resolved id is a listed id whose element contains the point, and none is resolved exactly when no listed element contains it |
| App.ResolveFirst | src/App.tsx:42-49 | the resolver picks the first id, in page order, whose element contains the point |
| App.HalfOpen | src/App.tsx:46 | a section's bottom edge is outside it, and its top edge is inside when it has height |
| App.MissingSkipped | src/App.tsx:43-44 | an id without an element is never picked |
| App.DisjointUnique | src/App.tsx:46 | two non-overlapping sections never both contain the point |
| App.ScrollSetsListedId | src/App.tsx:39-47 | whatever the scroll handler sets is one of the six listed ids |
| App.Shell.constructor | src/App.tsx:15 | the landing section is current on mount |
| App.Shell.SectionChange | src/App.tsx:28-34 | the given id becomes current even without an element, and it is scrolled into view exactly when an element carries it |
| App.Shell.Scroll | src/App.tsx:37-52 | the loop with early exit sets the resolved section, or leaves the current one when no section contains the point |

## Left out

- Canvas calls (`measureText`, `fillText`, `getImageData`, `scale`, `setTransform`, `clearRect`, `fillRect`, `requestAnimationFrame`) and `Particle.draw` are foreign drawing operations. The RGBA buffer and its width and height are inputs.
- PixelGlitchText.Particle.Update: the direction of the push (`Math.sqrt`, `Math.atan2`, `Math.cos`, `Math.sin`) is supplied as a function parameter rather than computed, because that is floating-point trigonometry. Convergence of a particle to its origin over many frames is not proved.
- Floating point is modelled as exact reals throughout. Rounding effects of IEEE doubles (in particle motion, the tag size, the scroll position) are not captured.
- PlanSection.ProgressPercent: computed in exact rational arithmetic. The floating-point error of `completed / total * 100` before `Math.round` is not modelled.
- PixelGlitchText.GlyphCanvas.InitParticles: grid size and device pixel ratio are positive integers, so `Math.floor` of the sampling coordinates is the identity. Fractional pixel ratios are not modelled.
- The canvas resize logic and font-string construction in `initParticles` are omitted. They only prepare the raster that the model takes as input.
- Timers (`setTimeout`, `clearTimeout`, the 1500 ms loading screen, the 2000 ms hold, the 30 ms typing steps) are modelled as discrete steps and callbacks, not as wall-clock time.
- DOM inputs (`getElementById`, `offsetTop`, `offsetHeight`, `scrollIntoView`, `window.scrollY`, `innerHeight`, `getBoundingClientRect`) are parameters. Scroll events and listener registration are not modelled.
- ResourcesSection.Lower: maps only `A`–`Z`. Other characters are left as they are, so the full Unicode case mapping of `toLowerCase` is not captured.
- Strings are sequences of characters. UTF-16 `length` and `slice` on characters outside the Basic Multilingual Plane are not distinguished.
- The `iconMap` and `categoryColors` records and the `blogContent[selectedPost]` lookup (src/sections/BlogSection.tsx:130-132) are modelled as plain lookups. Keys inherited from `Object.prototype` are not modelled.
- The safety of `dangerouslySetInnerHTML` is not modelled. Only the string rewrite is.
- The stop-word list and the category and manifesto lists are constants copied from the source. The rest of `src/data/index.ts` (posts, notes, plan items, resources) enters only as parameters. Message `type` fields, note topics and dates are not modelled because no core logic reads them.
- The keyword cloud's layout trigonometry, the category colors and all JSX, Tailwind and framer-motion animation are display only.
- Navbar, CustomCursor, ParticleBackground, ProjectsSection and Footer are not part of this model. They hold UI with no stateable logic.
