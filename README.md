# Party games: wheel, bottle, breadcrumbs and blog, modelled in Dafny

This project models the logic of a small party-games web site written in React
and TypeScript.

- **Wheel of prompts** (`pages/WheelGame.tsx`). A drag turns the wheel by the
  pointer's angular delta. A fast release throws it with a capped speed. While
  it coasts, friction decays the speed frame by frame until it drops under a
  threshold. After a delay, the slice under the needle becomes the result. Game
  modes load the slices from preset quest lists or from up to eight custom
  entries.
- **Spin the bottle** (`pages/BottleGame.tsx`). A guarded spin adds at least
  four turns to the bottle's rotation, and a timeout ends it.
- **Breadcrumb trail** (`components/Breadcrumbs.tsx`). It is built from the
  pathname's non-empty segments and labelled through a route-name map.
- **Blog** (`src/utils/markdownUtils.ts`, `pages/Blog.tsx`). Posts are loaded
  from markdown files, given an id from the file name, and sorted newest first.
  They can be looked up by id. The list page filters them by category and by a
  case-insensitive search.

Layout, one module per file:

- `Wrappers`: the `Option` type.
- `JsStrings`: the JavaScript string built-ins the code relies on.
  - `split` and `join`.
  - `indexOf`, `includes` and `replace` with a string pattern.
  - `trim`, with the ECMAScript white-space set.
  - `toLowerCase`.
- `Types`: the source's `types.ts`.
- `WheelPhysics`: the wheel's arithmetic as pure functions.
- `WheelGame`: the wheel's handlers as methods of a `Wheel` class. Its fields
  are the component's refs and state.
- `BottleGame`: a `Bottle` class.
- `Breadcrumbs`, `MarkdownUtils` and `Blog`: pure functions, except for the
  loop of `getAllPosts`.

Modelling conventions:

- **Numbers.** JavaScript numbers are `real`.
  - `%` is the truncating remainder.
  - `Math.round` is `floor(x + 0.5)`.
  - IEEE-754 rounding is not modelled.
- **Pointer angles.** An angle is a value `getAngle` can return, in (-90, 270].
- **Host scheduling** becomes explicit state and explicit calls:
  - A scheduled animation frame is the flag `framePending`, and `Tick` is one
    delivery of it.
  - Each pending `setTimeout(finalizeResult, 500)` is an entry of
    `pendingResults`. The entry holds the options that the callback's closure
    sees. `FireResultTimer` fires the oldest entry.
- **Unseen functions become parameters.** `randomizeOptions` and the quest
  lists are not part of this model, so they are passed in. `Math.random()` is a
  parameter `u` in [0, 1).

## Model

| member | source | states |
|---|---|---|
| WheelPhysics.NormalizedRotationIsFloorMod | pages/WheelGame.tsx:101 | `((r % 360) + 360) % 360` with JavaScript's truncating `%` is the floor-modulo of r by 360, so it lies in [0, 360) |
| WheelPhysics.EffectiveAngleRange | pages/WheelGame.tsx:101 | the effective angle `(360 - normalized) % 360` lies in [0, 360) |
| WheelPhysics.QuotientBelowCount | pages/WheelGame.tsx:100-102 | an effective angle in [0, 360) divided by the slice width rounds to at most the slice count |
| WheelPhysics.WinningIndex | pages/WheelGame.tsx:100-103 | the winning index is always a valid slice index (< n), so the fallback to `options[0]` is never taken |
| WheelPhysics.WinningIndexPeriodic | pages/WheelGame.tsx:101-102 | adding whole turns to the rotation does not change the winner |
| WheelPhysics.WinningIndexAtRest | pages/WheelGame.tsx:101-102 | the unrotated wheel selects slice 0 |
| WheelPhysics.NearestCentre | pages/WheelGame.tsx:102 | `Math.round(e / w)` names the slice centre within half a slice of e |
| WheelPhysics.WinningSliceUnderNeedle | pages/WheelGame.tsx:100-102 | the effective angle lies within half a slice of the winning slice's centre (slice 0 also owns the last half-slice before 360) |
| WheelPhysics.SliceOfNearestCentre | pages/WheelGame.tsx:102 | the final `% options.length` folds a rounding up to n (the last half-slice before a full turn) onto slice 0 |
| WheelPhysics.WinningIndexTies | pages/WheelGame.tsx:102 | on an 8-slice wheel, a rotation of -22.5 (exactly between slices 0 and 1) selects slice 1, and a rotation of 22.5 selects slice 0 |
| WheelPhysics.MoveDeltaRange | pages/WheelGame.tsx:182-184 | for two pointer angles the delta lies in [-180, 180] and differs from the raw difference by 0 or by one full turn |
| WheelPhysics.MoveDeltaIsShortestTurn | pages/WheelGame.tsx:182-184 | no turn equivalent to the raw difference is smaller than the delta |
| WheelPhysics.MoveDeltaAntisymmetric | pages/WheelGame.tsx:182-184 | moving back gives the opposite delta |
| WheelPhysics.MoveDeltaAcrossSeam | pages/WheelGame.tsx:182-184 | crossing the seam of `getAngle` between 270 and -90 counts as a small turn (269 to -89 is +2) |
| WheelPhysics.ThrownVelocity | pages/WheelGame.tsx:198-204 | the throw keeps the sign, is at most 100 and at most 2.5 times the release speed, and is exactly 2.5 times it when under the cap |
| WheelPhysics.Coasted | pages/WheelGame.tsx:124-135 | one frame of friction does not raise the speed and keeps the sign; the result is 0 or at least the stop threshold, and it is 0 exactly when 0.994·abs(v) < 0.05 |
| WheelPhysics.CoastOneMore | pages/WheelGame.tsx:123-125 | one more frame multiplies in the friction and adds the current velocity to the distance |
| WheelPhysics.CoastKeepsDirection | pages/WheelGame.tsx:123-125 | a coast never turns the wheel backwards |
| WheelPhysics.DecayBoundStep | pages/WheelGame.tsx:124-135 | each coasting frame preserves the decay bound speed·(1 + 0.006·frames) ≤ 100 |
| WheelPhysics.DecayBoundLimitsFrames | pages/WheelGame.tsx:134-146 | a wheel still moving after a frame has coasted fewer than MaxCoastFrames frames |
| WheelPhysics.SettlesWithin | pages/WheelGame.tsx:134-146 | under the decay bound, the velocity reaches 0 by frame MaxCoastFrames |
| WheelPhysics.CoastSettles | pages/WheelGame.tsx:134-146 | every throw (speed ≤ 100) stops within MaxCoastFrames frames |
| WheelGame.ValidInputs | pages/WheelGame.tsx:75 | the kept entries are exactly the non-blank ones, in their original order (a subsequence), each kept as many times as it was entered |
| WheelGame.RepeatedEntryCountsTwice | pages/WheelGame.tsx:75-76 | two equal non-blank entries count as two valid inputs, so they are enough to save a custom wheel |
| WheelGame.KeptIffNotBlank | pages/WheelGame.tsx:75 | an entry survives `trim().length > 0` exactly when it has a character that is not white space |
| WheelGame.Wheel.constructor | pages/WheelGame.tsx:11-34 | the initial state: IDLE, no result, hint shown, FUN mode, no options, eight empty custom entries, wheel at rest |
| WheelGame.Wheel.FinalizeResult | pages/WheelGame.tsx:97-111 | with no options nothing changes; otherwise the wheel stops and shows the slice at WinningIndex, in RESULT |
| WheelGame.Wheel.Start | pages/WheelGame.tsx:154-170 | ignored in RESULT or with the mode dialog open; otherwise starts a drag in IDLE with no result, hint hidden, wheel stopped and frame cancelled |
| WheelGame.Wheel.StartCancellingResultTimer | pages/WheelGame.tsx:154-170 | handleStart that also cancels pending result timers; it keeps ResultConsistent |
| WheelGame.Wheel.Move | pages/WheelGame.tsx:173-191 | ignored unless dragging; otherwise turns the wheel by MoveDelta, takes it as the velocity (within ±180) and stores the angle |
| WheelGame.Wheel.Release | pages/WheelGame.tsx:194-213 | ignored unless dragging; a release faster than 0.5 throws with ThrownVelocity, enters SPINNING and schedules a frame; a slower one finalizes at once |
| WheelGame.Wheel.Tick | pages/WheelGame.tsx:120-151 | a coasting frame adds the velocity, applies friction, and either reschedules or stops at 0 and queues the result timer; while dragging or at rest nothing moves and nothing is rescheduled |
| WheelGame.Wheel.Coast | pages/WheelGame.tsx:120-151 | delivering frames until none is scheduled takes at most MaxCoastFrames frames; the velocity and rotation reached are CoastVelocity and CoastDistance of the frames delivered; a wheel that was scheduled and moving ends at rest with exactly one result timer queued |
| WheelGame.Wheel.FireResultTimer | pages/WheelGame.tsx:97-141 | the oldest pending timer runs finalizeResult with the options its closure captured |
| WheelGame.Wheel.Reset | pages/WheelGame.tsx:215-222 | clears the result, enters IDLE, stops the wheel; a second reset changes nothing |
| WheelGame.Wheel.SetModeSelectOpen | pages/WheelGame.tsx:236 | the settings button opens the mode dialog and its close button (line 367) closes it |
| WheelGame.Wheel.SelectMode | pages/WheelGame.tsx:53-72 | CUSTOM only opens the dialog; a preset mode loads its quests, closes the dialog, resets the game and schedules a frame, because new options re-run the effect on `animate` (lines 224-227) |
| WheelGame.Wheel.Mount | pages/WheelGame.tsx:48-51 | the first render selects FUN and schedules the first frame through the effect at lines 224-227 |
| WheelGame.Wheel.UpdateCustomInput | pages/WheelGame.tsx:87-91 | exactly entry `index` is replaced |
| WheelGame.Wheel.SaveCustomMode | pages/WheelGame.tsx:74-85 | saves exactly when at least two entries are non-blank, then plays those entries in CUSTOM mode and resets; otherwise nothing changes |
| WheelGame.ResultTimerOutlivesDragStart | pages/WheelGame.tsx:139-170 | a concrete run in which the result timer of a finished coast fires during the next drag, and the wheel then spins with a result shown |
| BottleGame.SpinAmount | pages/BottleGame.tsx:15 | a spin turns the bottle by at least 1440 and less than 1800 degrees |
| BottleGame.Bottle.constructor | pages/BottleGame.tsx:6-7 | the bottle starts at rotation 0, not spinning |
| BottleGame.Bottle.Spin | pages/BottleGame.tsx:9-18 | ignored while spinning; otherwise starts a spin that adds SpinAmount to the current rotation, so the bottle only ever turns forward |
| BottleGame.Bottle.Finish | pages/BottleGame.tsx:21-23 | the timeout ends the spin and leaves the rotation where it is |
| JsStrings.Split | components/Breadcrumbs.tsx:16 | `split` returns at least one piece and no piece contains the separator |
| JsStrings.JoinSplit | components/Breadcrumbs.tsx:16 | joining the pieces of a split with the separator gives back the string |
| JsStrings.SplitJoin | components/Breadcrumbs.tsx:16-32 | splitting a join of separator-free parts gives back the parts |
| JsStrings.SplitAtSeparator | src/utils/markdownUtils.ts:29 | splitting at a separator splits the two sides independently |
| JsStrings.SplitWithoutSeparator | src/utils/markdownUtils.ts:29 | a string without the separator is one piece |
| JsStrings.JoinSnoc | components/Breadcrumbs.tsx:32 | joining one more part appends the separator and that part |
| JsStrings.IndexOf | pages/Blog.tsx:27-28 | the result is -1 or an index where the pattern occurs, and the pattern occurs at no earlier index |
| JsStrings.IncludesIff | pages/Blog.tsx:27-28 | `includes` holds exactly when the pattern occurs somewhere |
| JsStrings.ReplaceFirst | src/utils/markdownUtils.ts:29 | without an occurrence the string is unchanged; otherwise the first occurrence, at IndexOf, is replaced: the text before it and after it is kept and the replacement sits in between |
| JsStrings.IndexOfAppended | src/utils/markdownUtils.ts:29 | in `stem + pat` the first occurrence is the appended one when the stem holds none and `pat`'s first character does not recur in it, as for `.md` |
| JsStrings.TrimEmptyIffBlank | pages/WheelGame.tsx:75 | `trim()` leaves nothing exactly when the string is all white space |
| JsStrings.ToLower | pages/Blog.tsx:27-28 | lower-casing keeps the length, leaves no capital A-Z, keeps every other character and turns each capital into the same letter in lower case |
| JsStrings.ToLowerIdempotent | pages/Blog.tsx:27-28 | lower-casing twice is lower-casing once |
| Breadcrumbs.NonEmpty | components/Breadcrumbs.tsx:16 | `filter((x) => x)` keeps exactly the non-empty pieces, in order and with their multiplicity, so `/a/a` has two segments |
| Breadcrumbs.Segments | components/Breadcrumbs.tsx:16 | every segment is non-empty and contains no `/` |
| Breadcrumbs.NonEmptyKeepsNonEmpty | components/Breadcrumbs.tsx:16 | the filter leaves a list of non-empty strings as it is |
| Breadcrumbs.TargetExtendsPrevious | components/Breadcrumbs.tsx:32 | each crumb's target is the previous target plus `/` and the next segment |
| Breadcrumbs.TargetIsPrefixOfNext | components/Breadcrumbs.tsx:32 | each crumb target is a proper prefix of the next crumb target |
| Breadcrumbs.CrumbLabel | components/Breadcrumbs.tsx:5-33 | the label is the mapped Thai name for the six known segments and the raw segment otherwise; it is never empty, and it equals `routeNameMap[value] \|\| value` for every segment not named like an Object.prototype member |
| Breadcrumbs.Crumbs | components/Breadcrumbs.tsx:31-34 | one crumb per segment; crumb i links to `/` plus segments 0..i joined with `/`, is labelled by CrumbLabel and is marked last exactly when it is the final one; each target is a proper prefix of the next, and the last is `/` plus all segments joined |
| Breadcrumbs.TrailEmptyIffOnlySlashes | components/Breadcrumbs.tsx:16-19 | there is no trail exactly when the pathname consists of slashes only (such as `/` or `//`) |
| Breadcrumbs.SegmentsEmptyIffOnlySlashes | components/Breadcrumbs.tsx:16 | the filtered split is empty exactly when the pathname is all slashes |
| Breadcrumbs.SegmentsSkipLeadingSlash | components/Breadcrumbs.tsx:16 | a leading slash adds no segment |
| Breadcrumbs.SegmentsOfNonSlashStart | components/Breadcrumbs.tsx:16 | a pathname starting with another character has at least one segment |
| Breadcrumbs.SegmentsOfCanonicalPath | components/Breadcrumbs.tsx:16-32 | a path written as `/` plus segments joined by `/` splits back into exactly those segments |
| Breadcrumbs.LastCrumbTargetsCanonicalPath | components/Breadcrumbs.tsx:32-34 | for such a path the last crumb links to the path itself |
| Breadcrumbs.InheritedMemberIsNoLabel | components/Breadcrumbs.tsx:33 | for segments named like an inherited member, the expression yields that member rather than a string |
| Breadcrumbs.ConstructorSegmentHasNoLabel | components/Breadcrumbs.tsx:16-33 | the pathname `/constructor` has the single segment `constructor`, whose label is the inherited `constructor` function |
| MarkdownUtils.PostId | src/utils/markdownUtils.ts:29 | a post id never contains `/` |
| MarkdownUtils.PostIdOfMarkdownFile | src/utils/markdownUtils.ts:29 | the file `dir/stem.md` gets the id `stem` for any stem free of `/` that holds no `.md` of its own (dots elsewhere, as in `v1.2-notes`, are fine) |
| MarkdownUtils.KingsCupRulesId | src/utils/markdownUtils.ts:28-29 | `/src/posts/kings-cup-rules.md` gets the id `kings-cup-rules` |
| MarkdownUtils.InsertByDate | src/utils/markdownUtils.ts:50 | inserting a post adds exactly that post to the list |
| MarkdownUtils.InsertKeepsSorted | src/utils/markdownUtils.ts:50 | inserting into a list sorted newest first keeps it sorted |
| MarkdownUtils.SortByDateDesc | src/utils/markdownUtils.ts:49-50 | the sorted list is a permutation of the input, ordered by date, newest first |
| MarkdownUtils.OnDayInsert | src/utils/markdownUtils.ts:50 | inserting a post places it before every post of its own day already in the list |
| MarkdownUtils.SortIsStable | src/utils/markdownUtils.ts:50 | for every day, that day's posts keep their original relative order |
| MarkdownUtils.GetAllPosts | src/utils/markdownUtils.ts:23-51 | one post per file, each with the file's id, attributes and body, returned as the stable newest-first sort of those posts |
| MarkdownUtils.FindById | src/utils/markdownUtils.ts:57 | nothing is found exactly when no post has the id; otherwise the first post with that id is returned |
| MarkdownUtils.FindByIdUnderPermutation | src/utils/markdownUtils.ts:56-57 | whether an id is found does not depend on the order of the list |
| MarkdownUtils.GetPostById | src/utils/markdownUtils.ts:53-58 | returns a post with the id, taken from the files, and returns nothing exactly when no file yields that id; among duplicates it returns the first in the sorted order |
| Blog.ClearSearch | pages/Blog.tsx:136 | "clear search" returns to the initial state: every category and an empty query |
| Blog.FilteredPosts | pages/Blog.tsx:25-30 | the shown posts are an order-preserving subsequence of the posts; a post is shown exactly when it passes the category and search test, with its multiplicity kept |
| Blog.IncludesEmpty | pages/Blog.tsx:27-28 | every string includes the empty query |
| Blog.ClearedSearchShowsAll | pages/Blog.tsx:11-136 | with every category and an empty query, the filtered list is the full list |
| Blog.FilterRespectsPredicate | pages/Blog.tsx:25-30 | two search states that accept the same posts show the same list |
| Blog.SearchIgnoresQueryCase | pages/Blog.tsx:27-28 | lower-casing the query does not change what is shown |

Two facts about the code that a reader might expect otherwise:

- **Delta range.** The move delta lies in the closed range [-180, 180]. Line
  183 of pages/WheelGame.tsx subtracts a turn only above 180, and line 184 adds
  one only below -180, so a raw difference of exactly -180 is kept as it is.
- **Empty wheel.** When there are no slices, finalizeResult returns without any
  effect (pages/WheelGame.tsx:98). There is no error path to model.

## Left out

- `getAngle`: trigonometry and DOM geometry. Pointer positions enter as the
  angle it returns, in (-90, 270].
- Rendering of the pages. This covers the SVG slice geometry, font sizing, the
  needle tilt, CSS transform strings, modals and the `PIN_COUNT` /
  `SLICE_ANGLE` constants, which only feed the drawing.
- `triggerHaptic`: a fire-and-forget device call.
- Host scheduling: `requestAnimationFrame`, `cancelAnimationFrame`,
  `setTimeout` and the 500 ms and 5 s delays. Frames and timers are explicit
  method calls, and the delays are not measured.
- IEEE-754 floating point. Numbers are exact reals, so the rounding of the
  friction product, of `%` and of the division is not modelled.
- WheelGame.Wheel.Tick: the early return when the wheel element is not mounted
  (pages/WheelGame.tsx:121) is not modelled. The wheel is taken to be mounted
  whenever a frame is delivered.
- WheelGame.Wheel.Coast: this is a driver for the frames that `animate`
  schedules for itself. It delivers frames one after another. Interleavings of
  frames with user input go through the other methods.
- WheelGame.Wheel.UpdateCustomInput: requires an index inside the eight
  entries. The dialog only ever passes those indices. Writing past the end,
  which would lengthen a JavaScript array, is not modelled.
- WheelGame.Wheel.SelectMode: covers the four modes of the datatype. Mode
  strings outside them, which would leave the quest list empty, cannot arise in
  the model.
- `randomizeOptions` and the FUN/HOT/HARD quest lists are not part of this
  model. They are parameters, and nothing is assumed about what they return.
- BottleGame.Bottle.Spin: React state is read as committed after each call. Two
  clicks handled before a re-render, which both see `isSpinning` false, are not
  modelled.
- Strings are sequences of Unicode scalar values, where JavaScript counts
  UTF-16 code units. Text outside the Basic Multilingual Plane has a different
  length in the model, which none of the modelled operations depend on.
- JsStrings.ToLower: lowers the ASCII letters only. Full Unicode case mapping
  is not modelled. The Thai text of the site has no case.
- MarkdownUtils.GetAllPosts: `import.meta.glob`, the raw file loading and the
  `front-matter` parser are I/O and a host library. Each file arrives as its
  path, its parsed attributes and its body, in the glob's enumeration order.
- Post dates: the date is an abstract day key, larger meaning
  later. The code formats the front-matter date with
  `toLocaleDateString('en-GB', …)` and parses that string back when sorting.
  That round trip is taken to keep the calendar day. Dates that fail to parse,
  which make the comparator return NaN, are not modelled.
- MarkdownUtils.SortByDateDesc: `Array.prototype.sort` is modelled by its
  result, the stable descending order, and not by the engine's own algorithm.
- The async `Promise` wrappers of `getAllPosts` and `getPostById`, and the
  loading flag of the blog page. The effect that fetches posts only stores
  them.
- The other pages and components: App routing, layout, home, about, blog post
  page, SEO, bottom navigation and constants. They are static UI or thin
  library wrappers.

## Findings

| source | as written | input that shows it | evidently intended | confidence | as-written member | corrected member |
|---|---|---|---|---|---|---|
| pages/WheelGame.tsx:139-170 | handleStart cancels the scheduled animation frame but not the `setTimeout(finalizeResult, 500)` that a finished coast started | throw the wheel, let it stop, and grab it again within 500 ms: the timer fires during the drag and shows a result; a throw then spins the wheel with that result on screen and the game in SPINNING | a drag cancels the pending result timer too, so a result is shown only in RESULT and never during a drag | not executed | WheelGame.ResultTimerOutlivesDragStart | WheelGame.Wheel.StartCancellingResultTimer |
| components/Breadcrumbs.tsx:33 | `routeNameMap[value] \|\| value` reads a plain object, so segments named like Object.prototype members find an inherited member | the pathname `/constructor` gets the `Object` constructor function as its crumb label instead of the text "constructor" | an own-key lookup that falls back to the segment | not executed | Breadcrumbs.ConstructorSegmentHasNoLabel | Breadcrumbs.CrumbLabel |
