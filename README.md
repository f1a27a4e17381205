# React Marquee Master, modelled in Dafny

This project models the core of React Marquee Master. That is a React component that scrolls a list of items continuously in one of four directions. It has two parts.

- **The marquee engine** (`src/Marquee/index.tsx`). The component keeps one state record with four offsets (`top`, `right`, `bottom`, `left`) and the working item list. Besides the record it keeps four flags: `isHovered`, `hoveredItemIndex`, `isUpdatingSpacer` and `isRecycling`.
  - On every interval tick the live offset for the direction moves by 0.5 px.
  - When the item at the exiting end has fully passed, the list is rotated. That item's size is then added back to the offset, so the picture stays where it was.
  - In vertical marquees a zero-content "dummy" spacer entry is inserted when the measured content is shorter than the container, and removed when it is not.
  - From the state the component derives the position style, the container sizing, the container class string and the view of each entry.
- **The demo's item-list editor** (`dev/components/ItemManager.tsx`). These handlers add, remove, edit and recolour items, and reset to the five defaults. They run a small edit session made of `newItemText`, `newItemColor`, `editingItem` and `editText`.

Files:

- `optional.dfy` holds `Option`.
- `marquee_sequence.dfy` (module `MarqueeSequence`) covers the item sequence: spacers, rotation, measuring the exiting item, and the recycle test.
- `marquee_engine.dfy` (module `MarqueeEngine`) holds the state record and the class `Marquee`, whose methods are the component's state transitions.
- `marquee_view.dfy` (module `MarqueeView`) holds the values derived for rendering.
- `item_manager.dfy` (module `ItemManager`) holds the list transformations and the class `ItemManager` with the editor's handlers.

Modelling choices:

- **Offsets are integers in half-pixel units.** A tick subtracts 1. A recycle adds back `2 * size`, where `size` is the measured size in whole pixels.
- **The recycle test** `floor(|v| / size) > 0` is written as `Passed`, in half-pixel units (`|v| / (2 * size)` with `v` in half pixels and `size` in pixels). The lemma `PassedIff` proves that it is the threshold test `size > 0 && |v| >= size`.
- **Layout: entries sit edge to edge.** Entry `k` sits at the sum of the measured whole-pixel sizes of the entries before it (or after it, for Down and Right), as `Extent` and `Lead` state. Margins, gaps and fractional sizes, which the stylesheet `index.scss` decides, are not modelled. `RecycleIsSeamless`, `SpacerAtExitShift` and `SpacerAtExitShiftBack` hold under this assumption; a margin between entries would add a jump of that margin on every recycle.
- **Measurements are inputs.** These are the rendered sizes (`offsetWidth`/`offsetHeight` of a child, `measure`) and the container's and content's dimensions.
- **Timers and clocks are events or parameters.**
  - The 100 ms and 50 ms timers that clear `isUpdatingSpacer` and `isRecycling` become the methods `ClearUpdatingSpacer` and `ClearRecycling`.
  - The ids built from `Date.now()` and `Math.random()` become parameters (`freshId`, `now`).
- **React state setters are assignments.** Each `setState` is an assignment to a field of the class. The `items` prop, together with `onItemsChange` which replaces it, is one field assigned by the handlers.

### Where the code disagrees with its tests or its own comments

The model follows the code. Where the code disagrees with the tests or with the component's own comments, this is what the code does:

- `initState` inserts no spacer, although comments at `src/Marquee/index.tsx:56-69` say it does and several tests expect one from the start.
- For Up, a new spacer is put at the beginning (`index.tsx:148-149`), and for Down at the end (`index.tsx:151`). The integration tests expect the opposite in both cases: the Up spacer last and the Down spacer first.
- The spacer logic runs only for vertical directions: for Left and Right it never inserts, resizes or removes a spacer (`index.tsx:123`). The items are re-initialised only when `marqueeItems` or `inverseMarqueeItems` changes (`index.tsx:105`), so a spacer left over from an earlier vertical direction stays after a switch to Left or Right. It is then rendered 0 px wide.
- The resize of an existing spacer uses the content height as measured. In the source that height is `marquee.scrollHeight`, which already includes the spacer being resized. So the new spacer height is container − (items + old spacer), not container − items, and the content can stay shorter than the container. `UpdateSpacer` takes `contentHeight` as given and does not relate it to the items. By the same measure, a newly inserted spacer of height container − items makes the next measured content exactly the container's height. The next update then takes the `contentHeight >= containerHeight` branch (`index.tsx:126`, `:166-173`) and removes the spacer again, so successive spacer updates alternate between inserting and removing it.
- A direction change leaves the offsets as they are. Only the offset of the current direction is rendered, so a stale value for another direction stays in the record.
- A recycle moves whatever entry sits at the exiting end, the spacer included. The size it adds back, however, is that of the first or last *non-spacer* entry (`index.tsx:236`, `:253`).
  - When a caller's item is at the exiting end, the picture does not move, under the edge-to-edge layout above (`RecycleIsSeamless`).
  - When the spacer is at the exiting end, the remaining items shift by the size of the item nearest that end minus the spacer's size along the scroll axis: its height for Up and Down, 0 px for Left and Right, where a leftover spacer is rendered 0 px wide (`SpacerAtExitShift`, and `SpacerAtExitShiftBack` for Down and Right). There is no shift exactly when the two are equal, so for Left and Right the items jump by the whole item's width. `DummyAtExitJumps` shows a 30 px jump.
- `handleRemoveItem`'s guard counts items, not distinct ids. With duplicate ids the list can become empty (`DuplicateIdsCanEmptyList`).

## Model

| member | source | states |
|---|---|---|
| MarqueeSequence.AsItems | src/Marquee/index.tsx:75 | the caller's items, element by element, as non-spacer entries |
| MarqueeSequence.RealsConcat | src/Marquee/index.tsx:140-154 | the caller's items of a concatenation are those of the parts, in order |
| MarqueeSequence.RealsOfAsItems | src/Marquee/index.tsx:75-80 | wrapping the caller's items and filtering the spacers out again gives them back unchanged |
| MarqueeSequence.InsertDummy | src/Marquee/index.tsx:137-154 | a new spacer goes first for Up/Left and last for Down/Right; the other entries are unchanged and in order |
| MarqueeSequence.ResizeDummies | src/Marquee/index.tsx:155-163 | every spacer gets the new height and keeps its id; every other entry is unchanged |
| MarqueeSequence.RemoveDummies | src/Marquee/index.tsx:169-172 | no spacer is left, the caller's items keep their order, and the list never grows |
| MarqueeSequence.NoDummyIsAsItems | src/Marquee/index.tsx:171 | a list without spacers is exactly its caller's items |
| MarqueeSequence.WithSpacer | src/Marquee/index.tsx:133-164 | inserts a spacer when there is none and resizes the existing one otherwise; with at most one spacer before, exactly one spacer of the missing height after; the caller's items keep their order |
| MarqueeSequence.Rotate | src/Marquee/index.tsx:310-314 | Up/Left move element 0 to the end, Down/Right move the last element to the front; length and multiset are preserved |
| MarqueeSequence.RotateRoundTrip | src/Marquee/index.tsx:310-314 | a rotation in one direction is undone by one in the opposite direction |
| MarqueeSequence.RotateKeepsAtMostOneDummy | src/Marquee/index.tsx:310-314 | a recycle never creates a second spacer |
| MarqueeSequence.IsHorizontal | src/Marquee/index.tsx:199 | Left and Right are horizontal; `View` and `ContainerClassList` use it; the choice between width and height at index.tsx:237 and :254 is part of `measure` |
| MarqueeSequence.IsVertical | src/Marquee/index.tsx:200 | Up and Down are vertical; `UpdateSpacer` and `View` use it |
| MarqueeSequence.RecyclesFromFront | src/Marquee/index.tsx:299 | the test for Up or Left: those directions insert the spacer first, measure the first item and recycle from the front; `InsertDummy`, `Rotate` and `ExitSize` state each use |
| MarqueeSequence.HasDummy | src/Marquee/index.tsx:135 | whether some entry is a spacer; `WithSpacer` states what each answer leads to |
| MarqueeSequence.FirstReal | src/Marquee/index.tsx:234-243 | the index of the first non-spacer entry, with every entry before it a spacer; none when all entries are spacers |
| MarqueeSequence.LastReal | src/Marquee/index.tsx:251-260 | the index of the last non-spacer entry, with every entry after it a spacer; none when all entries are spacers |
| MarqueeSequence.ExitSizeNeedsReal | src/Marquee/index.tsx:229-261 | a positive size for the exiting item needs a caller's item in the list; with none, the size is 0 and no recycle can happen |
| MarqueeSequence.ExitSize | src/Marquee/index.tsx:298-301 | the size of the first non-spacer entry for Up/Left and of the last for Down/Right, 0 when there is none; `ExitSizeNeedsReal` and `MeasureExiting` state it |
| MarqueeSequence.FirstItemSize | src/Marquee/index.tsx:229-244 | the loop returns the size of the first non-spacer child, or 0 when there is none |
| MarqueeSequence.LastItemSize | src/Marquee/index.tsx:246-261 | the loop returns the size of the last non-spacer child, or 0 when there is none |
| MarqueeSequence.Passed | src/Marquee/index.tsx:303 | the recycle test as written; `PassedIff` states what it means |
| MarqueeSequence.PassedIff | src/Marquee/index.tsx:303 | `floor(abs(v)/size) > 0` holds exactly when the size is positive and the offset has covered it |
| MarqueeSequence.ExtentConcat | src/Marquee/index.tsx:298-315 | the total measured length of a concatenation is the sum of the parts' lengths |
| MarqueeSequence.RecycleIsSeamless | src/Marquee/index.tsx:306-315 | when a caller's item sits at the exiting end, a recycle plus adding back its size leaves every other entry at the same screen position |
| MarqueeSequence.SpacerAtExitShift | src/Marquee/index.tsx:298-315 | for Up and Left with the spacer at the front, a recycle moves the spacer but adds back the first item's size, so every other entry's screen position changes by exactly the item's size minus the spacer's size along the scroll axis |
| MarqueeSequence.SpacerAtExitShiftBack | src/Marquee/index.tsx:298-315 | for Down and Right with the spacer at the back, a recycle moves the spacer but adds back the last item's size, so every other entry's screen position changes by exactly the item's size minus the spacer's size along the scroll axis |
| MarqueeSequence.LeadAfterBackRotation | src/Marquee/index.tsx:313 | moving the back entry to the front moves every other entry one index along and shortens its distance from the bottom or right edge by the moved entry's size |
| MarqueeSequence.DummyAtExitJumps | src/Marquee/index.tsx:298-315 | one instance where the shift is not zero: a 50 px spacer in front of a 20 px item, scrolling up, makes the item jump 30 px |
| MarqueeEngine.Offset | src/Marquee/index.tsx:274-294 | the offset field a direction animates: Up→top, Right→right, Down→bottom, Left→left; `WithOffset` and `Tick` state what changes it |
| MarqueeEngine.WithOffset | src/Marquee/index.tsx:321-327 | only the direction's offset takes the new value; the other three offsets and the items are unchanged |
| MarqueeEngine.Reverse | src/Marquee/index.tsx:80 | element i of the result is element n-1-i of the input |
| MarqueeEngine.ReverseInvolution | src/Marquee/index.tsx:80 | reversing twice gives back the input |
| MarqueeEngine.InitState | src/Marquee/index.tsx:53-84 | all four offsets are 0; the items are the caller's in order, or reversed exactly when `inverseMarqueeItems` is set; there is no spacer |
| MarqueeEngine.InitStateItems | src/Marquee/index.tsx:75-80 | the caller's items in the initial list are the input, or its reverse exactly when asked |
| MarqueeEngine.Recycle | src/Marquee/index.tsx:310-314 | `push(shift())` or `unshift(pop())` on the copied list is the rotation for the direction |
| MarqueeEngine.MeasureExiting | src/Marquee/index.tsx:298-301 | measures the first non-spacer entry for Up/Left and the last one for Down/Right |
| MarqueeEngine.Marquee.constructor | src/Marquee/index.tsx:90-94 | starts from the initial state with no hover and both busy flags clear; at most one spacer and no positive offset |
| MarqueeEngine.Marquee.Reset | src/Marquee/index.tsx:98-105 | new items or a new `inverseMarqueeItems` rebuild the state from scratch |
| MarqueeEngine.Marquee.ShouldPause | src/Marquee/index.tsx:264 | pauses exactly when `paused` holds, or `pauseOnHover` is on and the container is hovered, or `pauseOnItemHover` is on and an item is hovered; with neither option, or with nothing hovered, it is exactly `paused`; `Tick` makes a paused tick a no-op |
| MarqueeEngine.Marquee.UpdateSpacer | src/Marquee/index.tsx:115-176 | does nothing unless every dimension is non-zero and the direction is vertical; otherwise sets `isUpdatingSpacer` and leaves the offsets alone. Shorter content ends with exactly one spacer of height container−content; otherwise every spacer is removed. The caller's items keep their order |
| MarqueeEngine.Marquee.ClearUpdatingSpacer | src/Marquee/index.tsx:165-173 | the delayed reset clears `isUpdatingSpacer` |
| MarqueeEngine.Marquee.ClearRecycling | src/Marquee/index.tsx:318 | the delayed reset clears `isRecycling` |
| MarqueeEngine.Marquee.Tick | src/Marquee/index.tsx:264-332 | no change when paused by `shouldPause` or while the spacer is updating. Otherwise, only the direction's offset changes. On a recycle (the item has passed and `isRecycling` is clear) the list is rotated, the offset becomes v+size with v < offset <= 0, and `isRecycling` is set. Otherwise the offset drops by 0.5 px and the items are unchanged. At most one spacer and no positive offset are kept |
| MarqueeEngine.Marquee.MouseEnterContainer | src/Marquee/index.tsx:404-409 | with `pauseOnHover`, sets `isHovered` and reports that `onMarqueeHover` fires; otherwise changes nothing |
| MarqueeEngine.Marquee.MouseLeaveContainer | src/Marquee/index.tsx:410-414 | with `pauseOnHover`, clears `isHovered`; otherwise changes nothing |
| MarqueeEngine.Marquee.MouseEnterItem | src/Marquee/index.tsx:379-384 | entered on a caller's item (the spacer's box at index.tsx:345-355 has no handler): with `pauseOnItemHover`, records the hovered index and reports that `onMarqueeItemHover` fires |
| MarqueeEngine.Marquee.MouseLeaveItem | src/Marquee/index.tsx:385-389 | with `pauseOnItemHover`, clears the hovered index |
| MarqueeView.MarqueeStyle | src/Marquee/index.tsx:218-227 | exactly one of top/right/bottom/left is set: the key of the direction, holding that direction's offset |
| MarqueeView.ContainerSizing | src/Marquee/index.tsx:209-216 | a truthy `height` wins, then a truthy `minHeight`, then a minimum height of 150 px; the size is never 0 |
| MarqueeView.ContainerClassName | src/Marquee/index.tsx:399-401 | the class template with its defaults; `ContainerClassList` states the names it yields |
| MarqueeView.FirstSpace | src/Marquee/index.tsx:399-401 | the position of the first space in a class string |
| MarqueeView.SplitJoin | src/Marquee/index.tsx:399-401 | names without spaces joined by single spaces read back as the same list of names |
| MarqueeView.ContainerClassList | src/Marquee/index.tsx:399-401 | the container's class attribute is `marquee-container`, then `horizontal` for Left/Right, then `fade-mask-<color>` unless the mask is off (default on, default white), then the caller's class if given |
| MarqueeView.View | src/Marquee/index.tsx:337-372 | a spacer renders as an invisible box sized along the scroll axis only (0 px wide when horizontal, the spacer's height when vertical, `auto` across); a string or record renders its text, an element renders as itself with no colour, and any other non-null value renders as its string form; a colour is shown only from a record |
| ItemManager.TrimStart | dev/components/ItemManager.tsx:29 | drops exactly the leading JavaScript white space |
| ItemManager.TrimEnd | dev/components/ItemManager.tsx:29 | drops exactly the trailing JavaScript white space |
| ItemManager.TrimEmptyIff | dev/components/ItemManager.tsx:29 | trimming leaves nothing exactly when the text is all white space |
| ItemManager.Trim | dev/components/ItemManager.tsx:29-32 | the trimmed text neither starts nor ends with white space |
| ItemManager.TrimIdempotent | dev/components/ItemManager.tsx:32 | trimming a trimmed text changes nothing |
| ItemManager.InitialItems | dev/components/ItemManager.tsx:14-20 | the five defaults with ids 1 to 5 and colours 1, 2, 3, 4, 1; `InitialColorsUsed` and `ResetToDefault` state their use |
| ItemManager.Find | dev/components/ItemManager.tsx:48 | the first index with the id, or none when no item has it |
| ItemManager.WithoutId | dev/components/ItemManager.tsx:43 | no item with the id is left, and the list never grows |
| ItemManager.WithoutIdMembers | dev/components/ItemManager.tsx:43 | the result holds exactly the items with another id |
| ItemManager.WithoutAbsentId | dev/components/ItemManager.tsx:43 | removing an id that no item has changes nothing |
| ItemManager.WithoutIdConcat | dev/components/ItemManager.tsx:43 | the filter distributes over concatenation |
| ItemManager.WithoutPresentId | dev/components/ItemManager.tsx:41-45 | when only item k has the id, removal drops exactly item k, keeps the others in order, and shrinks the list by one |
| ItemManager.WithoutIdUnique | dev/components/ItemManager.tsx:43 | removal keeps ids unique |
| ItemManager.DuplicateIdsCanEmptyList | dev/components/ItemManager.tsx:42-43 | two items sharing an id pass the guard and both go, leaving an empty list |
| ItemManager.WithText | dev/components/ItemManager.tsx:57 | length, ids and colours are preserved; matching items get the new text, the others keep theirs |
| ItemManager.WithColor | dev/components/ItemManager.tsx:69 | length, ids and texts are preserved; matching items get the new colour, the others keep theirs |
| ItemManager.ColorsUsed | dev/components/ItemManager.tsx:414 | the size of the set of colours; `ColorsMembers`, `ColorsUsedBounds` and `InitialColorsUsed` state its value |
| ItemManager.ColorsMembers | dev/components/ItemManager.tsx:414 | the colour set holds exactly the colours that occur in the list |
| ItemManager.ColorsUsedBounds | dev/components/ItemManager.tsx:414 | "Colors Used" is at most the number of items, and at least 1 for a non-empty list |
| ItemManager.SaveEditKeepsColorsUsed | dev/components/ItemManager.tsx:57 | editing a text never changes "Colors Used" |
| ItemManager.InitialColorsUsed | dev/components/ItemManager.tsx:14-20 | the default list uses four colours |
| ItemManager.ItemManager.constructor | dev/components/ItemManager.tsx:22-26 | the edit session starts empty: text '', colour 1, nothing being edited |
| ItemManager.ItemManager.SetNewItemText | dev/components/ItemManager.tsx:105 | typing sets the new item's text |
| ItemManager.ItemManager.SetNewItemColor | dev/components/ItemManager.tsx:127 | choosing sets the new item's colour |
| ItemManager.ItemManager.SetEditText | dev/components/ItemManager.tsx:241 | typing sets the edit text |
| ItemManager.ItemManager.AddItem | dev/components/ItemManager.tsx:28-39 | does nothing when the trimmed text is empty; otherwise appends exactly one item with the clock id, the trimmed text and the chosen colour, keeps the earlier items, and resets the inputs to '' and 1; a fresh id keeps ids unique |
| ItemManager.ItemManager.RemoveItem | dev/components/ItemManager.tsx:41-45 | does nothing with at most one item; otherwise filters out the id; with unique ids, the list loses exactly one item when the id is present, stays non-empty, and keeps its ids unique |
| ItemManager.ItemManager.EditItem | dev/components/ItemManager.tsx:47-53 | when the id exists, starts editing it with the first matching item's text; otherwise changes nothing |
| ItemManager.ItemManager.SaveEdit | dev/components/ItemManager.tsx:55-61 | does nothing when the trimmed edit text is empty; otherwise gives matching items the trimmed text and clears the session |
| ItemManager.ItemManager.CancelEdit | dev/components/ItemManager.tsx:63-66 | clears the edit session |
| ItemManager.ItemManager.ColorChange | dev/components/ItemManager.tsx:68-70 | recolours exactly the items with the id |
| ItemManager.ItemManager.ResetToDefault | dev/components/ItemManager.tsx:72-74 | the list becomes exactly the five default items |

## Left out

- Rendering (JSX), DOM refs and `ResizeObserver`. Measurements are inputs, and the spacer update is an event the caller triggers.
- `console.log` calls. They have no effect on state.
- `useInterval` (`src/helpers/hookHelpers/useInterval.ts`) and the interval `delay`. Ticks are calls to `Tick`; scheduling is not modelled.
- `useWindowResize` (`src/Marquee/hooks/useWindowResize.ts`). It handles window events through `useDebounce`, which is not part of this model.
- `onPause` and `onResume`. They are declared but never invoked by the component.
- Absent `marqueeItems` and `direction` props. The callers pass resolved values; the defaults `[]` and `UP` are not modelled separately.
- NaN and non-number values in the truthiness tests of `height` and `minHeight`. Sizes are integers.
- `null` items. `typeof null` is `'object'` and only the spacer test at `index.tsx:339` guards against it, so the source throws a TypeError at `'text' in marqueeItem` (`index.tsx:367`) and at `'id' in item` (`index.tsx:398`). `Content` has no null case.
- Values that look like spacers. The source treats any object with an `isDummy` field as a spacer; the model keeps caller items and spacers apart by construction.
- The spacer's width. It is always 0, so the model stores only its height.
- The stylesheet `index.scss` (imported at `index.tsx:3`): margins, gaps and fractional sizes between entries. The layout is edge to edge in whole pixels, so the seamlessness lemmas say nothing about a styled gap.
- The React `key` strings at `index.tsx:347`, `:377` and `:398`, the `marqueeItemClassName`/`marqueeClassName` strings of entries and strip, and the inline styles other than position and container sizing.
- The timing of events around React batching. Each method models one committed update. Nothing models two ticks that read the same stale state before either commits.
- ContainerClassList: the read-back into class names is proved only for a caller class name without spaces. `ContainerClassName` builds the string for any `marqueeContainerClassName`, several space-separated names included, as `index.tsx:401` does; the repository's callers pass single names.
- The layout, hover effects and other UI glue of the item editor, and the other demo components.
- Future Unicode space separators. `trim` removes the ECMAScript WhiteSpace and LineTerminator code points; category Zs is listed by code point as of current Unicode versions.
