# MentionsTextInput — mention tracking core

A model of the logic inside the `MentionsTextInput` text box of
react-native-mentions. The component watches what the user types. When a
trigger character such as `@` is typed at a valid place, it starts
*tracking*: it opens a suggestions panel and, on every change, reports the
keyword being typed (`@bo`, `@bob`, …) to the caller's `triggerCallback`. A
space while tracking, or an empty text, stops tracking and closes the
panel. The text box also grows with its content between a minimum and a
maximum height.

Modules:

- `Wrappers` (`wrappers.dfy`): `Option`, standing for JavaScript's `undefined`.
- `JsText` (`js_text.dfy`): `substr`, the cursor character, the prefix up to
  the cursor and the `trim()` white-space set.
- `ComponentProps` (`props.dfy`): the props the core reads, the
  `triggerLocation` values and the default props.
- `Keyword` (`keyword.dfy`): keyword extraction. The regular expression
  `\B?<trigger>[a-z0-9_-]+|\B?<trigger>` (flags `gi`) is written out as an
  explicit scan. `FirstQualifyingFrom` and `GlobalMatches` follow the global
  match loop of `String.prototype.match`. `LastQualifyingBefore` and
  `IsLastMention` are an independent reference definition: the trigger
  occurrence that qualifies last, plus the longest `[A-Za-z0-9_-]` run that
  follows it. The lemmas prove the two agree.
- `Tracking` (`tracking.dfy`): the start / stop / keep decision of `onChangeText`.
- `Layout` (`layout.dfy`): the suggestions-panel height rule, the autosize
  rule, the render clamp and the `MaxVisibleRowCount` validator.
- `Mentions` (`mentions_text_input.dfy`): the component as a class. Its
  fields are the props, `tracking`, `previousChar`, `selEnd`, the panel's
  target height and the text box height. Two ghost traces record what was
  passed to the caller's `onChangeText` and `triggerCallback`. The methods
  are the event handlers. Four client methods step through sessions:
  `TriggerAfterWordIgnored`, `TrackedMention` and `SpaceEndsMention` type
  mentions, and `ClearedByParent` autosizes the box and then has the parent
  clear the text.

Modelling decisions:

- `setState` is taken to apply immediately. The code keeps two tracking
  flags: `this.state.isTrackingStarted` (read by the stop check) and
  `this.isTrackingStarted` (read by `identifyKeyword` and by
  `componentWillReceiveProps`). Under that assumption they are always equal,
  and the model keeps one field, `tracking`.
- The animated panel height is modelled as the last target requested. A new
  request replaces the previous one.
- The keyword prefix is `val.substr(0, selection.end + 1)`, so it includes
  the character at the cursor (src/MentionsTextInput.js:71).
- The trigger must be a printable ASCII character that is not in
  `[A-Za-z0-9_]`, not `-`, and not a regular-expression syntax character
  (`ValidTrigger`). Each exclusion has its own reason. The pattern escapes
  the trigger only in anywhere mode, so a syntax character would stop being
  literal in new-word-only mode. A word character would flip the meaning of
  `\B`, and letters are also affected by the `i` flag. A `-` stays literal
  in both modes, but `[a-z0-9_-]` would then swallow a following trigger. The
  printable-ASCII bound is a conservative simplification: it also excludes
  non-ASCII triggers with no case variant, such as `§` or `＠`, which the
  pattern would match literally.
- Under that precondition, `\B` before the trigger holds exactly when the
  trigger is at index 0 or follows a non-word character
  (`BoundaryBeforeTrigger`). No match can contain a second trigger, so the
  matches correspond one-to-one to the qualifying trigger occurrences.
- `componentWillReceiveProps` uses the new props for its rule. It still uses
  the current props for the fallback row height in `openSuggestionsPanel` and
  for the minimum height in `resetTextbox`, because React replaces
  `this.props` only after this method returns. `ReceiveProps` does the same.
- An undefined `MaxVisibleRowCount` makes the requested height NaN. NaN
  fails `height || height === 0`, so the panel falls back to the row
  height. The model writes NaN as `None`.
- Heights are integers. The default props are the constants
  `DefaultTextInputMinHeight` (30), `DefaultTextInputMaxHeight` (80) and
  `DefaultHorizontal` (true). `WithDefaults` builds props that use them.
  The constructor also covers `componentWillMount`, so the text box starts
  at the minimum height.
- Tracking off implies the panel target is 0 (`Valid()`, kept by every
  handler). The converse fails: an empty suggestions list closes the panel
  while tracking continues (`TrackedMention` steps through this case).
- The start check in new-word-only mode asks whether the previous character
  trims to nothing. Only the `trim()` white-space set counts as a boundary.
  A plain space is the only character that stops tracking. When the
  trigger is itself a space and the word-boundary policy holds, the trigger
  check wins. `StopOnSpaceWhileTracking` covers every other case.

## Model

| member | source | states |
|---|---|---|
| JsText.Substr | src/MentionsTextInput.js:44 | `substr` yields the code units from `start`, `length` of them, cut off at the end of the text; nothing when `start` is at or past the end |
| JsText.CharAt | src/MentionsTextInput.js:44 | the character read at the cursor is the one character there, or the empty string when the cursor is at or past the end |
| JsText.Prefix | src/MentionsTextInput.js:71 | the scanned text is a prefix of the value that runs up to and includes the cursor character |
| JsText.TrimsToEmpty | src/MentionsTextInput.js:45 | `s.trim().length === 0`: every character of `s` is ECMAScript white space or a line terminator |
| Keyword.NotWordBoundary | src/MentionsTextInput.js:69-70 | the `\B` assertion: the characters on both sides of the position are both word characters or both not, with the text's ends counting as non-word |
| Keyword.Qualifies | src/MentionsTextInput.js:69-70 | a match can start at an index when the trigger is there and, in new-word-only mode only, `\B` holds in front of it; its consequences are in BoundaryBeforeTrigger and FirstQualifyingFrom |
| Keyword.BoundaryBeforeTrigger | src/MentionsTextInput.js:69-70 | for a valid trigger, `\B` in front of it holds iff it is at index 0 or follows a non-word character |
| Keyword.RunEnd | src/MentionsTextInput.js:70 | the greedy `[a-z0-9_-]` run (case-insensitive) ends at the first non-run character or at the end of the text, and everything before that end is a run character |
| Keyword.RunEndUnique | src/MentionsTextInput.js:70 | the run end is the only index with those two properties |
| Keyword.MatchAt | src/MentionsTextInput.js:70 | the match at an index is the slice starting there, of length at least one, whose later characters are all run characters and which ends at the end of the text or before a non-run character |
| Keyword.FirstQualifyingFrom | src/MentionsTextInput.js:70-71 | the search for the next match finds the leftmost qualifying trigger at or after the resume point, or reports that none is left |
| Keyword.GlobalMatches | src/MentionsTextInput.js:70-71 | every match of the global search begins with the trigger |
| Keyword.NoMatchesWithoutQualifying | src/MentionsTextInput.js:70-72 | with no qualifying trigger after the resume point, the global match list is empty |
| Keyword.NoTriggerInRun | src/MentionsTextInput.js:70 | a valid trigger never occurs inside a `[a-z0-9_-]` run, so a match never swallows a later trigger |
| Keyword.FirstQualifyingAtMost | src/MentionsTextInput.js:70-71 | the search finds a match at or before any qualifying trigger after the resume point |
| Keyword.QualifyingInsideMatch | src/MentionsTextInput.js:70 | the only qualifying trigger inside a match is the one it starts with |
| Keyword.GlobalMatchesEndAtLastOccurrence | src/MentionsTextInput.js:70-73 | the last global match is the match at the qualifying trigger that comes last |
| Keyword.LastQualifyingBefore | src/MentionsTextInput.js:70-73 | reference definition: the greatest qualifying index below a bound, or none when no index qualifies |
| Keyword.MatchAtIsMention | src/MentionsTextInput.js:70 | the match at a qualifying trigger is the trigger plus the maximal run that follows it |
| Keyword.LastMentionUnique | src/MentionsTextInput.js:70-73 | the last mention is determined by the text: its index is the last qualifying one and its text is the match there |
| Keyword.LastMentionIsLastMatch | src/MentionsTextInput.js:70-73 | the mention at the last qualifying trigger is the last element of the match list |
| Keyword.LastMatchIsLastMention | src/MentionsTextInput.js:70-73 | the last element of the match list is the mention at the last qualifying trigger |
| Keyword.LastMatch | src/MentionsTextInput.js:72-73 | `keywordArray[keywordArray.length - 1]`, or nothing when the match list is null or empty; a result starts with the trigger |
| Keyword.LastKeyword | src/MentionsTextInput.js:69-75 | the keyword `identifyKeyword` hands on: the last match in `val.substr(0, selection.end + 1)`; a result starts with the trigger, and LastKeywordNoneIff and LastKeywordIsLastMention characterise it |
| Keyword.LastKeywordNoneIff | src/MentionsTextInput.js:71-75 | nothing is reported iff no trigger in the text up to and including the cursor qualifies |
| Keyword.LastKeywordIsLastMention | src/MentionsTextInput.js:66-77 | the reported keyword is `w` iff `w` is the last qualifying trigger of the prefix plus its maximal `[A-Za-z0-9_-]` run (both directions) |
| Keyword.LastKeywordWithinPrefix | src/MentionsTextInput.js:71-74 | the reported keyword starts with the trigger and is a slice of the value that ends no later than the cursor character |
| Keyword.ExampleHelloBob | src/MentionsTextInput.js:66-77 | "hello @bob" with the cursor on the last character, anywhere mode, reports "@bob" |
| Keyword.ExampleIgnoresCase | src/MentionsTextInput.js:70 | the case-insensitive flag: "hello @BoB" reports "@BoB" |
| Keyword.ExampleCutAtCursor | src/MentionsTextInput.js:71-73 | in "hi @al @bob" with the cursor on the "o", "@bo" is reported: cut at the cursor, taken from the last trigger |
| Keyword.ExampleNewWordOnly | src/MentionsTextInput.js:69-70 | new-word-only mode: "x@bob" yields no match, " @bob" yields "@bob" |
| Tracking.WordBoundary | src/MentionsTextInput.js:45 | in new-word-only mode the previous character must trim to empty; in anywhere mode the policy always holds |
| Tracking.NextTransition | src/MentionsTextInput.js:44-50 | the Start/Stop/Keep decision of `onChangeText`: trigger check first, then the stop check; characterised by StartIff, StopOnEmptyText, StopOnSpaceWhileTracking and KeepIff |
| Tracking.StartIff | src/MentionsTextInput.js:44-47 | tracking starts iff the character at the cursor is the trigger and (anywhere mode, or the previous character trims to empty); the trigger check comes before the stop check |
| Tracking.StopOnEmptyText | src/MentionsTextInput.js:48-49 | an empty text stops tracking, whether or not it was on |
| Tracking.StopOnSpaceWhileTracking | src/MentionsTextInput.js:46-49 | a space at the cursor while tracking stops it, except when the trigger is a space and the word-boundary policy holds, when the trigger check wins |
| Tracking.KeepIff | src/MentionsTextInput.js:46-50 | the tracking state is left alone iff the text is non-empty, the cursor character is not a qualifying trigger, and it is not a space that arrives while tracking |
| Tracking.ExampleNewWordOnlyStart | src/MentionsTextInput.js:45-46 | new-word-only mode: "@" after "x" does not start tracking, "@" after a space does |
| Layout.VisibleRows | src/MentionsTextInput.js:28-31 | the number of rows shown is the smaller of `MaxVisibleRowCount` and the number of suggestions |
| Layout.HeightRequest | src/MentionsTextInput.js:28-32 | the requested height is NaN exactly when `MaxVisibleRowCount` is undefined |
| Layout.PanelTarget | src/MentionsTextInput.js:81 | `height \|\| height === 0 ? height : suggestionRowHeight`: a numeric height, zero included, is kept; an undefined or NaN height (`None`) falls back to the row height |
| Layout.HeightRequestBounds | src/MentionsTextInput.js:28-32 | with non-negative inputs, the requested height is rows × row height or items × row height, whichever is smaller, and never more than either |
| Layout.ExamplePanelHeights | src/MentionsTextInput.js:28-32 | three rows of height 20: 5 items ask for 60, 2 items for 40 |
| Layout.AutosizeHeight | src/MentionsTextInput.js:149-155 | the text box height is the minimum iff the content fits in it, otherwise the content height plus 10; it is never below the minimum or the content height |
| Layout.RenderedHeight | src/MentionsTextInput.js:163 | the rendered height is the computed height capped at the maximum |
| Layout.RenderedHeightWithinBounds | src/MentionsTextInput.js:149-163 | when the minimum is at most the maximum, the rendered height stays between them for every content height |
| Layout.ExampleAutosize | src/MentionsTextInput.js:149-163 | with minimum 30, content 50 gives 60 and content 10 gives 30; content 100 renders at the maximum 80 |
| Layout.MaxVisibleRowCountError | src/MentionsTextInput.js:187-191 | the validator reports an error iff the list is vertical and `MaxVisibleRowCount` is missing or 0 |
| Layout.ValidatorFlagsDegenerateHeight | src/MentionsTextInput.js:187-191 | for a vertical list with items and a non-zero row height, the validator reports an error iff the requested height would be NaN or zero |
| Mentions.MentionsTextInput.constructor | src/MentionsTextInput.js:6-22 | a new component is not tracking, its previous character is a space, its cursor is at 0, its panel is closed and its text box is at the minimum height |
| Mentions.MentionsTextInput.OpenSuggestionsPanel | src/MentionsTextInput.js:79-84 | the panel target becomes the given height, zero included, or the row height when none is given |
| Mentions.MentionsTextInput.CloseSuggestionsPanel | src/MentionsTextInput.js:55-60 | the panel target becomes 0 |
| Mentions.MentionsTextInput.StartTracking | src/MentionsTextInput.js:86-92 | tracking is on and the panel target is one row |
| Mentions.MentionsTextInput.StopTracking | src/MentionsTextInput.js:94-100 | tracking is off and the panel target is 0 |
| Mentions.MentionsTextInput.ResetTextbox | src/MentionsTextInput.js:102-107 | tracking is off, the previous character is a space, the panel target is 0 and the text box is at the minimum height |
| Mentions.MentionsTextInput.IdentifyKeyword | src/MentionsTextInput.js:66-77 | while tracking, the last keyword (if any) is appended to the reported keywords; otherwise nothing is reported |
| Mentions.MentionsTextInput.OnChangeText | src/MentionsTextInput.js:39-53 | the text is forwarded; on Start, tracking is on with a one-row panel; on Stop, tracking is off with the panel closed; on Keep, both are unchanged; the previous character becomes the cursor character; at most one keyword is reported, and only while tracking; the panel stays closed while nothing is tracked |
| Mentions.MentionsTextInput.ReceiveProps | src/MentionsTextInput.js:24-37 | an empty value resets the text box; while tracking a vertical list with items, the panel target is min(rows, items) × row height (the current row height when rows are undefined); an empty list closes the panel; otherwise nothing changes; the new props are taken |
| Mentions.MentionsTextInput.OnSelectionChange | src/MentionsTextInput.js:143-148 | the cursor becomes the selection's end |
| Mentions.MentionsTextInput.OnContentSizeChange | src/MentionsTextInput.js:149-156 | the text box height becomes the autosized height for the reported content height |
| Mentions.MentionsTextInput.RenderedTextInputHeight | src/MentionsTextInput.js:163 | the height the text box is rendered with never exceeds the maximum or the computed height |
| Mentions.TriggerAloneKeyword | src/MentionsTextInput.js:66-77 | a trigger typed into an empty box is reported on its own, in either mode |

## Left out

- Rendering (`render`, `FlatList`, `TextInput`, `Animated.View`), styles and placeholder text. These are host UI components.
- `renderSuggestionsRow`, `keyExtractor` and `loadingComponent`. These are renderers the caller supplies. The suggestion rows may call `StopTracking`, which is modelled.
- The animation's duration and interpolation (100 ms timing). Only the final target is kept.
- The caller's `onChangeText` and `onSelectionChange` callbacks. They are foreign code. The texts passed to `onChangeText` are recorded in the ghost trace `forwarded`, and `onSelectionChange` is modelled as setting the cursor. `selection.start` is never read and is not modelled.
- React's asynchronous, batched `setState` and the lifecycle ordering. State updates are taken to apply at once.
- General regular-expression semantics. Only the one fixed pattern is modelled, as a scan, and only for triggers that satisfy `ValidTrigger`. Other triggers are excluded by precondition, not modelled; the reasons for each exclusion are given with `ValidTrigger` above.
- Floating-point heights, NaN arithmetic beyond the undefined `MaxVisibleRowCount` case, and a `null` or non-numeric `MaxVisibleRowCount`. Heights are integers.
- PropTypes type checks other than the `MaxVisibleRowCount` validator.
- Non-ASCII triggers, including ones with no case variant (`§`, `＠`) that the pattern would match literally. `ValidTrigger` admits printable ASCII only.
- UTF-16 surrogate pairs. Each `char` stands for one UTF-16 code unit.
