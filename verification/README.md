# magic-focus-finder: the directional focus engine, modelled in Dafny

magic-focus-finder moves keyboard focus between the focusable elements of a page
with the arrow keys, as a television remote does. It registers the elements it
finds under a container and caches a position for each: the top-left corner and
the midpoints of the four outer edges. On an arrow key it keeps the elements that
lie wholly in that direction from the focused one and focuses the best of them.
The repository holds four generations of this engine, and each is modelled here:

- `FocusFinder` (source/main-browserify.js) is the current engine. It scores
  every visible candidate by a weighted mix of distance and angular deviation
  (azimuth). Line of sight can be preferred, weights can be overridden per element
  and direction, positions can be recalculated for dynamic elements, and the
  focus notifications are emitted in a fixed order.
- `VendorFocusFinder` (vendor/magic-focus-finder/source/main.js) is the vendored
  predecessor. It picks the nearest candidate by Euclidean distance, stops at the
  first zero distance, and reads direction overrides when an element registers.
- `LegacyFocusFinder` (source/main.js) is the first AMD version. It keeps each
  position as JSON text in a `position` attribute and parses it back on every
  move. It adds its key listener at most once.
- `KeyJumper` (source/inspiration.js) is the jQuery plugin the project started
  from. It computes positions from offset and outer size, has helper jumps
  driven by a `data-keynav-helper` attribute, and wraps after a helper jump.

Shared modules hold what the generations have in common:

- `Base`: directions, keys, the host document as a value, selector resolution
  and observable effects.
- `Tokens`: the space-separated override attributes.
- `Geometry`: anchors, the half-plane tests and squared gaps.
- `Angles`: the azimuth computation of the current engine.
- `Scoring`: its weighted reduce.
- `Nearest`: the nearest-candidate selection of the older engines.
- `PositionJson`: the JSON text of a position.

Each engine has the same two layers. A `State` datatype with pure transition
functions (`SetCurrentSpec`, `RegisterSpec`, `MoveSpec`, `HandleKeySpec`, ...)
gives the behaviour. A class `Engine` holds the same state in fields, and its
methods perform the transitions step by step; each is proved against the
transition function (`Model() == XSpec(old(Model()), ...)`). The properties are
lemmas about the transition functions.

The host is a value (`Dom`) that the engine is given, holding:

- each element's bounding rectangle and attributes;
- whether computed style hides the element;
- whether the visibility library reports it visible;
- what each selector resolves to;
- which marked descendants a container scan returns.

`Math.sqrt` and `Math.atan2` are function parameters. Properties that need
`sqrt` to be increasing and non-negative say so in their preconditions. Where
the JavaScript throws (for example on reading a position that an unregistered
focused element does not have), the model returns the state as it was left at
the throw.

## Model

| member | source | states |
|---|---|---|
| Base.Resolve | source/main-browserify.js:120-166 | an element target resolves to itself, no target to nothing, a selector to its `querySelector` match exactly when the document accepts its syntax (it is non-empty and not malformed) and it matches |
| Base.FindBinding | vendor/magic-focus-finder/source/main.js:149-167 | `_.findWhere` over an array keymap: nothing exactly when no binding has the code, otherwise the key of the first binding with it |
| Base.Without | source/main-browserify.js:265-271 | `_.reject` by node identity keeps exactly the other elements and drops every copy of the removed one |
| Base.WithoutAppend | source/main-browserify.js:265-271 | `_.reject` distributes over concatenation, so the remaining elements keep their order |
| Base.WithoutHead | source/main-browserify.js:238-271 | the first element left after `_.reject` is the first entry of the old list other than the removed element, which is what `_.first` then picks |
| Base.Shown | vendor/magic-focus-finder/source/main.js:179-193 | the elements kept by the hidden-style check are exactly the listed ones that are not hidden |
| Base.ShownAppend | vendor/magic-focus-finder/source/main.js:179-193 | the hidden-style check distributes over concatenation, so registration keeps document order |
| Base.LookupSelector | source/main-browserify.js:177-192 | the container 'document' is the document node; any other selector throws exactly when the document rejects it (empty or malformed), and otherwise is found exactly when `querySelector` matches it |
| Base.LookupContainer | source/main-browserify.js:177-192 | an element container is used as it is; a null container throws before anything changes |
| Base.NotificationsAppend | source/main-browserify.js:120-166 | the notifications of a concatenated effect log are those of each part, in order |
| Tokens.Split | source/main-browserify.js:474-480 | `split(' ')` yields at least one token and no token contains a space |
| Tokens.JoinSplit | source/main-browserify.js:474-480 | joining the tokens of a split with single spaces gives back the attribute text |
| Tokens.SplitJoin | source/main-browserify.js:474-480 | splitting space-free tokens joined by spaces gives back the same tokens |
| Tokens.DirectionOverrides | source/main-browserify.js:474-480 | a missing attribute gives no overrides; a present one gives an entry for each of the four directions |
| Tokens.OverridesOfFourTokens | source/main-browserify.js:474-480 | for an attribute of four tokens in the order up, right, down, left, a direction's override is its token, and the token 'null' means no override |
| Tokens.NoAttributeNoOverride | vendor/magic-focus-finder/source/main.js:278-284 | an element without the override attribute has no override in any direction |
| Tokens.LegacyHasOverride | source/main.js:224-231 | without the attribute there is no override; with it, 'enter' (index -1, an undefined token) always counts as overridden |
| Tokens.LegacyReadingAgreesExceptMissingTokens | source/main.js:224-237 | the legacy test sees an override for a direction exactly when the newer reading has one, or when the attribute has too few tokens to reach that direction |
| Tokens.Helper | source/inspiration.js:139-151 | an element without a `data-keynav-helper` attribute has no helper target |
| Tokens.HelperOfFourTokens | source/inspiration.js:139-151 | a helper attribute of four space-free tokens gives each direction its token in up, right, down, left order, keeping 'null' as the literal token |
| Tokens.LegacyOverride | source/main.js:234-238 | the raw token at the key's index: none without the attribute or for 'enter', present exactly when the split has that index, free of spaces, and an override exactly when it is not 'null' |
| Geometry.Mid | source/main.js:150-170 | the centre coordinate is `Math.round` of the edge plus half the size |
| Geometry.RoundHalf | source/main.js:150-170 | for integer rectangles, that rounding equals `left + (width + 1) / 2` with floor division (halves round up) |
| Geometry.AnchorsOf | source/main.js:150-170 | the ten anchors: corner and left/top edges from the rectangle, both vertical-edge midpoints at the rounded horizontal centre, both horizontal-edge midpoints at the rounded vertical centre, bottom and right from the rectangle |
| Geometry.KeyJumperAnchors | source/inspiration.js:85-112 | keyJumper's anchors: the far edges are the rounded centre plus another half size, not the rectangle's own edges |
| Geometry.KeyJumperFarEdges | source/inspiration.js:85-112 | for non-negative sizes, keyJumper's right and bottom anchors overshoot the true edge by one exactly when the size is odd |
| Geometry.ReachesOpposite | source/main.js:174-211 | b lies above a exactly when a lies below b, and likewise left and right |
| Geometry.Reaches | source/inspiration.js:117-136 | the half-plane filter of each move; an element lies in its own half-plane only when it is at most zero high (up/down) or zero wide (left/right) |
| Geometry.GapOpposite | source/main.js:174-211 | the up gap from a to b is the down gap from b to a, and likewise left and right |
| Geometry.GapSquared | source/main.js:174-211 | the squared distance each move measures is zero exactly when the two facing edge midpoints coincide |
| Geometry.CloseElements | source/main.js:240-248 | the filter keeps exactly the known elements in the move's half-plane other than the excluded one, in order |
| Geometry.CloseElementsSnoc | source/inspiration.js:117-136 | filtering one more element appends it exactly when it is in the half-plane and not excluded |
| Geometry.CurrentExcluded | source/main.js:240-248 | the focused element is never among its own close elements |
| Geometry.Gaps | source/main.js:174-211 | each close element's squared gap is the distance formula of the move's direction before the square root |
| Angles.PositionOf | source/main-browserify.js:275-297 | the cached position holds the ten anchors plus centre coordinates equal to the rounded midpoints |
| Angles.Inside | source/main-browserify.js:449-451 | `_inside` holds only for a non-empty interval |
| Angles.InsideIsClosed | source/main-browserify.js:449-451 | both bounds of a non-empty interval are inside it, so the test is closed at both ends |
| Angles.Overlap | source/main-browserify.js:434-450 | for well-formed rectangles, `_overlap` holds exactly when the cross-axis spans of the two rectangles intersect |
| Angles.OverlapReadsCrossAxisOnly | source/main-browserify.js:434-445 | up and down overlap read only the horizontal extents and agree with each other |
| Angles.SideOverlapReadsCrossAxisOnly | source/main-browserify.js:434-450 | left and right overlap read only the vertical extents and agree with each other |
| Angles.Angle | source/main-browserify.js:378-430 | an overlapping candidate gets the direction's canonical bearing (0, 90, 180 or 270) |
| Angles.TruncRem | source/main-browserify.js:453-454 | JavaScript `%` keeps the dividend's sign: the remainder lies in [0, m) for non-negative and in (-m, 0] for negative dividends |
| Angles.TruncQuotient | source/main-browserify.js:453-454 | the same bounds for the truncated-quotient form of the remainder |
| Angles.AngleDifference | source/main-browserify.js:453-454 | the angular difference is never negative |
| Angles.AngleDifferenceSelf | source/main-browserify.js:453-454 | a bearing differs from itself by zero |
| Angles.AngleDifferenceWraps | source/main-browserify.js:453-454 | for differences in [-180, 540) the result is at most 180, and is the absolute difference, wrapped by 360 from 180 upward |
| Angles.DeviationBounded | source/main-browserify.js:378-454 | the deviation of an `atan2` bearing from a canonical direction lies in [0, 180] |
| Angles.OverlapMeansZeroDeviation | source/main-browserify.js:378-454 | an overlapping candidate has azimuth 0 |
| Angles.TestBoxesGetCanonicalBearings | test/test.js:785-837 | the test's boxes 41, 42 and 44 get bearings 90 (down), 270 (up), 0 (right) and 180 (left) |
| Scoring.MeasureOf | source/main-browserify.js:309-375 | a candidate's distance is `sqrt` of the direction's squared gap, its azimuth the deviation of its bearing, zero when it overlaps |
| Scoring.EffectiveWeights | source/main-browserify.js:510-580 | a 'distance' preference weighs (0.001, 1), an 'azimuth' preference (1, 0.001), anything else keeps the configured weights |
| Scoring.NonZero | source/main-browserify.js:457-467 | a zero maximum is replaced by a non-zero divisor; any other maximum is kept |
| Scoring.VisibleMeasures | source/main-browserify.js:510-580 | the visible candidates are kept, and only those |
| Scoring.VisibleMeasuresAppend | source/main-browserify.js:510-580 | the visibility filter distributes over concatenation, so candidates keep their list order, on which the tie rule depends |
| Scoring.MaxDistance | source/main-browserify.js:510-580 | the maximum distance starts at 0, bounds every candidate's distance, and is 0 or one of the candidates' distances |
| Scoring.MaxAzimuth | source/main-browserify.js:510-580 | the maximum azimuth starts at 0, bounds every candidate's azimuth, and is 0 or one of the candidates' azimuths |
| Scoring.Pick | source/main-browserify.js:510-580 | the reduce yields nothing only for no candidates, otherwise one of them |
| Scoring.NotBeforeTransitive | source/main-browserify.js:510-580 | the reduce's "newcomer ties or beats" comparison is transitive |
| Scoring.LastBestExtend | source/main-browserify.js:510-580 | one more candidate keeps the best unless it ties or beats it, in which case it becomes the best |
| Scoring.PickIsLastBest | source/main-browserify.js:510-580 | the reduce picks a candidate first in (line-of-sight rank, weighted score) order, the last of those in list order |
| Scoring.LineOfSightWins | source/main-browserify.js:510-580 | with line of sight preferred, any zero-azimuth candidate makes the winner one with zero azimuth |
| Scoring.LowestComputedWins | source/main-browserify.js:510-580 | among candidates of the winner's rank the winner has the lowest weighted score |
| Scoring.TieGoesToLater | source/main-browserify.js:510-580 | of two candidates that tie, the earlier one never wins |
| Scoring.Closest | source/main-browserify.js:510-580 | nothing is chosen exactly when no candidate is visible; a choice is always a visible candidate |
| Scoring.LastBestIsLeast | source/main-browserify.js:561-575 | the candidate the reduce keeps has the lowest line-of-sight rank and, within that rank, the lowest weighted score |
| Scoring.ClosestIsLastBest | source/main-browserify.js:510-580 | with a visible candidate, the chosen element is the last visible candidate that is best in (line-of-sight rank, weighted score) order, scored against the maxima of the visible candidates |
| Scoring.ScoreAll | source/main-browserify.js:549-556 | one weighted result per visible candidate, in order, keeping the candidate's element and azimuth and scoring it with `_getWeightedResult` against the shared maxima |
| Scoring.ScoresBounded | source/main-browserify.js:457-467 | each visible candidate's weighted score lies between 0 and the sum of the weights |
| Scoring.WeightedResult | source/main-browserify.js:457-467 | with non-negative weights, a result of values within their maxima lies between 0 and the sum of the weights |
| Scoring.HiddenCandidateIgnored | source/main-browserify.js:510-580 | adding an invisible candidate does not change the choice |
| Scoring.ChooseClosest | source/main-browserify.js:510-580 | the filter, max and reduce passes choose exactly `Closest` |
| Scoring.GatherVisible | source/main-browserify.js:510-580 | the first pass collects the visible candidates and their maximum distance and azimuth |
| Scoring.KeepBest | source/main-browserify.js:510-580 | the reduce loop ends with the running best that `Pick` defines |
| Nearest.FirstMin | source/main.js:251-280 | the strict-less scan finds nothing only for no candidates, otherwise an index in range |
| Nearest.FirstMinCharacterised | source/main.js:251-280 | the scan finds index k exactly when k holds the smallest distance and no earlier index does |
| Nearest.SameOrderSameFirstMin | source/main.js:251-280 | two distance lists that order every pair alike select the same index |
| Nearest.SquaredGapsSuffice | source/main.js:174-211 | with a strictly increasing `sqrt`, comparing distances selects the same candidate as comparing squared gaps |
| Nearest.ExitPoint | source/main.js:251-280 | the early exit stops right after the first zero distance, or at the end |
| Nearest.EarlyExitSound | source/main.js:251-280 | when distances are non-negative, exiting at the first zero distance selects the same candidate as the full scan |
| Nearest.EarlyExitNeedsNonNegative | vendor/magic-focus-finder/source/main.js:298-323 | with a negative distance after a zero, the early exit picks a different candidate from the full scan |
| Nearest.Roots | vendor/magic-focus-finder/source/main.js:240-270 | one `Math.sqrt` per squared gap, in order |
| Nearest.Distances | source/main.js:180-210 | one distance per close element, in order, the square root of its squared anchor gap for the direction |
| Nearest.NearestCandidate | vendor/magic-focus-finder/source/main.js:288-323 | a chosen element is known, not excluded, and in the half-plane; nothing is chosen exactly when no known non-excluded element is in the half-plane |
| Nearest.NearestIsSmallestGap | vendor/magic-focus-finder/source/main.js:288-323 | with or without the early exit, and for any increasing non-negative `sqrt`, the choice is the first close element of smallest squared gap |
| Nearest.ClosestWithEarlyExit | vendor/magic-focus-finder/source/main.js:298-323 | the `_.each` loop with its early `return false` selects the first minimum of the distances up to the exit point |
| Nearest.ClosestIndex | source/inspiration.js:156-181 | the `for` loop selects the first index of the smallest distance |
| PositionJson.Digits | source/main.js:145 | a number's decimal digits are non-empty and have no leading zero |
| PositionJson.ValueOfDigits | source/main.js:240-248 | reading the digits of a number gives back the number |
| PositionJson.DigitRun | source/main.js:240-248 | the digit run is all digits and stops at a non-digit or the end |
| PositionJson.ParseIntText | source/main.js:240-248 | parsing a written integer followed by a non-digit gives back the integer and the rest of the text |
| PositionJson.ParseMembersOfMembers | source/main.js:240-248 | parsing written members gives back their values, in key order, and the text after them |
| PositionJson.Encode | source/main.js:145 | the attribute text is braced |
| PositionJson.DecodeEncode | source/main.js:145-147 | parsing the stored `position` attribute gives back exactly the position that was stored |
| PositionJson.Decode | source/main.js:240-260 | a text that parses as a position is wrapped in braces, as `JSON.stringify` writes it |
| PositionJson.EncodeInjective | source/main.js:145 | distinct positions are stored as distinct texts |
| FocusFinder.SetCurrentSpec | source/main-browserify.js:120-166 | an unresolved target changes nothing; otherwise the target becomes focused, the focused class leaves the previous element for the target, and only focus, focused class and effect log change |
| FocusFinder.SetCurrentNotifies | source/main-browserify.js:120-166 | with events on, the notifications are losing-focus and focus-lost (if something was focused), then gaining-focus, focus-gained and focus-moved with direction, from and to |
| FocusFinder.LeaveNotifies | source/main-browserify.js:120-166 | leaving an element notifies losing-focus then focus-lost, whatever real focus does |
| FocusFinder.EnterNotifies | source/main-browserify.js:120-166 | entering notifies gaining-focus, focus-gained, focus-moved in that order, whatever real focus does |
| FocusFinder.SetCurrentSilently | source/main-browserify.js:120-166 | with events off no notification is emitted |
| FocusFinder.QuietEffects | source/main-browserify.js:120-166 | without events, leaving and entering emit only blur and focus calls |
| FocusFinder.FocusedClassFollowsFocus | source/main-browserify.js:120-166 | if only the focused element carries the focused class, that stays so |
| FocusFinder.PreferredOverrides | source/main-browserify.js:484-493 | a direction has a weight preference exactly when its `weight-override-<direction>` attribute is present, and the preference is its value |
| FocusFinder.RegisterSpec | source/main-browserify.js:247-262 | registration appends the element, caches its position and both override readings, and marks a hidden element dynamic; a capture-focus element takes the focus with the log and focused class `setCurrent` gives; otherwise focus, focused class and log stay |
| FocusFinder.RegisterAll | source/main-browserify.js:177-192 | registering a list appends it in order (hidden elements included) and caches a position for each element |
| FocusFinder.RefreshSpec | source/main-browserify.js:177-192 | a null container, or an empty or malformed selector, throws and changes nothing; a selector that finds nothing leaves no known elements and a null container |
| FocusFinder.RefreshRegistersScan | source/main-browserify.js:177-192 | after a refresh the known elements are exactly the scanned ones in document order, each positioned, and the container is kept as the found element |
| FocusFinder.SetDefaultFocusSpec | source/main-browserify.js:239-243 | a truthy default is focused if it resolves and changes nothing if it does not; else the first known element; with none known, `setCurrent(undefined)` focuses what the selector 'undefined' finds, or changes nothing |
| FocusFinder.UnregisterSpec | source/main-browserify.js:265-271 | the known list becomes the old one without the element, in order; unless it was focused, nothing else changes |
| FocusFinder.UnregisterRefocuses | source/main-browserify.js:238-271 | unregistering the focused element, with no default and another element known, focuses the first element of the remaining list, which is the first entry of the old list other than the removed element |
| FocusFinder.LockSpec | source/main-browserify.js:205-207 | lock only clears the move flag |
| FocusFinder.UnlockSpec | source/main-browserify.js:210-212 | unlock only sets the move flag |
| FocusFinder.DestroySpec | source/main-browserify.js:195-202 | destroy clears the known elements and the focus and restores the default configuration; the lock, focused class, positions, caches and effect log stay, so no event fires |
| FocusFinder.Recalc | source/main-browserify.js:301-306 | the per-element loop leaves a position for exactly the cached elements and the dynamic elements of the list |
| FocusFinder.RecalcRefreshesDynamic | source/main-browserify.js:301-306 | recalculation re-reads the position of exactly the dynamic known elements and keeps every other cached position |
| FocusFinder.RecalcSpec | source/main-browserify.js:301-306 | recalculation changes only positions: every dynamic known element gets its current rectangle, every other cached position stays, and no position appears for an element neither cached nor known |
| FocusFinder.AnchorMap | source/main-browserify.js:496-507 | the anchors of every cached position, for the same elements |
| FocusFinder.Measures | source/main-browserify.js:309-375 | each close element is measured from the focused one by its own cached anchors and visibility |
| FocusFinder.Chosen | source/main-browserify.js:496-580 | a move chooses a visible known element other than the focused one in the half-plane, and chooses nothing exactly when no such element is visible |
| FocusFinder.MeasuresTrackClose | source/main-browserify.js:510-580 | every visible measure is of a visible close element, and all measures are invisible exactly when all close elements are |
| FocusFinder.MoveTargetsReachable | source/main-browserify.js:309-375 | a move that changes the focus moves it to a visible known element in the direction's half-plane, by the recalculated positions |
| FocusFinder.MoveSpec | source/main-browserify.js:309-375 | a move changes neither the known elements, the configuration nor the lock, and leaves exactly the recalculated positions |
| FocusFinder.MoveSilently | source/main-browserify.js:575-580 | a move with `{events: false}` emits no notification, whether or not the focus moves |
| FocusFinder.MoveNotifies | source/main-browserify.js:575-580 | a move with events that changes the focus emits losing-focus and focus-lost (with a previous element), then gaining-focus, focus-gained and focus-moved with the move's direction |
| FocusFinder.MoveWithoutCandidateKeepsFocus | source/main-browserify.js:510-580 | with no visible element in the half-plane the focus and the effects stay |
| FocusFinder.LockedIgnoresKeys | source/main-browserify.js:215-235 | a locked engine ignores every key |
| FocusFinder.SkipSwallowsKey | source/main-browserify.js:215-235 | a 'skip' override swallows the key: focus, positions, known elements and effects stay |
| FocusFinder.OverrideJumps | source/main-browserify.js:215-235 | another truthy override focuses its selector's element without recalculating positions, or keeps the focus if the selector is malformed or matches nothing |
| FocusFinder.UnfocusedFallsBack | source/main-browserify.js:215-243 | with nothing focused any key focuses the default element, else the first known one, else what the selector 'undefined' finds |
| FocusFinder.HandleKeySpec | source/main-browserify.js:215-235 | locked, a key changes nothing; a key never changes the known elements, the configuration or the lock |
| FocusFinder.NoOverrideMoves | source/main-browserify.js:215-235 | a mapped arrow with no override, or a falsy one, stores the re-read overrides and then moves with events |
| FocusFinder.Engine.SetCurrent | source/main-browserify.js:120-166 | performs `SetCurrentSpec` on the engine's fields |
| FocusFinder.Engine.Register | source/main-browserify.js:247-262 | performs `RegisterSpec` on the engine's fields |
| FocusFinder.Engine.Refresh | source/main-browserify.js:177-192 | performs `RefreshSpec` on the engine's fields |
| FocusFinder.Engine.RegisterEach | source/main-browserify.js:177-192 | the `forEach` loop registers the scan in order, as `RegisterAll` |
| FocusFinder.Engine.SetDefaultFocus | source/main-browserify.js:239-243 | performs `SetDefaultFocusSpec` on the engine's fields |
| FocusFinder.Engine.Unregister | source/main-browserify.js:265-271 | performs `UnregisterSpec` on the engine's fields |
| FocusFinder.Engine.Lock | source/main-browserify.js:205-207 | performs `LockSpec` |
| FocusFinder.Engine.Unlock | source/main-browserify.js:210-212 | performs `UnlockSpec` |
| FocusFinder.Engine.Destroy | source/main-browserify.js:195-202 | performs `DestroySpec` |
| FocusFinder.Engine.RecalculateDynamicPositions | source/main-browserify.js:301-306 | the loop over the known elements updates positions as `RecalcSpec` |
| FocusFinder.Engine.Move | source/main-browserify.js:309-375 | the measuring, filtering and reducing loops perform `MoveSpec`, with or without events as the `options` say |
| FocusFinder.Engine.HandleKey | source/main-browserify.js:215-235 | performs `HandleKeySpec` on the engine's fields |
| VendorFocusFinder.SetCurrentSpec | vendor/magic-focus-finder/source/main.js:94-118 | an unresolved target changes nothing; otherwise focus and the focused class move to the target, three effects plus the leaving ones are logged, and nothing else changes |
| VendorFocusFinder.SetCurrentNotifies | vendor/magic-focus-finder/source/main.js:94-118 | the notifications are losing-focus and focus-lost (if something was focused), then gaining-focus and focus-gained |
| VendorFocusFinder.LeaveNotifies | vendor/magic-focus-finder/source/main.js:94-118 | leaving notifies losing-focus then focus-lost, or nothing without a focused element |
| VendorFocusFinder.EnterNotifies | vendor/magic-focus-finder/source/main.js:94-118 | entering notifies gaining-focus then focus-gained |
| VendorFocusFinder.FocusedClassFollowsFocus | vendor/magic-focus-finder/source/main.js:94-118 | if only the focused element carries the focused class, that stays so |
| VendorFocusFinder.RegisterSpec | vendor/magic-focus-finder/source/main.js:179-193 | a hidden element is skipped; otherwise it is appended with its position and its direction overrides; a capture-focus element takes the focus with the events and focused class `setCurrent` gives; without the attribute the focus, log and focused class stay |
| VendorFocusFinder.RegisterAllSkipsHidden | vendor/magic-focus-finder/source/main.js:129-146 | registering a list appends exactly its non-hidden elements in order, each positioned |
| VendorFocusFinder.RefreshSpec | vendor/magic-focus-finder/source/main.js:129-146 | a null container, or an empty or malformed selector, throws and changes nothing; a selector that finds nothing leaves no known elements |
| VendorFocusFinder.RefreshKeepsConfig | vendor/magic-focus-finder/source/main.js:129-146 | refresh keeps the configuration, and with a container the known elements are exactly the non-hidden scanned ones, each positioned |
| VendorFocusFinder.UnregisterSpec | vendor/magic-focus-finder/source/main.js:196-199 | only the known list changes, to the old one without the element, in order |
| VendorFocusFinder.SetDefaultFocusSpec | vendor/magic-focus-finder/source/main.js:171-175 | a truthy default is focused if it resolves and changes nothing if it does not; else the first known element; with none known, `setCurrent(undefined)` focuses what the selector 'undefined' finds, or changes nothing |
| VendorFocusFinder.MoveFocusesNearest | vendor/magic-focus-finder/source/main.js:234-323 | a move focuses the first close element with the smallest squared gap, and keeps the focus when there is none |
| VendorFocusFinder.MoveTargetsReachable | vendor/magic-focus-finder/source/main.js:234-323 | a move that changes the focus moves it to another known element in the direction's half-plane |
| VendorFocusFinder.RecalcRefreshesDynamic | vendor/magic-focus-finder/source/main.js:226-231 | recalculation re-reads the position of exactly the known elements carrying the dynamic-position attribute and keeps every other cached position |
| VendorFocusFinder.RecalcSpec | vendor/magic-focus-finder/source/main.js:226-231 | recalculation changes only positions: every known element carrying the attribute gets its current rectangle, every other cached position stays |
| VendorFocusFinder.MoveSpec | vendor/magic-focus-finder/source/main.js:234-323 | a move changes neither the known elements, positions, overrides, configuration nor lock, and nothing at all without a focused element |
| VendorFocusFinder.HandleKeySpec | vendor/magic-focus-finder/source/main.js:149-167 | locked, a key changes nothing; unlocked, positions are the recalculated ones; the known elements, configuration and lock never change |
| VendorFocusFinder.LockedIgnoresKeys | vendor/magic-focus-finder/source/main.js:149-167 | a locked engine ignores every key |
| VendorFocusFinder.OverrideJumps | vendor/magic-focus-finder/source/main.js:149-167 | a non-empty override token focuses its selector's element, or keeps the focus if the selector is malformed or matches nothing, after recalculating positions |
| VendorFocusFinder.NullTokenMoves | vendor/magic-focus-finder/source/main.js:149-167 | a 'null' or missing token falls through to the ordinary move |
| VendorFocusFinder.UnfocusedFallsBack | vendor/magic-focus-finder/source/main.js:149-175 | with nothing focused any key focuses the default element, else the first known one, else what the selector 'undefined' finds |
| VendorFocusFinder.Engine.SetCurrent | vendor/magic-focus-finder/source/main.js:94-118 | performs `SetCurrentSpec` on the engine's fields |
| VendorFocusFinder.Engine.Register | vendor/magic-focus-finder/source/main.js:179-193 | performs `RegisterSpec` |
| VendorFocusFinder.Engine.Refresh | vendor/magic-focus-finder/source/main.js:129-146 | performs `RefreshSpec` |
| VendorFocusFinder.Engine.RegisterEach | vendor/magic-focus-finder/source/main.js:129-146 | the `[].forEach.call` over the container's `querySelectorAll` result registers the scan in order, as `RegisterAll` |
| VendorFocusFinder.Engine.Unregister | vendor/magic-focus-finder/source/main.js:196-199 | performs `UnregisterSpec` |
| VendorFocusFinder.Engine.SetDefaultFocus | vendor/magic-focus-finder/source/main.js:171-175 | performs `SetDefaultFocusSpec` |
| VendorFocusFinder.Engine.RecalculateDynamicPositions | vendor/magic-focus-finder/source/main.js:226-231 | the loop over the known elements updates positions as `RecalcSpec` |
| VendorFocusFinder.Engine.Move | vendor/magic-focus-finder/source/main.js:234-323 | the filter and the early-exit loop perform `MoveSpec` |
| VendorFocusFinder.Engine.HandleKey | vendor/magic-focus-finder/source/main.js:149-167 | performs `HandleKeySpec` |
| LegacyFocusFinder.MergeKeymap | source/main.js:57-60 | lodash's deep merge of array keymaps takes the given entries index by index and keeps the rest of the previous ones |
| LegacyFocusFinder.Merge | source/main.js:57-60 | every given option replaces the configured one and every absent option keeps it; a given keymap is merged into the configured one index by index |
| LegacyFocusFinder.MergeNothing | source/main.js:57-60 | configuring with no options changes nothing |
| LegacyFocusFinder.MergeIdempotent | source/main.js:57-60 | configuring twice with the same options is configuring once |
| LegacyFocusFinder.ConfigureSpec | source/main.js:57-60 | configure only merges the options into the configuration |
| LegacyFocusFinder.Blurred | source/main.js:75-94 | the blur is called once on the previously focused element, if any |
| LegacyFocusFinder.SetCurrentSpec | source/main.js:75-94 | an unresolved target changes nothing; otherwise the focused class and the focus move, the previous element is blurred, the target is focused, and no listener is added |
| LegacyFocusFinder.FocusedClassFollowsFocus | source/main.js:75-94 | if only the focused element carries the focused class, that stays so |
| LegacyFocusFinder.RegisterSpec | source/main.js:138-147 | a hidden element is skipped; otherwise its position is written as JSON to its `position` attribute and it is appended |
| LegacyFocusFinder.RegisteredPositionReadsBack | source/main.js:138-170 | a registered element's `position` attribute parses back to the position `_getPosition` computed |
| LegacyFocusFinder.RegisterAllSkipsHidden | source/main.js:97-113 | registering a list appends exactly its non-hidden elements, each with a position that reads back, and changes nothing else |
| LegacyFocusFinder.RefreshSpec | source/main.js:97-113 | an empty or malformed container selector throws and changes nothing, before the listener is added; a container that is not found leaves no known elements; the configuration is kept |
| LegacyFocusFinder.RefreshEmptiesFirst | source/main.js:97-113 | a refresh empties the known list before registering, so it holds exactly the non-hidden scanned elements, and the listener is then installed |
| LegacyFocusFinder.Decoded | source/main.js:240-280 | the positions read by a move are exactly those whose attribute parses |
| LegacyFocusFinder.RectPositions | source/main.js:240-280 | positions from the rectangles, for exactly the given elements |
| LegacyFocusFinder.DecodedRegistered | source/main.js:240-280 | when every known element's attribute reads back, a move reads exactly the rectangle positions |
| LegacyFocusFinder.MoveReadsRegisteredPositions | source/main.js:174-280 | for registered elements a move behaves as if it used the rectangle positions directly |
| LegacyFocusFinder.MoveFromNearest | source/main.js:174-280 | a move focuses the first close element of smallest squared gap, and keeps the focus when there is none |
| LegacyFocusFinder.MoveUsesRegisteredPositions | source/main.js:174-280 | for registered elements a move focuses the nearest close element by the rectangles' anchors, or keeps the focus |
| LegacyFocusFinder.MoveTargetsReachable | source/main.js:174-280 | a move that changes the focus moves it to another known element in the direction's half-plane |
| LegacyFocusFinder.MoveSpec | source/main.js:174-280 | a move adds no key listener |
| LegacyFocusFinder.MoveFrom | source/main.js:240-280 | the move over parsed positions adds no listener, keeps the known list, configuration and lock, and when it changes anything focuses another known element in the direction's half-plane |
| LegacyFocusFinder.HandleKeySpec | source/main.js:116-135 | a key press neither adds a listener nor changes the listener flag; locked, nothing changes; with nothing focused it focuses the truthy default, else the first known element, else what the selector 'undefined' finds |
| LegacyFocusFinder.LockedIgnoresKeys | source/main.js:116-134 | a locked engine ignores every key |
| LegacyFocusFinder.EnterSwallowedByOverrideAttribute | source/main.js:116-134 | on an element with the override attribute, 'enter' does not click: it looks up `querySelector(undefined)`, finds nothing and changes nothing |
| LegacyFocusFinder.MissingTokenBlocksMove | source/main.js:116-134 | an override attribute with too few tokens for the direction blocks the move entirely |
| LegacyFocusFinder.OverrideJumps | source/main.js:116-134 | a present, non-'null' token focuses its selector's element, or keeps the focus if the selector is empty, malformed or matches nothing |
| LegacyFocusFinder.NoOverrideMoves | source/main.js:116-134 | without an override the key performs the ordinary move |
| LegacyFocusFinder.UnfocusedFallsBack | source/main.js:116-135 | with nothing focused any key focuses the truthy default, else the first known element, else what the selector 'undefined' finds |
| LegacyFocusFinder.RegisterAllKeepsLog | source/main.js:97-113 | registration emits nothing and leaves the listener flag alone |
| LegacyFocusFinder.ApplyKeepsGuard | source/main.js:97-134 | every public operation keeps "listeners added equal one if the flag is set, else zero" |
| LegacyFocusFinder.ListenerAddedAtMostOnce | source/main.js:97-113 | over any sequence of calls from the initial state, the keyup listener is added at most once |
| LegacyFocusFinder.Engine.Configure | source/main.js:57-60 | performs `ConfigureSpec` |
| LegacyFocusFinder.Engine.SetCurrent | source/main.js:75-94 | performs `SetCurrentSpec` |
| LegacyFocusFinder.Engine.Register | source/main.js:138-147 | performs `RegisterSpec` |
| LegacyFocusFinder.Engine.Refresh | source/main.js:97-113 | performs `RefreshSpec` |
| LegacyFocusFinder.Engine.RegisterEach | source/main.js:97-113 | the `[].forEach.call` over the container's `querySelectorAll` result registers the scan in order, as `RegisterAll` |
| LegacyFocusFinder.Engine.Move | source/main.js:174-211 | performs `MoveSpec` |
| LegacyFocusFinder.Engine.MoveWithin | source/main.js:240-280 | the filter and the early-exit loop over parsed positions perform `MoveFrom` |
| LegacyFocusFinder.Engine.HandleKey | source/main.js:116-134 | performs `HandleKeySpec` |
| KeyJumper.AttachSpec | source/inspiration.js:338 | plugging the plugin in installs the keyup listener and changes nothing else |
| KeyJumper.RegisterSpec | source/inspiration.js:66-81 | a hidden element is skipped; otherwise it is appended with its keyJumper position |
| KeyJumper.RegisterKeepsPositioned | source/inspiration.js:66-81 | every known element keeps having a position |
| KeyJumper.RegisterAllSkipsHidden | source/inspiration.js:29-62 | registering a list appends exactly its non-hidden elements, each with its position, and changes nothing else |
| KeyJumper.SetActiveSpec | source/inspiration.js:257-283 | every element of the new set becomes active with the on class and without the off class, every old active element outside it swaps to the off class, other classes stay; unless silent every old element is blurred, then every new one gets focus, then change-selected |
| KeyJumper.SetActiveSingle | source/inspiration.js:257-283 | activating one element after at most one swaps the two elements' classes and logs the old one's blur, then focus and change-selected on the new one |
| KeyJumper.SetActiveKeepsClasses | source/inspiration.js:257-283 | with disjoint class sets, no element carries both classes afterwards and every active element carries the on class |
| KeyJumper.MoveActivatesNearest | source/inspiration.js:117-181 | a move activates the first close element of smallest squared gap, and keeps the focus when there is none |
| KeyJumper.MoveTargetsReachable | source/inspiration.js:117-181 | a move that changes anything activates one known element alone, in the half-plane, clears the wrapped flag, and moves away unless wrapped |
| KeyJumper.MoveSpec | source/inspiration.js:117-181 | a move changes neither the known elements, positions, lock nor listener, and nothing at all without an active element |
| KeyJumper.HelperTarget | source/inspiration.js:139-151 | a direction's helper holds elements exactly when the active element's helper token for it is set, non-empty, not malformed and matches something, and then it holds every match in document order; a malformed token holds none |
| KeyJumper.HandleKeySpec | source/inspiration.js:186-251 | not listening or locked, nothing changes; keys other than enter and the arrows change nothing; an arrow whose helper token is malformed changes nothing, since `$(helper)` throws; the known elements, positions, lock and listener never change |
| KeyJumper.WrappedActiveIsCandidate | source/inspiration.js:117-136 | after a wrap the active element is its own candidate when it lies in its own half-plane, so a move always activates something and logs it |
| KeyJumper.KeyDirection | source/inspiration.js:186-251 | codes 37, 38, 39 and 40 map to left, up, right and down, and no other code maps to a direction |
| KeyJumper.LockSpec | source/inspiration.js:307-308 | `lock(state)` sets the move flag to the negation of the state and changes nothing else |
| KeyJumper.LockedIgnoresKeys | source/inspiration.js:186-251 | a locked plugin ignores every key |
| KeyJumper.UnlockedMoves | source/inspiration.js:186-251 | an unlocked arrow key without a helper target and without a malformed helper performs the move |
| KeyJumper.HelperJumps | source/inspiration.js:139-251 | a well-formed helper selector that matches makes all its matches active and wrapped, gives each the on class and not the off class, blurs the old active elements and logs focus, then change-selected, on every match |
| KeyJumper.EnterTriggers | source/inspiration.js:186-251 | 'enter' appends one enter trigger per active element, in order, and changes nothing else |
| KeyJumper.DestroySpec | source/inspiration.js:319-325 | destroy clears the known list, the active set and the wrapped flag, unlocks and removes the listener, and keeps positions, classes and effects |
| KeyJumper.DestroyedIgnoresKeys | source/inspiration.js:319-325 | after destroy no key has any effect |
| KeyJumper.HandleKeyKeepsPositioned | source/inspiration.js:186-251 | key handling and destroy keep every known element positioned, and key handling keeps the known list |
| KeyJumper.Engine.Attach | source/inspiration.js:338 | performs `AttachSpec` |
| KeyJumper.Engine.Register | source/inspiration.js:66-81 | performs `RegisterSpec` |
| KeyJumper.Engine.RegisterEach | source/inspiration.js:29-62 | the `each` loop registers the elements in order, as `RegisterAll` |
| KeyJumper.Engine.SetActive | source/inspiration.js:257-283 | performs `SetActiveSpec` |
| KeyJumper.Engine.FindCloseElements | source/inspiration.js:117-136 | the filtering loop returns exactly the known elements in the half-plane, leaving out the active one unless wrapped |
| KeyJumper.Engine.ActivateClosest | source/inspiration.js:156-181 | the `for` loop activates the first close element of smallest distance, or changes nothing when there is none |
| KeyJumper.Engine.Move | source/inspiration.js:186-251 | performs `MoveSpec` |
| KeyJumper.Engine.HandleKey | source/inspiration.js:186-251 | performs `HandleKeySpec` |
| KeyJumper.Engine.Lock | source/inspiration.js:307-308 | performs `LockSpec` |
| KeyJumper.Engine.Destroy | source/inspiration.js:319-325 | performs `DestroySpec` |

## Left out

- `configure`, `start`, `getConfig`, `getCurrent` and `getKnownElements` of the current and vendored engines are left out. They clone and extend the configuration; `start` then calls `setCurrent(defaultFocusedElement)` when the default is truthy, `refresh` and the listener set-up. The engines take a `Config` value instead, and a caller performs `start` as `SetCurrent` with the default followed by `Refresh`.
- Key and mutation listeners, `MutationObserver` and `DOMNodeInserted` handling, and the debug overlay are not modelled. A key press is a call to `HandleKey`. A mutation would be a call to `Register` or `Unregister`.
- `_fireHTMLEvent` and `_fireMouseEvent` are recorded as entries in an effect log. Event payloads, bubbling and handlers are not modelled.
- `Math.sqrt` and `Math.atan2` are parameters, and reals are exact. Floating-point rounding, `NaN` and the `Infinity` sentinel of the reduce are not modelled. The sentinel is modelled as "no best yet", which accepts the first candidate as the source does for finite scores.
- `FocusFinder.Measures` and the other scoring members treat sizes and coordinates as integers, as the host reports them for whole-pixel layouts.
- Node equality (`isEqualNode`) is modelled as element identity. Two distinct but structurally equal nodes are treated as different.
- `PositionJson.Decode` reads only text of the shape the engine writes. The rest of `JSON.parse` (whitespace, other key orders, fractions and exponents, page-authored attributes) is not modelled. On such text it yields no position, which then behaves like a missing position.
- `LegacyFocusFinder.Merge`: only array keymaps merged index by index are modelled (`MergeKeymap`). Lodash's deep merge of other nested values is not modelled.
- `LegacyFocusFinder.EnterSwallowedByOverrideAttribute` assumes the selector text `undefined` matches nothing. `querySelector(undefined)` and `querySelector(null)` are given by the document as the selectors 'undefined' and 'null' and are not modelled further.
- `KeyJumper`'s `init`, `refresh` and `setCurrent` are left out. They run `registerElement` over a jQuery selection and, in `setCurrent`, a `setTimeout`. Timers and jQuery selection are not modelled. `RegisterEach` is the registration loop they share.
- `KeyJumper`'s `onAfterChange` callbacks, `mouseover` activation and jQuery's `data()` conversion are not modelled.
- `KeyJumper` positions come from `offset()` and `outerWidth()`/`outerHeight()`, and are modelled with the rectangle's left, top, width and height.
- `KeyJumper`'s helper selector is resolved to every element it matches, in document order, as `querySelectorAll` would. jQuery's `$(string)` HTML parsing is not modelled, and jQuery is taken to reject exactly the malformed selectors the document rejects.
- `KeyJumper.AttachSpec` records one keyup listener as a flag. Each `init` in the source adds another `keyup.keyJumper` handler, so after repeated `init` calls one key runs the handler several times; the model runs it once.
- `KeyJumper` keeps both `currentElement` and `$currentElement`. The model keeps the elements of `$currentElement` and reads the first of them where the source reads `.data`. Where the two could disagree (after `setCurrent`'s timer) is not modelled.
