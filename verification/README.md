# Trip archive: a verified model

A model of the archive's pure core in Dafny, with proofs of what that core
promises. Everything holds for all inputs, all runs or all reachable states.

- **The segment grid.** A line's segments are filed in a hash grid by a cell
  walk; a point looks at the cells around it only. `LineGrid` proves that this
  agrees with the plain geometry it stands for.
- **Following a plan.** `Stretches` and `LinkMatch` read the running total of
  near stretches declaratively, and prove that direction does not matter, that
  looser rules lose nothing, and that looking a fixed distance around a line
  loses nothing. `LinkPieces` says what the judgement comes to on the ground:
  to how many metres, by which rules, and what then is proposed. `LinkCheck`
  keeps proposals and links in a class and proves the proposals equal to
  recomputation after any sequence of events, `LinkHistory` what is linked,
  put away or there to judge by then.
- **Matching files into a collection.** `Pairing` is the greedy pairing,
  `Importing` the step the track loop and the waypoint loop share, and
  `CollectionMatch` the loop over files. `CollectionLaws` proves that files
  uploaded together are matched as one after another, `CollectionOutcome`
  that nothing is lost, doubled or left dangling, `CollectionNames` what is
  matched and proposed by what items and entries hold, `CollectionUnnamed`
  when a name is surely found again, `CollectionDecided`
  what the owner's choices do and where waypoints go, `CollectionUnmatched` when
  what no file matched is listed in full, and `CollectionUploads` that
  uploading twice adds nothing. `CollectionStoring` is what is stored,
  `CollectionUnseen` what names it may make up, `CollectionSequence` and
  `CollectionChain` the law through storing, for two uploads and for any
  number, and `CollectionRenamed` where it fails.
- **Climbs, moving time and the profile.** `ElevationProfile`, `MovingTime`
  and `Climbs`; `ClimbLosses` is what the scan for climbs misses.
- **A camera's wall clock.** `TrackClock`: the offsets in force along a track,
  the instant its clock read a time, and the position then.
- **Two protocols.** `KomootSync` and `KomootRuns` are the halting, resumable
  import; `LoginLockout` is the login gate.

`Wrappers`, `Reals`, `Sums`, `Search` and `Folds` hold what these share. Loops
and mutable state are methods and classes proved against specification
functions; the laws are lemmas about those functions. Coordinates, distances
and elevations are exact reals, times whole numbers.

`dafny verify dfyconfig.toml` checks all of it.

## What the proofs found

- Files uploaded together need not end where adding them one by one does
  (`src/server/collection_match.rs:5-9`). Matching keeps that promise
  (`CollectionLaws.TogetherIsOneAfterAnother`). Storing an upload's end state
  loses the name of what was added under one where an unnamed item took its
  place last, and makes one up for a track added without
  (`src/server/collection_import/plan.rs:45-58` and `:116-125`), while later
  files of the upload are matched by the name it was added under, or none;
  `CollectionStoring.StoredAsMatched` says exactly which entries those are.
  Made-up names make no difference unless a later track carries one
  (`CollectionUnseen.UnseenNames`). Files of which no track does, uploaded one
  by one, end stored as in one upload of all, exactly but for what loses its
  name there (`CollectionChain.OneByOneIsTogether`);
  `CollectionSequence.StoredTogether` is the same for two uploads of any size,
  the first of which loses none. `CollectionRenamed` has the inputs: a name
  lost, a waypoint doubled because of it, and a track replaced because it was
  stored under a name made up.
- A named waypoint that moved is matched by its name, unless unnamed items of
  its file take every entry of that name first; it is then proposed as one
  more. That cannot be, wherever things lie, exactly if the file has fewer
  unnamed waypoints than there are entries of the name
  (`CollectionUnnamed.NeverOneMoreExactly`, `OneMoreHut`).
- Track ids and waypoint ids are noted as matched in one set
  (`src/server/collection_match.rs:216`). The lists of what no file matched
  are complete for every upload exactly if a collection's tracks and waypoints
  share no id (`CollectionUnmatched.WaypointsListedExactly` and
  `TracksListedExactly`); uploading a collection's own tracks hides every
  waypoint that has the id of one.
- A rise can be in no stretch. After the top of one the scan goes on until the
  track has fallen by more than a share of what was gained, and a rise on the
  way down belongs to none. Such a rise can be as high as the least gain
  exactly if the stretch gained ten times that or more, but for rounding:
  750 m hiking, 300 m cycling, 150 m skiing (`ClimbLosses.LosesExactly`,
  `RulesLose`, `SecondHillLost`). Every other rise of the least gain that
  nowhere falls by more than the rule allows lies in a stretch
  (`ClimbLosses.LostAfterTop`).
- Lying in a stretch is not being reported: a stretch is, exactly if what is
  left of it as a whole is long, high and steep enough (`Climbs.ClimbGains`),
  so two steep hills with a long flat between them can both go unreported
  (`ClimbLosses.TwoHillsUnreported`).
- The scan gets off a point only by a step up of more than the rounding
  margin, and exactly then (`ClimbLosses.NeverRising`), so some tracks rise as
  high as one likes and have no climb (`ClimbLosses.CreepingUp`).

## Model

| member | source | states |
|---|---|---|
| `LineGrid.AxisOf` | src/server/line_grid.rs:106-113 | per axis: the way the walk steps, where its next boundary is, the share of the segment between boundaries; `Never` on an axis the segment does not move along |
| `LineGrid.SegmentCells` | src/server/line_grid.rs:100-142 | for every segment and cell size, the cell of every point from start to end is among the cells, so is the end's; each cell is touched by the segment or lies at a corner it passes; at most 3·steps + 2 of them |
| `LineGrid.StepOnBudget` | src/server/line_grid.rs:119-137 | within the fixed number of steps the walk comes to the end's cell; only its very last step may go astray, at a tie of both axes |
| `LineGrid.WalkX` | src/server/line_grid.rs:129-131 | stepping over the strictly nearer vertical boundary leaves no touched cell behind unfiled |
| `LineGrid.WalkY` | src/server/line_grid.rs:125-135 | nor does stepping over the other one, with the two cells filed beside a corner |
| `LineGrid.NearestIsNearest` | src/server/line_grid.rs:144-153 | no point of the segment is nearer than the one the clamped share gives, degenerate segments included |
| `LineGrid.NewGrid` | src/server/line_grid.rs:60-79 | every segment of the line, a line of one point included, is filed in each cell it passes through |
| `LineGrid.ReachesIsNear` | src/server/line_grid.rs:82-95 | looking at the 3×3 cells around a point finds the line if and only if some point of it lies within the tolerance, for every line and tolerance |
| `LineGrid.NearMonotone` | src/server/line_grid.rs:48-51 | grids of different tolerances have different cells, yet the wider one reaches whatever the narrower one does |
| `LineGrid.NearReverse` | src/server/line_grid.rs:81-95 | a line drawn the other way is near the same points |
| `Stretches.RunningIsCovered` | src/server/link_match.rs:150-182 | the running total of closed stretches is the length of the pieces that lie in some unbroken near stretch long enough |
| `Stretches.CoveredReverse` | src/server/link_match.rs:150-182 | walked the other way, a line is covered as much |
| `Stretches.CoveredMonotone` | src/server/link_match.rs:152-157 | more pieces near, or shorter stretches counted, never cover less |
| `LinkMatch.AlongSegment` | src/server/link_match.rs:158-174 | one segment cut into pieces of at most 10 m: what the pieces add, and the stretch left open across the vertex |
| `LinkMatch.Along` | src/server/link_match.rs:150-182 | the covered length by the declarative reading, and the line's length |
| `LinkMatch.RunWithinLine` | src/server/link_match.rs:132-146 | 0 ≤ covered ≤ length, so every share lies in [0, 1], 0 for a line without length |
| `LinkMatch.Reached` | src/server/link_match.rs:185-188 | exactly the plan's points within the tolerance of the trip |
| `LinkMatch.RunsAreRows` | src/server/link_match.rs:192-211 | some run of reached points is long enough if and only if enough points in a row are reached, far enough apart |
| `LinkMatch.Followed` | src/server/link_match.rs:74-110 | by grids, the coverage and judgement that plain geometry gives: the line's three rules, then the points' two |
| `LinkMatch.FollowedAt` | src/server/link_match.rs:65-110 | the same from positions, projected around the plan's first point; none for a plan without points or a trip of fewer than two |
| `LinkMatch.TripDirectionIgnored` | src/server/link_match.rs:63-64 | riding the trip the other way round changes neither coverage nor judgement |
| `LinkMatch.PlanDirectionIgnored` | src/server/link_match.rs:63-64 | nor does drawing the plan the other way round, once projected |
| `LinkMatch.FollowingMonotone` | src/server/link_match.rs:88-109 | wider tolerances, lower minimums or lower shares never lose a plan that was followed |
| `LinkMatch.CoverageInShares` | src/server/link_match.rs:80-87 | every figure of a coverage is a share from 0 to 1 |
| `LinkMatch.ReachLosesNothing` | src/server/link_check.rs:15-20 | under rules that demand something, a trip that followed a plan comes within `reach_m` of it, though the band is wider |
| `LinkMatch.ConfiguredIsDemanding` | src/server/link_match.rs:28-40 | the configured rules do demand something, and their reach is the points' tolerance, less than the band |
| `LinkMatch.WaypointsPassed` | src/server/link_match.rs:119-125 | the indices of exactly the waypoints within the distance of the line, in order |
| `LinkMatch.WaypointsPassedAt` | src/server/link_match.rs:113-126 | the same from positions, projected around the line's first; none for a line without points |
| `LinkMatch.PassedMeets` | src/server/link_check.rs:106-110 | a waypoint a line passed lies within the waypoint distance of it, and within `reach_m` |
| `LinkPieces.PiecesFewest` | src/server/link_match.rs:158-163 | a segment is cut into `n` pieces if and only if `n` is the least number of them, one at least, that makes each no longer than 10 m |
| `LinkPieces.PiecesShort` | src/server/link_match.rs:128-130 | on a whole line no piece is longer than 10 m |
| `LinkPieces.PieceIsNear` | src/server/link_match.rs:128-130 | every point of a piece taken as near lies within the tolerance plus 5 m of the other line, and none of a piece taken as not near within the tolerance less 5 m |
| `LinkPieces.GlimpseIsNone` | src/server/link_match.rs:150-182 | a straight line that is near another for less than a stretch, but for 10 m, is not covered at all |
| `LinkPieces.CrossingNotFollowed` | src/server/link_match.rs:88-110 | a plan 1 km long and a trip that crosses its middle at a right angle: not followed |
| `LinkPieces.SharedPartFollowed` | src/server/link_match.rs:88-95 | a trip and a plan that share a part of their points in a row, long enough to be a stretch and by one of the line's three rules, is followed by its line |
| `LinkPieces.AllPointsFollowed` | src/server/link_match.rs:98-100 | a trip that comes by every point of a plan of enough points is followed |
| `LinkPieces.RowInBandFollowed` | src/server/link_match.rs:101-108 | so is one that never leaves the band and comes by enough points in a row, far enough apart |
| `LinkPieces.FollowedExactly` | src/server/link_match.rs:74-110 | followed if and only if one of the three rules by the line or the two by the points holds, each said of lengths and sets of points without a quotient; by its line exactly if one of the three does; and the figures of the line times its length are the lengths near |
| `LinkPieces.PointFigureExactly` | src/server/link_match.rs:78-80 | the points' figure is the share of the plan's points within the tolerance of the trip |
| `LinkPieces.FollowedAsConfigured` | src/server/link_match.rs:27-40 | the same under the rules set, in metres, shares and points |
| `LinkPieces.PassedAsConfigured` | src/server/link_match.rs:119-125 | a waypoint is passed if and only if some point of the line lies within 50 m of it |
| `LinkCheck.FollowedIsNear` | src/server/link_check.rs:15-20 | a sound lookup `reach_m` around either line finds the other whenever the plan was followed |
| `LinkCheck.PassedIsNear` | src/server/link_check.rs:107-110 | and the line, or the waypoint, whenever the line passed it |
| `LinkCheck.Archive.Followings` | src/server/link_check.rs:34-67 | a proposal for each pair whose trip followed the plan or track, and for no other |
| `LinkCheck.Archive.Passed` | src/server/link_check.rs:147-159 | a proposal for each pair whose trip passed the waypoint, and for no other |
| `LinkCheck.Archive.Propose` | src/server/repo/link/proposal.rs:27-67 | a pair linked or proposed before stays as it is, others are added, and the new ones are counted |
| `LinkCheck.Archive.TripPairsSuffice` | src/server/link_check.rs:24-69 | the pairs looked at near a trip include every one it is to be linked by |
| `LinkCheck.Archive.ItemPairsSuffice` | src/server/link_check.rs:85-113 | so do those looked at near collection tracks and waypoints |
| `LinkCheck.Archive.CheckTrip` | src/server/link_check.rs:24-69 | afterwards exactly the trip's pairs that geometry accepts are proposed, the others untouched; none for a trip that does not exist |
| `LinkCheck.Archive.CheckCollectionItems` | src/server/link_check.rs:85-115 | the same for collection tracks and waypoints |
| `LinkCheck.Archive.AfterItemsEntered` | src/server/link_check.rs:129-137 | what was proposed for replaced items is forgotten, their links are not, and they are checked as if new |
| `LinkCheck.Archive.Settle` | src/server/repo/link/proposal.rs:103-125 | confirming or dismissing takes every pair out of the proposals or changes nothing: all exactly if each is a proposal and none is named twice |
| `LinkCheck.TripEnteredUpToDate` | src/server/link_check.rs:120-124 | a checked new trip makes proposals up to date before up to date after |
| `LinkCheck.ItemsEnteredUpToDate` | src/server/link_check.rs:126-137 | so do new or replaced collection items |
| `LinkCheck.CheckedAgainUpToDate` | src/server/link_check.rs:22-115 | checking once more proposes again what the owner put away, and changes nothing else that is up to date |
| `LinkCheck.Archive.Happen` | src/server/link_check.rs:117-137 | one event — a trip or items entering, being checked again or deleted, links confirmed, dismissed, made or removed — leaves exactly the proposals due: what geometry accepts, less what is linked or was put away since it was last checked |
| `LinkCheck.Archive.HappenAll` | src/server/link_check.rs:117-137 | after any sequence of events, the proposals are exactly those due |
| `LinkCheck.LinkedIsNeverDue` | src/server/repo/link/proposal.rs:25-26 | whatever happens, a link is never proposed again as long as it and both its ends are there |
| `LinkCheck.DismissedUntilChecked` | src/server/repo/link/proposal.rs:109-110 | a dismissed proposal stays away until an end of it is checked or enters again, and then comes back exactly if geometry accepts it and it is not linked |
| `LinkCheck.OrderIgnored` | src/server/link_check.rs:117-137 | contents, links and what was put away determine the proposals, so the order they came in does not matter |
| `LinkPieces.PassedProposed` | src/server/link_check.rs:146-159 | a trip and a waypoint are proposed, without any figures, if and only if the trip comes within 50 m of it |
| `LinkPieces.PartRiddenProposed` | src/server/link_check.rs:161-169 | a trip that is a part of a track, 2 km of it or more, is proposed by its line, with all of it on the track and 2 km of the track or more covered |
| `LinkPieces.PartOfPlanProposed` | src/server/link_check.rs:161-169 | so is a recorded trip that is a part of a planned one |
| `LinkPieces.AllPointsProposed` | src/server/link_check.rs:161-173 | a trip that comes by every point of a track of three or more is proposed, and where by its points on all of them |
| `LinkHistory.LinkedExactly` | src/server/repo/link/proposal.rs:103-125 | after any events, linked is exactly what was confirmed among proposals that all were due, or linked by hand, and has neither been unlinked nor lost an end since |
| `LinkHistory.AwayExactly` | src/server/repo/link/proposal.rs:109-113 | put away is exactly what was dismissed among proposals that all were due, or unlinked, and no check has looked at since |
| `LinkHistory.ContentsExactly` | src/server/link_check.rs:117-137 | what there is to judge is exactly the trips and items entered and neither replaced nor deleted since |
| `Pairing.SortOrdered` | src/server/collection_match.rs:486 | the stable sort by rank and distance orders candidates in full, ties by item and then by entry, and keeps each |
| `Pairing.CandidatesAre` | src/server/collection_match.rs:482-485 | the candidates are exactly the related pairs |
| `Pairing.TakeInOrder` | src/server/collection_match.rs:487-495 | the loop over candidates pairs what greedy choice in their order pairs |
| `Pairing.Pair` | src/server/collection_match.rs:477-496 | what each item is paired with: the stable pairing's entry and rank |
| `Pairing.PairingIsStable` | src/server/collection_match.rs:475-496 | the pairing is one to one, of related pairs, and a related pair left apart is kept out by one before it sharing its item or entry; so it is maximal |
| `Pairing.PairingIsUnique` | src/server/collection_match.rs:475-496 | there is no other such pairing, whatever way it is come by |
| `Pairing.PairedMeans` | src/server/collection_match.rs:475-476 | each item's entry relates to it by the rank given, and no other item has it |
| `Pairing.PairedIsStable` | src/server/collection_match.rs:475-476 | of a related item and entry one is paired with something at least as close |
| `Pairing.PairedInPlace` | src/server/collection_match.rs:477-496 | where each item relates to the entry of its own number at distance 0, each is paired with that one |
| `Importing.TakeItems` | src/server/collection_match.rs:236-263 | the loop over a file's items, in place over entries, review and matched ids, is the step-by-step specification |
| `Importing.FromBalanced` | src/server/collection_match.rs:247-262 | the books balance: held entries first in their order, then what the review added, no entry twice, each source the last item that added or replaced it |
| `Importing.FromMatchedHeld` | src/server/collection_match.rs:244-246 | exactly the held ids some item of the review matched are taken note of |
| `Importing.FromReviews` | src/server/collection_match.rs:261-262 | the review goes over every item once, in the file's order |
| `Importing.FromStays` | src/server/collection_match.rs:247-261 | what became of each item is an entry that no removal can take away |
| `Importing.PairedAreNoted` | src/server/collection_match.rs:243-246 | the held id of every entry an item is paired with is taken note of |
| `Importing.FromTold` | src/server/collection_match.rs:254-256 | a replaced entry keeps the name it had where the item has none, and takes all else from the item |
| `Importing.AllInStep` | src/server/collection_match.rs:5-9 | a file taken in within one upload or in a second one pairs, is proposed and decided alike, entry by entry |
| `CollectionMatch.AreLinesWithin` | src/server/collection_match/geometry.rs:17-32 | by grids: every point of each line lies within the tolerance of the other; never for a line without a point |
| `CollectionMatch.MapIsSelfSame` | src/server/collection_match/geometry.rs:9-44 | the map's own geometry finds a line with a point within any tolerance of itself, and a place at distance 0 from itself |
| `CollectionMatch.KindsKeepNames` | src/server/collection_match.rs:436-463 | an item relates to an entry only by its name or without one, so replacing never changes a name to another |
| `CollectionMatch.MatchFiles` | src/server/collection_match.rs:200-374 | the whole loop over files computes the specified review, unmatched ids and outcome |
| `CollectionLaws.TogetherIsOneAfterAnother` | src/server/collection_match.rs:5-9 | without removals, files uploaded together end as uploaded one after another: the later items' matches, proposals and actions, and the final lists, agree up to renamed origins and shifted keys |
| `CollectionLaws.EndStatesSideBySide` | src/server/collection_match.rs:200-321 | the working lists after both agree entry by entry, contents included |
| `CollectionLaws.ReviewsGrow` | src/server/collection_match.rs:217-218 | later files leave what was reviewed as it is |
| `CollectionOutcome.OutcomeConserves` | src/server/collection_match.rs:323-365 | the outcome lists what was held and stays, once and in order, then what was added, each under its last source; a held id goes exactly if no file matched it and the owner chose it; every waypoint's track is in the outcome |
| `CollectionUnmatched.MatchedAreHeld` | src/server/collection_match.rs:244-246 | what an upload matches of a kind is held, of that kind |
| `CollectionUnmatched.WaypointsListedExactly` | src/server/collection_match.rs:323-335 | every upload lists each held waypoint no file waypoint matched, if and only if the collection's tracks and waypoints share no id |
| `CollectionUnmatched.TracksListedExactly` | src/server/collection_match.rs:323-335 | the same of its tracks |
| `CollectionUnmatched.OwnTracksHide` | src/server/collection_match.rs:216 | uploading a collection's own tracks hides every waypoint of it that has a track's id, though no waypoint was uploaded |
| `CollectionUnmatched.OwnWaypointsHide` | src/server/collection_match.rs:216 | uploading its waypoints hides every track that has a waypoint's id |
| `CollectionOutcome.EveryItemReviewed` | src/server/collection_match.rs:220-320 | every item of every file is reviewed once, in order |
| `CollectionNames.MatchedByName` | src/server/collection_match.rs:434-463 | in every upload a named track or waypoint that is matched is matched with an entry of its name, however far it moved; if it is not matched, each entry there is under its name is matched by another item of the same file |
| `CollectionUnnamed.FewerAreFound` | src/server/collection_match.rs:434-496 | so a track or waypoint that alone in its file goes by its name, in a file with fewer unnamed ones than there are entries of that name, is matched in every upload and never proposed as one more, however far it moved |
| `CollectionUnnamed.OneMoreHut` | src/server/collection_match.rs:434-496 | with as many unnamed waypoints where the entries of its name are, a waypoint that moved is proposed as one more |
| `CollectionUnnamed.NeverOneMoreExactly` | src/server/collection_match.rs:434-496 | so a waypoint that alone in its file goes by its name is never one more, wherever things lie, if and only if there are fewer unnamed ones in the file than entries of that name |
| `CollectionNames.ProposedExactly` | src/server/collection_match.rs:236-298 | an item is proposed as Add if it is matched with nothing, as Skip if what it is matched with is the same to within 30 m, a waypoint's height to within 1 m, and in description and symbol, and else as Replace |
| `CollectionNames.NearestMatched` | src/server/collection_match.rs:475-496 | of a waypoint and an entry it may match, one is matched with something no farther off |
| `CollectionNames.BestMatched` | src/server/collection_match.rs:475-496 | of a track and an entry it may match, one is matched with something at least as good: the same before the changed, and then by their centres' distance |
| `CollectionNames.CentreHalfway` | src/server/collection_match/geometry.rs:35-44 | a line's centre lies half way between its extremes in latitude and in longitude; a line without a point has none |
| `CollectionNames.MovedIsFound` | src/server/collection_match.rs:452-463 | a waypoint held, uploaded more than 30 m away under its name: matched, and to be replaced, not added |
| `CollectionDecided.ChoicesDecide` | src/server/collection_match.rs:404-424 | what is done with each item of an upload is what the owner chose where they chose anything that can be done, and else what was proposed |
| `CollectionDecided.PlacedExactly` | src/server/collection_match.rs:264-319 | which track each waypoint of the outcome goes on, from the review alone: set by the file that added it, or by the last one with just one track that wrote over it, to what that one track became; by no file at all, left alone |
| `CollectionDecided.HalfIsNotSame` | src/server/collection_match/geometry.rs:15-32 | a line and its first half are not the same line, whichever of them is held |
| `CollectionDecided.MapMeasures` | src/server/collection_match/geometry.rs:9-13 | two places are as far apart as on the map around the first, and within 30 m exactly if they are there |
| `CollectionUploads.TwiceAddsNothing` | src/server/collection_match.rs:232-319 | matching the same file twice pairs the second copy with the first item by item, proposes Skip for all, and ends in the outcome of one |
| `CollectionUploads.AllSkipped` | src/server/collection_match.rs:238-242 | items that are all there already, in their order, are all skipped |
| `CollectionStoring.StoredAsMatched` | src/server/collection_import/plan.rs:28-69 | after any upload, what is stored of an entry is what later files were matched by, if and only if it is not an added entry whose source is unnamed and which is then named otherwise than it was added: its name lost, or one made up |
| `CollectionUnseen.UnseenNames` | src/server/collection_match.rs:436-446 | whatever an upload matches, decides, adds and replaces, it does alike whether a track held has no name yet or one that no track of the files carries |
| `CollectionSequence.StoredTogether` | src/server/collection_match.rs:5-9 | the promise through storing, made-up names and all: where storing a first upload loses no name, and no track of the other files goes by a name made up in it, uploading those to it stores each track and waypoint as one upload of all does, if and only if it was not there before or one upload does not lose its name |
| `CollectionChain.OneByOneAsNamed` | src/server/collection_match.rs:5-9 | any number of files, each uploaded and stored before the next, where no track of them goes by a name made up for an added place: at every step the collection is, ids, order and contents, what one upload of those files matches by, a track added without a name under the one made up for its place |
| `CollectionChain.OneByOneAsMatched` | src/server/collection_match.rs:5-9 | it is so to the very names of the working list at every step, if and only if that one upload adds no track unnamed, whatever names the files carry |
| `CollectionChain.OneByOneIsTogether` | src/server/collection_match.rs:5-9 | so, no track going by a name made up, each track and waypoint ends up stored as in one upload of all, if and only if it was not added under a name and last replaced by an unnamed item |
| `CollectionRenamed.NameLost` | src/server/collection_import/plan.rs:116-125 | a named waypoint and an unnamed one at its place: in one upload the name is lost on storing, in two it is kept |
| `CollectionRenamed.LostThenAdded` | src/server/collection_import/plan.rs:116-125 | those two in a first upload and the named one again in a second end in two waypoints; all in one upload, in one waypoint under its name |
| `CollectionRenamed.MadeUpMatched` | src/server/collection_import/plan.rs:53-57 | a track stored under a made-up name is replaced by a track elsewhere of that name in the next upload; in one upload both are added |
| `CollectionUploads.AllAdded` | src/server/collection_match.rs:248-252 | into a collection without any of their kind, items are all added |
| `ElevationProfile.WindowExact` | src/server/profile.rs:75-76 | the two searches bound exactly the points within half a window, never none |
| `ElevationProfile.PrefixSums` | src/server/profile.rs:67-71 | prefix k is the sum of the first k elevations |
| `ElevationProfile.Smooth` | src/server/profile.rs:64-80 | each smoothed value is the mean over exactly those points |
| `ElevationProfile.SmoothedBetween` | src/server/profile.rs:62-80 | so it lies between their lowest and highest |
| `ElevationProfile.SmoothedIsMean` | src/server/profile.rs:62-80 | it is the mean of exactly the readings within 25 m either way |
| `ElevationProfile.FilledInBrackets` | src/server/profile.rs:83-116 | a real reading stays; a missing one is put evenly by distance between the nearest real readings either side, or on the nearest at an end; without a real reading nothing changes |
| `ElevationProfile.NoReadings` | src/server/profile.rs:88-93 | no reading is real exactly where every elevation is 0 |
| `MovingTime.RunStart` | src/server/moving_time.rs:60-66 | how far back the run of timed points goes within half a window: no farther, no less |
| `MovingTime.RunEnd` | src/server/moving_time.rs:67-73 | the same forward |
| `MovingTime.Climbing` | src/server/moving_time.rs:55-79 | steep over exactly that run |
| `MovingTime.Steps` | src/server/moving_time.rs:34-50 | each pair's seconds and whether it is fast or climbing; none without times that advance |
| `MovingTime.SumSteps` | src/server/moving_time.rs:84-106 | the seconds and metres of the moving steps; none exactly where no step is timed |
| `MovingTime.SumsSplit` | src/server/moving_time.rs:84-106 | split at any step, a stretch's seconds and metres are its parts' together, and it has none exactly if neither part has |
| `MovingTime.BreaksAreNone` | src/server/moving_time.rs:84-106 | a stretch with timed steps, none of them moving, has a moving time of 0 and not none |
| `MovingTime.OneStepIs` | src/server/moving_time.rs:84-106 | one step alone comes to its own seconds and metres exactly if it moves; with the split, that is the sum |
| `MovingTime.StepMeans` | src/server/moving_time.rs:34-79 | a step is timed exactly where time goes on; it moves exactly if it is fast enough over the ground, or the elevation changes by 100 m an hour or more over the run of points timed in order within half a minute either side of it |
| `MovingTime.BreakNotCounted` | src/server/moving_time.rs:84-106 | a minute's ride and a break of ten: 60 s and its metres |
| `MovingTime.MetresWithin` | src/server/moving_time.rs:84-106 | a stretch moves no farther than it is long |
| `Climbs.ScanPoints` | src/server/climbs.rs:42-58 | one pass ends in the scan's low, high and climbs |
| `Climbs.Find` | src/server/climbs.rs:32-61 | the climbs of the stretches found, trimmed and weighed, in track order |
| `Climbs.StretchesRise` | src/server/climbs.rs:23-31 | stretches are disjoint and in track order, each from its lowest to its highest point, with no fall below the highest so far by more than is allowed |
| `Climbs.NothingLost` | src/server/climbs.rs:42-58 | blocks, one after another without a gap, make up the whole track, and those found are the stretches one by one in order; a found block ends at the first point to fall below its top by more than is allowed, or with the track; in a block given up no point is a dip's worth above an earlier one |
| `ClimbLosses.LostAfterTop` | src/server/climbs.rs:42-58 | a rise of the least gain, from a real step up and nowhere falling farther from its top so far than the rule allows for what it gained, that no stretch has lies after the top of a stretch that gained enough for the fall before it to be allowed; for shares of at most 1 and a least gain above the fixed dip |
| `ClimbLosses.LongClimbKept` | src/server/climbs.rs:23-31 | 600 m up, 50 m down and 400 m up on a bike are such a rise, and one stretch |
| `ClimbLosses.LosesExactly` | src/server/climbs.rs:45-48 | for every rule with such a share and least gain: some track whose stretches gain at most g loses such a rise, if and only if what may fall below a top g above its start reaches the least gain, but for rounding |
| `ClimbLosses.NoClimbInADip` | src/config.rs:287-318 | under every configured rule what a block given up holds is less than a climb has to gain |
| `ClimbLosses.RulesLose` | src/config.rs:287-318 | under the configured rules, exactly stretches of ten times the least gain and more, but for rounding |
| `ClimbLosses.SecondHillLost` | src/server/climbs.rs:42-58 | hiking 2000 m up, 199 m down and 198 m up: the second rise is in no stretch, though 75 m make a climb |
| `ClimbLosses.TwoHillsUnreported` | src/server/climbs.rs:75-82 | in a stretch and not reported: two hills of 50 m at 10 %, ten flat kilometres between them, are one stretch, too gentle for a cycling climb, though either hill would be one |
| `ClimbLosses.NeverRising` | src/server/climbs.rs:46-57 | the scan never gets off the point it is on, if and only if no point is above the one before it by more than the rounding margin |
| `ClimbLosses.CreepingIsNoClimb` | src/server/climbs.rs:32-61 | so a track whose smoothed elevations creep up no faster has no climb |
| `ClimbLosses.CreepingUp` | src/server/climbs.rs:32-61 | however high: for every height some track creeps up as far and has no climb under any rule |
| `Climbs.TrimmedExactly` | src/server/climbs.rs:96-140 | which ends are cut, and where: the low end at the first point seen from it that is steep over the window ahead, exactly where that lies beyond the tolerance; then the high end likewise, over the window behind; nothing is left, if and only if there is no such pair of points |
| `Climbs.ClimbGains` | src/server/climbs.rs:63-94 | a stretch is reported if and only if what is left of it, once cut, is longer than 0, as high as the least gain and steep enough on average; then from its start to its end, with its rises added up, no less than its net height, and its moving time |
| `Climbs.ReportedExactly` | src/server/climbs.rs:32-61 | the climbs of a track are those of exactly the stretches of which something counts is left, one for one and in track order |
| `Climbs.RisesSplit` | src/server/climbs.rs:84-87 | the heights of two parts of a climb add up to that of both |
| `Climbs.RisesOneWay` | src/server/climbs.rs:84-87 | going up all the way counts with its whole height, going down all the way with nothing |
| `ClimbLosses.OneHillReported` | src/server/climbs.rs:32-61 | fifty metres up in five hundred, cycling: one climb of fifty metres |
| `ClimbLosses.RulesAsSet` | src/config.rs:287-318 | what counts and what dip it survives under the rules set, in metres: of 100 m gained and less a cycling climb survives 10 m, of 200 m and more any climb a tenth |
| `Climbs.ClimbingWithinMoving` | src/server/climbs.rs:84-93 | the climbs take no longer than the whole track moved, and are together no longer than it is |
| `Climbs.TotalsWithin` | src/server/climbs.rs:155-163 | the totals leave out climbs without moving time and stay within the climbs' seconds |
| `Climbs.TotalsSplit` | src/server/climbs.rs:155-163 | what two lists of climbs come to is what both in one do |
| `Climbs.TotalsOfOne` | src/server/climbs.rs:155-163 | one climb comes to its height and moving time where it has any, and else to neither |
| `TrackClock.TimedPointsInTime` | src/server/gpx.rs:155-174 | the timed points are in time order, however the file has them, and at every instant they are the track's own points of it, in its order |
| `TrackClock.SortedInTime` | src/server/gpx.rs:161-174 | sorting puts them so |
| `TrackClock.SortedStably` | src/server/gpx.rs:155-160 | at every instant there are the same points in the same order as before |
| `TrackClock.ChangesBy` | src/server/timezone.rs:117-129 | the changes encode the looked-up offset at every point, unresolved stretches included: increasing indices, adjacent runs differ |
| `TrackClock.OffsetsInForce` | src/server/timezone.rs:134-147 | the changes reduced to the offsets in force |
| `TrackClock.LastResolvedRules` | src/server/timezone.rs:131-147 | the offset in force at a point is the one looked up at the place and time of the last point so far that resolves |
| `TrackClock.NoneResolved` | src/server/timezone.rs:131-147 | before any point resolves it is that of UTC |
| `TrackClock.TransitionsEncode` | src/server/timezone.rs:98-147 | they encode the offset in force at every point: increasing indices, adjacent runs differ, an unresolved stretch keeps the offset before it, UTC at the start |
| `TrackClock.InForceIsRuns` | src/server/timezone.rs:131-147 | reducing the changes gives the runs of the offsets in force |
| `TrackClock.ClockRead` | src/server/placement.rs:54-71 | the earliest instant within the track's times at which its local clock read the given time; none if and only if there is none |
| `TrackClock.RunHolds` | src/server/placement.rs:60-68 | a candidate lies in its stretch exactly where the stretch's offset is the one in force at it |
| `TrackClock.InterpolatesWithin` | src/server/gpx.rs:184-189 | a position exactly for the instants from the first to the last of two timed points or more |
| `TrackClock.InterpolatesBetween` | src/server/gpx.rs:191-208 | the last point of that instant where there is one, else a point between those around it, at an even speed |
| `TrackClock.CaptureInstant` | src/server/placement.rs:104-139 | a photo's own offset first, else the track's clock, else the assumed zone |
| `TrackClock.ResolvePlacement` | src/server/placement.rs:81-98 | a known location, else the photo's own, else where the track was; a photo without an offset whose wall clock the track's clock read is always placed on a track of two timed points or more, at the earliest reading |
| `KomootSync.ListAllTours` | src/server/komoot_sync.rs:85-112 | paging by 200 until a short page gives the whole account in order, for every account size; none exactly where a page needed is not answered |
| `KomootSync.Archive.SyncOneTour` | src/server/komoot_sync.rs:348-442 | trip and link together or neither |
| `KomootSync.Archive.ImportSelectedTours` | src/server/komoot_sync.rs:295-344 | the loop imports the ids asked for, without repeats and without those linked, up to the first failure |
| `KomootSync.Archive.Backfill` | src/server/komoot_sync.rs:261-289 | imports what a fresh listing has that is not linked, within the limit; touches nothing when it cannot list |
| `KomootSync.Archive.SyncSelectedTours` | src/server/komoot_sync.rs:224-249 | lists only the kinds a selection spans, then imports it |
| `KomootSync.ByIdNames` | src/server/komoot_sync.rs:306-309 | the listing by id holds exactly the ids listed |
| `KomootSync.LaterCounts` | src/server/komoot_sync.rs:306-309 | of two tours listed under one id the later counts |
| `KomootRuns.ImportsInOrder` | src/server/komoot_sync.rs:311-344 | imported tours are distinct, in first-request order, none linked before, each to a trip of its own; nothing there is changed |
| `KomootRuns.CompletesAll` | src/server/komoot_sync.rs:320-344 | a run without a failure leaves every tour asked for linked |
| `KomootRuns.HaltsCleanly` | src/server/komoot_sync.rs:287-344 | a run that failed on f has linked all asked for before f, not f, and touched nothing first asked for after it; which failure it reports says why |
| `KomootRuns.BackfillsKeep` | src/server/komoot_sync.rs:251-260 | however many runs fail, every pulled trip is the one its tour's link names, and rows are only added |
| `KomootRuns.BackfillResumes` | src/server/komoot_sync.rs:251-260 | any series of backfills, each with its own listing, limit and failures, and then an unlimited one without a failure, import every tour of the last listing not linked before exactly once |
| `KomootRuns.BackfillAdvances` | src/server/komoot_sync.rs:275-282 | a run whose tours can all be pulled reports no failure, stays within its limit, and takes at least one while any is left |
| `KomootRuns.BackfillTakes` | src/server/komoot_sync.rs:275-289 | a run whose tours can all be pulled imports, in listing order, exactly the first tours not linked, as many as the limit says or there are, and all without one: each to one trip, of the kind listed |
| `KomootRuns.SyncedNothingLeft` | src/server/komoot_sync.rs:159-170 | importing every candidate offered, without a failure, leaves none to offer |
| `LoginLockout.LoginFailures.LockedFor` | src/server/auth.rs:260-264 | some wait exactly while the deadline is ahead, and just until it |
| `LoginLockout.LoginFailures.RegisterFailure` | src/server/auth.rs:266-274 | the fifth failure sets the deadline and clears the count |
| `LoginLockout.Auth.Attempt` | src/server/auth.rs:140-151 | the answer and the gate's new state, the password being looked at only when not locked out |
| `LoginLockout.RefusalsTakeTime` | src/server/auth.rs:258-280 | over all runs in time order, n refused logins with no success between them span at least ⌊(n − 1) / 5⌋ × 15 minutes |
| `LoginLockout.BoundIsTight` | src/server/auth.rs:258-280 | for every n some run has n refusals spanning just that |
| `LoginLockout.LockedUntilWaited` | src/server/auth.rs:85-87 | after a lockout is announced every login before the wait is over is locked out for what is left of it; the first one after is answered by its password |
| `LoginLockout.OnlyGuessingLocks` | src/server/auth.rs:141-150 | a right password is never refused and a wrong one never granted; a lockout takes five refusals since the last success and lasts fifteen minutes at most |

## Left out

- Float rounding, NaN and infinities: arithmetic is over exact reals, and an infinite next boundary or distance is a value of its own. Cell indices and counters are unbounded integers.
- The projection's trigonometry and the earth's radius: a projection is any function of an origin and a position. Reversing a plan is stated on lines already projected, since its origin is the plan's first point.
- Everything that measures lengths takes the length of a displacement from any function that is non-negative and squares to the sum of squares.
- The extents in degrees that lookups by distance use: a lookup is any relation that returns at least what lies within the distance asked for, in the projection around either line's first point. `Extent::widened` (`src/server/repo/link/candidates.rs:54`) widens by the searching line's own latitudes, so for lines that reach to very different latitudes it can fall short of this.
- `LinkCheck.Archive.HappenAll`: with checks that succeed; a check that fails is logged and leaves what entered unchecked. That the ends of a link made by hand exist (`src/server/repo/link.rs:55-135`), and which of two trips is the planned one, are the caller's.
- `CollectionLaws.TogetherIsOneAfterAnother`, `CollectionSequence.StoredTogether`, `CollectionChain.OneByOneAsNamed`: without removals between the uploads, which one upload cannot make either. The ids that new rows get are parameters.
- `CollectionUnmatched.WaypointsListedExactly`: takes each track held to have a point, as the parser keeps no other.
- `CollectionUploads.TwiceAddsNothing`: takes each track to have a point, as the parser keeps no other (`src/server/collection_gpx.rs:79`).
- `Climbs.ClimbingWithinMoving`: for profiles whose distances do not decrease, as a track's distances do not.
- `KomootRuns.BackfillResumes`: a concurrent run can only make a pull fail, on its link row; links removed while runs go on are not modelled.
- `TrackClock.CaptureInstant`: the zone's own reading of a wall clock and the range check of an embedded offset come in as parameters.
- `LoginLockout.RefusalsTakeTime`: for clocks that do not go back. The lock that serialises logins is taken as given.
- The binary search behind `partition_point`: modelled by what it is documented to return on a partitioned slice.
- A hash of what a collection holds (`Held::digest`): no exact property to prove.
- Refreshing privacy from a listing, pushing edits and deletes, photos of a tour, and what racing edits do to the pending flags.
- Deriving keys, signing and reading session tokens, cookies, and which paths are public.
- SQLite, HTTP handlers, multipart, parsing of GPX, JSON and EXIF, image work, timezone and boundary data, the Komoot client, QMapShack writing and the command-line tools.
- The user interface, wire types, enum string tables and small field parsers: easy members only.
- Ascent, descent and other plain track statistics, totals shown on pages, tags, sharing and staging.
