# KuberNation, verified

KuberNation draws a Kubernetes cluster as a map. This project models the parts of it whose
correctness is hard to see from the code, and proves what those parts promise:

- **The frame analyser** (`hack/churn/compare.py`): PNG scanline reconstruction in place (`Png`), the
  four-bucket frame comparison (`Frames`), the merging of bounding boxes while the list shrinks under
  the loop (`Boxes`), the blob and settlement finders (`Blobs`), the flood fill and the majority vote
  (`Components`), and the pairing of settlements across frames (`Movement`).
- **Contiguous pieces** (`hack/churn/pieces.py` and the map's own grouping): runs by ordinal
  (`Pieces`), the map's region names (`PoolPieces`), and runs by live position (`Ghosts`).
- **Map geometry** (`crates/kubernation/src/draw.rs`): the two-plane projection, the camera and the
  minimap (`Camera`), the procedural coast (`Coast`), painted against clickable land (`Ground`), and
  the tiling and painting order of slots (`Bands`).
- **The advisor's memo cache** (`ReportCache`) in an allocator that reuses addresses.
- **Text**: greedy word wrap (`Wrap`, over `Text`) and Kubernetes quantities (`Quantity`).
- **The layout engine** (`crates/kubernation-core/src/state/layout.rs`): which slot each node gets
  (`Slots`), when a node that comes back has its own ground again (`SlotReturns`), and the map over
  time, with its stamps and its rows (`SlotRuns`).
- **Two protocols**: restore-on-exit between the frame loop and the net thread (`ExitProtocol`, with its
  clocks in `ExitBackstop`), and saving and loading a map on a disk that can fail or crash (`LayoutName`,
  `LayoutStore`, `LayoutFile`), over whole sessions (`LayoutSession`), by several writers at once
  (`LayoutWriters`), and on the way out (`ExitSave`).
- `Sorting` holds the sort that stands for the library sorts the sources call, and `Prelude` what all modules
  share.

Code that works step by step is an imperative method proved against a specification; what the code
promises is then proved about that specification. Methods take the outcomes of reads, clocks and
failing calls as parameters or choose them freely.

## What the proofs found

- **Counting an ordinal twice.** `runs_of_consecutive` finds the maximal runs exactly when no ordinal
  is listed twice (`Pieces.RunsOfConsecutive`); a repeated one starts a run of its own
  (`Pieces.RepeatedOrdinalSplits`).
- **"A ghost splits it".** The two counts of `pieces.py` differ exactly when some ordinal outside the
  live list lies between two changed slots that are neighbours in it (`Ghosts.CollapsingCoarsens`).
  The list leaves out live but unpooled nodes too, so what splits a run need not be a ghost
  (`Ghosts.LiveSlotSplits`).
- **The last row.** `reserved_band` gives up when a slot's end is past row 65535, and for an arbitrary
  coast end that leaves rows unpainted (`Bands.SlotIsTiled`). It never happens: with the end of the
  continent's own coast, nothing reaches below the band of such a slot, and every row a slot owns is
  painted (`Bands.EverySlotIsTiled`).
- **"Fit" at the zoom floor.** `Camera::fit` shows the whole world exactly when the world at zoom 0.30
  is no larger than the view (`Camera.FitShowsWorld`), and a large grid can be too large
  (`Camera.FitCanFallShort`). What stands on land then fits too, lifted as it is: it stands on row 1 or
  further south, and is lifted by less than a row (`Camera.GroundIsShown`).
- **The province's own cell.** `province_land_cell` passes the land test exactly when the western half
  of the row's land contains a whole column, as two cells of land always do (`Ground.LandCellIsLand`).
  On continents at least 22 cells wide it always passes, whatever the hash, and the builder makes them
  26 wide (`Ground.LandCellResolvesBack`). That the width matters is shown for the arithmetic alone, on
  a one-cell island with a constant hash, neither of which the program has (`Ground.LandCellCanMiss`).
- **Retaining the key.** The advisor's cache is right because it keeps its snapshot alive; were its
  reference not counted, some run draws a stale report (`ReportCache.RetentionIsNeeded`).
- **A suffix after an exponent.** `quantity::parse` accepts `1e3Ki` (`Quantity.SuffixAfterExponent`); the
  grammar proved here includes such literals.
- **Leaving before the undo.** The comment above the quit block speaks of an 8 s backstop; the code
  waits 27 s. Within that time an undo can be stranded with no new drill exactly when, as it is handed
  over, the net thread is on a run that neither makes the undo's steps nor leaves them to be made
  (`ExitProtocol.CanStrandIff`); a drill still in the request slot does not matter, for the undo takes its
  place. Drills confirmed meanwhile do no harm once the net thread has taken the undo and does not refuse
  it (`ExitProtocol.NothingStranded`). Each condition is needed: a kill under way ends the wait early
  (`ExitProtocol.BusyNetStrands`), a drill confirmed while the undo is in the slot takes its place
  (`ExitProtocol.DrillReplacesUndo`), and one confirmed behind an undo that is then refused runs in its
  stead (`ExitProtocol.RefusedUndoStrands`). The test for being done is not confined to the hot cluster,
  as the test for starting is.
- **Why 27 seconds.** If runs end within 25 s and a waiting request is taken within 2 s, the undo has
  been run before the backstop, counted from when the net thread is free for it
  (`ExitBackstop.UndoneInTime`). The count starts at the hand-over, though: a run of other steps still
  under way then can push the undo past the backstop, exactly if it has time left or can end the wait
  (`ExitBackstop.CanCutIff`).
- **A slot of one's own.** No frame evicts a node, seats one twice, moves one that stays or drops a slot
  (`Slots.AssignSeats`), the same frame again changes nothing (`Slots.Idempotent`), and the order in which
  nodes are listed does not matter (`Slots.OrderIsIrrelevant`). But a zone is full sooner than the code's
  comment says, with one live node if its slot has the last ordinal (`Slots.OneNodeFillsZone`): a
  new slot comes after the highest ordinal there is, and gaps are not filled.
- **One's own ground.** That a node which comes back has its own ground again does not always hold, even
  where nobody keeps that ground. `SlotReturns.ComesBackIff` gives the exact condition, for any layout.
  Only the first of the slots that a node last held is looked at. If the ground is that slot, the node has
  it again, however names hash, exactly when its pool has no more nodes that need a slot and have no
  ground than lower slots that nobody keeps or claims. If it is not, as after a node has changed zone or
  pool, the node has it again exactly when it has no ground to take instead, no other such node is about,
  and every lower slot of the pool is kept; otherwise it can be given a stranger's
  (`SlotRuns.MovedNodeLosesGround`).
- **Rows end before ordinals.** Ordinals go up to 65535, but a slot's rows fit 16 bits only up to slot
  7281, and from there on lead back to another slot (`PoolPieces.SlotOfRowInverts`). Up to there, no two
  provinces of a zone share a slot in any run (`SlotRuns.ProvincesStandApart`).
- **Distinct contexts, one file.** A test's comment asks that distinct contexts never collide after
  sanitising; they do exactly when, dots at the ends aside, they differ only in characters that are
  written as an underscore (`LayoutName.SharedFileIff`), as `a/b` and `a:b` do
  (`LayoutName.SlashAndColonShare`).
- **A save is whole, if it is alone.** Two saves of one map share a temporary file, and no lock is taken:
  the frame loop saves on the way out, while the net thread, which is not stopped, saves the same map on
  its own cadence. If they overlap, one can rename the file the other has just emptied, so that the map
  is neither the old nor the new (`LayoutWriters.OverlapTears`), or a mixture of both can stay for good
  (`LayoutWriters.SavesMix`). Every call of every save leaves every map whole, in all interleavings, if
  and only if no two saves of one map overlap (`LayoutWriters.WholeIffSerialised`); saves of different
  maps may (`LayoutWriters.SaveAmongOthers`), and a crash then finds every map whole
  (`LayoutWriters.SaveAmongOthersIsAtomic`). At any one moment a save may be begun safely exactly if none
  of that map is under way, wherever it stands (`LayoutWriters.MayBeginIffFree`). The program does not
  ensure it. What is said below of saving is said of saves that do not overlap.
- **What is saved on the way out.** That save takes the map on show, which was put there before stamping
  and before ground was reclaimed. Between builds it is the layout that the net thread carries and saves
  exactly if in the build on show nothing became vacant, no ground changed hands and nothing was there to
  reclaim (`ExitSave.SavesWhatIsCarriedIff`); reclaimed slots are saved all the same
  (`ExitSave.ReclaimedGroundIsSaved`). The context it is saved under is set apart from the map: between
  the naming of a new context and the clearing of the old map, the map of the one is saved under the
  other, and only then if both are read together (`ExitSave.SavesItsOwnIff`). It then loads as verified
  (`ExitSave.WrongMapIsSaved`).
- **A save is not final.** No call syncs the directory, so a crash can bring back the map of any moment
  since the directory was last on the disk, even after `save` has returned (`LayoutFile.SaveCanBeUndone`).
  What comes back is whole (`LayoutFile.SaveIsAtomic`). In a session of any loads and saves, of any
  contexts, a map's file always holds nothing or what some save wrote (`LayoutSession.Session`), so what
  comes back loads as something that was saved (`LayoutSession.LoadAfterCrash`).
- **What a saved layout loses.** A layout comes back equal exactly when no occupant's pool was read
  from a label and every stamp is a whole second at or after the epoch (`LayoutStore.ReturnsItselfIff`);
  a stamp between two seconds does not (`LayoutStore.SubSecondIsLost`). Slots, occupants, last occupants
  and zone ordinals always come back.
- **Nothing is deleted, nearly.** A discarded file survives the next save exactly when it was moved aside
  and the move did not fail (`LayoutFile.LoadThenSave`). The module's header says that a corrupt file is
  renamed aside, but one that is not text is not moved, and is replaced by the next save
  (`LayoutFile.NonTextIsNotMoved`); so is one that a later version wrote
  (`LayoutFile.LaterVersionIsNotMoved`). A file moved aside displaces another exactly if one of that very
  name is there (`LayoutFile.AsideLosesNothingIff`), as when two corrupt files are loaded in one second
  (`LayoutFile.TwoCorruptLoads`).

## Model

| member | source | states |
|---|---|---|
| Png.UnfilterRow | hack/churn/compare.py:118-140 | The in-place loop leaves the scanline that filters back, by section 6 of RFC 2083, to the bytes it was given |
| Png.FilterRowPrefixInjective | hack/churn/compare.py:122-140 | Filtering loses nothing: two scanlines that filter to the same bytes agree, so undoing has one answer |
| Png.Reconstruct | hack/churn/compare.py:113-142 | For any filter bytes the loop yields the image whose encoding is the stream; every index is in range |
| Png.EncodeInjective | hack/churn/compare.py:112-142 | No two images share a stream |
| Png.DropAlphaKeepsTriples | hack/churn/compare.py:145-146 | Dropping alpha keeps exactly the RGB triples, in order |
| Png.Decode | hack/churn/compare.py:112-146 | Decoding what an encoder wrote, with any filter on each row, gives that image's colours pixel by pixel, for three or four channels |
| Png.Mean | hack/churn/compare.py:128-131 | The mean of two bytes, rounded down |
| Png.PaethIsNearest | hack/churn/compare.py:132-140 | The prediction is the neighbour nearest to left + up - upper left, and of equally near ones left before up before upper left |
| Png.ResidueIs | hack/churn/compare.py:122-140 | A stored byte and its prediction add up to the byte, wrapping at 256, and no other stored byte restores it |
| Png.ScanlinePlain | hack/churn/compare.py:122-140 | Type 0, and a type beyond 4, store a scanline as it is |
| Png.ScanlineByLeft | hack/churn/compare.py:122-124 | A literal scanline under type 1, less the pixel to the left |
| Png.ScanlineByUp | hack/churn/compare.py:125-127 | The same under type 2, less the pixel above |
| Png.ScanlineByMean | hack/churn/compare.py:128-131 | The same under type 3, odd sums rounded down |
| Png.ScanlineByPaeth | hack/churn/compare.py:132-140 | The same under type 4, with each of the three neighbours the nearest once |
| Frames.Compare | hack/churn/compare.py:244-287 | Sizes that differ are refused, an empty crop is unknown, and otherwise each figure is the number of play-area pixels it names |
| Frames.CompareRow | hack/churn/compare.py:259-274 | One row slice adds exactly its pixels to every figure |
| Frames.AreaIsConserved | hack/churn/compare.py:258-287 | identical + lost + gained + changed = total, and the footprints differ by gained less lost |
| Frames.TotalIsArea | hack/churn/compare.py:236-252 | The total is the area of the crop |
| Frames.SwappingFrames | hack/churn/compare.py:244-287 | Swapping the frames swaps lost with gained and the footprints, and nothing else |
| Frames.IdenticalMeansPixelIdentical | hack/churn/compare.py:266-268 | All identical exactly when the play areas are pixel for pixel the same |
| Frames.ChromeIsExcluded | hack/churn/compare.py:236-241 | Nothing right of or above the crop moves any figure |
| Frames.Channel | hack/churn/compare.py:53-55 | A channel is truncated: the byte is at most 255 times the value, and less than one below it |
| Frames.ClassesAre | hack/churn/compare.py:58-222 | The settlement class is (224, 211, 168) alone, reserved ground is ten greys, and land is what is greener than blue, which no reserved grey is |
| Boxes.MergeToFixpoint | hack/churn/compare.py:327-344 | Deleting while iterating, every index read is in range, the passes end, and what is left is the finest grouping into boxes that are apart |
| Boxes.MergeInto | hack/churn/compare.py:331-343 | One inner pass keeps the grouping, and either shrinks the list or shows that nothing later is near |
| Boxes.FinestIsUnique | hack/churn/compare.py:327-344 | Every grouping into boxes that are apart coarsens the finest one, which is therefore unique |
| Boxes.MergeOrderIsIrrelevant | hack/churn/compare.py:327-344 | Merging is confluent: any order of merging near pairs ends in the same boxes |
| Blobs.BlobBoxes | hack/churn/compare.py:290-344 | The boxes are those of the finest grouping of all maximal class runs that leaves them farther apart than the gap |
| Blobs.Place | hack/churn/compare.py:311-326 | A run widens the first box it is near, or starts a box of its own |
| Blobs.ScanRow | hack/churn/compare.py:298-326 | A row's scan finds exactly its maximal runs and places each, keeping the grouping |
| Blobs.ClassPixelsCovered | hack/churn/compare.py:290-344 | Every class pixel of the play area lies in a box |
| Blobs.BlobsAreDetermined | hack/churn/compare.py:290-344 | The answer depends only on the picture and the gap, up to order |
| Blobs.Settlements | hack/churn/compare.py:411-436 | Settlements are the finest grouping of the blobs under the anisotropic gaps of 4 and 35 pixels |
| Blobs.GapsAre | hack/churn/compare.py:421-430 | Blobs are merged at 6 px both ways; settlements at an overlap or 4 px in x, and 35 px in y |
| Boxes.FinestPermuted | hack/churn/compare.py:327-344 | The finest grouping belongs to the items, not to their order |
| Blobs.SettlementsAreDetermined | hack/churn/compare.py:411-436 | The settlements depend only on the picture, up to order, though the blobs they are merged from may be listed in any order |
| Components.AroundIsNeighbour | hack/churn/compare.py:379-382 | The range test accepts exactly the cells that exist, and the index computed is theirs |
| Components.Expand | hack/churn/compare.py:378-385 | A popped cell's unlabelled neighbours are labelled and pushed; the fill stays sound and closed, and work shrinks |
| Components.Flood | hack/churn/compare.py:369-386 | A cell is labelled exactly if its mask bit is set, two share a label exactly if a path in the mask joins them, the labels are 1 to nxt, and each cell is pushed at most once |
| Components.FloodIsConnectivity | hack/churn/compare.py:369-386 | Seeded and closed labels are connectivity |
| Components.LandComponents | hack/churn/compare.py:347-386 | The mask samples land that is not a settlement, all reads are in range, and its labelling is by connectivity |
| Components.ComponentAt | hack/churn/compare.py:389-408 | 0 if no land is near, otherwise the most frequent label of the neighbourhood, the first seen among equals |
| Movement.PairSettlements | hack/churn/compare.py:449-490 | Each settlement pairs with the nearest that no earlier one took, its verdict needs both frames to agree, the counts count the fates, and the rest of frame B is new |
| Movement.Nearest | hack/churn/compare.py:453-460 | The least distance among the unused, the first among equals |
| Movement.Mid | hack/churn/compare.py:446 | The middle of a box, rounded down |
| Movement.DistIsPythagoras | hack/churn/compare.py:459 | The order is by distance: Pythagoras, either way round, wherever the two points are |
| Movement.Judge | hack/churn/compare.py:478-486 | Within or across exactly where the two frames agree |
| Movement.CountsAre | hack/churn/compare.py:461-486 | Each count is the number of settlements with that fate |
| Movement.EveryoneReported | hack/churn/compare.py:450-494 | Held, moved within, moved across, indeterminate and gone add up to frame A's settlements |
| Movement.SameSettlementsAllHeld | hack/churn/compare.py:439-490 | Frames with the same settlements, in any order, report every one held |
| Pieces.RunsOfConsecutive | hack/churn/pieces.py:50-59 | The maximal runs, exactly when no ordinal repeats; the lengths always add up to the list |
| Pieces.RepeatedOrdinalSplits | hack/churn/pieces.py:53-58 | The ordinal 5 listed twice gives two runs of length 1, which are not the maximal runs |
| Pieces.OneListOfRuns | hack/churn/pieces.py:50-59 | A set has one list of maximal runs |
| Pieces.RunsTotal | hack/churn/pieces.py:50-59 | The runs' lengths add up to the set's size |
| PoolPieces.SlotOfRowInverts | crates/kubernation-core/src/state/world.rs:595-607 | In 16 bits, a row of a slot leads back to the slot exactly when it fits them: all rows of slots up to 7280 and six of slot 7281 |
| PoolPieces.PoolLabelPieces | crates/kubernation/src/draw.rs:1932-1955 | For distinct slots in any stored order, the pieces are in slot order and each named pool's are exactly its maximal runs of slots; the sentinel has none |
| PoolPieces.MapAndScriptAgree | hack/churn/pieces.py:380-381 | Pool by pool, the map's pieces and the script's runs are the same |
| PoolPieces.PiecesPartition | crates/kubernation/src/draw.rs:1932-1955 | Each pooled province lies in exactly one piece, each unpooled one in none |
| Ghosts.RunsSnoc | hack/churn/pieces.py:62-64 | Grouping by equal neighbours counts runs as one pass over the positions does |
| Ghosts.CollapsingCoarsens | hack/churn/pieces.py:396-401 | Each run by live position adds up adjacent runs by ordinal; totals agree, there are never more, and the lists differ exactly when an ordinal outside the live list lies between changed neighbours |
| Ghosts.LiveSlotSplits | hack/churn/pieces.py:320-321 | A live unpooled slot splits a run by ordinal and not the run by live position |
| Ghosts.CollapsingFlatters | hack/churn/pieces.py:67-78 | So the summary by live position never shows more pieces or a smaller largest share |
| Bands.SlotsNeverOverlap | crates/kubernation/src/draw.rs:2117-2132 | Bands and remainders of different slots share no row |
| Bands.PaintedRowsAreOwned | crates/kubernation/src/draw.rs:2117-2132 | A slot's band and remainder are its own rows, and disjoint |
| Bands.EverySlotIsTiled | crates/kubernation/src/draw.rs:1542-1548 | With the continent's own coast end, every row a slot owns above it is painted, as band or as remainder |
| Bands.SlotIsTiled | crates/kubernation/src/draw.rs:2128-2132 | For any coast end: every row a slot owns above it is painted exactly when the slot's end is a representable row or nothing is left below the band |
| Bands.RemainderIs | crates/kubernation/src/draw.rs:2128-2132 | A remainder is the rows below the band, within nine of the slot's head and north of the coast's end, and there is none where nine rows do not fit 16 bits |
| Bands.RemainderListed | crates/kubernation/src/draw.rs:1543-1548 | Every slot with rows to spare has its remainder in the pass |
| Bands.TerrainIsBackToFront | crates/kubernation/src/draw.rs:1890-1902 | Top rows never decrease; on a tie land precedes ghosts and ghosts remainders |
| Bands.KeysAre | crates/kubernation/src/draw.rs:1890-1912 | The order's key: top row, then provinces before ghosts before remainders, then the index |
| Bands.PassPaintsEachOnce | crates/kubernation/src/draw.rs:1890-1902 | Every plot and every remainder is painted exactly once, and nothing else |
| Bands.RemainderPaintsBetween | crates/kubernation/src/draw.rs:1886-1902 | A remainder paints after its own band and before the band and remainder of every slot further south |
| Camera.IsoInverts | crates/kubernation/src/draw.rs:975-978 | The projection and its inverse undo each other on the whole plane |
| Camera.CellAtIsExact | crates/kubernation/src/draw.rs:1026-1034 | On a plane of any lift, a point resolves to a cell exactly if it is the in-bounds cell whose diamond holds it |
| Camera.BothPlanesInvert | crates/kubernation/src/draw.rs:1003-1022 | What is drawn anywhere in a cell's diamond is hit as that cell, on the sea plane and on land |
| Camera.DrawnAt | crates/kubernation/src/draw.rs:969-1006 | A cell is 32 by 16 px at zoom 1, x to the lower right and y to the lower left, and land is 7 px up under Relief |
| Camera.ShiftedDrawsEast | crates/kubernation/src/draw.rs:979-994 | A shifted camera draws where the unshifted one draws the cells that many further east, on both planes |
| Camera.PlanesDifferByLift | crates/kubernation/src/draw.rs:1007-1022 | Without lift the two hit tests agree; with it they differ by its height |
| Camera.MinimapHoldsWorld | crates/kubernation/src/draw.rs:3192-3211 | Every point of the world is drawn in the minimap's frame |
| Camera.MinimapInverts | crates/kubernation/src/draw.rs:3170-3189 | The minimap's inverse is exact over whole diamonds |
| Camera.MinimapStands | crates/kubernation/src/draw.rs:3192-3215 | The minimap is in the middle of the right column, 62 px down, two to one, as large as its margins and a cell of 12 px allow, framed 6 px around |
| Camera.MinimapClamps | crates/kubernation/src/draw.rs:3180-3189 | Any point of the frame, half-open, resolves to the nearest cell, and no other does |
| Camera.CameraState.Fit | crates/kubernation/src/draw.rs:1092-1107 | The world's centre lands in the middle of the view at the fitted zoom, and any flight is dropped |
| Camera.FitShowsWorld | crates/kubernation/src/draw.rs:1074-1107 | The whole sea plane is in the view exactly when the world fits at the zoom floor, for any grid, and then all ground is too |
| Camera.FitCanFallShort | crates/kubernation/src/draw.rs:1092-1107 | A 500 by 500 grid does not fit 1280 by 800 |
| Camera.GroundIsShown | crates/kubernation-core/src/state/world.rs:595-597 | Ground begins on row 1 and is lifted by less than a row, so it is in the view wherever the sea plane is, at any zoom and in either style |
| Camera.CameraState.FlyToWithin | crates/kubernation/src/draw.rs:1055-1060 | The flight's end puts the cell's centre in the middle of the view |
| Camera.CameraState.JumpToWithin | crates/kubernation/src/draw.rs:1068-1073 | The jump puts the cell's centre there at once |
| Camera.CameraState.Tick | crates/kubernation/src/draw.rs:1110-1124 | A manual pan drops the flight where it is; otherwise one frame either lands on the target or leaves 0.6724 of the squared distance to it |
| Camera.FlightLands | crates/kubernation/src/draw.rs:1110-1124 | Left alone, a flight lands exactly on its target after finitely many frames |
| Camera.LengthIsPythagoras | crates/kubernation/src/draw.rs:1115-1118 | What a flight lands by is a length: Pythagoras |
| Coast.VNoiseIsUnit | crates/kubernation/src/draw.rs:1319-1329 | The noise lies in [0, 1] for every seed and row |
| Coast.HashIsAFraction | crates/kubernation/src/draw.rs:1315-1317 | A hash of seed and number, with a colon between, gives its last four digits as a fraction |
| Coast.NoiseBetweenHashes | crates/kubernation/src/draw.rs:1321-1329 | Every five rows the noise is a hash, and in between a smooth step from one to the next |
| Coast.NewCoast | crates/kubernation/src/draw.rs:1351-1397 | The window spans provinces and ghosts, and each row's caps are the tightest any city near it asks for; all array indices are in range |
| Coast.KeepInland | crates/kubernation/src/draw.rs:1380-1386 | A city lowers exactly the caps of rows ly-1 to ly+2 that are in the window |
| Coast.InsetsAreBounded | crates/kubernation/src/draw.rs:1400-1422 | Insets lie between 0 and MAX_INSET + 7.2, and under the caps |
| Coast.InsetsAre | crates/kubernation/src/draw.rs:1400-1422 | An inset is five times the noise and the cape, up to the row's cap, and rows past an end have the end's |
| Coast.CapesAre | crates/kubernation/src/draw.rs:1413-1417 | No cape below four rows, one row more of cape for every four up to three, 2.4 cells a row, alike from both ends |
| Coast.EndsAreCapes | crates/kubernation/src/draw.rs:1400-1422 | Uncapped, the end rows of a continent of 12 rows or more are inset by at least 7.2 cells |
| Coast.CapsKeepFour | crates/kubernation/src/draw.rs:1372-1386 | A city's caps leave four columns on either side of it, as far as the continent reaches |
| Coast.ShoreIsLocal | crates/kubernation/src/draw.rs:1400-1422 | Three rows from both ends, equal caps and zones give equal insets |
| Coast.DepartureKeepsShore | crates/kubernation/src/draw.rs:1402-1408 | So a departure reshapes no row away from the ends whose nearby cities it leaves alone |
| Coast.SettlementOnDryLand | crates/kubernation/src/draw.rs:1372-1422 | A city's cell and CITY_MARGIN columns each way, on rows ly-1 to ly+2, pass the land test, and its row is in the window |
| Ground.RegionIsFirst | crates/kubernation-core/src/state/world.rs:308-335 | A hit answers for the first rectangle that holds the cell; there for the first city on the very cell, otherwise the first within a cell of it, and for the province exactly where no city is that near; and there is a hit wherever some rectangle holds the cell |
| Ground.ResolvesTo | crates/kubernation/src/draw.rs:789-810 | A marker answers wherever one is moored; a city, and what is no continent, for itself; only a province's cell can be sea |
| Ground.LandTestsAgree | crates/kubernation/src/draw.rs:2316-2320 | The painter's and the hit test's conditions accept the same columns, also where the insets overlap |
| Ground.ClickableIsPainted | crates/kubernation/src/draw.rs:789-810 | A cell of a province's rectangle resolves to its region exactly if it is painted as land |
| Ground.LandCellIsLand | crates/kubernation/src/draw.rs:643-654 | The derived cell passes the land test exactly when the western half of its row's land holds a whole column, as two cells of land always do |
| Ground.LandCellCanMiss | crates/kubernation/src/draw.rs:643-654 | Shows only that the width bound is needed for the arithmetic: with a constant hash, which the program does not have, the derived cell of an island one cell wide, which it does not build, is sea |
| Ground.LandCellResolvesBack | crates/kubernation/src/draw.rs:636-654 | On continents at least 22 cells wide with provinces at least 3 rows tall the derived cell is land whatever the hash, and resolves back to its province |
| ReportCache.Reports.Sync | crates/kubernation/src/advisor.rs:117-126 | Another snapshot drops every slot; the same one drops none |
| ReportCache.Reports.HealthReport | crates/kubernation/src/advisor.rs:135-137 | Fills an empty slot, returns the slot, touches no other |
| ReportCache.StepsHold | crates/kubernation/src/advisor.rs:95-126 | A fetch takes the snapshot published last, a frame's end lets it go, and closing the advisor empties the cache |
| ReportCache.DrawsAreNeverStale | crates/kubernation/src/advisor.rs:95-153 | In any interleaving of mutation, publication, freeing with address reuse and drawing, a report drawn is of a world no older than the frame's snapshot |
| ReportCache.RetentionIsNeeded | crates/kubernation/src/advisor.rs:107-126 | Without retention some run draws a stale report |
| ReportCache.BuiltOncePerChange | crates/kubernation/src/advisor.rs:128-153 | A report is built at most once per change of snapshot |
| Text.SpacesAre | crates/kubernation/src/almanac.rs:453 | White space is the 25 characters that Unicode calls so |
| Wrap.WrapText | crates/kubernation/src/almanac.rs:450-473 | The lines hold the words in order; each grows word by word as long as it fits or is one word, and could not take the next; and no such breaking is shorter, for any width monotone on contiguous ranges |
| Wrap.GreedyStaysAhead | crates/kubernation/src/almanac.rs:450-473 | After n lines greedy has placed at least as many words as any breaking |
| Wrap.GreedyIsOptimal | crates/kubernation/src/almanac.rs:450-473 | No acceptable breaking uses fewer lines |
| Wrap.GreedyIsUnique | crates/kubernation/src/almanac.rs:450-473 | There is one such breaking, whatever the measure |
| Wrap.LinesKeepWords | crates/kubernation/src/almanac.rs:450-473 | Reading the lines back gives the text's words: none lost, split or reordered |
| Quantity.Parse | crates/kubernation-core/src/k8s/quantity.rs:10-61 | The byte scanner computes the parse, and its split is always on a character boundary, whatever the text holds |
| Quantity.ScanNumber | crates/kubernation-core/src/k8s/quantity.rs:15-38 | The scan stops at the end of the number part, having passed ASCII only |
| Quantity.AfterAscii | crates/kubernation-core/src/k8s/quantity.rs:15-39 | After ASCII bytes, byte offsets are character offsets in the UTF-8 of any text |
| Quantity.Utf8Is | crates/kubernation-core/src/k8s/quantity.rs:15 | The bytes are those of UTF-8, by section 3 of RFC 3629 |
| Quantity.ParsesIffSpelled | crates/kubernation-core/src/k8s/quantity.rs:10-61 | A text is accepted with value v exactly when it is a literal worth v with white space around it |
| Quantity.ParsePrinted | crates/kubernation-core/src/k8s/quantity.rs:39-60 | Every printed literal parses to its exact value |
| Quantity.LiteralIsUnique | crates/kubernation-core/src/k8s/quantity.rs:39-60 | An accepted text splits in one way only |
| Quantity.ExponentOrExa | crates/kubernation-core/src/k8s/quantity.rs:23-38 | `e` or `E` begins an exponent exactly if a digit or a sign follows, and a suffix otherwise |
| Quantity.SuffixAfterExponent | crates/kubernation-core/src/k8s/quantity.rs:39-60 | `1e3Ki` parses to 1024000 |
| Quantity.DigitsAddUp | crates/kubernation-core/src/k8s/quantity.rs:40 | A digit is worth its distance from zero, and one more digit makes v into 10v + d |
| Quantity.PointDivides | crates/kubernation-core/src/k8s/quantity.rs:40 | The point one place to the left is a tenth, and one with nothing after it changes nothing |
| Quantity.SignsNegate | crates/kubernation-core/src/k8s/quantity.rs:40 | A minus negates, a plus does nothing |
| Quantity.ExponentOfZero | crates/kubernation-core/src/k8s/quantity.rs:40 | An exponent of zero changes nothing |
| Quantity.ExponentScales | crates/kubernation-core/src/k8s/quantity.rs:40 | An exponent one larger is ten times as much, or a tenth under a minus |
| Quantity.DecimalSuffixes | crates/kubernation-core/src/k8s/quantity.rs:41-51 | Any number under a decimal suffix is worth a thousand times what it is under the one before, and under none itself |
| Quantity.BinarySuffixes | crates/kubernation-core/src/k8s/quantity.rs:52-57 | Under a binary one, 1024 times |
| Quantity.SuffixesAre | crates/kubernation-core/src/k8s/quantity.rs:41-59 | There are no other suffixes |
| Quantity.OnesAre | crates/kubernation-core/src/k8s/quantity.rs:41-51 | What one is worth under each decimal suffix, as a number |
| Quantity.BinaryOnesAre | crates/kubernation-core/src/k8s/quantity.rs:52-57 | And under each binary one |
| Quantity.WrittenNumbers | crates/kubernation-core/src/k8s/quantity.rs:10-61 | 2, 0.5, -1, 1e3 and 1e-3 as numbers |
| Quantity.WrittenQuantities | crates/kubernation-core/src/k8s/quantity.rs:10-61 | 250m, 500u, 100n, 128Mi and 100G as numbers |
| ExitProtocol.ExitBlock.Frame | crates/kubernation/src/main.rs:3918-3961 | One frame's pass through the block, with the session read twice: what is submitted, what is remembered, and when the loop leaves |
| ExitProtocol.HalvesAreAFrame | crates/kubernation/src/main.rs:3918-3961 | The system's two half steps do between them what one frame of the block does |
| ExitProtocol.LandsAsSession | crates/kubernation/src/net.rs:2228-2251 | A run that lands becomes the session, with its undo to be run |
| ExitProtocol.ExitIsSafe | crates/kubernation/src/main.rs:3915-3961 | In every run, a process that left saw no hot drill left to undo or left over 27 s after handing the undo over |
| ExitProtocol.SubmitsExactlyOnce | crates/kubernation/src/main.rs:3918-3941 | However often quitting is asked for, at most one undo is handed over, and it is exactly the session's restore steps |
| ExitProtocol.BackstopFires | crates/kubernation/src/main.rs:3955-3960 | The loop leaves on the first frame past the backstop, whatever the net thread does |
| ExitProtocol.CanStrandIff | crates/kubernation/src/main.rs:3918-3961 | An undo just handed over can be left unrun before the backstop, with no new drill, exactly when the net thread is on a run that neither makes its steps nor leaves a hot session that still has them |
| ExitProtocol.NothingStranded | crates/kubernation/src/main.rs:3942-3961 | Otherwise a process that leaves before the backstop has run the undo, whatever drill is confirmed once the net thread has taken it, unless it is refused with a drill behind it |
| ExitProtocol.LeavesOnceUndone | crates/kubernation/src/main.rs:3951-3960 | With no new drill, and no run under way but one whose end tells whether the undo is still to be run, a frame leaves exactly when the undo has been run or the backstop has passed |
| ExitProtocol.BusyNetStrands | crates/kubernation/src/net.rs:2228-2251 | A drill still running when the undo is handed over can end the wait with the undo not run |
| ExitProtocol.DrillReplacesUndo | crates/kubernation/src/net.rs:657-660 | A drill confirmed while the undo waits replaces it in the request slot |
| ExitProtocol.RefusedUndoStrands | crates/kubernation/src/net.rs:2135-2148 | A drill confirmed once the undo has left the slot still strands it if the net thread refuses the undo |
| ExitBackstop.UndoneInTime | crates/kubernation/src/main.rs:3955-3960 | With runs of at most 25 s and requests taken within 2 s, and nothing confirmed or refused meanwhile, the undo has been run 27 s after the net thread was free for it: after the hand-over, unless a run of other steps was under way |
| ExitBackstop.CanCutIff | crates/kubernation/src/main.rs:3955-3960 | A process can leave past the backstop with its undo not run, on those terms, exactly when at the hand-over the net thread is on a run of other steps that has time left or can end the wait |
| LayoutName.FileIsOneComponent | crates/kubernation/src/layout_io.rs:50-70 | Any context maps to one visible file of the layouts directory, ending in .json |
| LayoutName.SafeNamesAreKept | crates/kubernation/src/layout_io.rs:52-70 | Exactly the safe names are kept as they are; sanitising twice changes nothing |
| LayoutName.SharedFileIff | crates/kubernation/src/layout_io.rs:52-70 | Two contexts share a file exactly when, without the dots at their ends, they have the same length and differ only where both have an underscore or a character written as one |
| LayoutName.SlashAndColonShare | crates/kubernation/src/layout_io.rs:52-70 | The contexts a/b and a:b share the file a_b.json |
| LayoutName.SafeNamesNeverShare | crates/kubernation/src/layout_io.rs:52-70 | Safe names never share a file |
| LayoutName.NamesAreSpelled | crates/kubernation/src/layout_io.rs:52-171 | A safe context's map, its temporary file and the two it is moved aside to, spelled out |
| LayoutName.SafeCharsAre | crates/kubernation/src/layout_io.rs:53-58 | The characters kept, by their numbers |
| LayoutName.NamelessContexts | crates/kubernation/src/layout_io.rs:63-69 | A context of which nothing is left has the file unnamed.json |
| LayoutName.NamesNeverMeet | crates/kubernation/src/layout_io.rs:129-171 | No map's file is ever a temporary file or one moved aside |
| LayoutName.AsideTellsAll | crates/kubernation/src/layout_io.rs:129-154 | Two files moved aside meet only for the same file, reason and second |
| LayoutStore.StoreRoundTrip | crates/kubernation-core/src/state/layout_store.rs:115-189 | Storing and rebuilding gives what storing keeps, in any order of visiting the maps; refused exactly when both fingerprints are known and differ, verified exactly when both are known and agree |
| LayoutStore.RefusedIff | crates/kubernation-core/src/state/layout_store.rs:151-189 | A version above 1 is refused whatever else, one of 1 or less exactly if both fingerprints are known and differ, and verified exactly if both are known and agree; 1 is what is written |
| LayoutStore.ReturnsItselfIff | crates/kubernation-core/src/state/layout_store.rs:115-189 | The layout that comes back is the one saved exactly when no occupant's pool source is other than the default and every stamp is a whole second at or after the epoch |
| LayoutStore.SubSecondIsLost | crates/kubernation-core/src/state/layout_store.rs:191-197 | A slot vacated a nanosecond past a second comes back as vacated at that second |
| LayoutStore.SecondsAreWhole | crates/kubernation-core/src/state/layout_store.rs:191-197 | A time is stored as its whole seconds, and none before the epoch is |
| LayoutStore.MapComesBack | crates/kubernation-core/src/state/layout_store.rs:115-189 | Slots, occupants, last occupants and zone ordinals always come back, and a second trip changes nothing |
| LayoutFile.Disk.WriteThenSync | crates/kubernation/src/layout_io.rs:181-187 | It succeeds exactly if neither creating nor syncing fails, and no write before the end; then the temporary file holds all the bytes and is on the disk; no other name changes at any moment |
| LayoutFile.Disk.Save | crates/kubernation/src/layout_io.rs:163-179 | While no other save of this map is under way: the result is settled by which calls fail; at every moment the map's file is the old or the new one whole and nothing else changes; success leaves the new one, in a new file if a stale one could be removed, and no temporary one; an error leaves the old one |
| LayoutFile.SaveIsAtomic | crates/kubernation/src/layout_io.rs:163-187 | While no other save of this map is under way: after a crash at any moment of a save or later, either every map is as it was at one moment since the directory was last on the disk, before the save, or this map is old or new, whole, and every other as it was |
| LayoutFile.CrashCanReturnTo | crates/kubernation/src/layout_io.rs:163-187 | Each such moment can come back, with every map as it was then |
| LayoutFile.SaveCanBeUndone | crates/kubernation/src/layout_io.rs:163-187 | A save that has returned can still be undone by a crash, to the map of its start or of any earlier moment of the session |
| LayoutSession.Session | crates/kubernation/src/net.rs:1484-1496 | In a session of any loads and saves, of any contexts, each operation does what it does to the disk, one after the other, whatever fails; and a map's file at every moment holds nothing, or what a save of this session or of an earlier one wrote |
| LayoutSession.SaveExtendsHistory | crates/kubernation/src/layout_io.rs:163-187 | One more save of the map keeps that |
| LayoutSession.LoadExtendsHistory | crates/kubernation/src/layout_io.rs:111-157 | So does a load, of any context, that moves a file aside |
| LayoutSession.SaveElsewhereKeepsHistory | crates/kubernation/src/layout_io.rs:163-187 | So does a save of another map |
| LayoutSession.LoadAfterCrash | crates/kubernation/src/layout_io.rs:111-187 | Saving, crashing, restarting and loading gives the kept form of a saved layout, with the trust the fingerprints earn, or a fresh map only where there was none |
| LayoutSession.RestartIsSound | crates/kubernation/src/layout_io.rs:111-187 | What a crash leaves is a disk that a new session can start from |
| LayoutFile.CrashLeavesWhole | crates/kubernation/src/layout_io.rs:163-187 | Over a whole session of loads and of saves that do not overlap on one map, a crash leaves each visible file something it held before, whole |
| LayoutFile.SyncIsNeeded | crates/kubernation/src/layout_io.rs:181-187 | Renaming before syncing could lose both the old map and the new |
| LayoutFile.Disk.Load | crates/kubernation/src/layout_io.rs:111-157 | The outcome is a function of the file's content, only a file moved aside changes the directory, and nothing happens in between |
| LayoutSession.LoadAfterSave | crates/kubernation/src/layout_io.rs:111-179 | What was saved loads, with the trust the fingerprints earn, unless the cluster is known to be another |
| LayoutFile.MovesAsideIff | crates/kubernation/src/layout_io.rs:125-156 | A file is moved aside as corrupt exactly if it was read and is no layout, and as another cluster's exactly if it is of a known version and both fingerprints are known and differ |
| LayoutFile.LoadThenSave | crates/kubernation/src/layout_io.rs:111-179 | A file that a load discarded is still there after the next save exactly when it was moved aside and the move did not fail, and then under its new name with what it held |
| LayoutFile.NonTextIsNotMoved | crates/kubernation/src/layout_io.rs:113-125 | A file that is not text is discarded and not moved, whatever the header says of corrupt files |
| LayoutFile.LaterVersionIsNotMoved | crates/kubernation/src/layout_io.rs:149-157 | Neither is one of a later version |
| LayoutFile.AsideLosesNothingIff | crates/kubernation/src/layout_io.rs:129-154 | Moving aside loses nothing exactly when nothing of that name was there |
| LayoutFile.TwoCorruptLoads | crates/kubernation/src/layout_io.rs:129-145 | Two corrupt files of one context loaded in one second: the first is lost |
| LayoutWriters.FailsAs | crates/kubernation/src/layout_io.rs:175-187 | Only the removal of a stale file may fail without ending the save; no failure changes the disk |
| LayoutWriters.SerialisedSavesAreWhole | crates/kubernation/src/layout_io.rs:163-187 | Saves interleaved call by call, with loads, none of one map overlapping: each call leaves every map as it was, or is a save's last and puts its bytes, whole, in its map; what crashes need still holds |
| LayoutWriters.SaveAmongOthers | crates/kubernation/src/layout_io.rs:163-187 | Whatever saves of other maps do meanwhile, a map is the old one until its save has succeeded, and from then on what was saved |
| LayoutWriters.SaveAmongOthersIsAtomic | crates/kubernation/src/layout_io.rs:163-187 | A crash in such a run leaves every map whole as at one moment, and the map being saved old or new |
| LayoutWriters.WholeIffSerialised | crates/kubernation/src/main.rs:3977-3984 | All runs keep every map whole at every call exactly if two saves of one map may not overlap; nothing in the program rules that out |
| LayoutWriters.MayBeginIffFree | crates/kubernation/src/main.rs:3977-3984 | At any moment of a run whose saves of one map have not overlapped, a save of a map can be begun and every map stays whole however the run goes on, exactly if no save of that map is under way, at whichever call it stands |
| LayoutWriters.OverlapTears | crates/kubernation/src/net.rs:2507-2515 | On any disk: the exit save removes and recreates the temporary file that the other save is about to rename, and the map is empty and not on the disk |
| LayoutWriters.SavesMix | crates/kubernation/src/net.rs:2507-2515 | On any disk: both write one file from its start, one save succeeds, the other reports an error, and the map holds a mixture for good |
| Slots.AssignLayout | crates/kubernation-core/src/state/layout.rs:364-480 | The engine's loops compute the layout that the theorems about `Assigned` below are about, for any hash |
| Slots.AssignSeats | crates/kubernation-core/src/state/layout.rs:343-480 | No slot is dropped and nobody evicted; a node that stays keeps its slot; only observed nodes sit, each where it belongs and once; ordinals stay unique in their zones; one without a slot has no vacancy in its pool and none left in its zone |
| Slots.ChoiceFailsIffFull | crates/kubernation-core/src/state/layout.rs:434-472 | A node finds no slot exactly if its pool has no vacancy and the last ordinal of its zone is used |
| Slots.NewSlotsAdjoin | crates/kubernation-core/src/state/layout.rs:722-735 | A new slot stands first in its zone, or right after another: no frame leaves a hole |
| Slots.FreshZoneIsFilled | crates/kubernation-core/src/state/layout.rs:364-480 | n nodes of a zone seen for the first time have the slots 0 to n - 1 between them, for n up to 65536, whatever their pools |
| Slots.OneNodeFillsZone | crates/kubernation-core/src/state/layout.rs:457-471 | One live node in the slot with the last ordinal fills its zone for another pool |
| Slots.Idempotent | crates/kubernation-core/src/state/layout.rs:364-480 | The same frame again gives the same layout, times and zones included |
| Slots.OrderIsIrrelevant | crates/kubernation-core/src/state/layout.rs:423-427 | The layout does not depend on the order in which the nodes are listed |
| Slots.ZonesKeepOrdinals | crates/kubernation-core/src/state/layout.rs:393-408 | A zone keeps its ordinal for good, and no two share one as long as 16 bits suffice |
| Slots.FreshZonesFollow | crates/kubernation-core/src/state/layout.rs:397-408 | Zones seen for the first time have the ordinals after the last, one by one, in the order of their names |
| Slots.TextLeDecides | crates/kubernation-core/src/state/layout.rs:404 | Names are in order by their first difference, and what has ended comes first |
| Slots.KeysAreVisitedBy | crates/kubernation-core/src/state/layout.rs:84-89 | Slots are visited by zone, then by pool, then by ordinal |
| SlotReturns.FrameKeepsHomes | crates/kubernation-core/src/state/layout.rs:430-448 | Where nodes keep their zones and pools, each has last held one slot at most |
| SlotRuns.SettledGroundIsFound | crates/kubernation-core/src/state/layout.rs:311-316 | In a run in which nodes do so, the slot a node last held is always the one looked at |
| SlotReturns.ComesBackIff | crates/kubernation-core/src/state/layout.rs:430-456 | For any layout and every hash, a node that needs a slot while nobody keeps one of its pool that it last held has that slot again exactly under a condition on the layout and the nodes: no more groundless nodes in the pool than lower slots nobody keeps or claims, if that slot is the one looked at; no ground elsewhere, no other groundless node and every lower slot kept, if it is not |
| SlotRuns.ReclaimIs | crates/kubernation-core/src/state/layout.rs:291-295 | Reclaiming releases exactly the vacant slots |
| SlotRuns.RunIsOrderly | crates/kubernation/src/net.rs:1230-1248 | However nodes come and go and ground is reclaimed, no node sits twice and ordinals stay unique in their zones |
| SlotRuns.StayerNeverMoves | crates/kubernation-core/src/state/layout.rs:410-421 | A node observed throughout, in its zone and pool, keeps its slot throughout, through compactions too |
| SlotRuns.GroundIsKept | crates/kubernation-core/src/state/layout.rs:430-456 | In any run, from any layout: ground a node was given, and nobody else has had since, is the node's again when it is back in its pool exactly under that condition |
| SlotRuns.MovedNodeLosesGround | crates/kubernation-core/src/state/layout.rs:311-316 | A node that has been in two pools fails the second half of that condition, and is given a stranger's slot though its own is vacant and no other node is about |
| SlotRuns.GoodStarts | crates/kubernation-core/src/state/layout_store.rs:115-189 | A fresh layout starts such a run, and so does a good one that was stored and loaded |
| SlotRuns.LiveLayout.Observe | crates/kubernation/src/net.rs:1230-1248 | The layout becomes the next frame's, stamped against the one it replaces |
| SlotRuns.LiveLayout.Compact | crates/kubernation-core/src/state/layout.rs:291-295 | The vacant slots go, the occupied ones are untouched, and the count is of those that went |
| SlotRuns.VacancyKeepsItsTime | crates/kubernation-core/src/state/layout.rs:236-242 | A vacancy has the time of the frame that left it as long as it stands |
| SlotRuns.SuccessionKeepsItsTime | crates/kubernation-core/src/state/layout.rs:252-274 | Ground that changed hands has the time of that frame until it changes hands again, however often its holder goes and comes back |
| SlotRuns.ProvincesStandApart | crates/kubernation-core/src/state/world.rs:609-615 | In any run, up to ordinal 7281, the provinces of a zone stand on different slots, each on its own ordinal |
| SlotRuns.RowsMeet | crates/kubernation-core/src/state/world.rs:595-597 | In 16 bits slots 0 and 7282 have rows of one slot |
| ExitSave.SameIffUneventful | crates/kubernation/src/net.rs:1236-1247 | The layout a build puts on show is the one it carries on exactly if no slot became vacant or changed hands and there was nothing to reclaim |
| ExitSave.SavesWhatIsCarriedIff | crates/kubernation/src/main.rs:3977-3984 | Between builds, the exit save saves what the net thread carries and saves exactly if the build on show was uneventful |
| ExitSave.ReclaimedGroundIsSaved | crates/kubernation/src/net.rs:2465-2473 | Every slot reclaimed with that build is in the exit save, and not in the layout carried on |
| ExitSave.SwitchIs | crates/kubernation/src/net.rs:1484-1525 | A switch replaces the layout, then the name to save under, and takes the old map down last |
| ExitSave.SavesItsOwnIff | crates/kubernation/src/net.rs:1498-1525 | The map saved belongs to the context it is saved under exactly if the context on show when the map is read is the one named when that was read; read together, exactly unless another context's map is still on show after a switch |
| ExitSave.WrongMapIsSaved | crates/kubernation/src/net.rs:1498-1525 | A run in which one cluster's map is saved under another's context and fingerprint, and loads there as verified |

## Left out

- Rounding: f32 and f64 arithmetic is done in exact real numbers, so nothing is claimed where it decides.
- The hash behind the coast's noise (FNV-1a) is any function from text to numbers.
- Text width is any function of the text; that it is monotone on contiguous word ranges is assumed where optimality is claimed.
- Macroquad's `Rect::contains` is taken as half-open, and the crates that Rust code calls are not part of this model.
- PNG chunk parsing, zlib, interlacing, the BMP path and external tools: the decompressed stream is given, long enough for the image.
- `Png.Decode`: says nothing of streams with filter bytes above 4, which no encoder writes; the loop leaves those rows as they are.
- Crop margins are not negative.
- The world builder: that provinces share the continent's columns, stand on the rows of their layout slots and hold their cities is assumed of its output, as are row sums within 16 bits; the slots are then distinct by `SlotRuns.ProvincesStandApart`.
- Islands and structures: the hit test answers them as elsewhere, since the land test never applies to them.
- The network accessor's two reports are one report here.
- `ReportCache.DrawsAreNeverStale`: a report is built in one step from one world; the store it reads is live and shared, and can change while a report is built.
- The blast-radius memo and the position-dump key, which store a raw address without keeping the snapshot alive: the argument for the advisor's cache does not cover them.
- The rest of the net thread, the splash screen's immediate exit and the development modes that leave the loop by other ways.
- Time spent on anything but a run: a restore on a timer or on switching away takes none here, and that a waiting request is taken within 2 s is a premise.
- Drill steps as such: a run's steps are opaque, and "run" means attempted, since each attempt is bounded by a timeout and may fail.
- JSON: encoding and decoding are any pair that round-trips; `create_dir_all` only succeeds or fails.
- ExitSave.SavesWhatIsCarriedIff: says nothing of an exit while a build is not yet on show; the map saved is then an earlier build's.
- LayoutFile.Disk.Save: one save of a map at a time; saves that overlap are in `LayoutWriters`, where a save made of the same calls shares its temporary file with others.
- A crash brings the directory back as it was at one moment since it was last known to be on the disk, as a journalling file system does; a disk that reorders directory updates is not modelled.
- Node names are distinct, as a cluster's are; text is compared by character, and the hash of a name is any number.
- Stored times past what the platform's clock can represent.
- Infinity and NaN spellings of numbers: the scanner never hands them on.
- Report printing, randomised controls, group statistics, menus, advisor pages, inspectors and all drawing: they would add only easy members.
