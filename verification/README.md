# Container loading planner — a Dafny model

This project models the planning core of a desktop tool that lays boxes on the
floor of a shipping container: the `Box` record and its footprint geometry,
the two `Container` engines (the current one with torque-based balance, and the
older one shipped in the Windows deployment with weight-difference balance),
the uniform spatial grid, the drag / rotate / delete decisions of the
container view, the session state of the main window (tabs, pending boxes,
auto-placement), the validation of imported spreadsheets, and the mapping
between project files and the in-memory model.

Everything is a pure function over immutable datatypes. Lengths, positions
and weights are `real`; Python's `None` is `Option`; a parsed JSON document is
the `ProjectManager.Json` datatype; a spreadsheet is a header row plus rows of
cells.

Modules, in dependency order:

- `Wrappers` — `Option`.
- `Boxes` — `core/box.py`: footprint, bounds, the half-open overlap test,
  rotation, moving.
- `Lists` — Python's `list.remove` by value, and removing a whole selection.
- `GridScan` — the `range(0, limit + 50, 50)` double loop of the placement
  search, as a first-hit search in row-major order.
- `Containers` — `core/container.py`: placement check, `add_box`,
  `remove_box`, `clear`, the placement search, the balance report.
- `LegacyContainers` — `windows_deployment/core/container.py`: the other
  defaults, the placement check without self-exclusion, and the
  weight-difference balance with swapped axis labels.
- `SpatialIndex` — `core/spatial_index.py`: the cell grid and its two maps
  (cell to objects, object to cells).
- `ContainerView` — the decisions of `gui/container_view.py`: snapping,
  accepting or reverting a drag, rotating with a bounds check, release,
  the Delete and R keys.
- `MainWindow` — the session of `gui/main_window.py`: tabs, the current
  index, pending boxes, closing a tab, double-click auto-placement.
- `ExcelReader` — `utils/excel_reader.py`: the suffix check, header
  renaming, empty-row dropping, and the per-row validation that turns rows
  into boxes, errors and warnings.
- `ProjectManager` — `windows_deployment/utils/project_manager.py`: box
  and container records, the document written on save, its validation, and
  load.

Three points about the code that a reader might not expect:

- The Windows deployment's `calculate_weight_balance` labels the x split
  "left/right" and the y split "front/rear". The current engine does the
  opposite. `LegacyContainers.AxesAreSwapped` states the exchange.
- The drag and rotate handlers test the placement with the moving box
  excluded by identity. The R key rotates with no check at all
  (`ContainerView.RKeyCanBreakValidity`).
- Project loading goes through the Windows deployment's `Container`,
  whose defaults are 11800 x 2300 mm rather than 11900 x 2300 mm.

## Model

| member | source | states |
|---|---|---|
| Boxes.FootprintFollowsRotation | core/box.py:19-32 | the footprint is (length, width) un-rotated and (width, length) rotated; the area is the product of the footprint either way |
| Boxes.BoundsAndCentre | core/box.py:34-51 | the bounds span exactly the footprint from the position, and the centre is the midpoint of the bounds |
| Boxes.Overlaps | core/box.py:53-58 | `overlaps_with`: the two bounds intersect under the half-open test (a definition; its properties are the lemmas below) |
| Boxes.Rotate | core/box.py:60-67 | rotating flips the flag and so swaps the footprint; every other field is kept |
| Boxes.MoveTo | core/box.py:69-72 | moving sets the position to the given point, keeps the footprint, and every other field is kept |
| Boxes.RotateIsInvolution | core/box.py:60-67 | rotating flips the flag, swaps the footprint, keeps the area, and rotating twice restores the box |
| Boxes.MoveToChangesOnlyPosition | core/box.py:69-72 | moving sets the position, keeps every other field, and shifts the bounds rigidly |
| Boxes.IntersectsIsSymmetric | core/spatial_index.py:16-19 | the half-open rectangle intersection test does not depend on the order of its arguments |
| Boxes.OverlapsIsSymmetric | core/box.py:53-58 | box overlap is symmetric |
| Boxes.SeparatedBoxesDoNotOverlap | core/box.py:53-58 | boxes separated along an axis, or touching only along an edge, do not overlap |
| Boxes.IntersectsIffCommonPoint | core/box.py:53-58 | for rectangles of positive area the test holds exactly when some point lies in both half-open rectangles |
| Boxes.BoxOverlapsItself | core/box.py:53-58 | a box of positive extent overlaps itself |
| Boxes.SharedInteriorPointOverlaps | core/box.py:53-58 | boxes whose interiors share a point overlap |
| Lists.FirstIndex | core/container.py:49-54 | the position of the first element equal to the value, with no equal element before it |
| Lists.RemoveFirst | core/container.py:49-54 | `list.remove`: the list is unchanged when the value is absent; otherwise exactly one element goes (the first equal one) and the rest keep their order |
| Lists.RemoveEach | gui/container_view.py:559-566 | removing a selection one element at a time takes away exactly the multiset of the selection |
| GridScan.LastOnScan | core/container.py:80-86 | the last index of `range(0, limit + 50, 50)` is on the scan, the next one is not, and no index on the scan is larger |
| GridScan.Scan | core/container.py:85-95 | the hit is the first grid point in row-major order at which the test holds; no hit means the test fails at every visited point |
| GridScan.ScanRespectsEqualTests | core/container.py:85-91 | the search depends only on the values of the fit test |
| Containers.NewContainer | core/container.py:12-20 | a missing or zero dimension takes the 11900 x 2300 mm default; a new container is empty and valid |
| Containers.AreaUtilization | core/container.py:23-35 | utilisation times floor area equals the used area; a floor without area gives 0 |
| Containers.SumWeightAppend | core/container.py:37-40 | the total weight of a concatenation is the sum of the parts |
| Containers.SumAreaAppend | core/container.py:27-30 | the used area of a concatenation is the sum of the parts |
| Containers.AddBox | core/container.py:42-47 | the box is appended exactly when it is in bounds and overlaps no member; otherwise nothing changes; a valid container stays valid; total weight and used area grow by the box's exactly on success |
| Containers.RemoveBox | core/container.py:49-54 | succeeds exactly when a field-equal box is a member; the first such box goes and nothing else; validity is kept and the weight drops by the box's |
| Containers.RemovePreservesValid | core/container.py:49-54 | removing a member keeps a valid container valid |
| Containers.RemoveFirstWeight | core/container.py:37-40 | removing a member lowers the total weight by its weight |
| Containers.Clear | core/container.py:220-222 | no boxes remain; the floor and name are kept; weight and used area are zero |
| Containers.AvailableSpace | core/container.py:208-218 | the whole floor when empty, and an empty list otherwise |
| Containers.CanPlace | core/container.py:56-72 | `can_place_box`: in bounds and overlapping no member except the one at the skipped position (a definition; see the lemmas that use it) |
| Containers.MemberStaysPlaceable | core/container.py:56-72 | a member of a valid container passes the placement check at its own position once it is skipped |
| Containers.AddedBoxStaysPlaceable | core/container.py:42-72 | after a successful add, the new member passes the check against the others |
| Containers.ScanLimit | core/container.py:82-83 | `max(0, int(room))` is the floor of a non-negative room and 0 for a negative one |
| Containers.GridOrder | core/container.py:85-91 | the visiting order on points is the row-major order on grid indices |
| Containers.FindPlacementPosition | core/container.py:74-95 | a returned position is a visited grid point at which the box fits, and no earlier visited point fits; `None` exactly when no visited point fits |
| Containers.FindPlacementPositionLoop | core/container.py:74-95 | the nested loops return the same answer as the search |
| Containers.TallyBoxes | core/container.py:140-167 | the eight accumulators of the balance loop equal the per-side weights and torques |
| Containers.WeightBalance | core/container.py:97-206 | the per-side weights and torques; torque differences; the 500000 and 2000000 kg·mm limits; balanced iff both differences are within them; the centre of gravity is the weighted mean, or the floor centre for zero total weight |
| Containers.SidesPartitionWeight | core/container.py:140-167 | each box counts on exactly one side of a line |
| Containers.SideTorqueNonNegative | core/container.py:140-167 | with no negative weights a side torque is non-negative |
| Containers.BalancePartitionsLoad | core/container.py:97-206 | left plus right, and front plus rear, both give the total weight; the torques are non-negative when no weight is negative |
| Containers.EmptyContainerBalance | core/container.py:102-121 | an empty container reports zero weights and torques, the given limits, the floor centre, and balanced |
| Containers.EmptyContainerPlacesAtOrigin | core/container.py:74-95 | in an empty container a box that fits the floor is placed at (0, 0) |
| Containers.MomentXBounds | core/container.py:174-180 | the weighted sum of x centres lies between the smallest and largest centre times the total weight |
| Containers.MomentYBounds | core/container.py:174-180 | the same along y |
| Containers.CentreOfGravityOnFloor | core/container.py:174-180 | for a valid load of real boxes with positive total weight, the centre of gravity lies on the floor |
| Containers.MeanCentreXOnFloor | core/container.py:174-180 | the weighted mean x centre of in-bounds boxes lies within the length |
| Containers.MeanCentreYOnFloor | core/container.py:174-180 | the weighted mean y centre of in-bounds boxes lies within the width |
| Containers.MomentXOnFloor | core/container.py:174-180 | the weighted x centre sum lies between 0 and length times total weight |
| Containers.MomentYOnFloor | core/container.py:174-180 | the weighted y centre sum lies between 0 and width times total weight |
| Containers.SampleScenarioCanPlace | core/container.py:56-72 | two sample boxes side by side on the standard floor: the second can be placed next to the first, not on it |
| Containers.CentredBoxIsBalanced | core/container.py:97-206 | one 600 kg box centred on the floor is balanced with zero torque differences |
| Containers.HeavyEdgeLoadIsUnbalanced | core/container.py:185-188 | two 1000 kg boxes along one edge exceed the lateral torque limit |
| LegacyContainers.NewContainer | windows_deployment/core/container.py:12-20 | a missing or zero dimension takes the 11800 x 2300 mm default; the container starts empty |
| LegacyContainers.CanPlace | windows_deployment/core/container.py:56-69 | `can_place_box` of the Windows deployment: in bounds and overlapping no member at all (a definition) |
| LegacyContainers.CanPlaceAgreesForNonMembers | windows_deployment/core/container.py:56-69 | for a box that is not skipped, this engine's placement check equals the current engine's |
| LegacyContainers.MemberBlocksItself | windows_deployment/core/container.py:56-69 | with no self-exclusion a member of positive extent fails the check at its own place, where the current engine accepts it |
| LegacyContainers.AddBox | windows_deployment/core/container.py:42-47 | appended exactly when the check passes, otherwise unchanged; validity kept; the same result as the current engine's `add_box` |
| LegacyContainers.FindPlacementPosition | windows_deployment/core/container.py:71-85 | the first visited grid point that fits, as tracked while the box (possibly a member) is moved; `None` when none fits, with the box left at the last point tried |
| LegacyContainers.NonMemberSearchAgrees | windows_deployment/core/container.py:71-85 | for a non-member the answer is the current engine's |
| LegacyContainers.MemberSearchFails | windows_deployment/core/container.py:71-85 | searching for a member of positive extent never succeeds, because the member moves along with the box and collides with it |
| LegacyContainers.WeightBalance | windows_deployment/core/container.py:87-135 | left/right on the x centre, front/rear on the y centre, absolute differences, balanced iff below 500 and 2000 kg (strictly), the weighted-mean centre |
| LegacyContainers.BalancePartitionsLoad | windows_deployment/core/container.py:107-116 | each axis splits the whole weight between its two sides |
| LegacyContainers.AxesAreSwapped | windows_deployment/core/container.py:110-116 | this engine's left/right weights are the current engine's front/rear, and the other way round |
| LegacyContainers.EmptyContainerBalance | windows_deployment/core/container.py:89-100 | an empty container reports zero weights and differences, the floor centre, and balanced |
| LegacyContainers.LimitIsStrict | windows_deployment/core/container.py:123 | a difference of exactly 500 kg is unbalanced |
| SpatialIndex.ContainsPointIsClosed | core/spatial_index.py:16-23 | the point test includes the far edges, which the intersection test excludes |
| SpatialIndex.Ceil | core/spatial_index.py:42-43 | `math.ceil`: the least integer not below the value |
| SpatialIndex.FloorDivBounds | core/spatial_index.py:53-56 | the floor quotient `v // size` is at least or at most `k` exactly when `v` is at least `k * size` or below `(k + 1) * size` |
| SpatialIndex.CeilDivBounds | core/spatial_index.py:42-43 | ceiling the quotient gives a whole number of cells covering the extent with less than one spare cell |
| SpatialIndex.NewGrid | core/spatial_index.py:28-49 | the grid keeps its size and has just enough columns and rows to cover the floor; every cell is empty and no object is recorded |
| SpatialIndex.RowCells | core/spatial_index.py:59-61 | the cells of one row between two column indices, inclusive |
| SpatialIndex.Block | core/spatial_index.py:59-61 | the cells of the inclusive rectangle of row and column indices |
| SpatialIndex.GetCells | core/spatial_index.py:51-62 | the listed cells are exactly the in-grid cells whose square meets the box, edges included |
| SpatialIndex.AddToCells | core/spatial_index.py:64-70 | the object is added to each listed cell and nothing else changes |
| SpatialIndex.DiscardFromCells | core/spatial_index.py:72-78 | the object is discarded from each listed cell and nothing else changes |
| SpatialIndex.Insert | core/spatial_index.py:64-70 | the object is recorded in every cell its box touches, its cell list is exactly those cells, and other objects' records are untouched |
| SpatialIndex.Remove | core/spatial_index.py:72-78 | an unknown object changes nothing; otherwise the object is forgotten and discarded from its recorded cells only |
| SpatialIndex.Update | core/spatial_index.py:80-83 | an update is a removal followed by an insertion |
| SpatialIndex.Collect | core/spatial_index.py:85-93 | the union of the listed cells' contents |
| SpatialIndex.Query | core/spatial_index.py:85-93 | an object is returned exactly when it is recorded in some in-grid cell the box touches |
| SpatialIndex.Around | core/spatial_index.py:106-114 | the in-grid cells within the given cell distance in both directions |
| SpatialIndex.CollectAround | core/spatial_index.py:106-114 | the union over the listed cells of the contents of cells near them |
| SpatialIndex.Nearby | core/spatial_index.py:95-117 | never the object itself; nothing for an unknown object; otherwise exactly the objects recorded within `ceil(distance / size)` cells of one of its cells |
| SpatialIndex.Clear | core/spatial_index.py:119-124 | every cell is empty and no object is recorded; the grid keeps its size |
| SpatialIndex.NewGridIsConsistent | core/spatial_index.py:28-49 | a new grid's two maps agree |
| SpatialIndex.InsertKeepsConsistent | core/spatial_index.py:64-70 | inserting an object not yet indexed keeps the two maps in agreement |
| SpatialIndex.ReinsertLeavesStaleCell | core/spatial_index.py:64-70 | re-inserting an indexed object without removing it leaves it in a cell its record no longer lists, so the maps disagree |
| SpatialIndex.RemoveKeepsConsistent | core/spatial_index.py:72-78 | removal keeps the maps in agreement and leaves the object in no cell |
| SpatialIndex.UpdateKeepsConsistent | core/spatial_index.py:80-83 | an update keeps the maps in agreement and puts the object in exactly the cells the new box touches |
| SpatialIndex.InsertThenRemove | core/spatial_index.py:64-78 | removing a freshly inserted object restores both maps |
| SpatialIndex.QueryIffSharedCell | core/spatial_index.py:85-93 | in a consistent index, a query returns exactly the objects that have a recorded cell which the query box touches |
| SpatialIndex.QueryFindsIntersecting | core/spatial_index.py:85-93 | no false negatives: an object indexed at a box that intersects the query box is returned |
| SpatialIndex.CommonCell | core/spatial_index.py:51-62 | two intersecting boxes share a grid cell when their common corner lies on the grid |
| SpatialIndex.SpanMeets | core/spatial_index.py:53-56 | a cell span containing the start of two spans' overlap meets both spans |
| SpatialIndex.NearbyIsIndexed | core/spatial_index.py:95-117 | nearby objects exclude the object itself and, in a consistent index, are all indexed |
| SpatialIndex.ClearEmptiesQueries | core/spatial_index.py:119-124 | after `clear` the index is consistent and every query is empty |
| ContainerView.Snap | gui/container_view.py:127-129 | the snapped value is a multiple of 10 mm within half a step of the raw value |
| ContainerView.SnapIsNearest | gui/container_view.py:127-129 | no multiple of 10 mm is closer to the raw value |
| ContainerView.SnapIsIdempotent | gui/container_view.py:127-129 | snapping a snapped value changes nothing |
| ContainerView.ItemChange | gui/container_view.py:120-177 | a drag is accepted exactly when the snapped position passes the placement check with the item skipped (always without a container); accepted moves the box to the snapped position, refused leaves box and container as they were |
| ContainerView.ReplaceKeepsValid | gui/container_view.py:153-168 | replacing a member by a box that passes the check with it skipped keeps the container valid |
| ContainerView.DragKeepsValid | gui/container_view.py:120-177 | a drag of a member, accepted or not, leaves a valid container valid |
| ContainerView.RotateBox | gui/container_view.py:266-295 | the box ends rotated or unchanged; rotated exactly when the rotated footprint fits and overlaps no other member (always without a container); the container tracks the box |
| ContainerView.RotateKeepsValid | gui/container_view.py:266-295 | rotation through the context menu keeps a valid container valid |
| ContainerView.Release | gui/container_view.py:197-218 | the box ends within 0.1 mm of the item's position along each axis; it is untouched, and so is the container, exactly when it is already within 0.1 mm on both axes; otherwise it moves to the item's position and the container's member moves with it |
| ContainerView.ReleaseIsIdempotent | gui/container_view.py:197-218 | releasing twice at the same position leaves the box and the container as releasing once |
| ContainerView.ReleaseAfterDragKeepsValid | gui/container_view.py:139-218 | releasing a member where a drag step left it changes nothing, so the container stays valid |
| ContainerView.DeleteSelected | gui/container_view.py:557-566 | without a container nothing happens; otherwise the selection's multiset is taken away, the floor kept and validity kept |
| ContainerView.DeleteFrom | gui/container_view.py:559-566 | the floor and name are kept, exactly the selection's multiset is taken away, and a valid container stays valid |
| ContainerView.DeleteIsRemoveEach | gui/container_view.py:559-566 | the Delete key removes the first occurrence of each selected box in turn |
| ContainerView.RotateSelected | gui/container_view.py:567-574 | every selected member is replaced by its rotation (flag flipped, area kept) and every other member is kept; the floor is kept |
| ContainerView.RotateSelectedTwiceRestores | gui/container_view.py:567-574 | pressing R twice on one selection restores the container |
| ContainerView.RKeyCanBreakValidity | gui/container_view.py:567-574 | the R key can rotate a box out of the floor |
| ContainerView.RotateBoxRefusesOverflow | gui/container_view.py:266-295 | the context-menu rotation refuses that same rotation |
| MainWindow.NatToString | gui/main_window.py:386-388 | the decimal numeral of a number: only digits, and no leading zero |
| MainWindow.NatToStringRoundTrip | gui/main_window.py:386-388 | reading the numeral back gives the number |
| MainWindow.CurrentContainer | gui/main_window.py:525-530 | the container at the current index, `None` exactly when the index is out of range |
| MainWindow.AddNewContainer | gui/main_window.py:386-398 | one empty container with the default floor and the next tab title is appended and becomes current; the rest is unchanged |
| MainWindow.InitialSession | gui/main_window.py:24-39 | the window opens with one empty container, no pending boxes, and the first tab current |
| MainWindow.SelectTab | gui/main_window.py:433-438 | an index in range becomes current; any other index changes nothing |
| MainWindow.CloseContainerTab | gui/main_window.py:400-431 | nothing changes with one tab left or an unconfirmed close of a loaded tab; otherwise the tab goes, its boxes join the pending list, and the current index moves down when at or after it; this is the intended close, which the rest of the model uses (see "## Findings" for the close as run) |
| MainWindow.AutoPlace | gui/main_window.py:445-461 | with no current container nothing changes; otherwise the box goes to the first position found, moves from the pending list to the current container, and nothing changes when no position is found |
| MainWindow.SessionOperationsKeepInvariant | gui/main_window.py:386-461 | every operation keeps the current index on an existing tab |
| MainWindow.CloseKeepsCurrentContainer | gui/main_window.py:419-423 | the intended close, read from lines 419-423 alone: closing a tab other than the current one keeps the same container current, and closing the current tab selects its left neighbour (or the new first tab); the window as run differs when the closed tab is left of the current one, see "## Findings" |
| MainWindow.CloseContainerTabAsRun | gui/main_window.py:400-438 | the close as the window runs it, with `removeTab` (line 413; `currentChanged` is connected at line 69) re-entering `on_container_tab_changed` before the container is deleted: the tabs and the pending boxes come out as in the intended close |
| MainWindow.CloseAsRunMovesTwice | gui/main_window.py:413-423 | as run, closing a tab left of the current one ends at index `max(0, current - 2)`, one further left than intended; closing the current tab or a later one gives exactly the intended close |
| MainWindow.CloseLeftTabShowsWrongContainer | gui/main_window.py:413-423 | tabs A, B, C with C current: closing A keeps C current in the intended close but leaves B current as run |
| MainWindow.AllBoxesAppend | gui/main_window.py:400-431 | the boxes of two runs of tabs are the boxes of each run, in order |
| MainWindow.AppendToContainer | gui/main_window.py:445-461 | appending a box to one container adds exactly that box to the session's load |
| MainWindow.CloseConservesBoxes | gui/main_window.py:400-431 | closing a tab loses and invents no box: pending plus placed boxes are the same multiset |
| MainWindow.AutoPlaceAddSucceeds | gui/main_window.py:449-452 | when the search finds a position, the following `add_box` always succeeds |
| MainWindow.AutoPlaceConservesBoxes | gui/main_window.py:445-461 | auto-placement moves one box from the pending list to the current container and loses no box |
| MainWindow.MoveIntoContainer | gui/main_window.py:449-454 | the bookkeeping of a successful placement shortens the pending list by one and conserves boxes |
| MainWindow.NamesCanRepeat | gui/main_window.py:386-388 | tab titles come from the tab count, so after a close a new tab can repeat an existing title |
| ExcelReader.LeadingSpaces | utils/excel_reader.py:118 | the length of the whitespace run at the start of a string |
| ExcelReader.TrailingSpaces | utils/excel_reader.py:118 | the length of the whitespace run at the end of a string |
| ExcelReader.Strip | utils/excel_reader.py:118 | `str.strip`: an infix, surrounded by whitespace only, that neither starts nor ends with whitespace |
| ExcelReader.StripUnpadded | utils/excel_reader.py:118 | a string without surrounding whitespace strips to itself |
| ExcelReader.StripIsIdempotent | utils/excel_reader.py:118 | stripping twice is stripping once |
| ExcelReader.RemoveLineBreaks | utils/excel_reader.py:118 | no line break remains, and a string without line breaks is unchanged |
| ExcelReader.Lower | utils/excel_reader.py:62 | lower-casing maps each capital ASCII letter to its small letter and keeps every other character |
| ExcelReader.Contains | utils/excel_reader.py:126 | `needle in hay` holds exactly when the needle occurs at some position |
| ExcelReader.FileName | utils/excel_reader.py:59-62 | the last path component contains no separator |
| ExcelReader.LastComponent | utils/excel_reader.py:59-62 | the final slash-free part of the path is a suffix of the path |
| ExcelReader.LastDot | utils/excel_reader.py:62 | the position of the last dot, or -1 when there is none |
| ExcelReader.Suffix | utils/excel_reader.py:62 | `Path.suffix`: empty, or a dot and at least one non-dot character ending the file name and shorter than it |
| ExcelReader.PlainNameIsFileName | utils/excel_reader.py:59-62 | a name without separators is its own file name |
| ExcelReader.SuffixOfPlainName | utils/excel_reader.py:62 | the suffix of a plain name `stem + ext` is `ext` |
| ExcelReader.ExactMatch | utils/excel_reader.py:121-122 | a dictionary lookup: the value of an entry with that key, `None` exactly when no key equals the name |
| ExcelReader.FuzzyMatch | utils/excel_reader.py:124-128 | the value of the first entry whose lower-cased key occurs in the lower-cased name; `None` exactly when no key matches loosely |
| ExcelReader.MapColumn | utils/excel_reader.py:112-134 | the cleaned header's exact field wins, then the first loose match, else the original header, uncleaned |
| ExcelReader.MapColumns | utils/excel_reader.py:112-134 | every header is renamed independently and in place |
| ExcelReader.AbsentCharBlocksMatch | utils/excel_reader.py:126 | a needle whose first character is absent from the haystack does not occur in it |
| ExcelReader.ExactMatchFindsFirstKey | utils/excel_reader.py:121-122 | the lookup returns the value of the first entry with the key |
| ExcelReader.ExactHeadersWin | utils/excel_reader.py:118-122 | a padded header with a line break that names a field exactly maps to that field |
| ExcelReader.LowerKeepsUncased | utils/excel_reader.py:125 | lower-casing leaves a string without capitals unchanged |
| ExcelReader.FuzzyMatchFindsFirstLoose | utils/excel_reader.py:124-128 | the loose match returns the value of the first entry that matches |
| ExcelReader.MapColumnByLooseMatch | utils/excel_reader.py:119-131 | a clean header that names no field exactly is renamed to the field of its first loose match |
| ExcelReader.WidthHeaderFirstLooseAtId | utils/excel_reader.py:124-128 | for "Width (mm)" the first key, "箱号", misses and the second, "ID", matches, so the `id` entry is its first loose match |
| ExcelReader.LooseMatchFollowsOrder | utils/excel_reader.py:124-128 | "Width (mm)" is renamed to `id`, because the loose match follows declaration order and "id" occurs in "width" |
| ExcelReader.Positions | utils/excel_reader.py:151-168 | exactly the column positions whose header equals the field |
| ExcelReader.Get | utils/excel_reader.py:151-168 | a field is absent exactly when no header names it |
| ExcelReader.DropEmptyRows | utils/excel_reader.py:99-110 | the kept rows are exactly the rows that are not entirely empty |
| ExcelReader.DropEmptyRowsAppend | utils/excel_reader.py:102 | dropping works row by row and keeps the order: the rows kept from `a + b` are those kept from `a` followed by those kept from `b` |
| ExcelReader.DropEmptyRowsOne | utils/excel_reader.py:102 | a single row is dropped exactly when every one of its cells is missing |
| ExcelReader.DropEmptyRowsKeepsOrder | utils/excel_reader.py:102-105 | the rows kept are the non-empty rows, in their original order, as a front-to-back filter defines them |
| ExcelReader.ScanRequired | utils/excel_reader.py:151-161 | the pass succeeds exactly when every required field is one non-blank cell, with no message then and at least one otherwise |
| ExcelReader.ReadHeight | utils/excel_reader.py:176-184 | a duplicated height column fails the row; a height is returned only when it is positive and equals the cell's number |
| ExcelReader.PositiveHeight | utils/excel_reader.py:176-184 | a height given to a box is positive |
| ExcelReader.ProcessRow | utils/excel_reader.py:148-203 | the row yields the box its cells stand for, and yields a box exactly when it reports no error; a rejected row has no warnings |
| ExcelReader.BlankFieldIsReported | utils/excel_reader.py:151-161 | a blank required cell rejects the row and is reported by field name |
| ExcelReader.FilterMapAppend | utils/excel_reader.py:148-203 | the boxes of two blocks of rows are the boxes of each, in order |
| ExcelReader.FilterMapOrigin | utils/excel_reader.py:148-203 | every result comes from some input |
| ExcelReader.ConvertRows | utils/excel_reader.py:148-205 | the boxes are those of the accepted rows in order; no more boxes than rows; each has positive length, width and weight |
| ExcelReader.EveryBoxHasARow | utils/excel_reader.py:148-205 | every accepted box is the box of some row |
| ExcelReader.ConvertKeepsRowOrder | utils/excel_reader.py:148-205 | converting two blocks of rows gives the boxes of the first block followed by those of the second |
| ExcelReader.MissingRequired | utils/excel_reader.py:139-145 | the missing required fields are exactly those no header names |
| ExcelReader.ConvertToBoxes | utils/excel_reader.py:136-205 | a sheet lacking a required column gives one error naming the missing fields and no boxes; otherwise the rows are converted |
| ExcelReader.ReadSheet | utils/excel_reader.py:45-88 | an unsupported suffix gives one error and no boxes; otherwise headers are renamed, empty rows dropped, rows converted; every box has positive length, width and weight |
| ExcelReader.UnknownSuffix | utils/excel_reader.py:14 | a suffix whose second character is not `x` in either case is not supported |
| ExcelReader.UpperCaseSuffixIsSupported | utils/excel_reader.py:62 | the suffix check ignores case: `.XLSX` is accepted |
| ExcelReader.CsvIsRejected | utils/excel_reader.py:62-64 | a `.csv` file is rejected |
| ExcelReader.LastSuffixDecides | utils/excel_reader.py:62-64 | only the last suffix counts: `boxes.xlsx.bak` is rejected |
| ExcelReader.DotFileSuffix | utils/excel_reader.py:62-64 | the suffix of `.xlsx` is empty, as `Path.suffix` gives for a name whose only dot is its first character |
| ExcelReader.DotFileHasNoSuffix | utils/excel_reader.py:62-64 | a name that is only a suffix, like `.xlsx`, has no suffix and is rejected |
| ProjectManager.BoxRecord | windows_deployment/utils/project_manager.py:56-66 | a box is saved as an object with exactly the eight box keys |
| ProjectManager.BoxFromRecord | windows_deployment/utils/project_manager.py:154-174 | a non-object yields no box; each field of the box is the record's value or the default when the key is missing; a height exactly when the record holds a number there; a record with no known key yields the default box |
| ProjectManager.RecordRoundTrip | windows_deployment/utils/project_manager.py:56-66 | reading a saved box record gives back an equal box |
| ProjectManager.RecordIsInjective | windows_deployment/utils/project_manager.py:56-66 | distinct boxes are saved as distinct records |
| ProjectManager.RecordBoxes | windows_deployment/utils/project_manager.py:141-144 | no more boxes than records |
| ProjectManager.RecordBoxesComeFromRecords | windows_deployment/utils/project_manager.py:141-144 | every box read is the box of some record |
| ProjectManager.AllRecordsReadable | windows_deployment/utils/project_manager.py:141-144 | when every record yields a box there is one box per record, each the box of the record at the same position |
| ProjectManager.NoRecordReadable | windows_deployment/utils/project_manager.py:141-144 | when no record yields a box there are no boxes |
| ProjectManager.RecordBoxesAppend | windows_deployment/utils/project_manager.py:141-144 | the boxes of two runs of records are the boxes of the first run followed by those of the second, so record order is kept |
| ProjectManager.BoxRecords | windows_deployment/utils/project_manager.py:72-83 | one record per box, in order |
| ProjectManager.RecordsRoundTrip | windows_deployment/utils/project_manager.py:72-83 | saved boxes are read back as they were, in order |
| ProjectManager.AddRecords | windows_deployment/utils/project_manager.py:133-136 | re-adding keeps the floor, the existing boxes and validity; the new boxes are a subsequence of the records' boxes, and every record box left out is one the resulting container refuses |
| ProjectManager.BlockedStaysBlocked | windows_deployment/core/container.py:56-69 | a box a container refuses is still refused after more boxes are appended |
| ProjectManager.ContainerFromRecord | windows_deployment/utils/project_manager.py:125-138 | a loaded container is valid, and its boxes are a subsequence, in order, of the boxes its record lists |
| ProjectManager.ContainerFromRecordReads | windows_deployment/utils/project_manager.py:125-138 | a record yields a container exactly when it is an object with a text (or missing) name, numeric (or missing or falsy) dimensions and a box list; the container has the record's name or "集装箱", each dimension the record's number or the 11800 / 2300 mm default when missing or falsy; it is valid, its boxes are a subsequence, in order, of the boxes its record lists, and every box left out is one it refuses |
| ProjectManager.ReadsAs | windows_deployment/utils/project_manager.py:126-136 | a record whose name and dimensions read as given values yields the container with those values and the record's boxes added in order |
| ProjectManager.LoadContainersCons | windows_deployment/utils/project_manager.py:125-138 | the containers of a list of records are the first record's container followed by those of the rest |
| ProjectManager.LoadContainers | windows_deployment/utils/project_manager.py:125-138 | one container per record, each the record's container; no result exactly when some record cannot be read |
| ProjectManager.LoadProject | windows_deployment/utils/project_manager.py:95-152 | an invalid document fails; a success has a valid document, one valid container per record with a subsequence of its boxes, the pending boxes of the document, and the project information |
| ProjectManager.LoadProjectReads | windows_deployment/utils/project_manager.py:95-152 | each container of a successful load is read from its record as `ContainerFromRecordReads` states: name, dimensions, validity, kept boxes in order, and only refused boxes dropped |
| ProjectManager.ProjectInfo | windows_deployment/utils/project_manager.py:35-44 | the four information keys; a missing or empty name becomes the unnamed-project name; the version is "1.0" |
| ProjectManager.ContainerRecord | windows_deployment/utils/project_manager.py:47-53 | a container is saved as a valid container record with exactly its four keys |
| ProjectManager.SaveProject | windows_deployment/utils/project_manager.py:19-93 | the saved document passes `validate_project_data` |
| ProjectManager.ReAddKeepsValidBoxes | windows_deployment/utils/project_manager.py:133-136 | re-adding the boxes of a valid container, in order, keeps every one |
| ProjectManager.ContainerRoundTrip | windows_deployment/utils/project_manager.py:47-53 | a valid container with non-zero dimensions is read back from its record unchanged |
| ProjectManager.SaveThenLoad | windows_deployment/utils/project_manager.py:19-152 | for containers that are each valid and have non-zero length and width (the requires; a zero dimension is replaced by the default on load), loading what was saved succeeds and gives back the containers, the pending boxes and the project information |
| ProjectManager.LoadAllContainers | windows_deployment/utils/project_manager.py:125-138 | when every record reads as its container, the load gives all of them in order |
| ProjectManager.ValidateProject | windows_deployment/utils/project_manager.py:176-211 | `validate_project_data`: the three top-level keys, project information as an object, containers as a list of objects with a name and a box list, pending boxes as a list (a definition; `SaveProject` and `LoadProject` state their relation to it) |
| ProjectManager.TwinRecordKeepsOne | windows_deployment/utils/project_manager.py:125-138 | a container record listing the same box twice loads with that box once |
| ProjectManager.TwinBoxesKeepOne | windows_deployment/utils/project_manager.py:133-136 | re-adding the same box record twice to an empty container where the box fits keeps the box once |
| ProjectManager.OverlappingBoxIsDropped | windows_deployment/utils/project_manager.py:133-136 | a box record listed twice in one container loads once, and the load still succeeds |

## Left out

- Drawing, colours, the Qt scene, zoom, menus, dialogs and log messages:
  only the decisions the handlers take are modelled. The user's answer to
  the close-tab question is a parameter.
- The scale factor between scene and millimetres: positions are given in
  millimetres.
- The 50 ms throttle of `itemChange` is left out; every position change is checked.
- ContainerView.Snap: rounds halves up; Python's `round` rounds halves to
  even, so a raw value exactly halfway between two 10 mm steps may snap to
  the other neighbour.
- Containers.CanPlace: with `exclude_self` true (the default) the source skips
  the member that is the very object being checked, compared by identity;
  the model names that member by its position (`skip`), since identity is not
  a value. `exclude_self=False` is `skip == None`.
- Containers.AddBox: checks with no member skipped. The source's `add_box`
  uses the default `exclude_self=True`, so adding an object that is already
  in the list skips that object and can succeed, giving a duplicate entry;
  the model has no object identity and refuses a copy of a member of
  positive extent, since it overlaps itself.
- LegacyContainers.WeightBalance: requires that a non-empty load has a
  non-zero total weight. For a load whose weights sum to zero,
  `calculate_weight_balance` calls itself again with the same state
  (windows_deployment/core/container.py:104-105), and CPython ends that with
  `RecursionError`; the requires leaves this error path out of the model.
- SpatialIndex: the grid dictionaries are modelled as maps in which a
  missing cell is an empty one. Object identity is the box id.
- SpatialIndex.NewGrid: requires a positive cell size, and so do the
  members that divide by it (`GetCells`, `Insert`, `Update`, `Query`,
  `Nearby`, the lemmas about them and the arithmetic lemmas). For a zero cell size the source raises
  `ZeroDivisionError`; for a negative one it builds a grid with no cells.
  Neither case is modelled.
- SpatialIndex.QueryFindsIntersecting: requires positive-area boxes and a
  common corner on the grid; a box partly off the grid is clamped by the
  source and not covered by this lemma.
- File I/O, `pandas.read_excel`, sheet selection and `get_sheet_names`:
  a sheet is given as headers and rows of cells. Number parsing is taken as
  given in each cell.
- `validate_data` of the spreadsheet reader is not part of this model.
- ExcelReader.Lower: lower-cases ASCII letters only, where Python's
  `str.lower` also lower-cases other scripts. It is applied to the field
  names and suffixes, which are ASCII or Chinese, and, inside `Loose`, to
  every cleaned header. A header's non-ASCII capitals therefore stay as they
  are in the model. Matching is unaffected: every key is ASCII or Chinese,
  and no non-ASCII capital lower-cases to an ASCII letter a key needs
  (`'İ'` becomes `"i"` followed by U+0307, while in every lower-cased key an
  `i` is followed by `d` or `g`; the Kelvin sign becomes `"k"`, which no key
  contains; other capitals lower-case to letters outside ASCII and outside
  the Chinese keys), so a header
  matches a key loosely in the model exactly when it does in the source.
- ExcelReader.FileName: only `/` separates path components.
- NaN and infinite values in spreadsheet cells are not modelled; a cell is
  blank, or text with an optional number.
- The clock: the creation time of a saved project is a parameter.
- Writing and reading the JSON file, encoding, and the error raised by a
  file that does not parse: the model starts from and ends at a `Json` value.
- `export_to_excel`, `auto_save`, `cleanup_auto_saves` and the recent-project
  list are not part of this model.
- ProjectManager.BoxFromRecord: a field of the wrong JSON type yields no box,
  where the source would build a box holding that value; see the
  `ProjectManager.LoadProject` line for what that changes in a load.
- ProjectManager.ContainerFromRecord: a name of the wrong JSON type, or a
  truthy dimension that is not a number, yields no container, where the
  source would build one holding that value; see the next line.
- ProjectManager.LoadProject: Python's dynamically typed values are not
  modelled; every field is read at the JSON type the saved file uses, and a
  record with a field of another type is treated as unreadable. The result
  differs from the source in both directions:
  - a container's box whose `x`, `y`, `length` or `width` is text, null, a
    list or an object is dropped by the model and the load succeeds, while
    in the source the comparisons in `can_place_box`
    (windows_deployment/core/container.py:58-60) raise `TypeError`, caught at
    windows_deployment/utils/project_manager.py:150-152, so the whole load
    fails (unless an earlier comparison of the same `or` chain is already
    true, in which case the source also drops the box);
  - a container's box whose `id`, `weight`, `height` or `rotated` has another
    type, and any pending box with a wrongly typed field, is dropped by the
    model, where the source keeps a box holding that value;
  - a container whose name is not text, such as the number 5, or whose
    dimension is a truthy non-number, makes the model's load fail, where the
    source loads a container holding that value (project_manager.py:126-130);
  - JSON `true`/`false` in a numeric field is the wrong type to the model,
    where Python compares it as 1/0.
- ProjectManager.ContainerRoundTrip: requires non-zero dimensions, since a
  zero dimension is replaced by the default on load.
- Floating point: lengths, weights and torques are exact reals, so rounding
  in sums and quotients is not modelled.
- MainWindow.CloseContainerTab: models the close as gui/main_window.py:400-431 intends,
  not the re-entrant call of `on_container_tab_changed` that `removeTab`
  makes; that call and the resulting double move of the index are modelled
  separately by `MainWindow.CloseContainerTabAsRun` and recorded under
  "## Findings". The tab bar's highlighted tab is not part of the session:
  after the current tab (not the last) is closed, the bar highlights its
  right neighbour while the window shows its left neighbour.

## Findings

| source | as written | input that shows it | evidently intended | confidence | as-written member | corrected member |
|---|---|---|---|---|---|---|
| gui/main_window.py:413-423 | `removeTab(index)` moves the tab bar's current index down when the closed tab is left of it and emits `currentChanged`, connected at line 69 to `on_container_tab_changed`, which sets `current_container_index` to the new index while the closed container is still in the list; lines 422-423 then move it down a second time | tabs A, B, C with C current; close A: the window ends at index 0 and shows B (MainWindow.CloseLeftTabShowsWrongContainer; in general MainWindow.CloseAsRunMovesTwice) | closing another tab keeps the same container current, as lines 422-423 aim to do (here C, at index 1) | not executed; medium, as it rests on Qt's `QTabBar::removeTab` emitting `currentChanged` | MainWindow.CloseContainerTabAsRun | MainWindow.CloseKeepsCurrentContainer |
