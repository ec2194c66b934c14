# Proofs about the routing-graph tooling

This project models the algorithms under `utils/` that build and inspect FPGA routing graphs, and proves what they
promise. It has six parts.

- **Channels** (`Channel2`, `CheckPtc`, `Graph2`, `Graph2Proofs`, `Graph2Pads`, `Graph2Class`, `ChannelCheck`,
  `ChannelGrids`, with the shared `RrNodes`). Tracks are packed into rows of a channel by a left-edge greedy, the gaps are padded,
  and every coordinate of a used channel must hold the ptc numbers 0, 1, 2, ... without gap or repetition. Main
  results: the number of rows is the greatest number of tracks that meet at one coordinate, so no other arrangement
  needs fewer; and `check_ptc` accepts what `create_channels` leaves behind exactly when the rows it sees at each
  coordinate are the first ones, as they are when tracks are written low end first (`ChannelCheck.CreateAndCheck`).
  `Graph2Class.Graph.CreateChannels` says the same of the nodes alone: tracks keep all but their ptc, every new node
  is padding, and within the extents of the tracks each number below the width of a channel is there once.
  The older first-fit allocator keeps its own invariant, and `fill_empty` makes `assert_full` pass.
- **Points and tracks** (`LineCover`, `LineOrder`, `Points`, `PointsClass`, `Tracks`, `TracksClass`, `RightOnly`). A
  bag of points is covered by lines, superfluous lines are deleted under per-point counters, and the survivors become one
  connected set of tracks. Main results: the deletion keeps every point covered and ends irredundant; for any points
  and limits the whole goes through exactly when the closing sanity check does, and then every point finds a track
  to attach to; with pins on the right only, the lines left and the lists that go through are told by the points
  alone (`RightOnly.CreateRightOnly`); `verify_tracks` computes connected components and accepts what `make_tracks`
  builds.
- **Carry chains** (`Netlist`, `CarryChains`, `CarryFork`, `CarryFix`, `CarryClosed`, `CarryMeaning`, `CarryPins`,
  `CarryMain`).
  CARRY4 cells are grouped into chains and congested rows are rewritten. Main results: the search ends and its
  chains never share a cell; the rewriting of a row never changes what is decided for another, which gives the
  outcome of a whole run cell by cell; told by pins, exactly the congested rows are rewritten and none is left; and
  the rewritten netlist allows exactly the same values on all nets.
- **Inout ports** (`SplitInouts`, `SplitInoutsProof`). Every inout port becomes an input and an output port on fresh
  nets. Main results: all fresh nets differ and are used nowhere else, and what is left shares nets exactly as
  before, with the two sides of an inout taken apart.
- **Tile grid** (`Matrix`, `Mesh`, `MeshBuilding`, `Splice`, `Orientation`, `GridLoc`, `TileData`, `SplitLine`,
  `SplitType`, `Conserve`, `GridRuns`, `TwoWaySites`, `GridClass`, `GridRequests`, and the inputs of `GridExamples`,
  `GridLoss`, `GridAgain`). A mesh of tiles linked on the heap refines a matrix of tiles. Main results: inserting a
  row or column inserts a line into the matrix, in all four directions; a split leaves no tile of its type in the
  lines it found, and a two-way split always has room; no run of insertions, splits and merges loses a root key, and
  a run loses exactly the sites of the empty tiles its splits take over (`GridRequests.Perform`).
- **Searches and typing** (`Reachability`, `Walk`, `CheckGraph`, `TypedGraph`, `GraphSearches`). Edges are admitted
  by the types of their ends. Main results: the walk reports a route only where nothing new can be visited, depth
  first (`Walk.RoutingGraph.Walk`); run on one and the same graph, it and the layered search say the same
  (`GraphSearches.SearchBuilt`).

`Sequences` holds what all of them need of sequences and sets. Code that changes state is modelled by classes and
methods with the state of the original as fields; each method is proved against functions on values, and the main
results are lemmas about those functions. Failing assertions and exceptions are results: an `ok` flag, an `Option`
or an outcome type. A `requires` stands only for what the original's callers must provide.

## Where code and documentation differ

- `fix_xc7_carry.py:270-271` promises that every CARRY4 that is no root ends up in a chain. If two of them hang off
  the same CO net, the map built at line 323 remembers only the later one, and the closing assertion at 359-360 does
  not see the other. `CarryFork.SearchFork` runs both steps on such a netlist, and neither complains;
  `CarryChains.FindChains` states that all cells are found if and only if no two share a CO net.
- `fix_xc7_carry.py:557-574` (use an idle row above) never ends well: it reads `design["module"]`, a key that does
  not exist, and the next row is rejected by line 425 anyway (`CarryFix.IdleRowFails`).
- `tracks.py:87` and `:92` build tuples, which count as true. The guard gives the answer the docstring promises
  exactly for points that are covered anyway and for those on or beyond both axes (`Tracks.GuardDecides`). An
  uncovered point that is let through is left without a track (`Tracks.UncoveredIsUnserved`,
  `Tracks.MakeUncovered`). Points of lines that come from the decomposition are covered
  (`TracksClass.LinesAcceptable`).
- `check_ptc.py:23-26` sees nothing of a channel node written high end first, while `graph2.py:516` and `:525` sort
  the ends and take it; `testarch_graph.py:16-62` adds every second track that way. `ChannelCheck.CreateReversed` is
  a graph of three tracks that `create_channels` finishes and `check_ptc` rejects; `Graph2Proofs.ChannelledAccepted`
  has the exact condition, and `Graph2Proofs.SeenFirstMeans` says it row by row.
- `rr_graph_walk.py:216` leaves the start among the nodes to visit. The "route was invalid" error is raised by a
  walk that is never stopped if and only if an edge that can be reached leads back to the start (`Walk.WalkAll`), as
  in a graph of two nodes with an edge each way (`Walk.WalkThereAndBack`).
- `grid.py:169-170` promises that each site stays in exactly one tile. A split drops the sites of the empty tiles it
  takes over. `GridLoss.LoseSite` merges a site into an empty tile and splits the tile in front of it, and the site
  is gone. `GridRuns.RunLoses` states which sites a run loses, and that it keeps all of them if and only if no tile
  taken over by a split holds one; `Conserve.DirKeepsSites` decides that on the grid before one `split_in_dir`, and
  `TwoWaySites.TwoWayKeepsSites` on the grid before a whole two-way `split_tile_type`.
- `grid.py:175` promises exactly one site in each split tile. That is so exactly when the split map sends one site
  of the tile to each part (`TileData.OneSiteEach`); the calls of `GridAgain.SplitTwice` leave a split tile without
  a site.
- `grid.py:364` keeps the tiles of the first grid only, so tiles put in later are not looked at by `split_tile_type`
  and `merge_tile_type`. A type is gone after a split if and only if every line holding it has a tile of the type in
  that list (`SplitType.AllGone`); a line whose tiles are all new keeps it (`SplitType.UnlistedStays`).
  `GridAgain.SplitTwice` gets there with two calls.
- `grid.py:542-557` counts to the last taken position, which for three or more types can be too few lines
  (`GridExamples.TooFewLines`). `SplitLine.RoomDecides` states, for any number of types, exactly when the split goes
  through.
- `split_inouts.py:102` has no net to start from when the port being split holds all nets of the design, as in
  `SplitInoutsProof.SplitLonelyPort`; for inout ports that do not share nets this is the only way to fail
  (`SplitInoutsProof.SplitDesign`).

## Model

| member | source | states |
|---|---|---|
| Channel2.Channel.PackTracks | utils/lib/rr_graph/channel2.py:66-128 | appends exactly the rows of the left-edge packing of the tracks, reading them out of buckets by start coordinate |
| Channel2.Channel.PackRow | utils/lib/rr_graph/channel2.py:113-126 | one row is opened at the least start left and filled; what is left in the buckets still packs to the remaining rows |
| Channel2.Channel.MakeBuckets | utils/lib/rr_graph/channel2.py:104-108 | the buckets hold exactly the tracks, each bucket in the order of the sorted list |
| Channel2.Channel.Pop | utils/lib/rr_graph/channel2.py:96-102 | takes the last track of one bucket and drops the bucket when it is empty |
| Channel2.Channel.ScanUp | utils/lib/rr_graph/channel2.py:120-126 | finds the least start from a coordinate on, or shows there is none up to the highest |
| Channel2.ChoiceProperties | utils/lib/rr_graph/channel2.py:120-125 | the next track of a row starts earliest among those that can follow; if there is none, all tracks left start too early |
| Channel2.ChoiceIsLongest | utils/lib/rr_graph/channel2.py:67-90 | with the tracks sorted by length, the track taken is a longest one among those with its start |
| Channel2.PackKeepsTracks | utils/lib/rr_graph/channel2.py:113-126 | every track is in exactly one row, none is lost, doubled or invented |
| Channel2.PackRows | utils/lib/rr_graph/channel2.py:113-126 | rows are non-empty, their tracks are disjoint and in order, and rows open in order of their first coordinate |
| Channel2.ChainHits | utils/lib/rr_graph/channel2.py:119-126 | the row being filled has a track over every coordinate of maximal depth, so each row lowers the depth by one |
| Channel2.PackHasMaxDepthRows | utils/lib/rr_graph/channel2.py:104-126 | the number of rows is the greatest number of tracks covering one coordinate |
| Channel2.PackIsOptimal | utils/lib/rr_graph/channel2.py:66-90 | no other arrangement of the same tracks into overlap-free rows has fewer rows |
| Channel2.Channel.VerifyTrees | utils/lib/rr_graph/channel2.py:61-64 | accepts exactly when no track of a row starts before its predecessor ends |
| Channel2.Channel.FillEmpty | utils/lib/rr_graph/channel2.py:130-144 | yields the gaps of every row before, between and after its tracks |
| Channel2.RowGapsComplete | utils/lib/rr_graph/channel2.py:133-144 | a row and its gaps together cover each coordinate of their stretch exactly once and nothing outside |
| Channel2.AllGapsComplete | utils/lib/rr_graph/channel2.py:130-144 | the same for all rows of a channel at once |
| CheckPtc.ThreeTests | utils/check_ptc.py:44-48 | minimum 0, maximum length less one and no repetition hold together exactly for the permutations of 0..n-1 |
| CheckPtc.CheckCoordinate | utils/check_ptc.py:42-79 | accepts exactly a permutation of 0..n-1; otherwise the error is the first entry out of place in ptc order, with the number expected there and the one found |
| CheckPtc.FirstOutMeans | utils/check_ptc.py:52-79 | the numbers in the error: all below the expected one occur; a greater one found means the expected one is missing, a smaller one that a number repeats or is negative |
| CheckPtc.Collect | utils/check_ptc.py:23-40 | enters a channel node's id and ptc at every coordinate it spans and nowhere else |
| CheckPtc.CheckAll | utils/check_ptc.py:8-79 | accepts exactly when node ids differ and every used coordinate holds ptc numbers 0..n-1, each once |
| Graph2Class.Graph.SetTrackPtc | utils/lib/rr_graph/graph2.py:483-490 | writes one ptc and nothing else; that the node has none yet is owed by every caller |
| Graph2Class.Graph.AddTrack | utils/lib/rr_graph/graph2.py:346-397 | appends one node, numbered by its place, and records it as a track |
| Graph2Class.ProcessTrack | utils/lib/rr_graph/graph2.py:163-167 | the model of a channel holds the packing of its tracks sorted by length |
| Graph2Class.Graph.GroupTracks | utils/lib/rr_graph/graph2.py:507-532 | sorts every track into the list of its channel, with its ends in order |
| Graph2Class.Graph.PackBoth | utils/lib/rr_graph/graph2.py:551-577 | every tracked node gets the number of its row, once, and the widths are the row counts, 0 for unused channels |
| Graph2Class.Graph.PadBoth | utils/lib/rr_graph/graph2.py:584-619 | appends a node over every gap of every channel; each new node runs along its channel with capacity 0, the pad segment and a ptc, and the old nodes stay |
| Graph2Class.Graph.CreateChannels | utils/lib/rr_graph/graph2.py:492-631 | in terms of the nodes before and after: of a track only the ptc is new, of any other node nothing; every new node is padding of capacity 0; each ptc is below the width of its channel and occurs once over a coordinate; between the outermost ends, from 1 on, each is there, and padding is nowhere else; the widths are the greatest numbers of tracks over one coordinate |
| Graph2Pads.ChannelledApart | utils/lib/rr_graph/graph2.py:551-619 | no two nodes of the channels, tracks or padding, share a ptc over a coordinate |
| Graph2Pads.ChannelledFull | utils/lib/rr_graph/graph2.py:584-619 | between the outermost ends of the tracks, from 1 on, every number below the width of a channel is on a node |
| Graph2Pads.RowsAreWidth | utils/lib/rr_graph/graph2.py:551-577 | the number of rows of a channel is the greatest number of its tracks over one coordinate |
| Graph2Proofs.ChannelCount | utils/lib/rr_graph/graph2.py:551-619 | after create_channels check_ptc sees a ptc once at the coordinates where the padded row reaches and hides no track written high end first, and not at all elsewhere |
| Graph2Proofs.ChannelIsFull | utils/lib/rr_graph/graph2.py:551-619 | a coordinate of a channel holds 0..n-1 once each exactly when its visible rows are the first ones; with no track hidden there, inside the padded range, n is the width of the channel |
| Graph2Proofs.SeenFirstMeans | utils/check_ptc.py:23-40 | the visible rows are the first ones exactly when no visible row lies behind one that hides a track |
| ChannelCheck.CreateAndCheck | utils/check_ptc.py:8-79 | create_channels followed by both checks, on any graph whose ids are the node numbers and whose channel nodes are all tracks: check_ptc.py accepts it exactly when at each coordinate the visible rows are the first ones, and Graph.check_ptc passes exactly if every other node had a ptc |
| ChannelCheck.CreateReversed | utils/check_ptc.py:23-48 | three calls of add_track, one of them high end first: create_channels ends and check_ptc.py rejects the graph |
| Graph2Class.Graph.CheckPtc | utils/lib/rr_graph/graph2.py:479-481 | passes exactly when every node has a ptc |
| Graph2Proofs.ChannelledComplete | utils/lib/rr_graph/graph2.py:551-619 | after create_channels every channel node has a ptc, ids still are the node numbers, and all other nodes are as before |
| Graph2Proofs.ChannelledAccepted | utils/check_ptc.py:42-48 | after create_channels each used coordinate holds the ptc numbers 0..n-1, each once, exactly when at each coordinate of each channel the visible rows are the first ones |
| Graph2Proofs.OrderedSeenFirst | utils/lib/rr_graph/graph2.py:516-530 | with all channel nodes written low end first they are |
| ChannelGrids.ChannelGrid.CreateTrack | utils/lib/rr_graph/channel.py:500-645 | which error or track results, in terms of the channel before; a created track is at the forced index or the first that fits, on exactly its span, and an error changes nothing; in an even grid exactly the acceptable tracks get that far |
| ChannelGrids.ChannelGrid.AcceptedMeans | utils/lib/rr_graph/channel.py:589-611 | a track is accepted exactly if it was not placed before, both ends are in the grid past the start of one channel, and no hint says otherwise, which for a single position does not matter |
| ChannelGrids.Search | utils/lib/rr_graph/channel.py:613-633 | finds the least index free over the span, or takes the forced one; fails, changing nothing, exactly when the forced one is taken |
| ChannelGrids.FirstFitBound | utils/lib/rr_graph/channel.py:613-633 | an unforced search stays at or below the width, so it ends and widens by one at most |
| ChannelGrids.PlacedEven | utils/lib/rr_graph/channel.py:635-644 | the channel stays even, at its old width or just wide enough for the index |
| ChannelGrids.PuttingKeeps | utils/lib/rr_graph/channel.py:641-645 | every track in the grid still stands at its own index on its whole span and nowhere else |
| ChannelGrids.ChannelGrid.Clear | utils/lib/rr_graph/channel.py:781-785 | every position of the grid has width 0 |
| ChannelGrids.ChannelGrid.Check | utils/lib/rr_graph/channel.py:787-797 | accepts exactly when every channel has one width |
| ChannelGrids.ChannelGrid.FillEmpty | utils/lib/rr_graph/channel.py:809-826 | puts a track of one position into each empty inner entry, changes nothing else, and lists the new tracks |
| ChannelGrids.ChannelGrid.AssertFull | utils/lib/rr_graph/channel.py:852-860 | accepts exactly when channels are even and no inner entry is empty |
| ChannelGrids.FillAndCheck | utils/lib/rr_graph/channel.py:809-860 | after fill_empty, assert_full passes |
| ChannelGrids.ChannelGrid.ChannelWidths | utils/lib/rr_graph/channel.py:828-840 | reports the width of every channel at its first position, which in an even grid is the width everywhere, with their least and greatest, infinite for none; fails exactly when a channel has no position |
| PointsClass.Decomposition.AddPoint | utils/lib/rr_graph/points.py:1081-1092 | a point goes to exactly the lines that take it, and its counter counts them |
| PointsClass.Decomposition.TryRemove | utils/lib/rr_graph/points.py:1094-1110 | deletes the line exactly when every point of it is on another line and its direction stays balanced; counters stay equal to the lines holding each point |
| PointsClass.Decomposition.RemoveLines | utils/lib/rr_graph/points.py:1112-1150 | the loops together compute the deletion Final, counters included |
| LineCover.SmallestAtIsSmallest | utils/lib/rr_graph/points.py:1115-1116 | the line tried is the first with the fewest points |
| LineOrder.FirstDeleted | utils/lib/rr_graph/points.py:1112-1125 | while both directions have lines, the smaller of their smallest lines is tried first, that of y on a tie, then the other; the deletion goes on from what is left |
| LineOrder.LoneDeleted | utils/lib/rr_graph/points.py:1129-1137 | with lines of one direction only, its smallest line is tried |
| LineOrder.FirstSwept | utils/lib/rr_graph/points.py:1139-1150 | when no smallest line may go, the first that may, by size, goes: of x if there is one, otherwise of y |
| LineCover.FinalShrinks | utils/lib/rr_graph/points.py:1112-1150 | over the whole deletion no line is new, no point leaves its last line, no counter grows, and an empty direction still means at most one line in the other |
| LineCover.FinalIrredundant | utils/lib/rr_graph/points.py:1139-1150 | every line left would be refused again: it is alone in its direction or holds a point no other line holds |
| Points.StartReads | utils/lib/rr_graph/points.py:1028-1092 | which columns and rows there are at the start, and which points each holds, by coordinates |
| Points.StartHolds | utils/lib/rr_graph/points.py:1077-1092 | a point is on some line at the start exactly when the geometry gives it one inside the frame |
| Points.SurvivorsIrredundant | utils/lib/rr_graph/points.py:1097-1150 | for any list of points and limits, each line in the answer is alone in its direction or needed by a listed point |
| Points.StaysOnSurvivor | utils/lib/rr_graph/points.py:1152-1167 | a point that starts on a line ends on one, so it passes the closing sanity check |
| Points.UnlimitedStart | utils/lib/rr_graph/points.py:1026-1092 | without limits every point but (0, 0) starts on a line, and both directions have lines |
| PointsClass.Decompose | utils/lib/rr_graph/points.py:808-1169 | returns the coordinates of the lines left; goes through exactly when there are points, none in a corner, a height comes with a width, and every point is on or beside a line left where it may use it |
| Tracks.GuardDecides | utils/lib/rr_graph/tracks.py:82-96 | the guard agrees with coverage as promised exactly for points that are covered and for points on or beyond both axes |
| Tracks.GuardAccepts | utils/lib/rr_graph/tracks.py:85-96 | a bag of points passes exactly when its points on or beyond both axes are covered |
| Tracks.UncoveredIsUnserved | utils/lib/rr_graph/tracks.py:197-271 | no track made from the lines is adjacent to a point that is not covered |
| Tracks.MakeUncovered | utils/lib/rr_graph/tracks.py:82-161 | make_tracks on an uncovered point: nothing fails, and the point has no track to attach to |
| Tracks.MakeTracks | utils/lib/rr_graph/tracks.py:98-161 | one straight track per line, the columns first, from the least coordinate of a point, or 1, to the greatest, or the last inside the grid; and the set of links that joins each to the first of the other direction |
| Tracks.AttachmentSides | utils/lib/rr_graph/tracks.py:197-271 | a side is offered at a coordinate exactly when some track is adjacent on it |
| Tracks.AttachmentIsLast | utils/lib/rr_graph/tracks.py:264-268 | the track offered on a side is the last one adjacent there |
| Tracks.AttachmentsAnswer | utils/lib/rr_graph/tracks.py:197-271 | by coordinates: which sides of a point have a track, and that the last such track is offered |
| Tracks.SidesAreLines | utils/lib/rr_graph/tracks.py:98-271 | which sides a listed point gets from the tracks along given lines: its own column is to the right, the one before to the left, its own row above, the one before below |
| TracksClass.Merge | utils/lib/rr_graph/tracks.py:188-191 | merging shared sets keeps them a partition in which exactly the two classes have become one |
| TracksClass.VerifyTracks | utils/lib/rr_graph/tracks.py:174-195 | accepts exactly when all tracks are one connected component and no link merges two components of tracks in the same direction |
| TracksClass.StarIsOneNet | utils/lib/rr_graph/tracks.py:147-161 | the links of make_tracks join all tracks and are acceptable |
| TracksClass.WireServes | utils/lib/rr_graph/tracks.py:107-139 | a track built along a line that holds a point is adjacent to that point, clipping included |
| TracksClass.PointServed | utils/lib/rr_graph/tracks.py:240-271 | every point that passes the closing sanity check on some lines has a track to attach to among those built along them |
| TracksClass.LinesAcceptable | utils/lib/rr_graph/tracks.py:82-145 | lines on which all points pass the sanity check meet both assertions of make_tracks, and cover every point as its docstring demands |
| TracksClass.TrackModel.GetTracksForWireAtCoord | utils/lib/rr_graph/tracks.py:240-271 | the answer, cached or not, names the sides of the point that a track runs along, by coordinates, with the last such track of each |
| TracksClass.CreateTrack | utils/lib/rr_graph/tracks.py:33-195 | for any points and limits this goes through exactly when the decomposition does, and gives one connected set of straight tracks along the lines left, clipped to the points and the grid, where every point attaches, each on the sides where the lines left are |
| TracksClass.WhoPasses | utils/lib/rr_graph/points.py:1152-1167 | a point that starts on a line always passes the sanity check, one that may use no track of either direction never does |
| TracksClass.CreateTrackUnlimited | utils/lib/rr_graph/tracks.py:33-271 | without limits, for non-negative points, it goes through exactly when there are points and none is (0, 0) |
| RightOnly.OneWayFinal | utils/lib/rr_graph/points.py:1112-1150 | where no y line holds a point and no point is on two x lines, the deletion leaves the x lines with points, and the last y line exactly beside two or more of them |
| RightOnly.RightOnlyLines | utils/lib/rr_graph/points.py:1026-1150 | with pins on the right only: the columns with points are left, and the last row where there are two such columns |
| RightOnly.CreateRightOnly | testarch/utils/testarch_graph.py:65-77 | with pins on the right only and any limits it goes through exactly when each point is in or right of a column with points, or on or above the last row where that is left |
| RightOnly.CreateConstantTracks | testarch/utils/testarch_graph.py:104-128 | for the inner points of any grid with two inner columns and rows it goes through, and every one of them attaches |
| Netlist.CreateBitToCellMap | utils/fix_xc7_carry.py:365-411 | fails exactly when some net has two drivers; otherwise lists each pin on each net |
| Netlist.MapReads | utils/fix_xc7_carry.py:373-383 | a net's entry names its driver and its sinks, each once, as the netlist has them |
| CarryChains.NextInjective | utils/fix_xc7_carry.py:335-351 | two cells never continue to the same cell, since each net has one driver |
| CarryChains.WalksMeet | utils/fix_xc7_carry.py:328-354 | walks that meet began at the same root and are in step |
| CarryChains.WalkDistinct | utils/fix_xc7_carry.py:333-354 | a walk never visits a cell twice, so it ends |
| CarryChains.Classify | utils/fix_xc7_carry.py:287-326 | fails exactly when a fed cell is not fed through a plug and a CO cell; otherwise roots and fed cells are told apart |
| CarryChains.FindChains | utils/fix_xc7_carry.py:267-362 | ends; succeeds exactly when no feed is malformed and every recorded cell is on a walk; chains are maximal walks without common cells, one from each root, and hold all carry cells exactly when no two hang off one CO net |
| CarryChains.FindsAllCells | utils/fix_xc7_carry.py:358-362 | when the closing assertion passes, all carry cells are in chains exactly when no two hang off one CO net |
| CarryChains.NextIsLinked | utils/fix_xc7_carry.py:296-323 | each step of a chain goes from CO3 through a CARRY_CO_DIRECT and a CARRY_COUT_PLUG to CIN |
| CarryFork.ForkLosesACell | utils/fix_xc7_carry.py:270-360 | two cells of one netlist hang off the same CO net, and no assertion of the search fails |
| CarryFork.SearchFork | utils/fix_xc7_carry.py:267-411 | the map and the search, run on that netlist of six cells with one driver a net, both end well, and a carry cell is in no chain |
| CarryFix.Design.IsBitUsedOtherThanCarry4Cin | utils/fix_xc7_carry.py:436-443 | true exactly when some sink is no CIN of a plug |
| CarryFix.Design.FixupCin | utils/fix_xc7_carry.py:467-485 | moves every plug on the net to the CO net; fails exactly on a plug pin that is not bit 0 |
| CarryFix.Design.FixupRow | utils/fix_xc7_carry.py:532-585 | one row fails, stays, becomes a dummy layer, or is spilled to a LUT; a row that gets through changes exactly if its O has a sink and its placeholder one that is no CIN of a plug, and then to the type for its place |
| CarryFix.Design.FixupCongestedRows | utils/fix_xc7_carry.py:488-585 | all rows of a chain, in order, on the netlist the rows before have left |
| CarryFix.IdleRowFails | utils/fix_xc7_carry.py:506-574 | wherever the rest of a cell is idle, the next row fails its own check, so the branch that uses that row never completes |
| CarryClosed.DecideSame | utils/fix_xc7_carry.py:529-585 | rows already rewritten never change what is decided for another row |
| CarryClosed.RunIsFixed | utils/fix_xc7_carry.py:529-585 | after a run each cell is what the starting netlist calls for: placeholders retyped by their own row, plugs moved by theirs, all else untouched |
| CarryClosed.RunWorks | utils/fix_xc7_carry.py:529-585 | a run completes exactly when no row fails its checks on the starting netlist |
| CarryMeaning.LutIs | xc/xc7/techmap/clean_carry_map.v:15-72 | the two lookup tables compute the documented equations |
| CarryMeaning.PlaceholdersAgree | xc/xc7/techmap/clean_carry_map.v:1-98 | where the carry cell's equations hold, CARRY_CO_LUT and CARRY_CO_TOP_POP give the CO value that CARRY_CO_DIRECT passes on |
| CarryMeaning.SameValues | utils/fix_xc7_carry.py:529-585 | an assignment of values to all nets satisfies the rewritten netlist exactly when it satisfies the original, for chains of any length |
| CarryMeaning.NoPlugBehindLut | utils/fix_xc7_carry.py:467-485 | no CARRY_COUT_PLUG is left on the output of a placeholder that became a LUT |
| CarryPins.DecideReads | utils/fix_xc7_carry.py:532-585 | what is decided for a row whose placeholder is alone on its CO net, by congestion in terms of pins |
| CarryPins.PassReads | utils/fix_xc7_carry.py:488-585 | all rows of the chains pass their checks exactly if each has one bit on O and CO, its placeholder alone on CO, and, where it is spilled, plugs on their first bit |
| CarryPins.RunResolves | utils/fix_xc7_carry.py:529-585 | after a run, told by pins: each row has one placeholder, which is retyped exactly if the row is congested; plugs behind the new LUTs are on the CO net; nothing else has changed; no row is congested |
| CarryPins.AllChainsRead | utils/fix_xc7_carry.py:287-356 | told by pins: a chain runs from a cell without CIN over links as far as they go, and every such cell starts one |
| CarryMain.FixDesign | utils/fix_xc7_carry.py:588-600 | which netlists the run gets through; exactly the congested rows lose their CARRY_CO_DIRECT, plugs move off the new LUTs only, no row stays congested, every value is kept |
| SplitInouts.GetFreeNet | utils/split_inouts.py:83-102 | the one index right after the unbroken run of nets that starts at the lowest; none exactly for the empty set |
| SplitInouts.AllocateHalf | utils/split_inouts.py:163-187 | each net bit of a half gets the free net of what is used by then; fails exactly when there is a net bit and no net in use |
| SplitInouts.Module.SplitPort | utils/split_inouts.py:156-187 | gives up the port's own nets, then allocates both halves |
| SplitInouts.Module.CleanNetnames | utils/split_inouts.py:192-213 | names of inout ports go, split nets are crossed out, names with nothing left go |
| SplitInouts.Module.FindAndSplit | utils/split_inouts.py:108-223 | the ports, net names and net map left behind, or the port at which it got stuck |
| SplitInouts.Module.RemapConnections | utils/split_inouts.py:226-264 | every cell is remapped bit by bit on its `$inp` inputs and `$out` outputs, and on nothing else |
| SplitInoutsProof.HalvesDiffer | utils/split_inouts.py:156-187 | no net is allocated twice, over all ports, bits and both directions |
| SplitInoutsProof.HalfUnused | utils/split_inouts.py:133-187 | no allocated net is used by anything that is no inout |
| SplitInoutsProof.MapIsGood | utils/split_inouts.py:174-177 | the net map has exactly the inout nets, with two nets of their own each |
| SplitInoutsProof.SharedAfter | utils/split_inouts.py:245-264 | two remaining pins share a net afterwards exactly when they shared a net that was no inout, or an inout net from the same side |
| SplitInoutsProof.NewPortShares | utils/split_inouts.py:163-187 | a remaining pin is on a bit of a new port exactly when it was on that inout bit, from that side |
| SplitInoutsProof.StuckMeans | utils/split_inouts.py:102-171 | a port gets stuck exactly when its nets are all the nets there are |
| SplitInoutsProof.SplitDesign | utils/split_inouts.py:108-264 | both passes: which designs go through, and that connections are kept with the sides of inouts taken apart; each inout port becomes an input and an output, its nets are crossed out of the net names, and only sides of inouts are reconnected |
| SplitInoutsProof.PortsOutcome | utils/split_inouts.py:146-190 | the ports left: the two halves of each inout port, with its constants in place, and the others as they were |
| SplitInoutsProof.NamesOutcome | utils/split_inouts.py:192-221 | the net names left: crossed out, gone if they named an inout port or nothing is left of them, and one for each half |
| SplitInoutsProof.CellsOutcome | utils/split_inouts.py:226-264 | a connection changes exactly where an input ending in `$inp` or an output ending in `$out` is on an inout net, to a net of that half |
| SplitInoutsProof.SplitLonelyPort | utils/split_inouts.py:102 | a design that is one inout port with one net gets stuck |
| Mesh.Tile.LinkNeighboorInDirection | utils/tile_splitter/grid.py:202-226 | links both ways; fails exactly when either tile has a third one there |
| Mesh.Tile.InsertInDirection | utils/tile_splitter/grid.py:228-248 | puts a tile between two neighbours, or at the end, with all links both ways |
| GridLoc.CheckGridLoc | utils/tile_splitter/grid.py:278-304 | accepts exactly the full rectangles that start at (0, 0) |
| MeshBuilding.BuildMesh | utils/tile_splitter/grid.py:307-337 | ends, never fails a link assertion, and closes everything reached downwards and to the right |
| MeshBuilding.AllMade | utils/tile_splitter/grid.py:307-337 | from (0, 0) this links the whole grid: each tile to exactly its neighbours |
| GridClass.MakeGrid | utils/tile_splitter/grid.py:353-366 | fails exactly on a grid that is no full rectangle; otherwise the mesh is the given grid |
| Splice.SpliceStep | utils/tile_splitter/grid.py:495-504 | one more tile of a line put in keeps the partly spliced mesh in order |
| Splice.SplicingEnds | utils/tile_splitter/grid.py:494-507 | with the line complete and zipped, the links are those of the matrix with one more line |
| Orientation.ColumnsInsert | utils/tile_splitter/grid.py:37-42 | a line put in behind another in any of the four directions is a column or row put in at the right index |
| GridClass.Grid.InsertEmpty | utils/tile_splitter/grid.py:470-509 | fails, changing nothing, exactly away from the top of a line; otherwise old tiles keep their identity and one line of new empty tiles is in, each linked to the tile it stands behind and to what stood there, and the grid read back is the old one with that line |
| GridClass.ReadBack | utils/tile_splitter/grid.py:672-679 | what is read from the origin shows the new line at its index, or is unchanged if the line went in before the origin |
| GridClass.Grid.OutputGrid | utils/tile_splitter/grid.py:663-684 | returns every tile right of and below the origin at its place; its own check cannot fail |
| TileData.SplitOver | utils/tile_splitter/grid.py:408-468 | fails exactly when a tile to be used is not empty or a site has no tile; otherwise each tile has its type, the keys and its share of the sites in order: each site is on the tile the map says |
| TileData.OneSiteEach | utils/tile_splitter/grid.py:172-175 | each part of a split tile holds exactly one site exactly when the map sends one site of the tile to each part |
| SplitLine.CountLine | utils/tile_splitter/grid.py:543-557 | the count is 0 or the distance of a taken tile behind one of the type, and within reach no tile of the type has a taken one further off |
| SplitLine.ToInsertIs | utils/tile_splitter/grid.py:543-557 | the count computed is the one number that fits this |
| SplitLine.ToInsertCovers | utils/tile_splitter/grid.py:543-557 | the count is at least what each tile of the line calls for |
| SplitLine.RoomDecides | utils/tile_splitter/grid.py:542-566 | for any number of types, whether a tile can be split once the lines are in, in terms of the grid before |
| GridExamples.TooFewLines | utils/tile_splitter/grid.py:542-566 | three columns in which a three-way split is given one line and runs into a taken tile |
| SplitLine.TwoWayRoom | utils/tile_splitter/grid.py:542-566 | for two types and a neighbour, at most one line is put in and only a site without a tile can stop the split |
| GridClass.Grid.SplitInDir | utils/tile_splitter/grid.py:511-566 | puts in as many lines as the farthest taken tile within reach lies behind a tile of the type, for two types one or none, and splits every tile of the type in the line, or fails exactly when one cannot be split |
| SplitType.FindTops | utils/tile_splitter/grid.py:588-611 | finds every line with a listed tile of the type exactly once, by its first tile |
| SplitType.LineCleared | utils/tile_splitter/grid.py:562-566 | splitting a line takes exactly its tiles from those of the type |
| SplitType.AllGone | utils/tile_splitter/grid.py:568-617 | the type is gone exactly when every line holding it has a listed tile of it |
| SplitType.ListedMeansGone | utils/tile_splitter/grid.py:568-617 | in a grid nothing was put into, no tile of the type is left |
| SplitType.UnlistedStays | utils/tile_splitter/grid.py:364 | a line of tiles put in later keeps the type |
| GridAgain.SplitTwice | utils/tile_splitter/grid.py:364 | two calls on a grid of two tiles: both succeed, and the second leaves a tile of the type it was to split, which is a split tile without a site |
| GridClass.Grid.SplitTileType | utils/tile_splitter/grid.py:568-617 | a run of splits of the found lines in order, each on the grid the ones before have left; it fails exactly at a line that cannot be split there, for two types exactly at a site without a tile; with all tiles listed, none of the type is left; a two-way split keeps all sites exactly when its lines are spared in the grid before, and puts in one line for each found line with a taken tile right behind one of the type, no other |
| TwoWaySites.TwoWayKeepsSites | utils/tile_splitter/grid.py:568-617 | over a whole two-way split into other types, no site goes missing exactly when, in the grid before, no tile right behind one of the type holds a site in a line that needs no line put in |
| TwoWaySites.TwoWayWidens | utils/tile_splitter/grid.py:568-617 | a two-way split widens the grid by one line for each found line with a taken tile right behind one of the type, and leaves its shape if there is none |
| GridClass.Grid.MergeInDir | utils/tile_splitter/grid.py:619-647 | fails, changing nothing, exactly without a neighbour; otherwise the neighbour has all contents appended and the tile is empty |
| GridClass.Grid.MergeTileType | utils/tile_splitter/grid.py:649-661 | a run that merges each listed tile of the type into its neighbour, in order, up to the first without one; root keys and sites are all kept and the type is gone from the list |
| Conserve.SplitLoses | utils/tile_splitter/grid.py:437-468 | splitting a tile keeps all root keys and loses exactly the sites of the tiles taken over behind it |
| Conserve.LineLoses | utils/tile_splitter/grid.py:562-566 | the same for a whole line, whose taken tiles are counted once each |
| Conserve.DirLoses | utils/tile_splitter/grid.py:511-566 | the same for split_in_dir, lines put in included |
| Conserve.DirKeepsSites | utils/tile_splitter/grid.py:511-566 | split_in_dir keeps all sites exactly when, in the grid before, the tiles it reaches behind those of the type hold none |
| Conserve.MergeKeeps | utils/tile_splitter/grid.py:638-647 | merging keeps root keys and sites, and leaves empty tiles without sites exactly unless it puts sites into one |
| GridRuns.RunLoses | utils/tile_splitter/grid.py:146-170 | over any run of insertions, splits and merges every root key stays, the sites lost are those of the tiles taken over by splits, and none is lost exactly if those tiles hold none |
| GridRuns.CarefulRunKeeps | utils/tile_splitter/grid.py:146-170 | a run that starts with empty tiles without sites, puts none into an empty tile and splits into other types keeps every site |
| GridRequests.Perform | utils/tile_splitter/grid.py:470-661 | any sequence of requests to a grid is such a run: root keys stay as often as they were, and the sites missing are those taken over |
| GridExamples.SiteIsLost | utils/tile_splitter/grid.py:408-647 | a merge and a split on three tiles are a run that begins with one site and ends with none |
| GridLoss.LoseSite | utils/tile_splitter/grid.py:408-647 | the same as calls on a grid: both succeed, and the site is gone |
| Reachability.ReversedReaches | utils/rr_graph_walk/rr_graph_walk.py:204-208 | t is reached from s along the edges exactly when s is reached from t against them |
| Walk.RoutingGraph.AddEdge | utils/rr_graph_walk/rr_graph_walk.py:107-114 | an edge is listed from both its ends |
| Walk.RoutingGraph.VerifyRoute | utils/rr_graph_walk/rr_graph_walk.py:145-198 | true exactly for a path along the edges that repeats no node |
| Walk.RoutingGraph.Walk | utils/rr_graph_walk/rr_graph_walk.py:200-279 | ends; every route reported is a simple path from the start; it stops exactly when the callback says so; a route is reported only where nothing new can be visited: none ends on another, and what its last node leads to is on a route in the end; routes come depth first; a finished walk has touched exactly the reachable nodes |
| Walk.OrderStep | utils/rr_graph_walk/rr_graph_walk.py:221-279 | one visit keeps the reports in order: routes meet in their beginnings only, take no edge back further up, and where two part the edge listed later is followed first |
| Walk.WalkAll | utils/rr_graph_walk/rr_graph_walk.py:215-279 | a walk that is never stopped raises the route error exactly when a reachable edge leads back to the start; it reports routes in the same places and order |
| Walk.BackwardIsForward | utils/rr_graph_walk/rr_graph_walk.py:239-265 | walking against the edges from t meets s exactly when walking along them from s meets t |
| Walk.WalkThereAndBack | utils/rr_graph_walk/rr_graph_walk.py:215-279 | on two nodes with an edge each way the walk ends with the route error |
| Walk.SearchesAgree | utils/check_graph.py:14-25 | a path of one or more edges leads to a target other than the start exactly when a finished walk touches it |
| GraphSearches.SearchBoth | utils/check_graph.py:8-25 | both searches over one set of nodes and edges: the layered one raises no KeyError, the walk raises its error exactly when the start reaches itself, and otherwise the targets missed are those never touched |
| GraphSearches.ToDictionary | utils/check_graph.py:28-40 | the dictionary has every node as a key and exactly the edges of the graph |
| GraphSearches.SearchBuilt | utils/check_graph.py:8-40 | the same for any graph built by create_node and create_edge_with_ids and any of its nodes as start |
| CheckGraph.InaccessibleNodeIds | utils/check_graph.py:8-25 | ends; returns exactly the targets no path of one or more edges leads to; raises KeyError exactly when a reachable node is unknown, and names such a node |
| TypedGraph.RoutingGraph.CreateNode | utils/lib/rr_graph/graph.py:2269-2360 | fails, changing nothing, exactly when an assertion on the node fails; otherwise one node with the next id and no edges |
| TypedGraph.RoutingGraph.CreateEdgeWithIds | utils/lib/rr_graph/graph.py:2362-2440 | fails, changing nothing, exactly for unknown ends, inadmissible types or a denied bidirectional switch; otherwise one edge, and its reverse where its types are admitted and it is two way, by its switch or by request |
| TypedGraph.ValidIsAdmitted | utils/lib/rr_graph/graph.py:2443-2467 | the rule admits exactly eleven pairs of types |
| TypedGraph.RoutingGraph.AddEdge | utils/lib/rr_graph/graph.py:2009-2057 | one edge with the next id; every node stays mapped to exactly its edges, and every edge joins admissible types |
| TypedGraph.InnerTypes | utils/lib/rr_graph/graph.py:2443-2467 | past the first pin a path from a source runs over tracks until it ends in an input pin and perhaps a sink |
| TypedGraph.SourceToSink | utils/lib/rr_graph/graph.py:2443-2467 | every path from a SOURCE to a SINK is SOURCE, OPIN, any number of CHANX and CHANY, IPIN, SINK |

## Left out

- Reading and writing XML, JSON, capnp, CSV and databases, command lines, progress bars and printing: nodes, edges, cells and nets are values here.
- The process pool of `create_channels`: channels are packed one after the other, as without a pool.
- Names and metadata of graph2 nodes, timing, switches and pins: nothing proved here depends on them.
- Graph2Class.Graph.CreateChannels: asks for tracks without a ptc, with channel numbers from 0 on, each listed once and of both types; the original raises an error or leaves tracks without a ptc otherwise.
- Channel2.Channel.FillEmpty: the model yields all gaps at once; the original is a generator read to its end.
- ChannelGrids.ChannelGrid.CreateTrack: a forced index is a natural number; Python's counting from the end for negative ones is not modelled.
- `Track` drawing, `pretty_print`, `Channels` and the XML side of `channel.py`.
- `decompose_into_straight_lines` and `StraightSegment` in `points.py`: heuristics on named positions with no stated result.
- The order of the link list of `make_tracks`, which comes from a Python set.
- CarryMain.FixDesign: asks for ports in the directions of their cells and for placeholders that watch one row, as `carry_map.v` creates them; other netlists are not modelled.
- CarryFix.Design.FixupRow: where the idle row above would be used the row fails; the changes made before the missing key is hit are not modelled.
- The map from bits to net names in the carry script, used only on that branch, and the choice of a top module.
- SplitInoutsProof.SplitDesign: connections are stated for inout ports that share no net, free names for the new ports, and inout nets reached only through `$inp` and `$out` pins.
- The port map `split_inouts.py` returns and the attributes of net names.
- Grid locations are natural numbers; the look-ups `Grid.column` and `Grid.row` are not modelled.
- GridClass.Grid.InsertEmpty: the tile it starts from is one of the grid, as in every call.
- GridRequests.Perform: what happens up to a request that fails part-way is stated by SplitTileType, and not carried through the requests.
- After a failed assertion the grid is left as it was only where a row says so; part-done splits are not described.
- Python list objects shared between tiles: each tile has its own lists here.
- Python's recursion limit, which `build_mesh` can exceed on large grids.
- Walk.RoutingGraph.Walk: the callback decides from the routes reported so far; one that changes the graph is not modelled.
- Printing, metadata, pins, blocks, look-up by name and import of finished graphs in `graph.py`.
