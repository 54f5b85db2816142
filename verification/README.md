# Index pipeline proofs

A Dafny model of the build-and-read pipeline of the geocoder.  A C++ builder turns rings, address
points and names into packed binary tables; a Rust server answers queries over those bytes.  Most
results here span both sides: what the one writes is what the other's code needs in order to give
the right answer.

`dafny verify dfyconfig.toml` checks everything.

## What is proved

**Polygons** (`Rings`, `SignedAreas`, `BridgeHoles`, `EvenOdd`, `Fans`, `RayTest`, `Centroids`,
`Moments`, `Simplify`, `HoleCover`, `HoleBudget`).  The builder cuts holes into a ring as zero-width
bridges, so that readers which know nothing of holes stay right.  For every outer ring, every list
of holes and every point the even-odd test on the bridged ring is the exclusive or of the tests on
the parts; the signed area and both first moments are those of the outer ring less those of the
holes.  Both results come from one lemma about edge sums over the bridged ring.  What the test and
the centroid themselves mean comes from the triangles between a ring's first vertex and its edges: a
point is inside if an odd number of them hold it, and the centroid is the mean of their centres,
weighted with their areas.  Douglas-Peucker is nested in its tolerance, keeps every dropped vertex
within the tolerance of the segment between its kept neighbours, keeps no vertex that was not beyond
it from such a segment, and its 20-step search ends within 2^-20 of the smallest tolerance that
fits.  The hole budget halves caps no more often than it must and fits the largest holes; of these
the ring gets the ones that the geometry library does not reject, which, where that answers rightly,
makes "outer ring and no hole" of the plain test.  The 16-bit vertex count is exact for closed
rings; for which open rings it is not is stated too.

**Cell tables** (`Bytes`, `CellOrder`, `CellWriter`, `CellReader`, `CellRoundTrip`).  Down to the
bytes: for any map from cells to id lists, the server visits the first 65535 ids of a cell's list
in order, and nothing for an absent cell; offsets that do not fit 32 bits are refused by the
writer, and none equals the marker for "no list".

**Searches over the cells** (`Nearest`, `AdminSearch`, `AdminIndex`, `StreetSearch`,
`AddressSearch`, `ShardFiles`, `ShardReading`, `AddressOrder`, `Interpolation`).  Each search of the
server, with its early area test, its bounded buffer of streets or its two running winners, equals a
plain minimum over everything the builder listed; streets and addresses are compared by one distance,
that on the map whose longitudes are stretched by the cosine.  `AdminIndex.AdminOfEveryBuild`,
`StreetSearch.StreetOfBuiltFiles` and `ShardReading.AddressOfShard` say this from what the builder
was given to the answer, the first for every run in which polygons are added and their holes decided
on.  Sorting address points by cell is a permutation; every cell resolves to the records it
had, and its ids become one run.  House numbers stay on their way exactly where stated.

**Publishing** (`Layouts`, `Publish`, `ShardSchema`).  State machines over the steps of builds that may
stop anywhere.  In every state of every run an accepted directory holds the files of the one build
that wrote its manifest, each complete exactly if its end was not lost when it was closed.  The
server, however, checks the manifest before it maps the files; `Publish` shows from which states
that load can mix two builds, what exactly makes it do so, and exactly when a second look at the
manifest would rule it out.

**Autocomplete** (`Lexicographic`, `Automaton`, `TopK`, `Autocomplete`, `PrefixKeys`).  The country
automaton accepts exactly the keys it should, gives up exactly where nothing can match any more, so
that a pruned walk is the filtered list of keys; the bounded heap holds exactly the best items.

**Words** (`Text`, `Numerals`, `Vocabulary`, `Rewriting`, `Tokens`, `TokenSymmetry`, `DottedNames`,
`TokenSettling`, `Spellings`, `EnglishTables`, `StreetNameExamples`, `WhitespaceRepair`).  The index
side and the query side rewrite street names by different programs in a different order.  For every
text of letters, digits and white space they agree, except exactly where a number leads before a
street type; where words may end in dots, except also where a dot parts the two words of a number.
`Spellings` shows which spellings come to one form: abbreviations, Saint and Street, ordinals in
words and in figures, dotted initials.  The word tables enter only by the requirements in
`Vocabulary`, which say what a new row must not break; `EnglishTables` holds the repository's rows
and proves that they meet them.

**Strings** (`StringPool`, `Utf8`).  An id handed out once reads back as its string after all later
interns, exactly if that is UTF-8 and holds no NUL.

## Where the code does less than one would think

- The comments on both prefix walks promise hits "alphabetical within a rank".  The heap drops ties
  by record id, so this holds for every limit exactly if ids rise with names
  (`Autocomplete.BestByNameExactly`); `Autocomplete.LaterNameWins` has an index where it fails.
- A record that several keys lead to, as an alias does, is counted as often.  Every limit keeps each
  record once exactly if no two of the entries visited lead to the same one
  (`Autocomplete.KeptOnceExactly`); `Autocomplete.TwiceTheSame` has an index whose hits are one
  record twice.
- The comment on `canonicalise_phrase` promises the tokens of the query side.  "7 Street" is indexed
  as "7th" and queried as "7": `TokenSymmetry.SidesAgree` has the exact condition, and
  `DottedNames.DottedSidesAgree` for words that end in dots.  "Saint-Denis" is indexed with "saint" and
  queried with "st"; two words with a hyphen agree exactly if the query side leaves both alone
  (`StreetNameExamples.HyphenAgreesExactly`).
- Tokenizing twice is not tokenizing once for "Main Saint North", see `TokenSettling.TokensSettleExactly`.
- Interpolation in steps of two never leaves the start number on a descending way, and leaves the
  range on an odd span (`Interpolation.DescendingStaysAtStart`,
  `Interpolation.RangeKeptExactlyForEvenSpan`).
- The 16-bit vertex count is exact only if open rings fit into what the budget left over
  (`HoleBudget.StoredCountExact`), and only then does a polygon read back
  (`AdminIndex.FinishedShapeReads`).  Rings are open where nodes without a location were skipped;
  `HoleBudget.OpenHolesOverflow` has a polygon of 78641 vertices that is stored with 13105.
- The load of the reverse index is not atomic (`Publish.LoadCanMixBuilds`).  A second look at the
  manifest would help exactly if no build had published one that looks the same, as one can within
  the same second (`Publish.SecondLook`, `Publish.SecondLookCanMiss`).  Nor is the check of the
  manifest: it can pass over files of two builds (`Publish.CheckCanPassMixed`), and does what it
  should if no file had been replaced when it was measured (`Publish.AcceptsAcrossExactly`).
- A file whose end is lost when its stream is destroyed is published and accepted at its shorter
  length (`Publish.AcceptedIsWhole`, `Publish.LostEndIsAccepted`).
- A shard is rewritten in place under a server that has it open.  A file stays the accepted one
  exactly until a build writes into it (`ShardSchema.KeptUntilRewritten`,
  `ShardSchema.MappedIsAccepted`), and `ShardSchema.OpenShardCanBeEmptied` has a run to an empty one.
- The writer of a shard lets offsets wrap around, so its table is right exactly if the last list starts
  below 2^32 (`ShardReading.WrappedOffsetsExactly`), and then every cell reads back.  With 16386 full
  cells in front one cell reads 57343 ids of no meaning (`ShardReading.FullCellsReadWrong`);
  `ShardReading.FullShardReadsWrong` has such a shard.
- A hole that the geometry library rejects is left out of the ring, whatever room there is
  (`HoleBudget.HoleOutsideIsLeftOut`); `HoleCover.AllUsableExactly` says when none is.
- A shard with no points is published but refused by the reader (`ShardSchema.PublishedOpens`).
- The address sort marks ids not yet given with the largest 32-bit value and counts with a 32-bit
  variable, while points are admitted one beyond that.  The mark is right, and the loops end, exactly
  if there are at most 2^32 - 1 points (`AddressOrder.MarkTellsExactly`,
  `AddressOrder.CounterLeavesOff`); `AddressOrder.AddressTable.SortByCell` asks for that.

## How the model is built

Coordinates and distances are exact reals, so rounding is not modelled, and distances are compared
by their squares as the server does; the builder's square root of a distance is compared by
squaring the tolerance.  The square root of a segment's length is a parameter that is never
negative.  Cell ids, candidate cells, what S2 says about rings, the vertex cap of a ring, and
house-number matching are parameters.  Bytes are numbers below 256 and all widths are written out.
Files, maps and hash tables are values; where the source updates objects or arrays in place there
are classes and arrays.
Texts are taken as ASCII: other characters are neither letters, digits nor white space.

## Model

| member | source | states |
|---|---|---|
| SignedAreas.DetectCrossing | builder/src/build_index.cpp:607-614 | the scan finds an edge longer than 180 degrees exactly if there is one |
| SignedAreas.PolygonSignedArea | builder/src/build_index.cpp:603-629 | the loop computes the signed shoelace area over the cyclic edges, western longitudes moved east if the ring crosses the antimeridian |
| BridgeHoles.NearestVertex | builder/src/build_index.cpp:1811-1818 | the scan finds the first of the nearest outer vertices |
| BridgeHoles.AttachHoles | builder/src/build_index.cpp:1807-1820 | every hole, opened and turned against the outer ring, is attached to its nearest vertex, in the order of the holes |
| BridgeHoles.WriteDetours | builder/src/build_index.cpp:1825-1829 | after a vertex come its holes in order, each closed and followed by a return to the vertex |
| BridgeHoles.BridgeRing | builder/src/build_index.cpp:1799-1833 | the whole routine yields the bridged ring of the specification |
| BridgeHoles.BridgedSum | builder/src/build_index.cpp:1794-1833 | for any edge weight that is zero on loops, its sum over the bridged ring is that of the outer ring plus, per hole, the hole's sum and the weight of both bridge directions |
| EvenOdd.PointInPolygon | server/src/lib.rs:1738-1761 | the toggling loop says inside exactly if the ray crosses an odd number of edges |
| RayTest.CrossesMeans | server/src/lib.rs:1752-1754 | an edge is crossed exactly if its ends lie on different sides of the meridian of the point and some point of the edge is due north of it |
| RayTest.InsideRectangle | server/src/lib.rs:1738-1761 | in a rectangle are exactly the points from its south and west sides up to, but without, its north and east sides |
| RayTest.InsideTriangle | server/src/lib.rs:1738-1761 | for a point on no edge and on no corner's meridian: it is in a triangle exactly if it is a mean of the corners with three positive weights |
| RayTest.InsideSolidTriangle | server/src/lib.rs:1738-1761 | so in every triangle with an area all such means are inside, those on a corner's meridian aside |
| Fans.CrossingsOfRing | server/src/lib.rs:1738-1761 | for every edge test that is the same from both ends, the parity of a ring is that of all triangles between its first vertex and its edges |
| RayTest.InsideRing | server/src/lib.rs:1738-1761 | for every ring: a point clear of those triangles' edges and corner meridians is inside exactly if an odd number of the triangles hold it strictly |
| EvenOdd.CrossesSymmetric | server/src/lib.rs:1752-1754 | whether an edge is crossed does not depend on the end from which it is read, by exact arithmetic on the interpolated latitude |
| EvenOdd.BridgedParity | builder/src/build_index.cpp:1794-1833 | for every symmetric edge test the parity on the bridged ring is the exclusive or of the parities on all rings |
| EvenOdd.BridgedEvenOdd | builder/src/build_index.cpp:1794-1798 | a point is inside the bridged ring exactly if it is inside the outer ring or inside an odd number of holes, but not both |
| EvenOdd.BridgedMeansOuterMinusHoles | builder/src/build_index.cpp:1794-1798 | with nested and disjoint holes: in the outer ring and in no hole |
| Centroids.MeanVertex | server/src/forward.rs:586-590 | the fallback is the mean of the vertices |
| Centroids.PolygonCentroid | server/src/forward.rs:581-613 | the one-pass loop computes the centroid of the moment sums, with the fallbacks for few vertices and for no area |
| Fans.FanOfRing | server/src/forward.rs:594-607 | every antisymmetric edge sum over a ring is the sum over the triangles between its first vertex and its edges |
| Moments.TriangleMoments | server/src/forward.rs:597-607 | the first moments of a triangle are its doubled area times the sums of its corners |
| Moments.TriangleCentroid | server/src/forward.rs:581-613 | the centroid of every triangle with an area is the mean of its corners |
| Moments.CentroidOfFan | server/src/forward.rs:581-613 | the centroid of every ring with an area is the mean of its triangles' centres, weighted with their signed areas |
| Moments.ShiftedCentroid | server/src/forward.rs:581-613 | shifting a ring shifts its centroid alike |
| Moments.SwappedCentroid | server/src/forward.rs:581-613 | exchanging latitude and longitude everywhere exchanges them in the centroid |
| Moments.RectangleArea | builder/src/build_index.cpp:603-633 | the builder's area of a rectangle is height times width, also across the antimeridian |
| Centroids.AreasAgree | builder/src/build_index.cpp:603-629 | away from the antimeridian the builder's signed area is minus half the reader's doubled area, for closed and open rings |
| Centroids.BridgedOrientedSum | builder/src/build_index.cpp:1805-1809 | every antisymmetric edge sum, once the direction of the rings is divided out, is that of the outer ring less those of the holes |
| Centroids.MomentsSplit | server/src/forward.rs:597-607 | this holds for the doubled area and for both first moments of the centroid code |
| Centroids.BridgedSignedArea | builder/src/build_index.cpp:1794-1833 | the doubled area of the bridged ring is twice the net area, with the sign of the outer ring |
| Centroids.BridgedArea | builder/src/build_index.cpp:1794-1798 | the area of the bridged ring is the area of the outer ring less the areas of the holes, whenever that is not negative |
| Centroids.CentroidTimesTwiceArea | server/src/forward.rs:608-612 | a centroid times three doubled areas is the first moment, so the quotient is right |
| Centroids.BridgedCentroid | server/src/forward.rs:594-612 | the centroid of a bridged ring is that of the outer ring with the holes taken out, by moments |
| Simplify.FootIsNearest | builder/src/build_index.cpp:655-657 | the clamped projection is the nearest point of a segment |
| Simplify.SegDistIsMinimum | builder/src/build_index.cpp:649-658 | the distance used is the least distance to any point of the segment |
| Simplify.SegDistIsAttained | builder/src/build_index.cpp:649-658 | and it is the distance to one of them |
| Simplify.ScanChord | builder/src/build_index.cpp:649-662 | the scan finds the first vertex farthest from the chord, or the start if none is off it |
| Simplify.DpSimplify | builder/src/build_index.cpp:636-670 | the recursion sets exactly the bits of the kept set and clears none |
| Simplify.KeepBits | builder/src/build_index.cpp:682-685 | the bits are the kept set with both ends |
| Simplify.CountBits | builder/src/build_index.cpp:687-688 | the count is the number of kept vertices |
| Simplify.SimplifyPolygon | builder/src/build_index.cpp:672-707 | the 20-step search and the last pass give the ring at the tolerance of the specification |
| Simplify.DpNested | builder/src/build_index.cpp:636-670 | a larger tolerance keeps a subset of what a smaller one keeps |
| Simplify.DpErrorBound | builder/src/build_index.cpp:636-670 | a dropped vertex lies within the tolerance of the segment between the kept vertices around it |
| Simplify.FlatLineLosesAll | builder/src/build_index.cpp:664-664 | where every vertex between two is within the tolerance of their chord, none is kept |
| Simplify.KeptWasNeeded | builder/src/build_index.cpp:664-669 | every vertex kept is beyond the tolerance from the chord of two around it, themselves kept or ends, and the first farthest from it of all in between |
| Simplify.DroppedVertexError | builder/src/build_index.cpp:697-706 | the same for the final ring, where the two vertices are next to each other |
| Simplify.KeptCountNested | builder/src/build_index.cpp:687-694 | the kept count falls as the tolerance grows, which makes the binary search right |
| Simplify.SearchBracket | builder/src/build_index.cpp:680-695 | the search keeps its bracket: the upper end fits if it did at first, and nothing below the lower end fits |
| Simplify.ToleranceNearlySmallest | builder/src/build_index.cpp:672-707 | the result is within the cap exactly if tolerance 1.0 is, and no tolerance that fits is smaller by more than 2^-20 |
| Simplify.SimplifiedWasNeeded | builder/src/build_index.cpp:697-706 | every vertex left between the ends is farther than the tolerance found from the chord of two that are left |
| Simplify.NearlyStraightMeetsCap | builder/src/build_index.cpp:672-707 | a line whose vertices are within 1.0 of the segment between its ends meets every cap of two or more |
| Simplify.SimplifiedKeepsEnds | builder/src/build_index.cpp:683-684 | the first and the last vertex are always kept, so closed rings stay closed |
| HoleBudget.SimplifyValidRing | builder/src/build_index.cpp:724-739 | the doubling loop ends and returns the first valid ring it meets, or the first ring |
| HoleBudget.ValidFromMeans | builder/src/build_index.cpp:733-739 | the ring is that of the first doubled cap at which it is valid; the first ring is left only if no cap was valid until one reached the raw length or the limit |
| HoleBudget.SimplifiedValidClosed | builder/src/build_index.cpp:724-739 | whatever cap wins, a closed ring stays closed |
| HoleBudget.BridgedLength | builder/src/build_index.cpp:1794-1833 | the bridged ring has as many vertices as budgeted, and one more for every open ring |
| HoleBudget.StoredCountExact | builder/src/build_index.cpp:1904-1904 | the 16-bit count is exact exactly if budget and open rings together fit |
| HoleBudget.OpenHolesOverflow | builder/src/build_index.cpp:2168-2182 | a closed outer ring with 13106 small open holes, none of which the geometry library rejects, meets the budget, so nothing is simplified or dropped; its 78641 vertices are stored as 13105 |
| HoleBudget.ShrinkUsesSlack | builder/src/build_index.cpp:1873-1879 | halving the caps uses up a measure as long as one cap is above the minimum, so the loop ends |
| HoleBudget.HalvedMeans | builder/src/build_index.cpp:1879-1879 | after any number of rounds a cap is what halving leaves of it, but no less than the minimum |
| HoleBudget.StartingCaps | builder/src/build_index.cpp:1839-1850 | the holes that no indexed outer ring fills, each with its cap |
| HoleBudget.ShrinkToFit | builder/src/build_index.cpp:1855-1881 | the loop ends after the least number of halvings at which the holes fit or no cap can shrink |
| HoleBudget.SimplifyHoles | builder/src/build_index.cpp:1862-1872 | one round yields the usable candidates and what they cost |
| HoleBudget.FitPrefix | builder/src/build_index.cpp:1889-1894 | the kept prefix fits, and one more would not |
| HoleBudget.KeepLargest | builder/src/build_index.cpp:1885-1896 | kept and dropped are all candidates; nothing dropped is larger than anything kept; something is dropped only if not all fit |
| HoleBudget.FinalizeHoles | builder/src/build_index.cpp:1835-1905 | enclaves are left out, the caps are halved exactly as often as the budget needs and they can shrink, holes are dropped for size, smallest areas first, only when no cap can shrink; the ring is the bridged ring of those of the rest that the covering leaves, within the budget |
| HoleCover.CoverHoles | builder/src/build_index.cpp:453-512 | the loop that checks the holes one by one and the loop that adds them again leave exactly the usable ones, in order; an outer ring without three points leaves all |
| HoleCover.AllUsableExactly | builder/src/build_index.cpp:471-512 | none is left out exactly if each passes its checks beside those before it and, in a valid outer ring, all of them nest |
| HoleCover.UsableAreSound | builder/src/build_index.cpp:471-512 | every hole left is a valid loop of three points or more inside the outer ring, and in a valid outer ring all that are left nest |
| HoleCover.UsableThins | builder/src/build_index.cpp:449-452 | what is left are some of the holes, in the same order |
| HoleCover.UsableNested | builder/src/build_index.cpp:449-452 | the holes left in a valid outer ring are inside it and apart, at every point where the geometry library answers rightly |
| HoleBudget.FinalizedMeansOuterMinusHoles | builder/src/build_index.cpp:1898-1904 | so for the stored ring the plain test means in the outer ring and in none of the holes left in it |
| HoleBudget.HoleOutsideIsLeftOut | builder/src/build_index.cpp:484-486 | a single hole outside a valid outer ring is left out |
| HoleBudget.ClosedRingsNeverTruncate | builder/src/build_index.cpp:1852-1904 | for closed rings and an outer ring that fits, whichever holes are rejected, the stored count is the real length |
| Bytes.LeRoundTrip | server/src/lib.rs:528-548 | little-endian bytes of a number read back as the number |
| CellOrder.SortKeys | builder/src/build_index.cpp:2533-2535 | cells are written in ascending order, each once |
| CellOrder.Deduplicate | builder/src/build_index.cpp:2428-2434 | every list becomes ascending with the same items |
| CellOrder.DeduplicatedUnique | builder/src/build_index.cpp:2428-2434 | the result depends only on which ids were listed, not on their order or number |
| CellWriter.WriteEntries | builder/src/build_index.cpp:2506-2525 | fails exactly if a list would start beyond 32 bits; else writes all lists and reports where each starts |
| CellWriter.WriteOffsetTable | builder/src/build_index.cpp:2537-2546 | the same refusal, computed without the entries file, and the packed 12-byte records |
| CellWriter.WriteAllEntries | builder/src/build_index.cpp:2548-2556 | the lists in order, each with its clamped count and all its ids |
| CellWriter.WriteCellIndex | builder/src/build_index.cpp:2527-2557 | both files together, or a refusal exactly if an offset does not fit |
| CellWriter.WriteGeoTable | builder/src/build_index.cpp:2650-2663 | 20-byte records with three offsets, or the marker where a layer has no list |
| CellWriter.WriteGeoIndex | builder/src/build_index.cpp:2636-2663 | the three entries files and the merged table over all cells of any layer |
| CellReader.ForEachEntry | server/src/lib.rs:550-568 | visits the announced ids in order, or nothing for the marker and for a list that leaves the file |
| CellReader.ForEachPoint | server/src/address_points.rs:507-532 | the same in a shard, which has no marker |
| CellReader.BinarySearch | server/src/lib.rs:612-622 | the loop halves the range as specified, in a table of any order |
| CellReader.SearchIsScan | server/src/lib.rs:612-622 | in a sorted table it finds what a scan of all records finds, and so an id exactly if it is there |
| CellReader.LookupAdminCell | server/src/lib.rs:602-624 | the offset stored for the cell, or the marker |
| CellReader.LookupGeoCell | server/src/lib.rs:570-600 | the three offsets stored for the cell, or three markers |
| CellRoundTrip.ListReadsBack | server/src/lib.rs:550-568 | a written list is visited as its first 65535 ids |
| CellRoundTrip.OffsetsAreEven | builder/src/build_index.cpp:2518-2522 | every list starts at an even offset, so none at the odd marker value |
| CellRoundTrip.CellIndexRoundTrip | builder/src/build_index.cpp:2527-2557 | through both files every cell comes back with the announced part of its list and every other cell with nothing |
| CellRoundTrip.GeoIndexRoundTrip | builder/src/build_index.cpp:2636-2663 | the same for each of the three layers of the merged table |
| Nearest.RunIsFirstSmallest | server/src/lib.rs:706-710 | a running strict minimum ends with the first smallest candidate |
| AdminSearch.VisitEntry | server/src/lib.rs:782-819 | the callback, with its bounds checks and early area test, does one step of the specified scan on the level array |
| AdminSearch.EntryReadsBack | builder/src/build_index.cpp:1737-1742 | polygon and interior flag read back from the entry the builder lists |
| AdminSearch.ScanCell | server/src/lib.rs:779-820 | the entries of one cell, in order |
| AdminSearch.FindAdmin | server/src/lib.rs:768-821 | the scan of the cell and its neighbours through the bytes of the tables |
| AdminSearch.WinnersAreArgmin | server/src/lib.rs:794-818 | although the area test comes first, each level ends with a smallest accepted candidate |
| AdminSearch.SmallestContaining | server/src/lib.rs:768-821 | if interior flags are right for their own cell, each level's winner is a smallest listed polygon that contains the point, and there is one exactly if some does |
| AdminSearch.AreaOrderIndependent | server/src/lib.rs:779-820 | the winner's area does not depend on the order of cells or on repetitions |
| AdminSearch.ScanOfBuiltFiles | builder/src/build_index.cpp:2527-2557 | over the files the builder wrote, the scan meets the builder's own lists |
| AdminIndex.RemoveTiny | builder/src/build_index.cpp:1766-1773 | the loop from the back leaves the holes that are large enough, in order |
| AdminIndex.AdminTables.Add | builder/src/build_index.cpp:1744-1792 | a ring of fewer than three vertices is refused; a polygon with holes left waits without vertices, any other is written with a clamped count; ids and offsets beyond 32 bits fail and change nothing |
| AdminIndex.AdminTables.FinishNext | builder/src/build_index.cpp:1835-1905 | the bridged ring of the next waiting polygon goes to the end of the vertex table, with its offset and a count cut to 16 bits |
| AdminIndex.FinishedReadsExactly | builder/src/build_index.cpp:1904-1904 | a bridged ring reads back exactly if its length fits the count |
| AdminIndex.FinishedShapeReads | builder/src/build_index.cpp:1852-1904 | which it does exactly if budget and open rings fit together |
| AdminIndex.PlainReadsExactly | builder/src/build_index.cpp:1782-1786 | a ring without holes reads back up to 65535 vertices |
| AdminIndex.OthersStillRead | builder/src/build_index.cpp:1900-1904 | writing one polygon changes no other, in whatever order they are finished |
| AdminIndex.RunKeeps | builder/src/build_index.cpp:1744-1905 | after every act of every run, all polygons that do not wait are stored as they are meant, if the rings written fit their counts |
| AdminIndex.ClosedRingsFit | builder/src/build_index.cpp:1852-1904 | which closed rings within the budget always do |
| AdminIndex.AdminOfBuiltFiles | server/src/lib.rs:768-821 | over tables that hold given shapes and the files of given lists, each level ends with a smallest listed polygon whose outer ring contains the point and none of whose holes does, and there is one exactly if some listed polygon is such |
| AdminIndex.AdminOfEveryBuild | server/src/lib.rs:768-821 | the same for the tables of every run of the builder, with the holes that the covering left in valid outer rings |
| StreetSearch.SegmentDistanceIsMinimum | server/src/lib.rs:1627-1665 | no point of the segment is nearer on that map than the distance reported |
| StreetSearch.DistanceOnMap | server/src/lib.rs:1627-1653 | the measure is the squared distance on the map of longitudes stretched by the cosine to a point of the segment |
| StreetSearch.MapDistanceOnAxes | server/src/lib.rs:1623-1625 | on that map a way along a meridian has its length whatever the cosine, and one along a parallel is shortened by it |
| StreetSearch.SegmentDistanceIsAttained | server/src/lib.rs:1627-1653 | the distance to a segment is that to its foot point |
| StreetSearch.StreetScan.Contains | server/src/lib.rs:283-288 | the scan of the buffer finds an id exactly if it was recorded |
| StreetSearch.StreetScan.ScanWay | server/src/lib.rs:699-711 | a street's segments update the running minimum; a broken record changes nothing |
| StreetSearch.StreetScan.Visit | server/src/lib.rs:675-712 | visiting a street, seen or not and with the buffer full or not, has the effect of scanning all its segments |
| StreetSearch.StreetScan.VisitAll | server/src/lib.rs:675-712 | so has visiting the list of a cell |
| StreetSearch.QueryStreets | server/src/lib.rs:627-715 | the search over all cells equals the running minimum over every segment of every listed street, without a buffer, and fails exactly if a listed street is not in the table |
| StreetSearch.NearestStreet | server/src/lib.rs:655-715 | that minimum is the first nearest segment, and there is none exactly if nothing is listed |
| StreetSearch.NoStreetIsNearer | server/src/lib.rs:655-715 | no point of any listed street is nearer on the map than the street found |
| StreetSearch.ScanOfBuiltFiles | builder/src/build_index.cpp:2636-2663 | over the files the builder wrote, the streets are those the builder listed |
| StreetSearch.StreetOfBuiltFiles | builder/src/build_index.cpp:2636-2663 | from the builder's lists to the answer: if they name known streets the search does not fail and finds the first nearest segment of all of them |
| AddressSearch.AddressScan.Visit | server/src/address_points.rs:356-399 | one callback updates both running winners as two separate searches would |
| AddressSearch.DistanceIsMapDistance | server/src/address_points.rs:370-372 | the distance to a point is the one the street search would report, on the same map |
| AddressSearch.DistanceIsZeroExactly | server/src/address_points.rs:370-372 | which is zero for the very place asked for and positive for every other |
| AddressSearch.FindByHousenumber | server/src/address_points.rs:316-405 | nothing for a blank number; else one pass through the bytes of a shard equals a search of the first choice and, only if that is empty, of the second |
| AddressSearch.TwoTierNearest | server/src/address_points.rs:300-405 | the point found matches, no listed point of its choice is nearer, and a unit match is never passed over for a building |
| AddressSearch.AddressOfBuiltFiles | server/src/address_points.rs:479-532 | in files that hold given lists, the point found is the nearest of its choice among all points listed for the cells |
| ShardFiles.WriteOutput | server/src/bin/build_openaddresses_index.rs:396-459 | the loop over runs of equal cells writes one list of at most 65535 ids per cell, in ascending order, and a table whose offsets wrap around |
| ShardReading.ListStarts | server/src/bin/build_openaddresses_index.rs:439-439 | a list starts where the lists of all points before its own end |
| ShardReading.OffsetsFitExactly | server/src/bin/build_openaddresses_index.rs:439-439 | all lists start below 2^32 exactly if the last one does |
| ShardReading.WrappedOffsetsExactly | server/src/bin/build_openaddresses_index.rs:439-439 | exactly then every offset in the table is that of its list |
| ShardReading.ShardReadsBack | server/src/bin/build_openaddresses_index.rs:412-442 | then a cell leads to the ids of exactly its own points, of the first 65535 if it has more, and a cell without points to none |
| ShardReading.AddressOfShard | server/src/address_points.rs:316-405 | from the sorted points to the answer: over the files written the point found is the nearest of its choice among all points of the cells that the lists tell |
| ShardReading.FullCellsReadWrong | server/src/bin/build_openaddresses_index.rs:412-442 | with 16386 full cells in front, one cell leads to 57343 ids read from the middle of the first list instead of its own 65535 |
| ShardReading.FullShardReadsWrong | server/src/bin/build_openaddresses_index.rs:412-442 | 16386 cells of 65535 points each are such a shard |
| AddressOrder.AssignIds | builder/src/build_index.cpp:2594-2599 | walking one list numbers its new ids consecutively |
| AddressOrder.BuildRemap | builder/src/build_index.cpp:2588-2608 | the remap array numbers the points in cell order, and unlisted ones last |
| AddressOrder.Materialise | builder/src/build_index.cpp:2611-2615 | the reordered points are the old ones in the new order |
| AddressOrder.RewriteLists | builder/src/build_index.cpp:2619-2622 | every list holds the new ids of its old ones, sorted |
| AddressOrder.AddressTable.Add | builder/src/build_index.cpp:1488-1502 | a point gets the next id and is listed in its one cell; refused once ids leave 32 bits |
| AddressOrder.AddressTable.SortByCell | builder/src/build_index.cpp:2580-2626 | the table is reordered by a permutation, lists included, and every id is still listed exactly once |
| AddressOrder.ReorderedListedOnce | builder/src/build_index.cpp:2619-2622 | a permuted table with rewritten lists lists every id exactly once if it did before |
| AddressOrder.MarkTellsExactly | builder/src/build_index.cpp:2588-2608 | the mark tells the ids without a number, in every numbering, exactly if there are fewer than 2^32 points |
| AddressOrder.LastLooksUnnumbered | builder/src/build_index.cpp:2604-2608 | in a full numbering of 2^32 points exactly the point numbered last has the mark |
| AddressOrder.CounterLeavesOff | builder/src/build_index.cpp:2604-2612 | a 32-bit loop variable reaches the number of points exactly if that is below 2^32 |
| AddressOrder.AddListedOnce | builder/src/build_index.cpp:1500-1502 | adding keeps every id listed exactly once |
| AddressOrder.NewOrderIsPermutation | builder/src/build_index.cpp:2588-2608 | the new order takes every old id exactly once |
| AddressOrder.RemapInverts | builder/src/build_index.cpp:2612-2614 | the remap is the inverse of the new order, so no record is overwritten |
| AddressOrder.CellRecordsKept | builder/src/build_index.cpp:2619-2622 | every cell resolves to the same multiset of records as before |
| AddressOrder.RecordsKept | builder/src/build_index.cpp:2611-2615 | no record is lost or doubled |
| AddressOrder.CellsBecomeRuns | builder/src/build_index.cpp:2559-2571 | if every id is listed once, a cell's new ids are consecutive and start where the cells before it end |
| Interpolation.ProjectPointOnPolyline | server/src/lib.rs:1672-1728 | the pass with its fixed buffer finds the first nearest segment and the position of its foot along the whole line |
| Interpolation.ParamInRange | server/src/lib.rs:1667-1669 | that position is between 0 and 1 |
| Interpolation.PositionsRunThrough | server/src/lib.rs:1719-1727 | it is 0 at the first node and 1 at the last, and the end of a segment has the position of the next one's start |
| Interpolation.PositionIsProportional | server/src/lib.rs:1719-1727 | along a segment it grows by that segment's share of the whole length |
| Interpolation.ProjectionIsNearest | server/src/lib.rs:1672-1728 | with the server's own measure the position is between 0 and 1, and no point of the polyline is nearer than the distance reported |
| Interpolation.EveryNumberBetween | server/src/lib.rs:758-760 | in steps of one the number is between the ends, in either direction |
| Interpolation.NearestNumber | server/src/lib.rs:758-760 | in steps of one the number is within a half of the unrounded one, is an end number at that end, and follows the way |
| Interpolation.OtherKindsCountByOne | server/src/lib.rs:744-752 | all kinds but the odd and the even count by one |
| Interpolation.EvenSpanInRange | server/src/lib.rs:753-757 | in steps of two on an even ascending span the number keeps the start's parity and stays on the way |
| Interpolation.EvenSpanMonotone | server/src/lib.rs:753-757 | and does not fall along the way |
| Interpolation.EvenSpanNearest | server/src/lib.rs:744-757 | and is within one of the unrounded number on odd and even ways |
| Interpolation.DescendingStaysAtStart | server/src/lib.rs:753-757 | in steps of two on a descending way the number is always the start |
| Interpolation.FarEndReached | server/src/lib.rs:753-757 | the far end is reached exactly on ascending even spans |
| Interpolation.RangeKeptExactlyForEvenSpan | server/src/lib.rs:753-757 | on an ascending way all numbers are in range exactly if the span is even |
| StringPool.StringTable.constructor | builder/src/build_index.cpp:229-236 | byte zero is reserved for the empty string |
| StringPool.StringTable.Intern | builder/src/build_index.cpp:238-252 | a known string keeps its offset, a new one goes to the end; refused, with nothing changed, exactly if the offset leaves 32 bits |
| StringPool.GetString | server/src/lib.rs:515-526 | the bytes from the offset up to the first NUL, if they are UTF-8; nothing for other bytes and for offset zero |
| Utf8.Utf8Exactly | server/src/lib.rs:525-525 | bytes are UTF-8 exactly if they are the encoding of some text of Unicode scalar values |
| StringPool.UpToNulIsUtf8 | server/src/lib.rs:524-526 | what precedes the first NUL of a UTF-8 string is UTF-8 |
| StringPool.InternedValid | builder/src/build_index.cpp:238-252 | interning keeps all strings in place and all offsets apart |
| StringPool.IdReadsBack | server/src/lib.rs:515-526 | an id reads back as its string up to the first NUL, and is zero only for the empty string |
| StringPool.IdsStay | builder/src/build_index.cpp:227-252 | over any run an id still reads back after all later interns, as the whole string exactly if it is UTF-8 and free of NULs; different strings have different ids |
| Publish.VerifyReverse | server/src/manifest.rs:14-120 | accepts exactly if the layout is the server's, all 21 files have the manifest's lengths and the string pool starts with the empty string |
| Publish.EachFileOnce | builder/src/build_index.cpp:2643-2757 | no file is written twice |
| Publish.EveryFile | builder/src/build_index.cpp:2828-2835 | the list the manifest measures and the list of written files are the same 21 |
| Publish.NextKeepsInv | builder/src/build_index.cpp:2763-2853 | every step of a build, and every way to stop, keeps the protocol's invariant |
| Publish.RunInv | builder/src/build_index.cpp:2456-2495 | so does every run of any number of builds |
| Publish.AcceptedIsOneGeneration | builder/src/build_index.cpp:2765-2770 | in every state of every run an accepted directory holds the files of the one build that wrote its manifest, and none is accepted while files are renamed |
| Publish.AcceptedIsWhole | builder/src/build_index.cpp:2440-2448 | a file of an accepted build of the run is complete exactly if no step closed it without its end |
| Publish.LostEndIsAccepted | builder/src/build_index.cpp:2835-2842 | from every directory a build can lose the end of any file, to any length, and be accepted |
| Publish.PublishedIsAccepted | builder/src/build_index.cpp:2836-2850 | a build that publishes has put its own files in place, and is accepted exactly if its layout is the server's, its string pool starts with the empty string, and that byte is on disk |
| Publish.EarlyFailureIsHarmless | builder/src/build_index.cpp:2631-2634 | until the manifest is removed a build that fails leaves files and manifest as they were |
| Publish.SecondLook | server/src/lib.rs:396-420 | if the manifest looks the same at the end of a load, every load in between met the accepted files only, exactly unless a build published a manifest in between that looks like it |
| Publish.SecondLookCanMiss | builder/src/build_index.cpp:2781-2791 | from every accepted directory a build of files of the same lengths can publish a manifest that looks the same, at the same time, over files that are all different ones |
| Publish.MappedIsAccepted | server/src/lib.rs:396-420 | a load that reads each file in a state of its own has the file of the manifest's build exactly if no build had replaced it by then |
| Publish.AcceptsAcrossExactly | server/src/manifest.rs:14-120 | if no file had been replaced when it was looked at, a check spread over any steps decides as it would have at once |
| Publish.LoadCanMixBuilds | server/src/lib.rs:396-420 | from every accepted directory there is a run to a state in which one file is newer and all others are the accepted ones |
| Publish.CheckCanPassMixed | server/src/manifest.rs:75-115 | if that file has the accepted length, the check passes in that state with the manifest read before |
| ShardSchema.Open | server/src/address_points.rs:178-254 | absent exactly if nothing is there, opened exactly if layout, lengths and contents are right, else refused |
| ShardSchema.RunInv | server/src/address_points.rs:90-157 | every run of shard builds keeps the protocol's invariant |
| ShardSchema.OpenedIsOneGeneration | server/src/address_points.rs:90-99 | a shard that opens holds the finished files of one build, and no build is at work |
| ShardSchema.PublishedOpens | server/src/address_points.rs:142-157 | a published shard opens exactly if its layout is the reader's and its four files are well-formed, which an empty one is not |
| ShardSchema.ClosedUntilPublished | server/src/address_points.rs:90-99 | once a build has begun the shard does not open before a build publishes |
| ShardSchema.KeptUntilRewritten | server/src/bin/build_openaddresses_index.rs:396-459 | an accepted file stays the same file until a step writes into it, and is a later build's from then on |
| ShardSchema.MappedIsAccepted | server/src/address_points.rs:192-247 | a load that maps each file in a later state has the file of the schema's build exactly if no step has written into it before |
| ShardSchema.SchemaStillThere | server/src/address_points.rs:192-247 | it has all of them if the schema is still, or again, that build's at its end |
| ShardSchema.OpenShardCanBeEmptied | server/src/bin/build_openaddresses_index.rs:401-403 | from every state in which a shard opens two steps empty its points while the other files stay |
| Automaton.LanguageExact | server/src/autocomplete.rs:509-653 | accepted are exactly the keys that start with country code and prefix, or in exact mode are code and key |
| Automaton.CanMatchExact | server/src/autocomplete.rs:594-596 | gives up exactly where no extension is accepted |
| Automaton.WillAlwaysMatchExact | server/src/autocomplete.rs:598-609 | promises exactly where every extension is accepted |
| Automaton.SearchIsFilter | server/src/autocomplete.rs:509-518 | the pruned walk of any index gives exactly the accepted entries, in the order of the full walk |
| Automaton.SearchExact | server/src/autocomplete.rs:723-734 | each once and in dictionary order; in exact mode at most one |
| TopK.Heap.PushBounded | server/src/autocomplete.rs:229-239 | one more item, without a largest one if that is too many |
| TopK.PushKeepsSmallest | server/src/autocomplete.rs:229-239 | after every push the heap holds exactly the smallest items seen so far |
| TopK.SmallestUnique | server/src/autocomplete.rs:229-239 | which does not depend on the order of the pushes |
| Autocomplete.KeepBest | server/src/autocomplete.rs:169-181 | the loop keeps the best of the first 10,000 entries, passing over ids without a record |
| Autocomplete.IntoSortedHits | server/src/autocomplete.rs:213-227 | all items of the heap, by rank and then by name |
| Autocomplete.StartsWithIn | server/src/autocomplete.rs:746-778 | the best hits of the country's keys that start with the normal form of the query, sorted; none if that is empty or the limit is zero |
| Autocomplete.StartsWithOwn | server/src/autocomplete.rs:145-183 | the same over a country's own index |
| Autocomplete.PrefixedExactly | server/src/autocomplete.rs:159-160 | its stream holds exactly the entries whose key starts with the query, in ascending order |
| Autocomplete.GetExact | server/src/autocomplete.rs:723-739 | the record whose key is the normal form of the query in this country, if there is one and it is not too short |
| Autocomplete.BestByNameExactly | server/src/autocomplete.rs:140-168 | the hits are the best by rank and name for every limit exactly if ids rise with names within a rank |
| Autocomplete.LaterNameWins | server/src/autocomplete.rs:161-168 | for every country and prefix an index of two names whose only hit, for limit one, has the later name |
| Autocomplete.KeptOnceExactly | server/src/bin/build_autocomplete_fst.rs:323-378 | every limit keeps each record once exactly if no two of the visited entries lead to one record |
| Autocomplete.TwiceTheSame | server/src/bin/build_autocomplete_fst.rs:323-336 | for every country and prefix an index of one record under two keys, whose hits are that record twice |
| PrefixKeys.FoldPlaceAbbreviations | server/src/autocomplete.rs:434-466 | words are folded by position, and a text of fewer than two words is returned as it is |
| PrefixKeys.NormalisePrefix | server/src/autocomplete.rs:406-419 | the character loop yields the folded lower-case words with single spaces |
| PrefixKeys.KeyIsNormal | server/src/autocomplete.rs:402-419 | normalising a normal key changes nothing |
| Spellings.KeysFoldAsTokens | server/src/autocomplete.rs:434-466 | keys fold the place words that tokens do, and a last "st" is Street |
| Numerals.OrdinalReadsBack | server/src/openaddresses.rs:233-243 | a written ordinal parses to its number |
| Numerals.SuffixMeans | server/src/openaddresses.rs:233-243 | "st", "nd" and "rd" follow one, two and three, except eleven, twelve and thirteen; "th" all others |
| Rewriting.CanonicaliseCompoundOrdinals | server/src/forward.rs:301-326 | the list-shortening loop merges tens and ones from left to right |
| Rewriting.CanonicaliseOrdinals | server/src/forward.rs:349-375 | in place, every token is rewritten by itself and its unchanged successor |
| Rewriting.ApplyPlaceAbbreviationFold | server/src/forward.rs:5280-5300 | every token but the last is folded |
| Rewriting.CompoundThenFold | server/src/forward.rs:5280-5300 | folding places before or after ordinals are merged is the same, though merging shortens the list |
| Rewriting.OrdinalsThenFold | server/src/forward.rs:343-375 | folding before or after ordinals are written is the same |
| Rewriting.HouseNumberMatters | server/src/forward.rs:343-348 | the house-number rule makes a difference exactly if a 32-bit number comes first and a street type second |
| Tokens.JoinDottedInitials | server/src/forward.rs:5245-5272 | the loop joins dotted initials at word starts as specified |
| Spellings.InitialsJoined | server/src/forward.rs:5245-5272 | two letters or more with a dot after each that make a whole word become the letters alone |
| Tokens.TokenizeUserInput | server/src/forward.rs:5205-5241 | parts between commas are rewritten one by one and folded together |
| Tokens.CanonicalisePhrase | server/src/forward.rs:5309-5398 | the loops yield the phrase with only matching words replaced and ordinals rewritten |
| TokenSymmetry.WordsAgree | server/src/forward.rs:5205-5241 | on lower-case words the two orders of rewriting agree exactly if no number leads before a street type |
| TokenSymmetry.PhraseTokens | server/src/forward.rs:5301-5398 | what the index side stores for plain text, whatever its case, is determined by the lower-case words |
| TokenSymmetry.SidesAgree | server/src/forward.rs:5301-5308 | for every text of letters, digits and white space query tokens are the indexed words, exactly unless a number leads before a street type |
| TokenSymmetry.LettersAgree | server/src/forward.rs:5301-5308 | without digits they always agree |
| DottedNames.DottedSidesAgree | server/src/forward.rs:5301-5398 | for every text whose words may end in dots query tokens are the pieces of what is indexed, exactly unless a number leads before a street type or a dot parts two words that make a number |
| DottedNames.CutTwice | server/src/forward.rs:85-95 | cutting the stored words at all other characters gives what cutting the whole text does |
| TokenSettling.TokensAreSettled | server/src/forward.rs:5205-5241 | after one pass nothing is left to do but "st" for Street |
| TokenSettling.TokensSettleExactly | server/src/forward.rs:5205-5241 | for every text without commas: tokenizing the tokens again changes nothing, exactly unless a word for Saint stands in the place of a street type before compass words |
| Spellings.AbbreviationMeetsFullForm | server/src/forward.rs:5205-5241 | in any list of words an abbreviation gives the tokens of its full form, a leading Dr aside |
| Spellings.DrMeetsDoctor | server/src/forward.rs:5205-5241 | a leading Dr before two words or more gives those of Doctor |
| Spellings.StMeetsStreet | server/src/forward.rs:261-269 | an "st" behind some word and before nothing but compass words gives those of Street |
| Spellings.PlaceWordMeetsShortForm | server/src/forward.rs:5280-5300 | before the last word, where "st" is not Street, a word for Saint, Mount or Fort gives those of its short form |
| Spellings.WordsMeetFigures | server/src/forward.rs:301-326 | "thirty seventh" gives those of "37th" among any words, the one case aside in which their number decides on a leading Dr |
| Spellings.OrdinalWordMeetsFigure | server/src/forward.rs:349-375 | an ordinal word that no word for tens precedes gives those of its figures |
| Spellings.NumberMeetsOrdinal | server/src/forward.rs:349-375 | so does a 32-bit number between a word and a street type |
| Spellings.SpellingsMeet | server/src/forward.rs:5301-5308 | words with the same tokens meet across the sides: a query for one spelling has the words stored for the other, unless a number leads that before a street type |
| EnglishTables.AbbreviationsApart | server/src/forward.rs:110-168 | no abbreviation or full form is a compass, place or number word, and no full form is an abbreviation |
| EnglishTables.EnglishIsConsistent | server/src/forward.rs:110-299 | the repository's tables meet every requirement of the rewriters |
| StreetNameExamples.SaintUnsettled | server/src/forward.rs:5231-5235 | for any tables: a name, a word for Saint and a compass word are tokenized differently the second time |
| StreetNameExamples.NumberBeforeType | server/src/forward.rs:343-348 | for any tables: a 32-bit number before a street type is indexed and queried differently |
| StreetNameExamples.SaintBecomesStreet | server/src/forward.rs:5231-5235 | "main saint north" is tokenized differently the second time |
| StreetNameExamples.HouseNumberOrOrdinal | server/src/forward.rs:343-348 | "7 street" is indexed and queried differently |
| StreetNameExamples.PairBeforeSt | server/src/forward.rs:301-326 | for any tables: a compound ordinal before "st" is its figures and Street on both sides |
| StreetNameExamples.ThirtySeventhStreet | server/src/forward.rs:301-326 | "thirty seventh st" is "37th street" on both sides |
| StreetNameExamples.HyphenAgreesExactly | server/src/forward.rs:5322-5366 | for two words with a hyphen between them query tokens are the pieces of what is indexed exactly if no step of the query side has anything to do to either word |
| StreetNameExamples.HyphenHidesPlace | server/src/forward.rs:5344-5352 | so a place word and another word with a hyphen between them are indexed unfolded and queried folded |
| WhitespaceRepair.WhitespaceCandidates | server/src/forward.rs:4853-4893 | nothing exactly if the street is too long or has more than 16 edits; else exactly the edits, in dictionary order |
| WhitespaceRepair.AllEditsExact | server/src/forward.rs:4864-4887 | the collected set is the set of texts got by one split or one join of alphabetic words whose new words are indexed |
| WhitespaceRepair.EditExactly | server/src/forward.rs:4864-4887 | a list of words is a candidate exactly if joining two indexed words of it gives the street's, which were one alphabetic word, or joining two alphabetic words of the street gives it, as one indexed word |
| WhitespaceRepair.CandidateMovesSpaces | server/src/forward.rs:4852-4852 | a candidate has the street's characters in order once spaces are removed, and one word more or less |

## Left out

- AddressOrder.AddressTable.SortByCell: asks for at most 2^32 - 1 points; the source admits one more, for which its 32-bit loop variable does not end.
- HoleBudget.FinalizeHoles: asks for an outer ring within the 16-bit count, beyond which the source's room for holes wraps around; does not model the statistics or the cells of the covering.  What S2 answers about rings is a parameter, and normalising a loop is taken to change no answer.
- AddressSearch.FindByHousenumber: the order in which G-NAF, OpenAddresses and OSM are asked is not modelled.
- AdminIndex.AdminTables.Add: does not model name, importance and country code.
- Autocomplete.GetExact: ASCII queries only, as below.
- Autocomplete.StartsWithIn: ASCII queries only, as `PrefixKeys` has the normal form of ASCII text.
- PrefixKeys.NormalisePrefix: ASCII text only; the folding of accented letters is not modelled.
- Tokens.TokenizeUserInput: ASCII text only; Unicode folding and case mapping are not modelled.
- Tokens.CanonicalisePhrase: ASCII text only, as above.
- TokenSymmetry.SidesAgree: text without punctuation; `DottedNames.DottedSidesAgree` adds dots that end words.  With commas, hyphens and dotted initials the sides differ in more ways, of which `StreetNameExamples.HyphenAgreesExactly` covers two words with a hyphen.
- DottedNames.DottedSidesAgree: text without commas, hyphens and dotted initials, as above.
- TokenSymmetry.PhraseTokens: text without punctuation, as above.
- TokenSettling.TokensSettleExactly: text without commas, which are gone once tokens are joined.
- RayTest.InsideRing: points on an edge or a corner meridian of the triangles are left out; for those `RayTest.CrossesMeans` says which edges count.
- RayTest.InsideTriangle: as above.
- Interpolation.ProjectPointOnPolyline: a missing best distance stands for the largest float.
- Publish.VerifyReverse: the values of the record layouts are not listed; the checks of record sizes when files are mapped are not modelled.
- ShardSchema.SchemaStillThere: speaks of the build that wrote the schema; a real schema holds neither its number nor a time, so a second look cannot tell two builds with files of the same lengths apart.
- Publish.NextKeepsInv: one builder at a time, and rename and remove are atomic; the order in which a file system makes them durable is not modelled.
- Floating-point rounding, NaN and the single precision of stored coordinates.
- The order of equal elements in `std::sort` and in heap iteration.
- S2 coverings, cell ids and neighbours, osmium, ICU, the search engine, the internals of the FST (taken as an ordered trie) and of mapped memory.
- The search fallback ladder, scoring and ranking constants, haversine distances.
- HTTP and gRPC handlers, metrics, provenance fields of manifests, fetchers, IP geocoding, H3.
- House-number ranges, postcode and language tables, points of interest and exonyms: small table logic.
