/**
 The server's nearest-street search.  A street is listed by every cell it crosses; a bounded
 buffer of streets already seen spares most repetitions.
 */
module StreetSearch {
  import opened Bytes
  import opened CellOrder
  import opened CellReader
  import opened CellRoundTrip
  import opened CellWriter
  import opened Nearest
  import opened Rings
  import opened Sequences
  import opened Simplify
  import opened Wrappers

  const SEEN_CAP: nat := 256

  datatype WayHeader = WayHeader(nodeOffset: nat, nodeCount: nat)

  /** The query point, with the cosine of its latitude and the squared radians per degree. */
  datatype Query = Query(point: Point, cosLat: real, scale: real)

  datatype Tables = Tables(ways: seq<WayHeader>, nodes: seq<Point>)

  /** `p` as seen from `a`, where longitudes are shortened by the cosine. */
  function Offset(q: Query, a: Point, p: Point): (real, real) {
    (p.lat - a.lat, (p.lng - a.lng) * q.cosLat)
  }

  /** The squared distance from the query point to position `t` of the segment from `a` to `b`. */
  function DistanceAt(q: Query, a: Point, b: Point, t: real): real {
    var (u, d) := (Offset(q, a, q.point), Offset(q, a, b));
    q.scale * OffsetSq(u.0, u.1, d.0, d.1, t)
  }

  /** The position of the foot point that `point_to_segment_with_t` projects to. */
  function FootParam(q: Query, a: Point, b: Point): (t: real)
    ensures 0.0 <= t <= 1.0
  {
    var (u, d) := (Offset(q, a, q.point), Offset(q, a, b));
    Foot(u.0, u.1, d.0, d.1)
  }

  /** `point_to_segment_distance`. */
  function SegmentDistance(q: Query, a: Point, b: Point): real {
    DistanceAt(q, a, b, FootParam(q, a, b))
  }

  lemma ScaleMonotone(k: real, x: real, y: real)
    requires k >= 0.0 && x <= y
    ensures k * x <= k * y
  {}

  /** The map on which a degree of longitude is as long as it is at the query's latitude. */
  function Stretch(cosLat: real, p: Point): Point {
    Point(p.lat, cosLat * p.lng)
  }

  /** The squared distance between two points on that map, in the query's unit. */
  function MapDistance(q: Query, a: Point, b: Point): real {
    q.scale * DistSq(Stretch(q.cosLat, a), Stretch(q.cosLat, b))
  }

  lemma StretchedOffset(c: real, p: real, a: real, b: real, t: real)
    ensures (p - a) * c - t * ((b - a) * c) == c * p - c * (a + t * (b - a))
  {}

  /** What the measure means: the distance on the map to that point of the segment. */
  lemma DistanceOnMap(q: Query, a: Point, b: Point, t: real)
    ensures DistanceAt(q, a, b, t) == MapDistance(q, q.point, Lerp(a, b, t))
  {
    StretchedOffset(q.cosLat, q.point.lng, a.lng, b.lng, t);
    var z := Lerp(a, b, t);
    assert q.point.lat - z.lat == (q.point.lat - a.lat) - t * (b.lat - a.lat);
  }

  /** Along a meridian the cosine does not matter, along a parallel it shortens the way. */
  lemma MapDistanceOnAxes(q: Query, a: Point, b: Point)
    ensures a.lng == b.lng ==> MapDistance(q, a, b) == q.scale * ((a.lat - b.lat) * (a.lat - b.lat))
    ensures a.lat == b.lat ==>
              MapDistance(q, a, b)
              == q.scale * ((q.cosLat * (a.lng - b.lng)) * (q.cosLat * (a.lng - b.lng)))
  {
    var u, v := Stretch(q.cosLat, a), Stretch(q.cosLat, b);
    var dlng := q.cosLat * a.lng - q.cosLat * b.lng;
    var sum := (a.lat - b.lat) * (a.lat - b.lat) + dlng * dlng;
    assert u.lat == a.lat && v.lat == b.lat && u.lng == q.cosLat * a.lng && v.lng == q.cosLat * b.lng;
    assert DistSq(u, v) == sum;
    SquaresOnAxes(a.lat, a.lng, b.lat, b.lng, q.cosLat);
    SameTimes(q.scale, DistSq(u, v), sum);
    if a.lng == b.lng {
      SameTimes(q.scale, sum, (a.lat - b.lat) * (a.lat - b.lat));
    }
    if a.lat == b.lat {
      SameTimes(q.scale, sum, (q.cosLat * (a.lng - b.lng)) * (q.cosLat * (a.lng - b.lng)));
    }
  }

  lemma SameTimes(k: real, x: real, y: real)
    requires x == y
    ensures k * x == k * y
  {}

  lemma SquaresOnAxes(alat: real, alng: real, blat: real, blng: real, c: real)
    ensures alng == blng ==>
              (alat - blat) * (alat - blat) + (c * alng - c * blng) * (c * alng - c * blng)
              == (alat - blat) * (alat - blat)
    ensures alat == blat ==>
              (alat - blat) * (alat - blat) + (c * alng - c * blng) * (c * alng - c * blng)
              == (c * (alng - blng)) * (c * (alng - blng))
  {}

  lemma FootBeats(q: Query, a: Point, b: Point, t: real)
    requires 0.0 <= t <= 1.0 && q.scale >= 0.0
    ensures SegmentDistance(q, a, b) <= DistanceAt(q, a, b, t)
  {
    var (u, d) := (Offset(q, a, q.point), Offset(q, a, b));
    FootIsNearest(u.0, u.1, d.0, d.1, t);
    ScaleMonotone(q.scale, OffsetSq(u.0, u.1, d.0, d.1, FootParam(q, a, b)), OffsetSq(u.0, u.1, d.0, d.1, t));
  }

  /** No point of the segment is nearer on the map than the distance reported. */
  lemma SegmentDistanceIsMinimum(q: Query, a: Point, b: Point, t: real)
    requires 0.0 <= t <= 1.0 && q.scale >= 0.0
    ensures SegmentDistance(q, a, b) <= MapDistance(q, q.point, Lerp(a, b, t))
  {
    FootBeats(q, a, b, t);
    DistanceOnMap(q, a, b, t);
  }

  /** And its foot point is that near. */
  lemma SegmentDistanceIsAttained(q: Query, a: Point, b: Point)
    ensures SegmentDistance(q, a, b) == MapDistance(q, q.point, Lerp(a, b, FootParam(q, a, b)))
  {
    DistanceOnMap(q, a, b, FootParam(q, a, b));
  }

  /** The distances of the first `n` segments of a node list, as candidates for way `id`. */
  function Segments(q: Query, nodes: seq<Point>, id: nat, n: nat): (c: seq<Scored<nat>>)
    requires n < |nodes| || n == 0
    ensures |c| == n
  {
    if n == 0 then []
    else Segments(q, nodes, id, n - 1) + [Scored(SegmentDistance(q, nodes[n - 1], nodes[n]), id)]
  }

  /** The candidates a listed street contributes; a broken record contributes none. */
  function StreetCandidates(t: Tables, q: Query, id: U32): seq<Scored<nat>> {
    if id >= |t.ways| then []
    else
      var way := t.ways[id];
      if way.nodeOffset + way.nodeCount > |t.nodes| || way.nodeCount < 2 then []
      else
        var nodes := t.nodes[way.nodeOffset..way.nodeOffset + way.nodeCount];
        Segments(q, nodes, id, |nodes| - 1)
  }

  /** Every segment of every listed street, repetitions included. */
  function AllSegments(t: Tables, q: Query, ids: seq<U32>): seq<Scored<nat>> {
    FlatMap((id: U32) => StreetCandidates(t, q, id), ids)
  }

  // --- The scan with its buffer ---

  /** The server indexes the way table without a check, and panics beyond its end. */
  datatype Failure = NoSuchWay

  predicate AllKnown(t: Tables, ids: seq<U32>) {
    forall i :: 0 <= i < |ids| ==> ids[i] < |t.ways|
  }

  /** What the scan of `ids` yields. */
  function Answer(t: Tables, q: Query, ids: seq<U32>): Result<Best<nat>, Failure> {
    if AllKnown(t, ids) then Ok(Run(None, AllSegments(t, q, ids))) else Err(NoSuchWay)
  }

  /** Nothing the listed streets offer beats `best`. */
  ghost predicate AllBeaten(t: Tables, q: Query, best: Best<nat>, ids: seq<U32>) {
    forall i :: 0 <= i < |ids| ==> NoneBeats(best, StreetCandidates(t, q, ids[i]))
  }

  lemma StaysBeaten(t: Tables, q: Query, best: Best<nat>, ids: seq<U32>, id: U32)
    requires AllBeaten(t, q, best, ids)
    ensures AllBeaten(t, q, Run(best, StreetCandidates(t, q, id)), ids + [id])
    ensures AllBeaten(t, q, Run(best, StreetCandidates(t, q, id)), ids)
  {
    var candidates := StreetCandidates(t, q, id);
    RunBeats(best, candidates, []);
    forall i | 0 <= i < |ids| ensures NoneBeats(Run(best, candidates), StreetCandidates(t, q, ids[i])) {
      RunBeats(best, candidates, StreetCandidates(t, q, ids[i]));
    }
  }

  class StreetScan {
    var best: Best<nat>
    var seen: array<U32>
    var seenLen: nat

    ghost predicate Valid()
      reads this, seen
    {
      seen.Length == SEEN_CAP && seenLen <= SEEN_CAP
    }

    /** The street ids recorded so far. */
    ghost function Seen(): seq<U32>
      requires Valid()
      reads this, seen
    {
      seen[..seenLen]
    }

    /** The recorded streets exist, and nothing they offer beats the best so far. */
    ghost predicate SeenBeaten(t: Tables, q: Query)
      requires Valid()
      reads this, seen
    {
      AllBeaten(t, q, best, Seen()) && AllKnown(t, Seen())
    }

    constructor ()
      ensures Valid() && best == None && seenLen == 0 && fresh(seen)
    {
      best, seenLen := None, 0;
      seen := new U32[SEEN_CAP](_ => 0);
    }

    /** `seen_streets_contains`. */
    method Contains(id: U32) returns (found: bool)
      requires Valid()
      ensures found <==> id in Seen()
    {
      for i := 0 to seenLen
        invariant id !in seen[..i]
      {
        if seen[i] == id {
          assert Seen()[i] == id;
          return true;
        }
        assert seen[..i + 1] == seen[..i] + [seen[i]];
      }
      found := false;
    }

    /** The segment loop for one street. */
    method ScanSegments(q: Query, nodes: seq<Point>, id: U32)
      requires Valid() && |nodes| >= 2
      modifies this`best
      ensures best == Run(old(best), Segments(q, nodes, id, |nodes| - 1))
    {
      for i := 0 to |nodes| - 1
        invariant best == Run(old(best), Segments(q, nodes, id, i))
      {
        var dist := SegmentDistance(q, nodes[i], nodes[i + 1]);
        if best.None? || dist < best.value.score {
          best := Some(Scored(dist, id));
        }
        RunConcat(old(best), Segments(q, nodes, id, i), [Scored(dist, id)]);
        RunOne(Run(old(best), Segments(q, nodes, id, i)), Scored(dist, id));
      }
    }

    /** Remembers a street while there is room. */
    method Record(id: U32)
      requires Valid()
      modifies this`seenLen, seen
      ensures Valid() && Seen() == if old(seenLen) < SEEN_CAP then old(Seen()) + [id] else old(Seen())
    {
      if seenLen < SEEN_CAP {
        seen[seenLen] := id;
        seenLen := seenLen + 1;
      }
    }

    /** All segments of one street, if its record is sound. */
    method ScanWay(t: Tables, q: Query, id: U32)
      requires Valid() && id < |t.ways|
      modifies this`best
      ensures best == Run(old(best), StreetCandidates(t, q, id))
    {
      var way := t.ways[id];
      if way.nodeOffset + way.nodeCount <= |t.nodes| && way.nodeCount >= 2 {
        ScanSegments(q, t.nodes[way.nodeOffset..way.nodeOffset + way.nodeCount], id);
      }
    }

    /** The street callback of `query_geo`. */
    method Visit(t: Tables, q: Query, id: U32) returns (ok: bool)
      requires Valid() && SeenBeaten(t, q)
      modifies this, seen
      ensures Valid() && seen == old(seen)
      ensures ok <==> id < |t.ways|
      ensures ok ==> SeenBeaten(t, q) && best == Run(old(best), StreetCandidates(t, q, id))
    {
      var known := Contains(id);
      if known {
        ghost var i :| 0 <= i < |Seen()| && Seen()[i] == id;
        RunNoChange(best, StreetCandidates(t, q, id));
        return true;
      }
      ghost var before, listed := best, Seen();
      Record(id);
      if id >= |t.ways| {
        return false;
      }
      ScanWay(t, q, id);
      StaysBeaten(t, q, before, listed, id);
      ok := true;
    }

    /** The street entries of one cell. */
    method VisitAll(t: Tables, q: Query, ids: seq<U32>) returns (ok: bool)
      requires Valid() && SeenBeaten(t, q)
      modifies this, seen
      ensures Valid() && seen == old(seen)
      ensures ok <==> AllKnown(t, ids)
      ensures ok ==> SeenBeaten(t, q) && best == Run(old(best), AllSegments(t, q, ids))
    {
      for i := 0 to |ids|
        invariant Valid() && seen == old(seen) && SeenBeaten(t, q) && AllKnown(t, ids[..i])
        invariant best == Run(old(best), AllSegments(t, q, ids[..i]))
      {
        assert ids[..i + 1][..i] == ids[..i];
        RunConcat(old(best), AllSegments(t, q, ids[..i]), StreetCandidates(t, q, ids[i]));
        ok := Visit(t, q, ids[i]);
        if !ok {
          return;
        }
      }
      assert ids[..|ids|] == ids;
      ok := true;
    }
  }

  lemma RunOne<T>(best: Best<T>, c: Scored<T>)
    ensures Run(best, [c]) == Better(best, c)
  {
    assert [c][..0] == [];
    assert Run(best, []) == best;
  }

  /**
   The answer of the buffered scan is the first nearest among all segments of all listed
   streets, however many streets there are and however often each is listed.
   */
  lemma NearestStreet(t: Tables, q: Query, ids: seq<U32>)
    ensures var best := Run(None, AllSegments(t, q, ids));
            (best == None <==> AllSegments(t, q, ids) == [])
            && (best.Some? ==> IsFirstSmallest(AllSegments(t, q, ids), best.value))
  {
    RunIsFirstSmallest(AllSegments(t, q, ids));
  }

  // --- Over the built files ---

  /** The street ids that the scan of `cells` meets in the files. */
  function ScanIds(cells: seq<U64>, table: File, entries: File): seq<U32> {
    if cells == [] then []
    else
      var last := cells[|cells| - 1];
      ScanIds(cells[..|cells| - 1], table, entries)
      + Visited(entries, TableOffset(table, GEO_STRIDE, last, 0))
  }

  /** The street ids of the builder's lists for `cells`. */
  function ListedIds(cells: seq<U64>, streets: CellMap): seq<U32> {
    if cells == [] then []
    else ListedIds(cells[..|cells| - 1], streets) + Expected(streets, cells[|cells| - 1])
  }

  lemma {:induction false} ScanOfBuiltFiles(
    cells: seq<U64>, keys: seq<U64>, streets: CellMap, addrs: CellMap, interps: CellMap)
    requires IsKeyOrder(keys, streets.Keys + addrs.Keys + interps.Keys) && OffsetsFit(keys, streets)
    ensures ScanIds(cells, GeoTable(keys, streets, addrs, interps, |keys|), EntriesFile(keys, streets))
            == ListedIds(cells, streets)
  {
    if cells != [] {
      ScanOfBuiltFiles(cells[..|cells| - 1], keys, streets, addrs, interps);
      forall c | c in streets ensures c in keys {
        assert c in streets.Keys + addrs.Keys + interps.Keys;
      }
      GeoIndexRoundTrip(keys, streets, addrs, interps, 0, cells[|cells| - 1]);
    }
  }

  /** The street part of `query_geo`: cell by cell, with one buffer for the whole scan. */
  method QueryStreets(t: Tables, q: Query, cells: seq<U64>, table: File, entries: File)
    returns (r: Result<Best<nat>, Failure>)
    ensures r == Answer(t, q, ScanIds(cells, table, entries))
  {
    var scan := new StreetScan();
    ghost var seen: seq<U32> := [];
    for c := 0 to |cells|
      invariant scan.Valid() && scan.SeenBeaten(t, q) && fresh(scan) && fresh(scan.seen)
      invariant AllKnown(t, seen) && scan.best == Run(None, AllSegments(t, q, seen))
      invariant seen == ScanIds(cells[..c], table, entries)
    {
      var offsets := LookupGeoCell(table, cells[c]);
      var ids := ForEachEntry(entries, offsets.street);
      AnswerStep(t, q, seen, ids);
      var ok := scan.VisitAll(t, q, ids);
      ScanIdsStep(cells, c, table, entries);
      if !ok {
        UnknownAnswer(t, q, cells, c + 1, table, entries);
        return Err(NoSuchWay);
      }
      seen := seen + ids;
    }
    assert cells[..|cells|] == cells;
    r := Ok(scan.best);
  }

  /** Scanning on after `seen`. */
  lemma AnswerStep(t: Tables, q: Query, seen: seq<U32>, ids: seq<U32>)
    requires AllKnown(t, seen)
    ensures AllKnown(t, seen + ids) <==> AllKnown(t, ids)
    ensures Run(Run(None, AllSegments(t, q, seen)), AllSegments(t, q, ids)) == Run(None, AllSegments(t, q, seen + ids))
  {
    FlatMapConcat((id: U32) => StreetCandidates(t, q, id), seen, ids);
    RunConcat(None, AllSegments(t, q, seen), AllSegments(t, q, ids));
    assert forall i :: 0 <= i < |ids| ==> (seen + ids)[|seen| + i] == ids[i];
  }

  lemma UnknownAnswer(t: Tables, q: Query, cells: seq<U64>, c: nat, table: File, entries: File)
    requires c <= |cells|
    ensures !AllKnown(t, ScanIds(cells[..c], table, entries)) ==>
              Answer(t, q, ScanIds(cells, table, entries)) == Err(NoSuchWay)
  {
    ScanIdsPrefix(cells, c, table, entries);
  }

  lemma ScanIdsStep(cells: seq<U64>, c: nat, table: File, entries: File)
    requires c < |cells|
    ensures ScanIds(cells[..c + 1], table, entries)
            == ScanIds(cells[..c], table, entries) + Visited(entries, TableOffset(table, GEO_STRIDE, cells[c], 0))
  {
    assert cells[..c + 1][..c] == cells[..c];
  }

  lemma {:induction false} ScanIdsPrefix(cells: seq<U64>, c: nat, table: File, entries: File)
    requires c <= |cells|
    ensures ScanIds(cells[..c], table, entries) <= ScanIds(cells, table, entries)
    decreases |cells|
  {
    if c < |cells| {
      var front := cells[..|cells| - 1];
      assert front[..c] == cells[..c];
      ScanIdsPrefix(front, c, table, entries);
    } else {
      assert cells[..c] == cells;
    }
  }

  /** Every list of the builder names ways of the table only. */
  ghost predicate ListsKnown(t: Tables, streets: CellMap) {
    forall c :: c in streets ==> AllKnown(t, streets[c])
  }

  lemma {:induction false} ListedKnown(t: Tables, cells: seq<U64>, streets: CellMap)
    requires ListsKnown(t, streets)
    ensures AllKnown(t, ListedIds(cells, streets))
  {
    if cells != [] {
      ListedKnown(t, cells[..|cells| - 1], streets);
    }
  }

  /** Segment `i` of a listed street whose record is sound. */
  ghost predicate IsListedSegment(t: Tables, ids: seq<U32>, id: U32, i: nat) {
    && id in ids && id < |t.ways| && t.ways[id].nodeOffset + t.ways[id].nodeCount <= |t.nodes|
    && i + 1 < t.ways[id].nodeCount
  }

  function NodeOf(t: Tables, id: U32, i: nat): Point
    requires id < |t.ways| && t.ways[id].nodeOffset + i < |t.nodes|
  {
    t.nodes[t.ways[id].nodeOffset + i]
  }

  lemma {:induction false} SegmentsAt(q: Query, nodes: seq<Point>, id: nat, n: nat, i: nat)
    requires i < n < |nodes|
    ensures Segments(q, nodes, id, n)[i] == Scored(SegmentDistance(q, nodes[i], nodes[i + 1]), id)
    decreases n
  {
    if i < n - 1 {
      SegmentsAt(q, nodes, id, n - 1, i);
    }
  }

  lemma {:induction false} CandidatesOfMember(t: Tables, q: Query, ids: seq<U32>, id: U32, c: Scored<nat>)
    requires id in ids && c in StreetCandidates(t, q, id)
    ensures c in AllSegments(t, q, ids)
  {
    var front, last := ids[..|ids| - 1], ids[|ids| - 1];
    assert ids == front + [last];
    if id in front {
      CandidatesOfMember(t, q, front, id, c);
    }
  }

  /** Every segment of every listed street is a candidate, with its own distance. */
  lemma SegmentIsCandidate(t: Tables, q: Query, ids: seq<U32>, id: U32, i: nat)
    requires IsListedSegment(t, ids, id, i)
    ensures Scored(SegmentDistance(q, NodeOf(t, id, i), NodeOf(t, id, i + 1)), id as nat) in AllSegments(t, q, ids)
  {
    var way := t.ways[id];
    var nodes := t.nodes[way.nodeOffset..way.nodeOffset + way.nodeCount];
    SegmentsAt(q, nodes, id, |nodes| - 1, i);
    var c := Scored(SegmentDistance(q, NodeOf(t, id, i), NodeOf(t, id, i + 1)), id as nat);
    assert Segments(q, nodes, id, |nodes| - 1)[i] == c;
    assert c in StreetCandidates(t, q, id);
    CandidatesOfMember(t, q, ids, id, c);
  }

  /** No point of any listed street is nearer on the map than the street found, and one is found if there is any. */
  lemma NoStreetIsNearer(t: Tables, q: Query, ids: seq<U32>, id: U32, i: nat, u: real)
    requires IsListedSegment(t, ids, id, i) && 0.0 <= u <= 1.0 && q.scale >= 0.0
    ensures var best := Run(None, AllSegments(t, q, ids));
            best.Some? && best.value.score <= MapDistance(q, q.point, Lerp(NodeOf(t, id, i), NodeOf(t, id, i + 1), u))
  {
    SegmentIsCandidate(t, q, ids, id, i);
    NearestStreet(t, q, ids);
    SegmentDistanceIsMinimum(q, NodeOf(t, id, i), NodeOf(t, id, i + 1), u);
  }

  /**
   From the builder's lists to the answer: over the files it wrote, the search does not fail, and
   it finds the first nearest segment of all streets listed for the cells.
   */
  lemma StreetOfBuiltFiles(
    t: Tables, q: Query, cells: seq<U64>, keys: seq<U64>, streets: CellMap, addrs: CellMap, interps: CellMap)
    requires IsKeyOrder(keys, streets.Keys + addrs.Keys + interps.Keys) && OffsetsFit(keys, streets)
    requires ListsKnown(t, streets)
    ensures var table, all :=
              GeoTable(keys, streets, addrs, interps, |keys|), AllSegments(t, q, ListedIds(cells, streets));
            var r := Answer(t, q, ScanIds(cells, table, EntriesFile(keys, streets)));
            && SortedTable(table, GEO_STRIDE) && r.Ok?
            && (r.value == None <==> all == []) && (r.value.Some? ==> IsFirstSmallest(all, r.value.value))
  {
    ScanOfBuiltFiles(cells, keys, streets, addrs, interps);
    forall c | c in streets ensures c in keys {
      assert c in streets.Keys + addrs.Keys + interps.Keys;
    }
    GeoIndexRoundTrip(keys, streets, addrs, interps, 0, 0);
    ListedKnown(t, cells, streets);
    NearestStreet(t, q, ListedIds(cells, streets));
  }
}
