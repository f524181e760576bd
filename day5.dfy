/** Day 5: the seed almanac. Each map is an ordered list of ranges (destination start,
    source start, count); a value inside a range moves by the range's offset, any other
    value stays. Part B maps whole chunks of seeds at once, splitting a chunk where it
    leaves a range, and keeps the smallest location reached. */
module Day5 {
  import opened Common

  datatype MapEntry = MapEntry(destStart: int, sourceStart: int, count: int)

  /** A chunk of consecutive values [start, start + count). */
  datatype Chunk = Chunk(start: int, count: int)

  /** The largest value of the source's signed 64-bit integers, the start of the search for a minimum. */
  const I64Max: int := 0x7FFF_FFFF_FFFF_FFFF

  predicate InEntry(v: int, e: MapEntry) {
    e.sourceStart <= v < e.sourceStart + e.count
  }

  predicate InChunk(v: int, c: Chunk) {
    c.start <= v < c.start + c.count
  }

  /** The value a map sends `source` to: through the first range that holds it, or unchanged. */
  function Lookup(source: int, entries: seq<MapEntry>): int {
    if entries == [] then source
    else if InEntry(source, entries[0]) then entries[0].destStart + (source - entries[0].sourceStart)
    else Lookup(source, entries[1..])
  }

  /** The first range that holds the value decides; a value in no range maps to itself. */
  lemma {:induction false} LookupFirstMatch(source: int, entries: seq<MapEntry>)
    ensures (forall k :: 0 <= k < |entries| ==> !InEntry(source, entries[k])) ==> Lookup(source, entries) == source
    ensures forall k :: 0 <= k < |entries| && InEntry(source, entries[k]) &&
                        (forall j :: 0 <= j < k ==> !InEntry(source, entries[j])) ==>
              Lookup(source, entries) == entries[k].destStart + (source - entries[k].sourceStart)
  {
    if forall k :: 0 <= k < |entries| ==> !InEntry(source, entries[k]) {
      LookupSkips(source, entries, |entries|);
      assert entries[|entries|..] == [];
    }
    forall k | 0 <= k < |entries| && InEntry(source, entries[k]) &&
               (forall j :: 0 <= j < k ==> !InEntry(source, entries[j]))
      ensures Lookup(source, entries) == entries[k].destStart + (source - entries[k].sourceStart)
    {
      LookupSkips(source, entries, k);
    }
  }

  /** Ranges that do not hold the value are passed over. */
  lemma {:induction false} LookupSkips(source: int, entries: seq<MapEntry>, k: nat)
    requires k <= |entries| && forall j :: 0 <= j < k ==> !InEntry(source, entries[j])
    ensures Lookup(source, entries) == Lookup(source, entries[k..])
  {
    if k > 0 {
      LookupSkips(source, entries, k - 1);
      assert entries[k - 1..][1..] == entries[k..];
    }
  }

  /** `map_source_to_destination`: search the ranges in order and return early on a hit. */
  method MapSourceToDestination(source: int, entries: seq<MapEntry>) returns (dest: int)
    ensures dest == Lookup(source, entries)
  {
    for k := 0 to |entries|
      invariant Lookup(source, entries) == Lookup(source, entries[k..])
    {
      assert entries[k..][1..] == entries[k + 1..];
      if InEntry(source, entries[k]) {
        return entries[k].destStart + (source - entries[k].sourceStart);
      }
    }
    return source;
  }

  /** The location of a value after the maps from index i on, one after the other. */
  function LocationFrom(v: int, maps: seq<seq<MapEntry>>, i: nat): int
    requires i <= |maps|
    decreases |maps| - i
  {
    if i == |maps| then v else LocationFrom(Lookup(v, maps[i]), maps, i + 1)
  }

  /** `seed_to_location`: pass the seed through every map in almanac order. */
  method SeedToLocation(seed: int, maps: seq<seq<MapEntry>>) returns (dest: int)
    ensures dest == LocationFrom(seed, maps, 0)
  {
    dest := seed;
    for i := 0 to |maps|
      invariant LocationFrom(dest, maps, i) == LocationFrom(seed, maps, 0)
    {
      dest := MapSourceToDestination(dest, maps[i]);
    }
  }

  /** The smallest location over a list of seeds (the part A loop, starting from i64::MAX). */
  function MinLocation(seeds: seq<int>, maps: seq<seq<MapEntry>>): (m: int)
    ensures m <= I64Max
    ensures forall k :: 0 <= k < |seeds| ==> m <= LocationFrom(seeds[k], maps, 0)
    ensures m == I64Max || exists k :: 0 <= k < |seeds| && m == LocationFrom(seeds[k], maps, 0)
  {
    if seeds == [] then I64Max
    else Min(MinLocation(seeds[..|seeds| - 1], maps), LocationFrom(seeds[|seeds| - 1], maps, 0))
  }

  /** `map_to_dest_and_split_chunk`: the destination chunk for the consumed prefix of the
      source chunk (at most `consumption` values, mapped to the entry's destination plus the
      offset), and what is left of the source chunk after that prefix, if anything. */
  function SplitChunk(c: Chunk, e: MapEntry, offset: int, consumption: int): (r: (Chunk, Option<Chunk>))
    ensures r.0.start == e.destStart + offset
    ensures r.1.None? <==> consumption >= c.count
    ensures r.1.None? ==> r.0.count == c.count
    ensures r.1.Some? ==> r.0.count == consumption
    ensures r.1.Some? ==> r.0.count + r.1.value.count == c.count && r.1.value.start == c.start + r.0.count
  {
    if consumption >= c.count then (Chunk(e.destStart + offset, c.count), None)
    else (Chunk(e.destStart + offset, consumption), Some(Chunk(c.start + consumption, c.count - consumption)))
  }

  /** The index of the first range that holds v, if any. */
  function FirstHolding(v: int, entries: seq<MapEntry>, k: nat): (r: Option<nat>)
    requires k <= |entries|
    ensures r.Some? ==> k <= r.value < |entries| && InEntry(v, entries[r.value])
    ensures r.Some? ==> forall j :: k <= j < r.value ==> !InEntry(v, entries[j])
    ensures r.None? ==> forall j :: k <= j < |entries| ==> !InEntry(v, entries[j])
    decreases |entries| - k
  {
    if k == |entries| then None
    else if InEntry(v, entries[k]) then Some(k)
    else FirstHolding(v, entries, k + 1)
  }

  /** The index of the first range that starts above v, if any. */
  function FirstAbove(v: int, entries: seq<MapEntry>, k: nat): (r: Option<nat>)
    requires k <= |entries|
    ensures r.Some? ==> k <= r.value < |entries| && entries[r.value].sourceStart > v
    ensures r.Some? ==> forall j :: k <= j < r.value ==> entries[j].sourceStart <= v
    ensures r.None? ==> forall j :: k <= j < |entries| ==> entries[j].sourceStart <= v
    decreases |entries| - k
  {
    if k == |entries| then None
    else if entries[k].sourceStart > v then Some(k)
    else FirstAbove(v, entries, k + 1)
  }

  /** `map_source_to_destination_chunked`: a chunk whose start lies in a range is cut where
      that range ends; otherwise it keeps its values and is cut where the next range starts
      (the first one, in list order, starting above it), or not at all. */
  function MapChunk(c: Chunk, entries: seq<MapEntry>): (r: (Chunk, Option<Chunk>))
    ensures r.1.Some? ==> 0 < r.1.value.count < c.count
    ensures r.0.count <= c.count
  {
    match FirstHolding(c.start, entries, 0)
    case Some(k) =>
      var e := entries[k];
      SplitChunk(c, e, c.start - e.sourceStart, e.sourceStart + e.count - c.start)
    case None =>
      match FirstAbove(c.start, entries, 0)
      case Some(k) =>
        var consumption := entries[k].sourceStart - c.start;
        SplitChunk(c, MapEntry(c.start, c.start, consumption), 0, consumption)
      case None =>
        SplitChunk(c, MapEntry(c.start, c.start, c.count), 0, c.count)
  }

  /** The destination chunk starts where the chunk's first value goes. */
  lemma MapChunkStart(c: Chunk, entries: seq<MapEntry>)
    ensures MapChunk(c, entries).0.start == Lookup(c.start, entries)
  {
    LookupFirstMatch(c.start, entries);
  }

  /** The map's ranges in ascending order of their source start, as the almanac loader
      sorts them. */
  predicate SortedBySource(entries: seq<MapEntry>) {
    forall i, j :: 0 <= i < j < |entries| ==> entries[i].sourceStart <= entries[j].sourceStart
  }

  /** With sorted ranges, every value of the consumed prefix moves by the same offset as the
      chunk's start: the destination chunk is exactly the image of that prefix. */
  lemma PrefixMapsContiguously(c: Chunk, entries: seq<MapEntry>, v: int)
    requires SortedBySource(entries)
    requires c.start <= v < c.start + MapChunk(c, entries).0.count
    ensures Lookup(v, entries) == MapChunk(c, entries).0.start + (v - c.start)
  {
    LookupFirstMatch(v, entries);
    match FirstHolding(c.start, entries, 0)
    case Some(k) =>
      forall j | 0 <= j < k
        ensures !InEntry(v, entries[j])
      {
        assert !InEntry(c.start, entries[j]);
      }
    case None =>
      forall j | 0 <= j < |entries|
        ensures !InEntry(v, entries[j])
      {
        assert !InEntry(c.start, entries[j]);
        match FirstAbove(c.start, entries, 0)
        case Some(k) =>
          if j >= k {
            assert entries[k].sourceStart <= entries[j].sourceStart;
          }
        case None =>
      }
  }

  /** `minimum_map_to_location_chunked`, as the value it computes: walk the chunk through
      the maps from index i on, recursing on every remainder split off on the way from the
      map that split it, and take the smallest start of a final chunk (or i64::MAX). */
  function ChunkedMinimum(c: Chunk, maps: seq<seq<MapEntry>>, i: nat): int
    requires i <= |maps|
    decreases c.count, |maps| - i + 1
  {
    Walk(c, maps, i, I64Max)
  }

  /** The loop of `minimum_map_to_location_chunked` from map j on, with the minimum so far. */
  function Walk(c: Chunk, maps: seq<seq<MapEntry>>, j: nat, best: int): int
    requires j <= |maps|
    decreases c.count, |maps| - j
  {
    if j == |maps| then Min(best, c.start)
    else
      var r := MapChunk(c, maps[j]);
      var best' := if r.1.Some? then Min(best, ChunkedMinimum(r.1.value, maps, j)) else best;
      Walk(r.0, maps, j + 1, best')
  }

  /** The result never exceeds the minimum it started from. */
  lemma {:induction false} WalkAtMostBest(c: Chunk, maps: seq<seq<MapEntry>>, j: nat, best: int)
    requires j <= |maps|
    ensures Walk(c, maps, j, best) <= best
    decreases |maps| - j
  {
    if j < |maps| {
      var r := MapChunk(c, maps[j]);
      var best' := if r.1.Some? then Min(best, ChunkedMinimum(r.1.value, maps, j)) else best;
      WalkAtMostBest(r.0, maps, j + 1, best');
    }
  }

  /** The chunked minimum is at most the location of the chunk's first seed. */
  lemma {:induction false} WalkAtMostStartLocation(c: Chunk, maps: seq<seq<MapEntry>>, j: nat, best: int)
    requires j <= |maps|
    ensures Walk(c, maps, j, best) <= LocationFrom(c.start, maps, j)
    decreases |maps| - j
  {
    if j < |maps| {
      var r := MapChunk(c, maps[j]);
      var best' := if r.1.Some? then Min(best, ChunkedMinimum(r.1.value, maps, j)) else best;
      MapChunkStart(c, maps[j]);
      WalkAtMostStartLocation(r.0, maps, j + 1, best');
    }
  }

  lemma ChunkedMinimumAtMostStartLocation(c: Chunk, maps: seq<seq<MapEntry>>, i: nat)
    requires i <= |maps|
    ensures ChunkedMinimum(c, maps, i) <= LocationFrom(c.start, maps, i)
    ensures ChunkedMinimum(c, maps, i) <= I64Max
  {
    WalkAtMostStartLocation(c, maps, i, I64Max);
    WalkAtMostBest(c, maps, i, I64Max);
  }

  predicate AllSorted(maps: seq<seq<MapEntry>>) {
    forall i :: 0 <= i < |maps| ==> SortedBySource(maps[i])
  }

  /** With sorted maps, the chunked minimum is a lower bound on the location of every seed
      of the chunk: splitting loses no seed. */
  lemma {:induction false} WalkLowerBound(c: Chunk, maps: seq<seq<MapEntry>>, j: nat, best: int, v: int)
    requires j <= |maps| && AllSorted(maps) && InChunk(v, c)
    ensures Walk(c, maps, j, best) <= LocationFrom(v, maps, j)
    decreases c.count, |maps| - j
  {
    if j < |maps| {
      var r := MapChunk(c, maps[j]);
      var best' := if r.1.Some? then Min(best, ChunkedMinimum(r.1.value, maps, j)) else best;
      if v < c.start + r.0.count {
        PrefixMapsContiguously(c, maps[j], v);
        WalkLowerBound(r.0, maps, j + 1, best', Lookup(v, maps[j]));
      } else {
        var rest := r.1.value;
        assert InChunk(v, rest);
        WalkLowerBound(rest, maps, j, I64Max, v);
        WalkAtMostBest(r.0, maps, j + 1, best');
      }
    }
  }

  lemma ChunkedMinimumLowerBound(c: Chunk, maps: seq<seq<MapEntry>>, i: nat, v: int)
    requires i <= |maps| && AllSorted(maps) && InChunk(v, c)
    ensures ChunkedMinimum(c, maps, i) <= LocationFrom(v, maps, i)
  {
    WalkLowerBound(c, maps, i, I64Max, v);
  }

  /** `map_source_to_destination_chunked` as the source writes it: two searches over the
      ranges with early returns. */
  method MapSourceToDestinationChunked(c: Chunk, entries: seq<MapEntry>) returns (r: (Chunk, Option<Chunk>))
    ensures r == MapChunk(c, entries)
  {
    for k := 0 to |entries|
      invariant FirstHolding(c.start, entries, 0) == FirstHolding(c.start, entries, k)
    {
      var e := entries[k];
      if e.sourceStart <= c.start && c.start < e.sourceStart + e.count {
        return SplitChunk(c, e, c.start - e.sourceStart, e.sourceStart + e.count - c.start);
      }
    }
    for k := 0 to |entries|
      invariant FirstAbove(c.start, entries, 0) == FirstAbove(c.start, entries, k)
    {
      if entries[k].sourceStart > c.start {
        var consumption := entries[k].sourceStart - c.start;
        return SplitChunk(c, MapEntry(c.start, c.start, consumption), 0, consumption);
      }
    }
    return SplitChunk(c, MapEntry(c.start, c.start, c.count), 0, c.count);
  }

  /** `minimum_map_to_location_chunked`: the loop over the maps from index i on, recursing
      on each remainder. The map name lookup is replaced by its index in the almanac. */
  method MinimumMapToLocationChunked(c: Chunk, maps: seq<seq<MapEntry>>, i: nat) returns (result: int)
    requires i <= |maps|
    ensures result == ChunkedMinimum(c, maps, i)
    decreases c.count, |maps| - i + 1
  {
    var dest := c;
    var minFound := I64Max;
    for j := i to |maps|
      invariant dest.count <= c.count
      invariant Walk(dest, maps, j, minFound) == ChunkedMinimum(c, maps, i)
    {
      var r := MapSourceToDestinationChunked(dest, maps[j]);
      dest := r.0;
      if r.1.Some? {
        var m := MinimumMapToLocationChunked(r.1.value, maps, j);
        minFound := Min(minFound, m);
      }
    }
    result := Min(minFound, dest.start);
  }
}
