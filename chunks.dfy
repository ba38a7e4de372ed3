/**
 * `getChunkStatsUrls`: the inclusive day range `from..to` cut into request
 * windows of at most 31 days past their first day. Days are integer day
 * numbers; each window becomes one contributions URL.
 */
module Chunks {

  const DaysPerChunk: nat := 31

  /** One window, from its first to its last day, both inclusive. */
  datatype Chunk = Chunk(start: int, end: int)

  function Min(a: int, b: int): int {
    if a <= b then a else b
  }

  /** The windows the loop emits once its cursor is at `start`. */
  function Plan(start: int, toDay: int): seq<Chunk>
    decreases toDay - start
  {
    if start > toDay then []
    else
      var end := start + Min(DaysPerChunk, toDay - start);
      [Chunk(start, end)] + Plan(end + 1, toDay)
  }

  /** The while loop of `getChunkStatsUrls`, keeping each window's two dates. */
  method ChunkRanges(fromDay: int, toDay: int) returns (chunks: seq<Chunk>)
    ensures chunks == Plan(fromDay, toDay)
  {
    chunks := [];
    var chunkStart := fromDay;
    while chunkStart <= toDay
      invariant chunks + Plan(chunkStart, toDay) == Plan(fromDay, toDay)
      decreases toDay - chunkStart
    {
      var chunkDays := Min(DaysPerChunk, toDay - chunkStart);
      var chunkEnd := chunkStart + chunkDays;
      chunks := chunks + [Chunk(chunkStart, chunkEnd)];
      chunkStart := chunkEnd + 1;
    }
  }

  /** Each window begins the day after the previous one ends: no gap, no overlap. */
  ghost predicate Contiguous(cs: seq<Chunk>) {
    forall i :: 0 < i < |cs| ==> cs[i].start == cs[i - 1].end + 1
  }

  /** Each window spans 0 to 31 days past its start; all but the last span exactly 31. */
  ghost predicate Bounded(cs: seq<Chunk>) {
    && (forall i :: 0 <= i < |cs| ==> 0 <= cs[i].end - cs[i].start <= DaysPerChunk)
    && (forall i :: 0 <= i < |cs| - 1 ==> cs[i].end - cs[i].start == DaysPerChunk)
  }

  /** The first window starts on `fromDay` and the last ends on `toDay`. */
  ghost predicate Spans(cs: seq<Chunk>, fromDay: int, toDay: int) {
    |cs| > 0 && cs[0].start == fromDay && cs[|cs| - 1].end == toDay
  }

  predicate InChunk(c: Chunk, day: int) {
    c.start <= day <= c.end
  }

  /** Some window holds `day`. */
  ghost predicate Covered(cs: seq<Chunk>, day: int) {
    exists i :: 0 <= i < |cs| && InChunk(cs[i], day)
  }

  /** At most one window holds `day`. */
  ghost predicate CoveredOnce(cs: seq<Chunk>, day: int) {
    forall i, j :: 0 <= i < |cs| && 0 <= j < |cs| && InChunk(cs[i], day) && InChunk(cs[j], day) ==> i == j
  }

  /** For `fromDay <= toDay`: the windows start at `fromDay`, end at `toDay`, are contiguous and bounded. */
  lemma {:induction false} PlanShape(fromDay: int, toDay: int)
    requires fromDay <= toDay
    ensures Spans(Plan(fromDay, toDay), fromDay, toDay)
    ensures Contiguous(Plan(fromDay, toDay)) && Bounded(Plan(fromDay, toDay))
    decreases toDay - fromDay
  {
    var end := fromDay + Min(DaysPerChunk, toDay - fromDay);
    var cs := Plan(fromDay, toDay);
    var rest := Plan(end + 1, toDay);
    assert cs == [Chunk(fromDay, end)] + rest;
    if end < toDay {
      PlanShape(end + 1, toDay);
      assert end - fromDay == DaysPerChunk;
      assert |cs| == |rest| + 1 && cs[0] == Chunk(fromDay, end);
      assert forall i :: 0 < i < |cs| ==> cs[i] == rest[i - 1];
      assert rest[0].start == end + 1;
    } else {
      assert rest == [];
      assert cs == [Chunk(fromDay, toDay)];
    }
  }

  /** An empty range gives no windows; a one-day range gives the one window `[fromDay, fromDay]`. */
  lemma PlanSmall(fromDay: int, toDay: int)
    ensures fromDay > toDay ==> Plan(fromDay, toDay) == []
    ensures fromDay == toDay ==> Plan(fromDay, toDay) == [Chunk(fromDay, fromDay)]
  {
  }

  /** There are `(toDay - fromDay) / 32 + 1` windows: one per started block of 32 days. */
  lemma {:induction false} PlanLength(fromDay: int, toDay: int)
    requires fromDay <= toDay
    ensures |Plan(fromDay, toDay)| == (toDay - fromDay) / (DaysPerChunk + 1) + 1
    decreases toDay - fromDay
  {
    var n := toDay - fromDay;
    if n > DaysPerChunk {
      PlanLength(fromDay + DaysPerChunk + 1, toDay);
      assert (n - (DaysPerChunk + 1)) / (DaysPerChunk + 1) == n / (DaysPerChunk + 1) - 1;
    } else {
      assert Plan(toDay + 1, toDay) == [];
      assert n / (DaysPerChunk + 1) == 0;
    }
  }

  /** Every day lies in exactly one window, and every window's days lie in `fromDay..toDay`. */
  lemma {:induction false} PlanCoversEachDayOnce(fromDay: int, toDay: int, day: int)
    ensures fromDay <= day <= toDay <==> Covered(Plan(fromDay, toDay), day)
    ensures CoveredOnce(Plan(fromDay, toDay), day)
    decreases toDay - fromDay
  {
    var cs := Plan(fromDay, toDay);
    if fromDay <= toDay {
      var end := fromDay + Min(DaysPerChunk, toDay - fromDay);
      var rest := Plan(end + 1, toDay);
      assert cs == [Chunk(fromDay, end)] + rest;
      PlanCoversEachDayOnce(end + 1, toDay, day);
      PlanStartsAfter(end + 1, toDay);
      if fromDay <= day <= end {
        assert InChunk(cs[0], day);
      } else if end < day <= toDay {
        var k :| 0 <= k < |rest| && InChunk(rest[k], day);
        assert InChunk(cs[k + 1], day);
      }
      assert fromDay <= day <= toDay ==> Covered(cs, day);
      forall i | 0 <= i < |cs| && InChunk(cs[i], day)
        ensures fromDay <= day <= toDay
      {
        if i > 0 {
          assert cs[i] == rest[i - 1];
        }
      }
      assert Covered(cs, day) ==> fromDay <= day <= toDay;
      forall i, j | 0 <= i < |cs| && 0 <= j < |cs| && InChunk(cs[i], day) && InChunk(cs[j], day)
        ensures i == j
      {
        if i > 0 && j > 0 {
          assert cs[i] == rest[i - 1] && cs[j] == rest[j - 1];
        }
      }
    }
  }

  /** Every window the loop still has to emit from `start` lies within `start..toDay`. */
  lemma {:induction false} PlanStartsAfter(start: int, toDay: int)
    ensures forall i :: 0 <= i < |Plan(start, toDay)| ==> start <= Plan(start, toDay)[i].start
    ensures forall i :: 0 <= i < |Plan(start, toDay)| ==> Plan(start, toDay)[i].end <= toDay
    decreases toDay - start
  {
    if start <= toDay {
      var end := start + Min(DaysPerChunk, toDay - start);
      PlanStartsAfter(end + 1, toDay);
      var cs := Plan(start, toDay);
      assert forall i :: 0 < i < |cs| ==> cs[i] == Plan(end + 1, toDay)[i - 1];
    }
  }
}
