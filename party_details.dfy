/** The figures of the single-game detail view: the elapsed time and its long
    text form, the draws per decade, the draws laid out in rows of ten with
    their 1-based positions, and the average time per draw. The view's own
    decade table is the one of the configuration (1-10, ..., 81-90). */
module PartyDetails {
  import opened Wrappers
  import opened SeqUtil
  import opened Text
  import opened Config
  import opened GameTypes
  import opened UseStats
  import opened Statistics

  /** The elapsed time: up to the game's end, or up to `now` while it has none. */
  function Duration(game: LotoGame, now: int): (d: int)
    ensures d == (if game.endTime.Some? then game.endTime.value else now) - game.startTime
  {
    match game.endTime
    case Some(e) => e - game.startTime
    case None => now - game.startTime
  }

  // ----- the long duration text -----

  /** The view's own split of a duration: floor of the milliseconds over an
      hour, then JavaScript remainders over an hour and over a minute. */
  function DetailClock(ms: int): Clock {
    Clock(ms / 3600000, JsRem(ms, 3600000) / 60000, JsRem(ms, 60000) / 1000)
  }

  /** `Xh Ymin Zs`, `Ymin Zs` or `Zs`, dropping leading zero units. */
  function FormatDurationLong(ms: int): string {
    var c := DetailClock(ms);
    if c.hours > 0 then
      IntToString(c.hours) + "h " + IntToString(c.minutes) + "min " + IntToString(c.seconds) + "s"
    else if c.minutes > 0 then
      IntToString(c.minutes) + "min " + IntToString(c.seconds) + "s"
    else
      IntToString(c.seconds) + "s"
  }

  /** For a non-negative duration the view splits exactly as the `HH:MM:SS`
      formatter does; so minutes and seconds are below 60 and the fields
      recompose the whole seconds. */
  lemma DetailClockAgrees(ms: int)
    requires ms >= 0
    ensures DetailClock(ms) == DurationParts(ms)
    ensures var c := DetailClock(ms);
      0 <= c.minutes < 60 && 0 <= c.seconds < 60 && c.hours * 3600 + c.minutes * 60 + c.seconds == ms / 1000
  {
    var t, r0 := ms / 1000, ms % 1000;
    var h, u := t / 3600, t % 3600;
    var m, v := u / 60, u % 60;
    DivModUnique(ms, 3600000, h, 1000 * u + r0);
    DivModUnique(1000 * u + r0, 60000, m, 1000 * v + r0);
    DivModUnique(ms, 60000, 60 * h + m, 1000 * v + r0);
    DivModUnique(1000 * v + r0, 1000, v, r0);
    DivModUnique(t, 60, 60 * h + m, v);
    DurationPartsSplit(ms);
  }

  /** Which form is used depends on the duration alone: the hour form from one
      hour on, the minute form from one minute on, else seconds only. */
  lemma FormatDurationLongForm(ms: int)
    requires ms >= 0
    ensures var c := DetailClock(ms);
      && (ms >= 3600000 ==>
            FormatDurationLong(ms)
            == IntToString(c.hours) + "h " + IntToString(c.minutes) + "min " + IntToString(c.seconds) + "s")
      && (60000 <= ms < 3600000 ==>
            FormatDurationLong(ms) == IntToString(c.minutes) + "min " + IntToString(c.seconds) + "s")
      && (ms < 60000 ==> FormatDurationLong(ms) == IntToString(c.seconds) + "s")
  {
    var c := DetailClock(ms);
    if ms < 3600000 {
      DivModUnique(ms, 3600000, 0, ms);
      if ms < 60000 {
        DivModUnique(ms, 60000, 0, ms);
      } else {
        assert c.minutes >= 1;
      }
    }
  }

  // ----- draws per decade -----

  /** One row of the view's decade table. */
  datatype DrawDecade = DrawDecade(range: string, min: int, max: int, count: int, percentage: real)

  function Between(lo: int, hi: int): int -> bool {
    (x: int) => lo <= x <= hi
  }

  /** The draws within lo..hi. */
  function DrawsBetween(numbers: seq<int>, lo: int, hi: int): nat {
    |Filter(numbers, Between(lo, hi))|
  }

  /** decadeStats: per decade, its draws and their share of all the game's draws. */
  function DecadeStats(numbers: seq<int>): seq<DrawDecade> {
    seq(|DECADES|, k requires 0 <= k < |DECADES| =>
      var d := DECADES[k];
      var count := DrawsBetween(numbers, d.start, d.end);
      DrawDecade(d.range, d.start, d.end, count, Percentage(count, |numbers|)))
  }

  /** Nine rows, for 1-10 .. 81-90, each counting the draws in its range; every
      share is 0 when nothing is drawn. */
  lemma DecadeStatsShape(numbers: seq<int>, k: nat)
    requires k < 9
    ensures |DecadeStats(numbers)| == 9
    ensures var d := DecadeStats(numbers)[k];
      && d.min == 10 * k + 1 && d.max == 10 * k + 10
      && d.count == |Filter(numbers, (x: int) => 10 * k + 1 <= x <= 10 * k + 10)|
      && (numbers == [] ==> d.percentage == 0.0)
  {
    DecadeBounds(k);
  }

  lemma DrawsBetweenAppend(numbers: seq<int>, x: int, lo: int, hi: int)
    ensures DrawsBetween(numbers + [x], lo, hi) == DrawsBetween(numbers, lo, hi) + (if lo <= x <= hi then 1 else 0)
  {
    assert (numbers + [x])[..|numbers|] == numbers;
  }

  /** The draws in decade k, 10k+1..10k+10. */
  function DecadeDraws(numbers: seq<int>, k: nat): nat {
    DrawsBetween(numbers, 10 * k + 1, 10 * k + 10)
  }

  /** The draws in the first K decades, 1..10K. */
  function FirstDecadesDraws(numbers: seq<int>, K: nat): (n: int)
    ensures numbers == [] ==> n == 0
    decreases K
  {
    if K == 0 then 0 else FirstDecadesDraws(numbers, K - 1) + DecadeDraws(numbers, K - 1)
  }

  lemma {:induction false} FirstDecadesAppend(numbers: seq<int>, x: int, K: nat)
    ensures FirstDecadesDraws(numbers + [x], K) == FirstDecadesDraws(numbers, K) + (if 1 <= x <= 10 * K then 1 else 0)
    decreases K
  {
    if K > 0 {
      FirstDecadesAppend(numbers, x, K - 1);
      DrawsBetweenAppend(numbers, x, 10 * (K - 1) + 1, 10 * (K - 1) + 10);
    }
  }

  /** With every draw in 1..10K, the first K decades hold all draws. */
  lemma {:induction false} FirstDecadesHoldAll(numbers: seq<int>, K: nat)
    requires forall i :: 0 <= i < |numbers| ==> 1 <= numbers[i] <= 10 * K
    ensures FirstDecadesDraws(numbers, K) == |numbers|
    decreases |numbers|
  {
    if numbers != [] {
      var p, x := numbers[..|numbers| - 1], numbers[|numbers| - 1];
      FirstDecadesHoldAll(p, K);
      assert numbers == p + [x];
      FirstDecadesAppend(p, x, K);
    }
  }

  function SumDecadeDraws(ds: seq<DrawDecade>): int
    decreases |ds|
  {
    if ds == [] then 0 else SumDecadeDraws(ds[..|ds| - 1]) + ds[|ds| - 1].count
  }

  lemma {:induction false} DecadePrefixDraws(ds: seq<DrawDecade>, numbers: seq<int>, K: nat)
    requires K <= |ds| == 9
    requires forall k :: 0 <= k < 9 ==> ds[k].count == DecadeDraws(numbers, k)
    ensures SumDecadeDraws(ds[..K]) == FirstDecadesDraws(numbers, K)
    decreases K
  {
    if K > 0 {
      DecadePrefixDraws(ds, numbers, K - 1);
      assert ds[..K][..K - 1] == ds[..K - 1];
    }
  }

  /** When every draw lies in 1..90 the decade counts add up to the game's draws. */
  lemma DecadeDrawsSumToDrawn(numbers: seq<int>)
    requires forall i :: 0 <= i < |numbers| ==> MIN_NUMBER <= numbers[i] <= MAX_NUMBER
    ensures SumDecadeDraws(DecadeStats(numbers)) == |numbers|
  {
    var ds := DecadeStats(numbers);
    forall k | 0 <= k < 9 ensures ds[k].count == DecadeDraws(numbers, k) {
      DecadeBounds(k);
    }
    DecadePrefixDraws(ds, numbers, 9);
    assert ds[..9] == ds;
    FirstDecadesHoldAll(numbers, 9);
  }

  // ----- the grid of draws -----

  /** Where row r of the grid ends: ten draws on, or at the last draw. */
  function RowEnd(r: nat, n: nat): nat {
    if 10 * r + 10 <= n then 10 * r + 10 else n
  }

  /** Row r holds the draws 10r .. RowEnd(r) - 1, for every row. */
  ghost predicate RowsOfTen(numbers: seq<int>, grid: seq<seq<int>>) {
    (grid != [] ==> 10 * (|grid| - 1) < |numbers|)
    && forall r :: 0 <= r < |grid| ==>
         (10 * r <= RowEnd(r, |numbers|) <= |numbers| && grid[r] == numbers[10 * r .. RowEnd(r, |numbers|)])
  }

  /** numbersGrid: slices of ten draws taken at 0, 10, 20, ...; the last slice
      may be shorter. */
  method NumbersGrid(numbers: seq<int>) returns (grid: seq<seq<int>>)
    ensures Flatten(grid) == numbers
    ensures |grid| == (|numbers| + 9) / 10
    ensures RowsOfTen(numbers, grid)
  {
    var n := |numbers|;
    grid := [];
    var i := 0;
    while i < n
      invariant i == 10 * |grid| && i < n + 10
      invariant RowsOfTen(numbers, grid)
      decreases n - i
    {
      var end := if i + 10 <= n then i + 10 else n;
      grid := grid + [numbers[i..end]];
      i := i + 10;
    }
    GridFlattens(numbers, grid, |grid|);
    assert grid[..|grid|] == grid;
    DivModUnique(n + 9, 10, |grid|, n + 9 - 10 * |grid|);
  }

  /** Every row but the last holds ten draws, the last one to ten; the cell in
      row r, column c shows draw 10r + c, whose 1-based position is 10r + c + 1. */
  lemma GridCell(numbers: seq<int>, grid: seq<seq<int>>, r: nat, c: nat)
    requires RowsOfTen(numbers, grid) && |grid| == (|numbers| + 9) / 10 && r < |grid|
    ensures 0 < |grid[r]| <= 10
    ensures r < |grid| - 1 ==> |grid[r]| == 10
    ensures c < |grid[r]| ==> 10 * r + c < |numbers| && grid[r][c] == numbers[10 * r + c]
  {
  }

  lemma {:induction false} GridFlattens(numbers: seq<int>, grid: seq<seq<int>>, m: nat)
    requires m <= |grid| && RowsOfTen(numbers, grid)
    ensures Flatten(grid[..m]) == numbers[..if 10 * m <= |numbers| then 10 * m else |numbers|]
    decreases m
  {
    if m > 0 {
      GridFlattens(numbers, grid, m - 1);
      assert grid[..m][..m - 1] == grid[..m - 1];
      var lo := 10 * (m - 1);
      var hi := if 10 * m <= |numbers| then 10 * m else |numbers|;
      assert numbers[..hi] == numbers[..lo] + numbers[lo..hi];
    }
  }

  // ----- average time per draw -----

  /** avgTimeBetweenDraws: absent below two draws, else the duration shared
      out over the draws. */
  function AvgTimeBetweenDraws(numbersDrawn: int, duration: int): (r: Option<real>)
    ensures r.None? <==> numbersDrawn < 2
    ensures r.Some? ==> r.value * numbersDrawn as real == duration as real
  {
    if numbersDrawn < 2 then None else Some(duration as real / numbersDrawn as real)
  }
}
