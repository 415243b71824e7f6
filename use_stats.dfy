/** The statistics derived from the global statistics: the 90-entry frequency
    table, the top and flop lists, the decade buckets, the most and least
    frequent numbers and the evolution of finished games. */
module UseStats {
  import opened Wrappers
  import opened SeqUtil
  import opened Sorting
  import opened Config
  import opened GameTypes
  import opened Storage

  /** One row of the frequency table. `lastDrawn` is the ISO date of the latest
      game that drew the number, `games` the ids of every game that drew it. */
  datatype FrequencyEntry = FrequencyEntry(
    number: int,
    count: int,
    percentage: real,
    lastDrawn: Option<string>,
    games: seq<string>)

  datatype DecadeStat = DecadeStat(range: string, count: int, percentage: real, numbers: seq<int>)

  datatype GameEvolution = GameEvolution(gameId: string, gameName: string, numbersDrawn: int, date: Instant)

  datatype Stats = Stats(
    frequencyData: seq<FrequencyEntry>,
    decadeStats: seq<DecadeStat>,
    topNumbers: seq<FrequencyEntry>,
    flopNumbers: seq<FrequencyEntry>,
    totalNumbersDrawn: int,
    averageNumbersPerGame: real,
    mostFrequentNumber: Option<int>,
    leastFrequentNumber: Option<int>,
    gameEvolution: seq<GameEvolution>)

  function Number(e: FrequencyEntry): int { e.number }

  /** `(count / total) * 100`, or 0 when nothing was drawn. */
  function Percentage(count: int, total: int): (p: real)
    ensures total > 0 ==> p * total as real == count as real * 100.0
    ensures total <= 0 ==> p == 0.0
  {
    if total > 0 then (count as real / total as real) * 100.0 else 0.0
  }

  /** `totalGamesPlayed > 0 ? total / totalGamesPlayed : 0`. */
  function AveragePerGame(total: int, played: int): (a: real)
    ensures played > 0 ==> a * played as real == total as real
    ensures played <= 0 ==> a == 0.0
  {
    if played > 0 then total as real / played as real else 0.0
  }

  /** `Object.values(allTimeFrequency).reduce((sum, count) => sum + count, 0)`,
      taking the keys out one at a time. */
  method TotalNumbersDrawn(frequency: Frequency) returns (total: int)
    ensures total == MapTotal(frequency)
  {
    total := 0;
    var rest := frequency;
    while rest != map[]
      invariant total + MapTotal(rest) == MapTotal(frequency)
      decreases |rest|
    {
      NonEmptyHasKey(rest);
      var k :| k in rest;
      MapTotalRemove(rest, k);
      assert (rest - {k}).Keys == rest.Keys - {k};
      total := total + rest[k];
      rest := rest - {k};
    }
  }

  /** `Get(m, 1) + ... + Get(m, hi)`. */
  function SumGet(m: Frequency, hi: int): int
    decreases hi
  {
    if hi < 1 then 0 else SumGet(m, hi - 1) + Get(m, hi)
  }

  lemma {:induction false} SumGetFrame(m: Frequency, m': Frequency, hi: int)
    requires forall k :: 1 <= k <= hi ==> Get(m, k) == Get(m', k)
    ensures SumGet(m, hi) == SumGet(m', hi)
    decreases hi
  {
    if hi >= 1 {
      SumGetFrame(m, m', hi - 1);
    }
  }

  /** When every key lies in 1..hi, the map total is the sum of the counts of 1..hi. */
  lemma {:induction false} MapTotalIsSumGet(m: Frequency, hi: int)
    requires forall k :: k in m ==> 1 <= k <= hi
    ensures MapTotal(m) == SumGet(m, hi)
    decreases hi
  {
    if hi < 1 {
      assert m == map[];
    } else {
      var m' := m - {hi};
      MapTotalIsSumGet(m', hi - 1);
      SumGetFrame(m, m', hi - 1);
      if hi in m {
        MapTotalRemove(m, hi);
      } else {
        assert m' == m;
      }
    }
  }

  /** The index of the latest game whose draws include `n` (the reverse loop). */
  function LastGameWith(games: seq<LotoGame>, n: int): (r: Option<nat>)
    ensures r.None? <==> forall i :: 0 <= i < |games| ==> n !in games[i].numbers
    ensures r.Some? ==>
      && r.value < |games| && n in games[r.value].numbers
      && forall i :: r.value < i < |games| ==> n !in games[i].numbers
    decreases |games|
  {
    if games == [] then None
    else if n in games[|games| - 1].numbers then Some(|games| - 1)
    else LastGameWith(games[..|games| - 1], n)
  }

  function LastDrawn(games: seq<LotoGame>, n: int): Option<string> {
    var i := LastGameWith(games, n);
    if i.None? then None else Some(games[i.value].date.iso)
  }

  /** `games.filter(g => g.numbers.includes(n)).map(g => g.id)`. */
  function GamesWith(games: seq<LotoGame>, n: int): (r: seq<string>)
    ensures |r| <= |games|
    ensures forall id :: id in r <==> exists i :: 0 <= i < |games| && games[i].id == id && n in games[i].numbers
    decreases |games|
  {
    if games == [] then []
    else
      var p := games[..|games| - 1];
      var q := GamesWith(p, n);
      assert forall i :: 0 <= i < |p| ==> p[i] == games[i];
      if n in games[|games| - 1].numbers then q + [games[|games| - 1].id] else q
  }

  /** The ids are listed in game order: the list for a concatenation of game
      lists is the concatenation of their lists. */
  lemma {:induction false} GamesWithAppend(a: seq<LotoGame>, b: seq<LotoGame>, n: int)
    ensures GamesWith(a + b, n) == GamesWith(a, n) + GamesWith(b, n)
    decreases |b|
  {
    if b == [] {
      assert a + b == a;
    } else {
      var q := b[..|b| - 1];
      assert (a + b)[..|a + b| - 1] == a + q;
      GamesWithAppend(a, q, n);
    }
  }

  /** The row the loop pushes for `num`. */
  function Entry(games: seq<LotoGame>, frequency: Frequency, total: int, num: int): FrequencyEntry {
    var count := Get(frequency, num);
    FrequencyEntry(num, count, Percentage(count, total), LastDrawn(games, num), GamesWith(games, num))
  }

  function FrequencyTable(games: seq<LotoGame>, frequency: Frequency, total: int): seq<FrequencyEntry> {
    seq(TOTAL_NUMBERS, i => Entry(games, frequency, total, i + 1))
  }

  /** The loop over 1..90 that builds the frequency table, with the inner
      reverse scan (stopping at the first hit) for `lastDrawn`. */
  method BuildFrequencyData(games: seq<LotoGame>, frequency: Frequency, total: int) returns (data: seq<FrequencyEntry>)
    ensures data == FrequencyTable(games, frequency, total)
  {
    data := [];
    for num := 1 to TOTAL_NUMBERS + 1
      invariant |data| == num - 1
      invariant forall i :: 0 <= i < num - 1 ==> data[i] == Entry(games, frequency, total, i + 1)
    {
      var count := if num in frequency then frequency[num] else 0;
      var percentage := if total > 0 then (count as real / total as real) * 100.0 else 0.0;
      var lastDrawn: Option<string> := None;
      var i := |games| - 1;
      while i >= 0
        invariant -1 <= i < |games|
        invariant forall j :: i < j < |games| ==> num !in games[j].numbers
        decreases i
      {
        if num in games[i].numbers {
          lastDrawn := Some(games[i].date.iso);
          break;
        }
        i := i - 1;
      }
      assert lastDrawn == LastDrawn(games, num);
      data := data + [FrequencyEntry(num, count, percentage, lastDrawn, GamesWith(games, num))];
    }
  }

  /** The table holds 1..90 in ascending order with the stored counts (0 when
      absent), and `lastDrawn` is the date of the latest game that drew the number. */
  lemma FrequencyTableShape(games: seq<LotoGame>, frequency: Frequency, total: int)
    ensures var t := FrequencyTable(games, frequency, total);
      && |t| == TOTAL_NUMBERS
      && StrictlyAscending(t, Number)
      && (forall i :: 0 <= i < |t| ==> t[i].number == i + 1 && t[i].count == Get(frequency, i + 1))
      && (total <= 0 ==> forall i :: 0 <= i < |t| ==> t[i].percentage == 0.0)
      && (total > 0 ==> forall i :: 0 <= i < |t| ==> t[i].percentage * total as real == t[i].count as real * 100.0)
  {
  }

  /** A row's `lastDrawn` is absent iff no game drew its number, and otherwise is
      the date of the latest game that did. */
  lemma LastDrawnIsLatestGame(games: seq<LotoGame>, frequency: Frequency, total: int)
    ensures var t := FrequencyTable(games, frequency, total);
      && (forall i :: 0 <= i < |t| ==> (t[i].lastDrawn.None? <==> forall g :: g in games ==> i + 1 !in g.numbers))
      && (forall i :: 0 <= i < |t| && t[i].lastDrawn.Some? ==>
            exists j :: 0 <= j < |games| && i + 1 in games[j].numbers && t[i].lastDrawn.value == games[j].date.iso
              && forall k :: j < k < |games| ==> i + 1 !in games[k].numbers)
  {
    var t := FrequencyTable(games, frequency, total);
    forall i | 0 <= i < |t| ensures t[i].lastDrawn.None? <==> forall g :: g in games ==> i + 1 !in g.numbers {
      if LastGameWith(games, i + 1).Some? {
        assert games[LastGameWith(games, i + 1).value] in games;
      }
    }
  }

  /** Sum of the counts of a list of entries. */
  function SumCounts(es: seq<FrequencyEntry>): int
    decreases |es|
  {
    if es == [] then 0 else SumCounts(es[..|es| - 1]) + es[|es| - 1].count
  }

  lemma {:induction false} SumCountsAppend(a: seq<FrequencyEntry>, b: seq<FrequencyEntry>)
    ensures SumCounts(a + b) == SumCounts(a) + SumCounts(b)
    decreases |b|
  {
    if b == [] {
      assert a + b == a;
    } else {
      assert (a + b)[..|a + b| - 1] == a + b[..|b| - 1];
      SumCountsAppend(a, b[..|b| - 1]);
    }
  }

  /** When every stored number lies in 1..90, the table's counts add up to the
      total number of draws. */
  lemma TableCountsSumToTotal(games: seq<LotoGame>, frequency: Frequency, total: int)
    requires forall k :: k in frequency ==> MIN_NUMBER <= k <= MAX_NUMBER
    ensures SumCounts(FrequencyTable(games, frequency, total)) == MapTotal(frequency)
  {
    var t := FrequencyTable(games, frequency, total);
    for k := 0 to |t|
      invariant SumCounts(t[..k]) == SumGet(frequency, k)
    {
      assert t[..k + 1][..k] == t[..k];
    }
    assert t[..|t|] == t;
    MapTotalIsSumGet(frequency, TOTAL_NUMBERS);
  }

  // ----- top and flop -----

  function ByCountDesc(a: FrequencyEntry, b: FrequencyEntry): int { b.count - a.count }

  function ByCountAsc(a: FrequencyEntry, b: FrequencyEntry): int { a.count - b.count }

  lemma CountOrdersArePreorders()
    ensures TotalPreorder(ByCountDesc) && TotalPreorder(ByCountAsc)
  {
  }

  /** `[...frequencyData].sort((a, b) => b.count - a.count).slice(0, 15)`. */
  function TopNumbers(data: seq<FrequencyEntry>): seq<FrequencyEntry> {
    SliceTo(Sort(data, ByCountDesc), 15)
  }

  /** `frequencyData.filter(f => f.count > 0)`. */
  function Drawn(data: seq<FrequencyEntry>): seq<FrequencyEntry> {
    Filter(data, IsDrawn)
  }

  predicate IsDrawn(f: FrequencyEntry) { f.count > 0 }

  /** `drawnNumbers.sort((a, b) => a.count - b.count).slice(0, 15)`. */
  function FlopNumbers(data: seq<FrequencyEntry>): seq<FrequencyEntry> {
    SliceTo(Sort(Drawn(data), ByCountAsc), 15)
  }

  /** Sorting by descending count keeps equal counts in ascending number order. */
  lemma SortByCountDescWithTies(data: seq<FrequencyEntry>)
    requires StrictlyAscending(data, Number)
    ensures SortedWithTies(Sort(data, ByCountDesc), ByCountDesc, Number)
  {
    CountOrdersArePreorders();
    SortBreaksTiesByInputOrder(data, ByCountDesc, Number);
  }

  /** Sorting by ascending count keeps equal counts in ascending number order. */
  lemma SortByCountAscWithTies(data: seq<FrequencyEntry>)
    requires StrictlyAscending(data, Number)
    ensures SortedWithTies(Sort(data, ByCountAsc), ByCountAsc, Number)
  {
    CountOrdersArePreorders();
    SortBreaksTiesByInputOrder(data, ByCountAsc, Number);
  }

  /** The top list has 15 entries (of a table of at least 15), taken from the
      table, by descending count with ties in ascending number. */
  lemma TopNumbersRanking(data: seq<FrequencyEntry>)
    requires |data| >= 15 && StrictlyAscending(data, Number)
    ensures var top := TopNumbers(data);
      && |top| == 15
      && multiset(top) <= multiset(data)
      && SortedWithTies(top, ByCountDesc, Number)
  {
    var sorted := Sort(data, ByCountDesc);
    SortByCountDescWithTies(data);
    var top := sorted[..15];
    assert sorted == top + sorted[15..];
    assert TopNumbers(data) == top;
    PrefixWithTies(sorted, 15, ByCountDesc, Number);
  }

  /** No entry left out of the top list has a higher count than its last entry. */
  lemma TopNumbersCutoff(data: seq<FrequencyEntry>)
    ensures var top := TopNumbers(data);
      forall e :: e in data && e !in top ==> top != [] && e.count <= top[|top| - 1].count
  {
    var sorted := Sort(data, ByCountDesc);
    var n := if |sorted| < 15 then |sorted| else 15;
    assert TopNumbers(data) == sorted[..n];
    forall e | e in data && e !in sorted[..n] ensures n > 0 && e.count <= sorted[n - 1].count {
      CountOrdersArePreorders();
      SortPrefixCutoff(data, ByCountDesc, n, e);
    }
  }

  /** The flop list has at most 15 entries, and exactly 15 when at least 15
      numbers were drawn, by ascending count with ties in ascending number. */
  lemma FlopNumbersRanking(data: seq<FrequencyEntry>)
    requires StrictlyAscending(data, Number)
    ensures var flop := FlopNumbers(data);
      && |flop| <= 15
      && (|Drawn(data)| >= 15 ==> |flop| == 15)
      && SortedWithTies(flop, ByCountAsc, Number)
  {
    var drawn := Drawn(data);
    FilterKeepsAscending(data, IsDrawn, Number);
    var sorted := Sort(drawn, ByCountAsc);
    SortByCountAscWithTies(drawn);
    var n := if |sorted| < 15 then |sorted| else 15;
    var flop := sorted[..n];
    assert FlopNumbers(data) == flop;
    PrefixWithTies(sorted, n, ByCountAsc, Number);
  }

  /** The drawn rows, sorted by ascending count, keep equal counts in ascending number order. */
  lemma SortDrawnWithTies(data: seq<FrequencyEntry>)
    requires StrictlyAscending(data, Number)
    ensures SortedWithTies(Sort(Drawn(data), ByCountAsc), ByCountAsc, Number)
  {
    FilterKeepsAscending(data, IsDrawn, Number);
    SortByCountAscWithTies(Drawn(data));
  }

  lemma DrawnMember(data: seq<FrequencyEntry>, e: FrequencyEntry)
    ensures e in Drawn(data) <==> e in data && e.count > 0
  {
    FilterMembers(data, IsDrawn);
  }

  /** The drawn rows are the rows with a positive count. */
  lemma DrawnMembers(data: seq<FrequencyEntry>)
    ensures multiset(Drawn(data)) <= multiset(data)
    ensures forall e :: e in Drawn(data) <==> e in data && e.count > 0
  {
    FilterMembers(data, IsDrawn);
  }

  /** The flop list is taken from the table and never holds a number that was not drawn. */
  lemma FlopNumbersDrawn(data: seq<FrequencyEntry>)
    ensures var flop := FlopNumbers(data);
      && multiset(flop) <= multiset(data)
      && (forall e :: e in flop ==> e.count > 0)
  {
    var drawn := Drawn(data);
    DrawnMembers(data);
    var sorted := Sort(drawn, ByCountAsc);
    var n := if |sorted| < 15 then |sorted| else 15;
    var flop := sorted[..n];
    assert sorted == flop + sorted[n..];
    assert FlopNumbers(data) == flop;
    forall e | e in flop ensures e.count > 0 {
      assert e in multiset(drawn);
    }
  }
  /** No drawn entry left out of the flop list has a lower count than its last entry. */
  lemma FlopNumbersCutoff(data: seq<FrequencyEntry>)
    ensures var flop := FlopNumbers(data);
      forall e :: e in data && e.count > 0 && e !in flop ==> flop != [] && e.count >= flop[|flop| - 1].count
  {
    var drawn := Drawn(data);
    var sorted := Sort(drawn, ByCountAsc);
    var n := if |sorted| < 15 then |sorted| else 15;
    assert FlopNumbers(data) == sorted[..n];
    forall e | e in data && e.count > 0 && e !in sorted[..n] ensures n > 0 && e.count >= sorted[n - 1].count {
      DrawnMember(data, e);
      CountOrdersArePreorders();
      SortPrefixCutoff(drawn, ByCountAsc, n, e);
    }
  }

  // ----- most and least frequent -----

  /** `sortedByCount[0].count > 0 ? sortedByCount[0].number : null`. */
  function MostFrequent(data: seq<FrequencyEntry>): Option<int> {
    var sorted := Sort(data, ByCountDesc);
    if |sorted| > 0 && sorted[0].count > 0 then Some(sorted[0].number) else None
  }

  /** There is a most frequent number iff some count is positive; it is the
      smallest number among those with the maximal count. */
  lemma MostFrequentIsSmallestOfMax(data: seq<FrequencyEntry>)
    requires StrictlyAscending(data, Number)
    ensures MostFrequent(data).None? <==> forall e :: e in data ==> e.count <= 0
    ensures MostFrequent(data).Some? ==>
      exists e :: SmallestOfMax(data, e) && e.count > 0 && e.number == MostFrequent(data).value
  {
    if data != [] {
      CountOrdersArePreorders();
      var top := Sort(data, ByCountDesc)[0];
      SortFirstIsLeast(data, ByCountDesc, Number, data[0]);
      forall f | f in data ensures f.count <= top.count && (f.count == top.count ==> top.number <= f.number) {
        SortFirstIsLeast(data, ByCountDesc, Number, f);
      }
      assert SmallestOfMax(data, top);
    }
  }

  /** `e` has the highest count of `data`, and the smallest number among the
      entries with that count. */
  ghost predicate SmallestOfMax(data: seq<FrequencyEntry>, e: FrequencyEntry) {
    e in data && forall f :: f in data ==> f.count <= e.count && (f.count == e.count ==> e.number <= f.number)
  }

  /** `e` is drawn, has the highest count of the drawn entries, and the largest
      number among the drawn entries with that count. */
  ghost predicate LargestOfMaxDrawn(data: seq<FrequencyEntry>, e: FrequencyEntry) {
    e in data && e.count > 0 &&
    forall f :: f in data && f.count > 0 ==> f.count <= e.count && (f.count == e.count ==> f.number <= e.number)
  }

  /** `e` is drawn, has the lowest count of the drawn entries, and the smallest
      number among the drawn entries with that count. */
  ghost predicate SmallestOfMinDrawn(data: seq<FrequencyEntry>, e: FrequencyEntry) {
    e in data && e.count > 0 &&
    forall f :: f in data && f.count > 0 ==> e.count <= f.count && (f.count == e.count ==> e.number <= f.number)
  }

  /** `drawnNumbers[drawnNumbers.length - 1].number`, read AFTER `drawnNumbers` was
      sorted in place by ascending count for the flop list. */
  function LeastFrequentAsWritten(data: seq<FrequencyEntry>): Option<int> {
    var sorted := Sort(Drawn(data), ByCountAsc);
    if |sorted| > 0 then Some(sorted[|sorted| - 1].number) else None
  }

  /** The first entry of the ascending sort: the least frequent drawn number. */
  function LeastFrequent(data: seq<FrequencyEntry>): Option<int> {
    var sorted := Sort(Drawn(data), ByCountAsc);
    if |sorted| > 0 then Some(sorted[0].number) else None
  }

  /** Nothing is drawn exactly when no count is positive. */
  lemma DrawnEmpty(data: seq<FrequencyEntry>)
    ensures Drawn(data) == [] <==> forall e :: e in data ==> e.count <= 0
  {
    DrawnMembers(data);
    if Drawn(data) != [] {
      assert Drawn(data)[0] in Drawn(data);
    }
  }

  /** As written, the "least frequent" number is the LARGEST number among those
      with the MAXIMAL count. */
  lemma LeastFrequentAsWrittenIsLargestOfMax(data: seq<FrequencyEntry>)
    requires StrictlyAscending(data, Number)
    ensures LeastFrequentAsWritten(data).None? <==> forall e :: e in data ==> e.count <= 0
    ensures LeastFrequentAsWritten(data).Some? ==>
      exists e :: LargestOfMaxDrawn(data, e) && e.number == LeastFrequentAsWritten(data).value
  {
    var drawn := Drawn(data);
    DrawnEmpty(data);
    if drawn != [] {
      CountOrdersArePreorders();
      FilterKeepsAscending(data, IsDrawn, Number);
      var last := Sort(drawn, ByCountAsc)[|drawn| - 1];
      SortLastIsGreatest(drawn, ByCountAsc, Number, drawn[0]);
      DrawnMember(data, last);
      forall f | f in data && f.count > 0
        ensures f.count <= last.count && (f.count == last.count ==> f.number <= last.number)
      {
        DrawnMember(data, f);
        SortLastIsGreatest(drawn, ByCountAsc, Number, f);
      }
      assert LargestOfMaxDrawn(data, last);
    }
  }

  /** The least frequent number exists iff something was drawn; it is the
      smallest number among the drawn numbers with the minimal count. */
  lemma LeastFrequentIsSmallestOfMin(data: seq<FrequencyEntry>)
    requires StrictlyAscending(data, Number)
    ensures LeastFrequent(data).None? <==> forall e :: e in data ==> e.count <= 0
    ensures LeastFrequent(data).Some? ==>
      exists e :: SmallestOfMinDrawn(data, e) && e.number == LeastFrequent(data).value
  {
    var drawn := Drawn(data);
    DrawnEmpty(data);
    if drawn != [] {
      CountOrdersArePreorders();
      FilterKeepsAscending(data, IsDrawn, Number);
      var first := Sort(drawn, ByCountAsc)[0];
      SortFirstIsLeast(drawn, ByCountAsc, Number, drawn[0]);
      DrawnMember(data, first);
      forall f | f in data && f.count > 0
        ensures first.count <= f.count && (f.count == first.count ==> first.number <= f.number)
      {
        DrawnMember(data, f);
        SortFirstIsLeast(drawn, ByCountAsc, Number, f);
      }
      assert SmallestOfMinDrawn(data, first);
    }
  }

  /** In a table of strictly ascending numbers, distinct rows carry distinct numbers. */
  lemma NumberIdentifiesEntry(data: seq<FrequencyEntry>, e: FrequencyEntry, f: FrequencyEntry)
    requires StrictlyAscending(data, Number) && e in data && f in data
    ensures e != f ==> e.number != f.number
  {
    var i :| 0 <= i < |data| && data[i] == e;
    var j :| 0 <= j < |data| && data[j] == f;
  }

  /** As soon as two drawn numbers have different counts, the code as written
      reports a different "least frequent" number than the least frequent one. */
  lemma LeastFrequentAsWrittenDisagrees(data: seq<FrequencyEntry>, lo: FrequencyEntry, hi: FrequencyEntry)
    requires StrictlyAscending(data, Number)
    requires lo in data && hi in data && 0 < lo.count < hi.count
    ensures LeastFrequentAsWritten(data).Some? && LeastFrequent(data).Some?
    ensures LeastFrequentAsWritten(data) != LeastFrequent(data)
  {
    LeastFrequentAsWrittenIsLargestOfMax(data);
    LeastFrequentIsSmallestOfMin(data);
    var most :| LargestOfMaxDrawn(data, most) && most.number == LeastFrequentAsWritten(data).value;
    var least :| SmallestOfMinDrawn(data, least) && least.number == LeastFrequent(data).value;
    assert least.count <= lo.count < hi.count <= most.count;
    NumberIdentifiesEntry(data, most, least);
  }

  /** With number 1 drawn once and number 2 drawn three times, the code as
      written does not report 1 as the least frequent number. */
  lemma LeastFrequentAsWrittenCounterexample()
    ensures var data := FrequencyTable([], map[1 := 1, 2 := 3], 4);
      LeastFrequent(data) == Some(1) && LeastFrequentAsWritten(data) != Some(1)
  {
    var data := FrequencyTable([], map[1 := 1, 2 := 3], 4);
    FrequencyTableShape([], map[1 := 1, 2 := 3], 4);
    var one, two := data[0], data[1];
    assert one.number == 1 && one.count == 1 && two.count == 3;
    LeastFrequentAsWrittenDisagrees(data, one, two);
    LeastFrequentIsSmallestOfMin(data);
    var least :| SmallestOfMinDrawn(data, least) && least.number == LeastFrequent(data).value;
    assert least.count <= one.count && least.number <= one.number;
    NumberIdentifiesEntry(data, least, one);
  }

  // ----- decades -----

  /** The table rows whose number lies in lo..hi, in order. */
  function InRange(es: seq<FrequencyEntry>, lo: int, hi: int): seq<FrequencyEntry>
    decreases |es|
  {
    if es == [] then []
    else
      var e := es[|es| - 1];
      InRange(es[..|es| - 1], lo, hi) + (if lo <= e.number <= hi then [e] else [])
  }

  lemma {:induction false} InRangeMembers(es: seq<FrequencyEntry>, lo: int, hi: int)
    ensures forall e :: e in InRange(es, lo, hi) <==> e in es && lo <= e.number <= hi
    decreases |es|
  {
    if es != [] {
      var p := es[..|es| - 1];
      InRangeMembers(p, lo, hi);
      assert es == p + [es[|es| - 1]];
    }
  }

  lemma InRangeMember(es: seq<FrequencyEntry>, lo: int, hi: int, e: FrequencyEntry)
    ensures e in InRange(es, lo, hi) <==> e in es && lo <= e.number <= hi
  {
    InRangeMembers(es, lo, hi);
  }

  lemma {:induction false} InRangeKeepsAscending(es: seq<FrequencyEntry>, lo: int, hi: int)
    requires StrictlyAscending(es, Number)
    ensures StrictlyAscending(InRange(es, lo, hi), Number)
    decreases |es|
  {
    if es != [] {
      var p := es[..|es| - 1];
      InRangeKeepsAscending(p, lo, hi);
      InRangeMembers(p, lo, hi);
      forall x | x in InRange(p, lo, hi) ensures x.number < es[|es| - 1].number {
        var k :| 0 <= k < |p| && p[k] == x;
      }
    }
  }

  function Numbers(es: seq<FrequencyEntry>): (r: seq<int>)
    ensures |r| == |es| && forall i :: 0 <= i < |es| ==> r[i] == es[i].number
  {
    seq(|es|, i requires 0 <= i < |es| => es[i].number)
  }

  /** One decade: the summed count of its rows, the percentage of all draws, and
      the drawn numbers among its rows. */
  function DecadeStatOf(data: seq<FrequencyEntry>, d: Decade, total: int): DecadeStat {
    var members := InRange(data, d.start, d.end);
    var count := SumCounts(members);
    DecadeStat(d.range, count, Percentage(count, total), Numbers(Drawn(members)))
  }

  /** `DECADES.map(...)`. */
  function DecadeStatsOf(data: seq<FrequencyEntry>, total: int): (r: seq<DecadeStat>)
    ensures |r| == |DECADES| && forall i :: 0 <= i < |r| ==> r[i].range == DECADES[i].range
  {
    seq(|DECADES|, i requires 0 <= i < |DECADES| => DecadeStatOf(data, DECADES[i], total))
  }

  /** A decade lists exactly its drawn numbers, in ascending order. */
  lemma DecadeNumbersAreDrawnMembers(data: seq<FrequencyEntry>, d: Decade, total: int)
    requires StrictlyAscending(data, Number)
    ensures var ns := DecadeStatOf(data, d, total).numbers;
      && (forall i, j :: 0 <= i < j < |ns| ==> ns[i] < ns[j])
      && forall x :: x in ns <==> exists e :: e in data && e.number == x && d.start <= x <= d.end && e.count > 0
  {
    var members := InRange(data, d.start, d.end);
    var drawn := Drawn(members);
    var ns := Numbers(drawn);
    assert forall i, j :: 0 <= i < j < |ns| ==> ns[i] < ns[j] by {
      InRangeKeepsAscending(data, d.start, d.end);
      FilterKeepsAscending(members, IsDrawn, Number);
    }
    forall x ensures x in ns <==> exists e :: e in data && e.number == x && d.start <= x <= d.end && e.count > 0 {
      if x in ns {
        var i :| 0 <= i < |ns| && ns[i] == x;
        var e := drawn[i];
        DrawnMember(members, e);
        InRangeMember(data, d.start, d.end, e);
      }
      if exists e :: e in data && e.number == x && d.start <= x <= d.end && e.count > 0 {
        var e :| e in data && e.number == x && d.start <= x <= d.end && e.count > 0;
        InRangeMember(data, d.start, d.end, e);
        DrawnMember(members, e);
        var i :| 0 <= i < |drawn| && drawn[i] == e;
        assert ns[i] == x;
      }
    }
  }

  function SumDecadeCounts(ds: seq<DecadeStat>): int
    decreases |ds|
  {
    if ds == [] then 0 else SumDecadeCounts(ds[..|ds| - 1]) + ds[|ds| - 1].count
  }

  /** Splitting a number range in two splits the summed count in two. */
  lemma {:induction false} InRangeSplit(es: seq<FrequencyEntry>, lo: int, mid: int, hi: int)
    requires lo - 1 <= mid <= hi
    ensures SumCounts(InRange(es, lo, hi)) == SumCounts(InRange(es, lo, mid)) + SumCounts(InRange(es, mid + 1, hi))
    decreases |es|
  {
    if es != [] {
      var p := es[..|es| - 1];
      var e := es[|es| - 1];
      InRangeSplit(p, lo, mid, hi);
      var whole, left, right := InRange(p, lo, hi), InRange(p, lo, mid), InRange(p, mid + 1, hi);
      assert whole + [] == whole && left + [] == left && right + [] == right;
      if lo <= e.number <= hi {
        SumCountsAppend(whole, [e]);
        if e.number <= mid {
          SumCountsAppend(left, [e]);
        } else {
          SumCountsAppend(right, [e]);
        }
      }
    }
  }

  lemma {:induction false} InRangeEmpty(es: seq<FrequencyEntry>, lo: int, hi: int)
    requires hi < lo
    ensures InRange(es, lo, hi) == []
    decreases |es|
  {
    if es != [] {
      InRangeEmpty(es[..|es| - 1], lo, hi);
    }
  }

  lemma {:induction false} InRangeAll(es: seq<FrequencyEntry>, lo: int, hi: int)
    requires forall i :: 0 <= i < |es| ==> lo <= es[i].number <= hi
    ensures InRange(es, lo, hi) == es
    decreases |es|
  {
    if es != [] {
      var p, last := es[..|es| - 1], es[|es| - 1];
      InRangeAll(p, lo, hi);
      assert es == p + [last];
    }
  }

  /** The counts of the first k ten-number buckets 1..10, 11..20, ... added up. */
  function BucketSum(data: seq<FrequencyEntry>, k: nat): int {
    if k == 0 then 0 else BucketSum(data, k - 1) + SumCounts(InRange(data, 10 * k - 9, 10 * k))
  }

  /** The first k buckets together hold the rows numbered 1..10k. */
  lemma {:induction false} BucketSumIsPrefix(data: seq<FrequencyEntry>, k: nat)
    ensures BucketSum(data, k) == SumCounts(InRange(data, 1, 10 * k))
  {
    if k == 0 {
      InRangeEmpty(data, 1, 0);
    } else {
      BucketSumIsPrefix(data, k - 1);
      InRangeSplit(data, 1, 10 * k - 10, 10 * k);
    }
  }

  lemma {:induction false} DecadePrefixSum(data: seq<FrequencyEntry>, ds: seq<DecadeStat>, k: nat)
    requires k <= |ds|
    requires forall i :: 0 <= i < |ds| ==> ds[i].count == SumCounts(InRange(data, 10 * i + 1, 10 * i + 10))
    ensures SumDecadeCounts(ds[..k]) == BucketSum(data, k)
  {
    if k > 0 {
      DecadePrefixSum(data, ds, k - 1);
      assert ds[..k][..k - 1] == ds[..k - 1];
      assert ds[k - 1].count == SumCounts(InRange(data, 10 * k - 9, 10 * k));
    }
  }

  /** Decade i counts the rows numbered 10i+1 .. 10i+10. */
  lemma DecadeCount(data: seq<FrequencyEntry>, total: int, i: nat)
    requires i < |DECADES|
    ensures DecadeStatsOf(data, total)[i].count == SumCounts(InRange(data, 10 * i + 1, 10 * i + 10))
  {
    DecadeBounds(i);
  }

  /** When every row's number lies in 1..90 (as in the frequency table) the
      decade counts add up to the table's total count. */
  lemma DecadeCountsSumToTotal(data: seq<FrequencyEntry>, total: int)
    requires forall e :: e in data ==> MIN_NUMBER <= e.number <= MAX_NUMBER
    ensures SumDecadeCounts(DecadeStatsOf(data, total)) == SumCounts(data)
  {
    var ds := DecadeStatsOf(data, total);
    forall i | 0 <= i < |ds| ensures ds[i].count == SumCounts(InRange(data, 10 * i + 1, 10 * i + 10)) {
      DecadeCount(data, total, i);
    }
    DecadePrefixSum(data, ds, |ds|);
    BucketSumIsPrefix(data, |ds|);
    assert ds[..|ds|] == ds;
    InRangeAll(data, 1, 90);
  }

  // ----- evolution -----

  /** `games.filter(g => !g.isActive).map(...)`. */
  function EvolutionOf(games: seq<LotoGame>): (r: seq<GameEvolution>)
    ensures |r| <= |games|
    ensures forall e :: e in r <==>
      exists g :: g in games && !g.isActive && e == PointOf(g)
    decreases |games|
  {
    if games == [] then []
    else
      var p := games[..|games| - 1];
      var g := games[|games| - 1];
      assert games == p + [g];
      EvolutionOf(p) + (if g.isActive then [] else [PointOf(g)])
  }

  /** The chart point of one game. */
  function PointOf(g: LotoGame): GameEvolution {
    GameEvolution(g.id, g.name, |g.numbers|, g.date)
  }

  predicate NotActive(g: LotoGame) { !g.isActive }

  /** `games.filter(g => !g.isActive).map(...)`: one point per finished game, in
      the games' order. */
  lemma {:induction false} EvolutionIsFilterMap(games: seq<LotoGame>)
    ensures var done := Filter(games, NotActive);
      && |EvolutionOf(games)| == |done|
      && forall i :: 0 <= i < |done| ==> EvolutionOf(games)[i] == PointOf(done[i])
    decreases |games|
  {
    if games != [] {
      var p := games[..|games| - 1];
      EvolutionIsFilterMap(p);
    }
  }


  // ----- the whole hook -----

  /** The body of the statistics hook. */
  method ComputeStats(stats: GlobalStats) returns (r: Stats)
    ensures r.totalNumbersDrawn == MapTotal(stats.allTimeFrequency)
    ensures r.averageNumbersPerGame == AveragePerGame(r.totalNumbersDrawn, stats.totalGamesPlayed)
    ensures r.frequencyData == FrequencyTable(stats.games, stats.allTimeFrequency, r.totalNumbersDrawn)
    ensures r.topNumbers == TopNumbers(r.frequencyData)
    ensures r.flopNumbers == FlopNumbers(r.frequencyData)
    ensures r.decadeStats == DecadeStatsOf(r.frequencyData, r.totalNumbersDrawn)
    ensures r.mostFrequentNumber == MostFrequent(r.frequencyData)
    ensures r.leastFrequentNumber == LeastFrequentAsWritten(r.frequencyData)
    ensures r.gameEvolution == EvolutionOf(stats.games)
  {
    var total := TotalNumbersDrawn(stats.allTimeFrequency);
    var average := AveragePerGame(total, stats.totalGamesPlayed);
    var data := BuildFrequencyData(stats.games, stats.allTimeFrequency, total);
    r := Stats(
      data,
      DecadeStatsOf(data, total),
      TopNumbers(data),
      FlopNumbers(data),
      total,
      average,
      MostFrequent(data),
      LeastFrequentAsWritten(data),
      EvolutionOf(stats.games));
  }
}
