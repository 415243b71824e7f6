/** Frequency-map bookkeeping: the increment/decrement update, the full recount
    and the empty initial statistics. A frequency map sends a drawn number to
    how many times it was drawn; a number never drawn is absent. */
module Storage {
  import opened SeqUtil
  import opened GameTypes

  type Frequency = map<int, int>

  /** `frequency[n] || 0`. */
  function Get(m: Frequency, n: int): int {
    if n in m then m[n] else 0
  }

  /** The map after one pass of the update loop's body on `n`. */
  function Step(m: Frequency, n: int, increment: bool): Frequency {
    if increment then m[n := Get(m, n) + 1]
    else
      var v := if Get(m, n) - 1 > 0 then Get(m, n) - 1 else 0;
      if v == 0 then m - {n} else m[n := v]
  }

  /** The map after the update loop has visited every element of `numbers`. */
  function Applied(m: Frequency, numbers: seq<int>, increment: bool): Frequency
    decreases |numbers|
  {
    if numbers == [] then m
    else Step(Applied(m, numbers[..|numbers| - 1], increment), numbers[|numbers| - 1], increment)
  }

  /** updateFrequency: works on a copy of `frequency` (a map value here), and for
      each number either adds one or subtracts one, flooring at 0 and deleting
      the key once it reaches 0. */
  method UpdateFrequency(frequency: Frequency, numbers: seq<int>, increment: bool) returns (r: Frequency)
    ensures r == Applied(frequency, numbers, increment)
  {
    r := frequency;
    for i := 0 to |numbers|
      invariant r == Applied(frequency, numbers[..i], increment)
    {
      assert numbers[..i + 1][..i] == numbers[..i];
      var num := numbers[i];
      var current := if num in r then r[num] else 0;
      if increment {
        r := r[num := current + 1];
      } else {
        r := r[num := if current - 1 > 0 then current - 1 else 0];
        if r[num] == 0 {
          r := r - {num};
        }
      }
    }
    assert numbers[..|numbers|] == numbers;
  }

  /** Incrementing raises each key by its number of occurrences in `numbers`;
      a key is present afterwards iff it was present or occurs in `numbers`. */
  lemma {:induction false} IncrementAddsOccurrences(m: Frequency, numbers: seq<int>)
    ensures forall k :: Get(Applied(m, numbers, true), k) == Get(m, k) + Count(numbers, k)
    ensures forall k :: k in Applied(m, numbers, true) <==> k in m || k in numbers
    decreases |numbers|
  {
    if numbers != [] {
      var p := numbers[..|numbers| - 1];
      IncrementAddsOccurrences(m, p);
      assert numbers == p + [numbers[|numbers| - 1]];
    }
  }

  /** Decrementing subtracts the occurrences but never goes below 0; a key
      that reaches 0 is removed, so a touched key that remains holds at least 1. */
  lemma {:induction false} DecrementFloorsAtZero(m: Frequency, numbers: seq<int>)
    ensures forall k ::
      var c := Count(numbers, k);
      Get(Applied(m, numbers, false), k) == (if c == 0 then Get(m, k) else if Get(m, k) - c > 0 then Get(m, k) - c else 0)
    ensures forall k :: k in numbers ==>
      (k in Applied(m, numbers, false) <==> Get(m, k) - Count(numbers, k) > 0)
    ensures forall k :: k in numbers && k in Applied(m, numbers, false) ==> Applied(m, numbers, false)[k] >= 1
    decreases |numbers|
  {
    if numbers != [] {
      var p := numbers[..|numbers| - 1];
      DecrementFloorsAtZero(m, p);
      assert numbers == p + [numbers[|numbers| - 1]];
      forall k ensures Count(numbers, k) > 0 <==> k in numbers {
        CountPositive(numbers, k);
      }
      forall k ensures Count(p, k) > 0 <==> k in p {
        CountPositive(p, k);
      }
    }
  }

  /** Keys that do not occur in `numbers` keep their presence and value, in both modes. */
  lemma {:induction false} UntouchedKeysKept(m: Frequency, numbers: seq<int>, increment: bool)
    ensures forall k :: k !in numbers ==>
      (k in Applied(m, numbers, increment) <==> k in m) &&
      (k in m ==> Applied(m, numbers, increment)[k] == m[k])
    decreases |numbers|
  {
    if numbers != [] {
      UntouchedKeysKept(m, numbers[..|numbers| - 1], increment);
    }
  }

  /** Adding a number and removing it again restores the map, unless the map
      held a value below 1 for it (which the decrement would not restore). */
  lemma IncrementThenDecrement(m: Frequency, n: int)
    requires n !in m || m[n] >= 1
    ensures Applied(Applied(m, [n], true), [n], false) == m
  {
    AppliedAppend(m, [], n, true);
    AppliedAppend(m[n := Get(m, n) + 1], [], n, false);
    assert [] + [n] == [n];
    var up := Applied(m, [n], true);
    assert up == m[n := Get(m, n) + 1];
    if n in m {
      assert Applied(up, [n], false) == up[n := m[n]];
    } else {
      assert Applied(up, [n], false) == up - {n};
    }
  }

  /** The closed form of a recount: each drawn number with its occurrence count. */
  function CountMap(s: seq<int>): Frequency {
    map k | k in s :: Count(s, k)
  }

  lemma RecountIsCountMap(s: seq<int>)
    ensures Applied(map[], s, true) == CountMap(s)
  {
    IncrementAddsOccurrences(map[], s);
    var r := Applied(map[], s, true);
    forall k | k in r ensures r[k] == Count(s, k) {
      assert Get(r, k) == Count(s, k);
    }
  }

  /** A recount depends only on how often each number was drawn, not on the
      order of the draws. */
  lemma RecountOfSameDraws(s: seq<int>, t: seq<int>)
    requires forall k :: Count(s, k) == Count(t, k)
    ensures Applied(map[], s, true) == Applied(map[], t, true)
  {
    RecountIsCountMap(s);
    RecountIsCountMap(t);
    forall k ensures k in s <==> k in t {
      CountPositive(s, k);
      CountPositive(t, k);
    }
    var a, b := CountMap(s), CountMap(t);
    forall k | k in a ensures k in b && a[k] == b[k] {
      assert a[k] == Count(s, k);
    }
    assert a == b;
  }

  /** Incrementing a recount by one draw gives the recount of the draws with
      that one added, wherever it was added. */
  lemma RecountAfterIncrement(s: seq<int>, t: seq<int>, n: int)
    requires forall k :: Count(t, k) == Count(s, k) + (if k == n then 1 else 0)
    ensures Applied(Applied(map[], s, true), [n], true) == Applied(map[], t, true)
  {
    AppliedConcat(map[], s, [n], true);
    forall k ensures Count(s + [n], k) == Count(t, k) {
      CountAppend(s, [n], k);
    }
    RecountOfSameDraws(s + [n], t);
  }

  /** Decrementing a recount by one draw gives the recount of the draws with
      one copy of that number taken out. */
  lemma RecountAfterDecrement(s: seq<int>, t: seq<int>, n: int)
    requires forall k :: Count(s, k) == Count(t, k) + (if k == n then 1 else 0)
    ensures Applied(Applied(map[], s, true), [n], false) == Applied(map[], t, true)
  {
    RecountIsCountMap(s);
    RecountIsCountMap(t);
    AppliedAppend(CountMap(s), [], n, false);
    assert [] + [n] == [n];
    var r := Step(CountMap(s), n, false);
    var c := CountMap(t);
    CountPositive(s, n);
    forall k ensures (k in r <==> k in c) && (k in r ==> r[k] == c[k]) {
      CountPositive(s, k);
      CountPositive(t, k);
    }
  }

  lemma AppliedAppend(m: Frequency, a: seq<int>, x: int, increment: bool)
    ensures Applied(m, a + [x], increment) == Step(Applied(m, a, increment), x, increment)
  {
    assert (a + [x])[..|a|] == a;
  }

  /** recalculateFrequency: one increment per draw of every game, game after
      game, starting from an empty map. */
  method RecalculateFrequency(games: seq<LotoGame>) returns (r: Frequency)
    ensures r == Applied(map[], AllNumbers(games), true)
  {
    r := map[];
    for i := 0 to |games|
      invariant r == Applied(map[], AllNumbers(games[..i]), true)
    {
      ghost var before := r;
      var nums := games[i].numbers;
      for j := 0 to |nums|
        invariant r == Applied(before, nums[..j], true)
      {
        assert nums[..j + 1][..j] == nums[..j];
        var num := nums[j];
        r := r[num := (if num in r then r[num] else 0) + 1];
      }
      assert nums[..|nums|] == nums;
      AppliedConcat(map[], AllNumbers(games[..i]), nums, true);
      assert games[..i + 1][..i] == games[..i];
    }
    assert games[..|games|] == games;
  }

  /** A map other than the empty map has a key. */
  lemma NonEmptyHasKey(m: Frequency)
    requires m != map[]
    ensures exists k :: k in m
  {
    if forall k :: k !in m {
      assert false;
    }
  }

  /** Sum of all values of a map (`Object.values(m).reduce(+, 0)`). */
  ghost function MapTotal(m: Frequency): int
    decreases |m|
  {
    if m == map[] then 0
    else
      NonEmptyHasKey(m);
      var k :| k in m;
      assert |m - {k}| < |m| by { assert (m - {k}).Keys == m.Keys - {k}; }
      m[k] + MapTotal(m - {k})
  }

  /** The total does not depend on which key is taken out first. */
  lemma {:induction false} MapTotalRemove(m: Frequency, k: int)
    requires k in m
    ensures MapTotal(m) == m[k] + MapTotal(m - {k})
    decreases |m|
  {
    var j :| j in m && MapTotal(m) == m[j] + MapTotal(m - {j});
    if j != k {
      assert (m - {j}).Keys == m.Keys - {j};
      assert (m - {k}).Keys == m.Keys - {k};
      MapTotalRemove(m - {j}, k);
      MapTotalRemove(m - {k}, j);
      assert (m - {j}) - {k} == (m - {k}) - {j};
    }
  }

  lemma {:induction false} CountMapTotal(s: seq<int>)
    ensures MapTotal(CountMap(s)) == |s|
    decreases |s|
  {
    if s != [] {
      var p := s[..|s| - 1];
      var x := s[|s| - 1];
      CountMapTotal(p);
      assert s == p + [x];
      var before := CountMap(p);
      var after := CountMap(s);
      forall k ensures Count(s, k) == Count(p, k) + (if k == x then 1 else 0) {
        CountAppend(p, [x], k);
      }
      assert after - {x} == before - {x};
      MapTotalRemove(after, x);
      if x in p {
        MapTotalRemove(before, x);
      } else {
        CountPositive(p, x);
        assert before - {x} == before;
      }
    }
  }

  /** What recalculateFrequency produces: n is mapped to its number of draws over
      all games, absent iff never drawn, and the values sum to the number of draws. */
  lemma RecountCounts(games: seq<LotoGame>)
    ensures var r := Applied(map[], AllNumbers(games), true);
      && (forall n :: Get(r, n) == Count(AllNumbers(games), n))
      && (forall n :: n in r <==> Count(AllNumbers(games), n) > 0)
      && MapTotal(r) == |AllNumbers(games)|
  {
    var s := AllNumbers(games);
    RecountIsCountMap(s);
    CountMapTotal(s);
    forall n ensures Get(CountMap(s), n) == Count(s, n) && (n in CountMap(s) <==> Count(s, n) > 0) {
      CountPositive(s, n);
    }
  }

  /** The recount equals folding updateFrequency's increment over each game's
      draws in turn, starting from the empty map. */
  lemma {:induction false} RecountIsFoldOfIncrements(games: seq<LotoGame>)
    ensures Applied(map[], AllNumbers(games), true) == FoldIncrements(map[], games)
    decreases |games|
  {
    if games != [] {
      var p := games[..|games| - 1];
      RecountIsFoldOfIncrements(p);
      AppliedConcat(map[], AllNumbers(p), games[|games| - 1].numbers, true);
    }
  }

  /** updateFrequency(_, game.numbers, true) applied game after game. */
  function FoldIncrements(m: Frequency, games: seq<LotoGame>): Frequency
    decreases |games|
  {
    if games == [] then m
    else Applied(FoldIncrements(m, games[..|games| - 1]), games[|games| - 1].numbers, true)
  }

  lemma {:induction false} AppliedConcat(m: Frequency, a: seq<int>, b: seq<int>, increment: bool)
    ensures Applied(m, a + b, increment) == Applied(Applied(m, a, increment), b, increment)
    decreases |b|
  {
    if b == [] {
      assert a + b == a;
    } else {
      var q := b[..|b| - 1];
      assert (a + b)[..|a + b| - 1] == a + q;
      AppliedConcat(m, a, q, increment);
    }
  }

  /** initializeGlobalStats: no games, an empty frequency map (the recount of no
      games) and no game played; both timestamps are the supplied time. */
  function InitializeGlobalStats(now: string): (r: GlobalStats)
    ensures r.games == [] && r.totalGamesPlayed == 0
    ensures r.allTimeFrequency == Applied(map[], AllNumbers(r.games), true)
    ensures MapTotal(r.allTimeFrequency) == 0
  {
    GlobalStats([], map[], 0, now, now)
  }
}
