/** Collection utilities over games: the h:m:s duration text, the two
    averages, the common and unique numbers, the most recent games, the text
    search and the six sort options. All are pure; the sorts work on a copy. */
module Statistics {
  import opened Wrappers
  import opened SeqUtil
  import opened Text
  import opened Sorting
  import opened GameTypes

  // ---------------------------------------------------------------- formatDuration

  /** JavaScript's `%`: the remainder takes the sign of the dividend. */
  function JsRem(a: int, b: int): (r: int)
    requires b > 0
    ensures a >= 0 ==> r == a % b
    ensures a < 0 ==> -b < r <= 0
  {
    if a >= 0 then a % b else -((-a) % b)
  }

  datatype Clock = Clock(hours: int, minutes: int, seconds: int)

  /** The three fields of formatDuration: `Math.floor` of the milliseconds over
      1000 is Dafny's division by a positive divisor, the two remainders are
      JavaScript's. */
  function DurationParts(ms: int): (c: Clock) {
    var totalSeconds := ms / 1000;
    Clock(totalSeconds / 3600, JsRem(totalSeconds, 3600) / 60, JsRem(totalSeconds, 60))
  }

  lemma {:induction false} MulAtLeast(d: int, k: int)
    requires d > 0 && k >= 1
    ensures d * k >= d && d * -k <= -d
    decreases k
  {
    if k > 1 {
      MulAtLeast(d, k - 1);
      assert d * k == d * (k - 1) + d;
    }
  }

  /** Quotient and remainder are the only split with a remainder in 0..d-1. */
  lemma DivModUnique(a: int, d: int, q: int, r: int)
    requires d > 0 && a == d * q + r && 0 <= r < d
    ensures a / d == q && a % d == r
  {
    var k := q - a / d;
    assert d * k == a % d - r;
    if k > 0 {
      MulAtLeast(d, k);
    } else if k < 0 {
      MulAtLeast(d, -k);
    }
  }

  /** For a non-negative duration the fields are a mixed-radix split of the
      whole seconds: minutes and seconds below 60. */
  lemma DurationPartsSplit(ms: int)
    requires ms >= 0
    ensures var c := DurationParts(ms);
      && c.hours >= 0 && 0 <= c.minutes < 60 && 0 <= c.seconds < 60
      && c.hours * 3600 + c.minutes * 60 + c.seconds == ms / 1000
  {
    var t := ms / 1000;
    var h, u := t / 3600, t % 3600;
    var m, sec := u / 60, u % 60;
    assert t == 3600 * h + u && 0 <= u < 3600;
    assert u == 60 * m + sec && 0 <= sec < 60 && 0 <= m < 60;
    DivModUnique(t, 60, 60 * h + m, sec);
  }

  /** `String(v).padStart(2, '0')`. */
  function Pad2(v: int): string {
    PadStart(IntToString(v), 2, '0')
  }

  /** formatDuration: `HH:MM:SS`. */
  function FormatDuration(ms: int): string {
    var c := DurationParts(ms);
    Join([Pad2(c.hours), Pad2(c.minutes), Pad2(c.seconds)], ":")
  }

  /** Leading zeros do not change a decimal value. */
  lemma {:induction false} DigitsValueLeadingZeros(z: string, s: string)
    requires forall i :: 0 <= i < |z| ==> z[i] == '0'
    requires AllDigits(s)
    ensures AllDigits(z + s) && DigitsValue(z + s) == DigitsValue(s)
    decreases |s|
  {
    if s == [] {
      assert z + s == z;
      ZerosValue(z);
    } else {
      var p := s[..|s| - 1];
      DigitsValueLeadingZeros(z, p);
      assert (z + s)[..|z + s| - 1] == z + p;
    }
  }

  lemma {:induction false} ZerosValue(z: string)
    requires forall i :: 0 <= i < |z| ==> z[i] == '0'
    ensures AllDigits(z) && DigitsValue(z) == 0
    decreases |z|
  {
    if z != [] {
      ZerosValue(z[..|z| - 1]);
    }
  }

  /** A field below 100 pads to exactly two digits that read back as its value. */
  lemma Pad2ReadsBack(v: int)
    requires 0 <= v < 100
    ensures |Pad2(v)| >= 2 && AllDigits(Pad2(v)) && DigitsValue(Pad2(v)) == v
    ensures v < 60 ==> |Pad2(v)| == 2
  {
    var d := NatToString(v);
    if v >= 10 {
      assert NatToString(v / 10) == [DigitChar(v / 10)];
    }
    DigitsValueOfNatToString(v);
    var p := Pad2(v);
    DigitsValueLeadingZeros(p[..|p| - |d|], d);
    assert p == p[..|p| - |d|] + d;
  }

  /** A field of any size pads to at least two digits that read back as its value. */
  lemma Pad2ReadsBackAny(v: nat)
    ensures |Pad2(v)| >= 2 && AllDigits(Pad2(v)) && DigitsValue(Pad2(v)) == v
  {
    var d := NatToString(v);
    DigitsValueOfNatToString(v);
    var p := Pad2(v);
    DigitsValueLeadingZeros(p[..|p| - |d|], d);
    assert p == p[..|p| - |d|] + d;
  }

  /** formatDuration's text is the three padded fields joined by ':'; the
      minutes and seconds fields have exactly two digits, the hours at least two,
      and the fields are the mixed-radix split of the whole seconds. With
      Pad2ReadsBackAny each field reads back as its value. */
  lemma FormatDurationFields(ms: int)
    requires ms >= 0
    ensures var c := DurationParts(ms);
      && FormatDuration(ms) == Pad2(c.hours) + ":" + Pad2(c.minutes) + ":" + Pad2(c.seconds)
      && |Pad2(c.hours)| >= 2 && |Pad2(c.minutes)| == 2 && |Pad2(c.seconds)| == 2
      && 0 <= c.minutes < 60 && 0 <= c.seconds < 60
      && c.hours * 3600 + c.minutes * 60 + c.seconds == ms / 1000
  {
    var c := DurationParts(ms);
    DurationPartsSplit(ms);
    Pad2ReadsBackAny(c.hours);
    Pad2ReadsBack(c.minutes);
    Pad2ReadsBack(c.seconds);
    JoinThree(Pad2(c.hours), Pad2(c.minutes), Pad2(c.seconds), ":");
  }

  // ---------------------------------------------------------------- averages

  function Lengths(games: seq<LotoGame>): (r: seq<int>)
    ensures |r| == |games| && forall i :: 0 <= i < |games| ==> r[i] == |games[i].numbers|
  {
    seq(|games|, i requires 0 <= i < |games| => |games[i].numbers|)
  }

  /** calculateAverageNumbersPerGame: 0 without games, else draws per game. */
  function AverageNumbersPerGame(games: seq<LotoGame>): real {
    if |games| == 0 then 0.0 else Sum(Lengths(games)) as real / |games| as real
  }

  /** The reduce over lengths counts every draw of every game. */
  lemma {:induction false} LengthsSumToDraws(games: seq<LotoGame>)
    ensures Sum(Lengths(games)) == |AllNumbers(games)|
    decreases |games|
  {
    if games != [] {
      var n := |games| - 1;
      LengthsSumToDraws(games[..n]);
      assert Lengths(games)[..n] == Lengths(games[..n]);
    }
  }

  /** The average lies between the fewest and the most draws of a game, and
      is 0 without games. */
  lemma AverageNumbersBetween(games: seq<LotoGame>, lo: int, hi: int)
    requires forall i :: 0 <= i < |games| ==> lo <= |games[i].numbers| <= hi
    ensures games == [] ==> AverageNumbersPerGame(games) == 0.0
    ensures games != [] ==> lo as real <= AverageNumbersPerGame(games) <= hi as real
    ensures games != [] ==> AverageNumbersPerGame(games) == |AllNumbers(games)| as real / |games| as real
  {
    LengthsSumToDraws(games);
    if games != [] {
      SumBetween(Lengths(games), lo, hi);
      AverageBetween(Sum(Lengths(games)), |games|, lo, hi);
    }
  }

  /** The games calculateAverageDuration keeps: finished and with an end time. */
  predicate IsFinished(g: LotoGame) {
    !g.isActive && g.endTime.Some?
  }

  /** `calculateGameDuration(g) || 0` of each kept game. */
  function Durations(games: seq<LotoGame>): (r: seq<int>)
    ensures |r| == |Filter(games, IsFinished)|
  {
    var kept := Filter(games, IsFinished);
    FilterMembers(games, IsFinished);
    assert forall i :: 0 <= i < |kept| ==> kept[i] in kept && IsFinished(kept[i]);
    seq(|kept|, i requires 0 <= i < |kept| => kept[i].endTime.value - kept[i].startTime)
  }

  /** calculateAverageDuration: 0 without a finished game, else the mean. */
  function AverageDuration(games: seq<LotoGame>): real {
    var d := Durations(games);
    if |d| == 0 then 0.0 else Sum(d) as real / |d| as real
  }

  /** A running game, or one without an end time, changes nothing wherever it
      sits in the list. */
  lemma AverageDurationIgnoresUnfinished(a: seq<LotoGame>, g: LotoGame, b: seq<LotoGame>)
    requires !IsFinished(g)
    ensures AverageDuration(a + [g] + b) == AverageDuration(a + b)
  {
    FilterAppend(a + [g], b, IsFinished);
    FilterAppend(a, [g], IsFinished);
    FilterAppend(a, b, IsFinished);
    assert [g][..0] == [];
    assert Filter(a + [g] + b, IsFinished) == Filter(a + b, IsFinished);
  }

  /** The mean duration lies between the shortest and the longest finished game. */
  lemma AverageDurationBetween(games: seq<LotoGame>, lo: int, hi: int)
    requires forall i :: 0 <= i < |games| && IsFinished(games[i]) ==>
      lo <= games[i].endTime.value - games[i].startTime <= hi
    ensures Filter(games, IsFinished) == [] ==> AverageDuration(games) == 0.0
    ensures Filter(games, IsFinished) != [] ==> lo as real <= AverageDuration(games) <= hi as real
  {
    var kept := Filter(games, IsFinished);
    var d := Durations(games);
    if kept != [] {
      FilterMembers(games, IsFinished);
      forall j | 0 <= j < |d| ensures lo <= d[j] <= hi {
        assert kept[j] in kept;
        var i :| 0 <= i < |games| && games[i] == kept[j];
      }
      SumBetween(d, lo, hi);
      AverageBetween(Sum(d), |d|, lo, hi);
    }
  }

  // ---------------------------------------------------------------- set operations

  /** `Array.from(new Set(s))`: each value once, in order of first occurrence. */
  function Distinct(s: seq<int>): (r: seq<int>)
    decreases |s|
  {
    if s == [] then []
    else
      var p := s[..|s| - 1];
      if s[|s| - 1] in p then Distinct(p) else Distinct(p) + [s[|s| - 1]]
  }

  lemma {:induction false} DistinctMembers(s: seq<int>)
    ensures NoDup(Distinct(s))
    ensures forall x :: x in Distinct(s) <==> x in s
    decreases |s|
  {
    if s != [] {
      var p := s[..|s| - 1];
      DistinctMembers(p);
      assert s == p + [s[|s| - 1]];
      if s[|s| - 1] !in p {
        NoDupAppend(Distinct(p), s[|s| - 1]);
      }
    }
  }

  /** Each value is listed where it first occurs: the values come in the order of
      their first positions in `s`. */
  lemma {:induction false} DistinctOrder(s: seq<int>)
    ensures forall i, j :: 0 <= i < j < |Distinct(s)| ==> IndexOf(s, Distinct(s)[i]) < IndexOf(s, Distinct(s)[j])
    decreases |s|
  {
    if s != [] {
      var p := s[..|s| - 1];
      var v := s[|s| - 1];
      var d := Distinct(p);
      DistinctOrder(p);
      DistinctMembers(p);
      assert forall x :: x in d ==> IndexOf(s, x) == IndexOf(p, x);
      if v !in p {
        assert IndexOf(s, v) == |p|;
        assert Distinct(s) == d + [v];
        forall i, j | 0 <= i < j < |Distinct(s)|
          ensures IndexOf(s, Distinct(s)[i]) < IndexOf(s, Distinct(s)[j])
        {
          assert Distinct(s)[i] == d[i] && d[i] in d;
          if j < |d| {
            assert Distinct(s)[j] == d[j] && d[j] in d;
          }
        }
      }
    }
  }

  /** `numberSets.every(set => set.has(x))`. */
  predicate InEveryGame(games: seq<LotoGame>, x: int) {
    forall i | 0 <= i < |games| :: x in games[i].numbers
  }

  /** findCommonNumbers. */
  function CommonNumbers(games: seq<LotoGame>): seq<int> {
    if games == [] then [] else Filter(Distinct(games[0].numbers), x => InEveryGame(games, x))
  }

  /** A number is common iff there is a game and every game drew it; it is
      listed once. */
  lemma CommonNumbersMembers(games: seq<LotoGame>, x: int)
    ensures x in CommonNumbers(games) <==> games != [] && InEveryGame(games, x)
    ensures NoDup(CommonNumbers(games))
  {
    if games != [] {
      var first := Distinct(games[0].numbers);
      DistinctMembers(games[0].numbers);
      FilterCount(first, x => InEveryGame(games, x), x);
      CountPositive(first, x);
      CountPositive(CommonNumbers(games), x);
      FilterKeepsNoDup(first, x => InEveryGame(games, x));
    }
  }

  /** The common numbers come in the order of their first draws in the first game. */
  lemma CommonNumbersOrder(games: seq<LotoGame>)
    ensures games != [] ==>
      forall i, j :: 0 <= i < j < |CommonNumbers(games)| ==>
        IndexOf(games[0].numbers, CommonNumbers(games)[i]) < IndexOf(games[0].numbers, CommonNumbers(games)[j])
  {
    if games != [] {
      var first := games[0].numbers;
      var d := Distinct(first);
      var c := CommonNumbers(games);
      FilterInOrder(d, x => InEveryGame(games, x));
      DistinctOrder(first);
      var idx :| SubsequenceAt(c, d, idx);
      forall i, j | 0 <= i < j < |c| ensures IndexOf(first, c[i]) < IndexOf(first, c[j]) {
        assert c[i] == d[idx[i]] && c[j] == d[idx[j]] && idx[i] < idx[j];
      }
    }
  }

  /** findUniqueNumbers: the target's draws, in order, that no other game has. */
  function UniqueNumbers(target: LotoGame, others: seq<LotoGame>): seq<int> {
    var otherNumbers := AllNumbers(others);
    Filter(target.numbers, x => x !in otherNumbers)
  }

  /** Each of the target's draws is kept, with all its copies, exactly when no
      other game drew it. */
  lemma UniqueNumbersMembers(target: LotoGame, others: seq<LotoGame>, x: int)
    ensures Count(UniqueNumbers(target, others), x)
         == if exists i :: 0 <= i < |others| && x in others[i].numbers then 0 else Count(target.numbers, x)
    ensures x in UniqueNumbers(target, others) <==>
      x in target.numbers && forall i :: 0 <= i < |others| ==> x !in others[i].numbers
  {
    var otherNumbers := AllNumbers(others);
    AllNumbersMember(others, x);
    FilterCount(target.numbers, y => y !in otherNumbers, x);
    CountPositive(UniqueNumbers(target, others), x);
    CountPositive(target.numbers, x);
  }

  /** The unique numbers keep the order of the target's draws. */
  lemma UniqueNumbersInOrder(target: LotoGame, others: seq<LotoGame>)
    ensures IsSubsequence(UniqueNumbers(target, others), target.numbers)
  {
    var otherNumbers := AllNumbers(others);
    FilterInOrder(target.numbers, x => x !in otherNumbers);
  }

  /** A number unique to the target is never common to the target and a
      non-empty list of others. */
  lemma UniqueIsNotCommon(target: LotoGame, others: seq<LotoGame>, x: int)
    requires others != []
    ensures !(x in UniqueNumbers(target, others) && x in CommonNumbers([target] + others))
  {
    UniqueNumbersMembers(target, others, x);
    CommonNumbersMembers([target] + others, x);
    if x in CommonNumbers([target] + others) {
      assert x in ([target] + others)[1].numbers;
    }
  }

  // ---------------------------------------------------------------- recent, search, sort

  /** `new Date(b.date).getTime() - new Date(a.date).getTime()`. */
  function ByDateDesc(a: LotoGame, b: LotoGame): int { b.date.ms - a.date.ms }
  function ByDateAsc(a: LotoGame, b: LotoGame): int { a.date.ms - b.date.ms }
  /** `a.name.localeCompare(b.name)`, as code-point comparison. */
  function ByNameAsc(a: LotoGame, b: LotoGame): int { StrCompare(a.name, b.name) }
  function ByNameDesc(a: LotoGame, b: LotoGame): int { StrCompare(b.name, a.name) }
  function ByNumbersDesc(a: LotoGame, b: LotoGame): int { |b.numbers| - |a.numbers| }
  function ByNumbersAsc(a: LotoGame, b: LotoGame): int { |a.numbers| - |b.numbers| }

  /** getMostRecentGames: a sorted copy, newest first, cut to `count`. */
  function MostRecentGames(games: seq<LotoGame>, count: int): seq<LotoGame> {
    SliceTo(Sort(games, ByDateDesc), count)
  }

  lemma DateOrdersArePreorders()
    ensures TotalPreorder(ByDateDesc) && TotalPreorder(ByDateAsc)
    ensures TotalPreorder(ByNumbersDesc) && TotalPreorder(ByNumbersAsc)
  {
  }

  /** At most `count` games (all of them when fewer), newest first, each one of
      the input's games. */
  lemma MostRecentGamesShape(games: seq<LotoGame>, count: int)
    requires count >= 0
    ensures var r := MostRecentGames(games, count);
      && |r| == (if count < |games| then count else |games|)
      && multiset(r) <= multiset(games)
      && forall i, j :: 0 <= i < j < |r| ==> r[i].date.ms >= r[j].date.ms
  {
    var sorted := Sort(games, ByDateDesc);
    DateOrdersArePreorders();
    SortIsSorted(games, ByDateDesc);
    var r := MostRecentGames(games, count);
    assert sorted == r + sorted[|r|..];
    assert multiset(sorted) == multiset(r) + multiset(sorted[|r|..]);
  }

  /** No game left out is newer than the oldest game kept. */
  lemma MostRecentGamesCutoff(games: seq<LotoGame>, count: int, g: LotoGame)
    requires count > 0 && g in games && g !in MostRecentGames(games, count)
    ensures var r := MostRecentGames(games, count);
      r != [] && g.date.ms <= r[|r| - 1].date.ms
  {
    DateOrdersArePreorders();
    var n := if count < |games| then count else |games|;
    assert MostRecentGames(games, count) == Sort(games, ByDateDesc)[..n];
    if n == |games| {
      SortSameElements(games, ByDateDesc, g);
      assert false;
    }
    SortPrefixCutoff(games, ByDateDesc, n, g);
  }

  /** The field test of searchGames, against an already lowered, trimmed query. */
  predicate Matches(g: LotoGame, q: string) {
    Contains(ToLower(g.name), q) || Contains(g.date.iso, q) || Contains(ToLower(g.id), q)
  }

  /** searchGames. */
  function SearchGames(games: seq<LotoGame>, query: string): seq<LotoGame> {
    var q := Trim(ToLower(query));
    if q == [] then games else Filter(games, g => Matches(g, q))
  }

  /** A blank query returns the list itself; otherwise exactly the matching
      games are kept, in order, each as often as in the input. */
  lemma SearchGamesMembers(games: seq<LotoGame>, query: string, g: LotoGame)
    ensures var q := Trim(ToLower(query));
      && (q == [] ==> SearchGames(games, query) == games)
      && (q != [] ==> Count(SearchGames(games, query), g) == if Matches(g, q) then Count(games, g) else 0)
      && (q != [] ==> (g in SearchGames(games, query) <==> g in games && Matches(g, q)))
  {
    var q := Trim(ToLower(query));
    if q != [] {
      FilterCount(games, g => Matches(g, q), g);
      CountPositive(SearchGames(games, query), g);
      CountPositive(games, g);
    }
  }

  /** Searching the result again with the same query changes nothing. */
  lemma SearchGamesIdempotent(games: seq<LotoGame>, query: string)
    ensures SearchGames(SearchGames(games, query), query) == SearchGames(games, query)
  {
    var q := Trim(ToLower(query));
    if q != [] {
      FilterIdempotent(games, g => Matches(g, q));
    }
  }

  datatype SortOption = DateDesc | DateAsc | NameAsc | NameDesc | NumbersDesc | NumbersAsc

  function Comparator(option: SortOption): (LotoGame, LotoGame) -> int {
    match option
    case DateDesc => ByDateDesc
    case DateAsc => ByDateAsc
    case NameAsc => ByNameAsc
    case NameDesc => ByNameDesc
    case NumbersDesc => ByNumbersDesc
    case NumbersAsc => ByNumbersAsc
  }

  /** sortGames: a stably sorted copy. */
  function SortGames(games: seq<LotoGame>, option: SortOption): seq<LotoGame> {
    Sort(games, Comparator(option))
  }

  lemma NameOrdersArePreorders()
    ensures TotalPreorder(ByNameAsc) && Antisymmetric(ByNameAsc)
    ensures TotalPreorder(ByNameDesc)
  {
    forall a, b ensures ByNameAsc(a, b) == -ByNameAsc(b, a) {
      StrCompareAntisymmetric(a.name, b.name);
    }
    forall a, b, c | ByNameAsc(a, b) <= 0 && ByNameAsc(b, c) <= 0 ensures ByNameAsc(a, c) <= 0 {
      StrCompareTransitive(a.name, b.name, c.name);
    }
    NegatedIsTotalPreorder(ByNameAsc, ByNameDesc);
  }

  lemma ComparatorIsPreorder(option: SortOption)
    ensures TotalPreorder(Comparator(option))
  {
    DateOrdersArePreorders();
    NameOrdersArePreorders();
  }

  /** Every option yields a permutation of the input, ordered by its comparator. */
  lemma SortGamesIsSortedPermutation(games: seq<LotoGame>, option: SortOption)
    ensures multiset(SortGames(games, option)) == multiset(games)
    ensures SortedBy(SortGames(games, option), Comparator(option))
  {
    ComparatorIsPreorder(option);
    SortIsSorted(games, Comparator(option));
  }

  /** numbers-desc / numbers-asc give non-increasing / non-decreasing draw counts;
      date-desc / date-asc give non-increasing / non-decreasing dates. */
  lemma SortGamesOrders(games: seq<LotoGame>, i: nat, j: nat)
    requires i < j < |games|
    ensures |SortGames(games, NumbersDesc)[i].numbers| >= |SortGames(games, NumbersDesc)[j].numbers|
    ensures |SortGames(games, NumbersAsc)[i].numbers| <= |SortGames(games, NumbersAsc)[j].numbers|
    ensures SortGames(games, DateDesc)[i].date.ms >= SortGames(games, DateDesc)[j].date.ms
    ensures SortGames(games, DateAsc)[i].date.ms <= SortGames(games, DateAsc)[j].date.ms
  {
    SortGamesIsSortedPermutation(games, NumbersDesc);
    SortGamesIsSortedPermutation(games, NumbersAsc);
    SortGamesIsSortedPermutation(games, DateDesc);
    SortGamesIsSortedPermutation(games, DateAsc);
  }
}
