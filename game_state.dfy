/** The live game hook: starting and ending a game, and drawing or withdrawing
    numbers in the active game, while the all-time frequency map follows the
    draws. The state is the persisted games list, frequency map and game
    counter; the active game is re-derived from the list as its first game
    flagged active. The confirmation dialogs, the clock and the uuid generator
    are parameters. */
module GameState {
  import opened Wrappers
  import opened SeqUtil
  import opened Text
  import opened Sorting
  import opened GameTypes
  import opened Storage

  /** The change the hook makes with `games.map(g => g.id === id ? … : g)`. */
  datatype Edit =
    | Append(n: int)          // addNumber
    | Withdraw(n: int)        // removeNumber
    | DropLast                // removeLastNumber
    | Finish(endTime: int)    // endGame, and startNewGame closing the running game

  function ApplyEdit(g: LotoGame, e: Edit): LotoGame {
    match e
    case Append(n) => g.(numbers := g.numbers + [n])
    case Withdraw(n) => g.(numbers := Filter(g.numbers, (y: int) => y != n))
    case DropLast => g.(numbers := SliceTo(g.numbers, -1))
    case Finish(t) => g.(isActive := false, endTime := Some(t))
  }

  /** Apply `e` to every game that carries `id` and keep the others. */
  function EditWhere(games: seq<LotoGame>, id: string, e: Edit): (r: seq<LotoGame>)
    ensures |r| == |games|
    ensures forall i :: 0 <= i < |games| ==>
      r[i] == if games[i].id == id then ApplyEdit(games[i], e) else games[i]
  {
    seq(|games|, i requires 0 <= i < |games| =>
      if games[i].id == id then ApplyEdit(games[i], e) else games[i])
  }

  /** `name || "Partie #" + (totalGamesPlayed + 1)`. */
  function DefaultName(name: string, totalGamesPlayed: int): string {
    if name == "" then "Partie #" + IntToString(totalGamesPlayed + 1) else name
  }

  /** A game always gets a non-empty name: the one given, or "Partie #" and the
      number that reads back as one more than the games played so far. */
  lemma DefaultNameReadsBack(name: string, totalGamesPlayed: int)
    ensures DefaultName(name, totalGamesPlayed) != ""
    ensures name != "" ==> DefaultName(name, totalGamesPlayed) == name
    ensures name == "" ==>
      var d := DefaultName(name, totalGamesPlayed);
      |d| > 8 && d[..8] == "Partie #" && ParseInt(d[8..]) == Some(totalGamesPlayed + 1)
  {
    if name == "" {
      var d := DefaultName(name, totalGamesPlayed);
      IntToStringReadsBack(totalGamesPlayed + 1);
      assert d[8..] == IntToString(totalGamesPlayed + 1);
    }
  }

  /** The game startNewGame appends: no draws yet, active, started now. */
  function NewGame(id: string, name: string, totalGamesPlayed: int, now: Instant): LotoGame {
    LotoGame(id, DefaultName(name, totalGamesPlayed), now, now.ms, None, [], [], true)
  }

  /** The games once startNewGame has closed the running game, if any, at `t`. */
  function Closed(games: seq<LotoGame>, t: int): seq<LotoGame> {
    var k := ActiveIndex(games);
    if k.None? then games else EditWhere(games, games[k.value].id, Finish(t))
  }

  ghost predicate AtMostOneActive(games: seq<LotoGame>) {
    forall i, j :: 0 <= i < j < |games| && games[i].isActive ==> !games[j].isActive
  }

  /** The running game never holds the same number twice. */
  ghost predicate ActiveDrawsDistinct(games: seq<LotoGame>) {
    forall i :: 0 <= i < |games| && games[i].isActive ==> NoDup(games[i].numbers)
  }

  /** The hook's invariant: the frequency map is the recount of all draws
      (what recalculateFrequency would produce), ids are distinct, and at most
      one game is running, without repeated draws. */
  ghost predicate Consistent(games: seq<LotoGame>, frequency: Frequency) {
    && frequency == Applied(map[], AllNumbers(games), true)
    && DistinctIds(games)
    && AtMostOneActive(games)
    && ActiveDrawsDistinct(games)
  }

  /** A fresh application starts from consistent statistics: no game, and the
      empty map as the recount of no draws. */
  lemma InitialStatsConsistent(now: string)
    ensures var stats := InitializeGlobalStats(now);
      Consistent(stats.games, stats.allTimeFrequency) && ActiveIndex(stats.games).None?
  {
  }

  /** With distinct ids, editing by the id of game k edits game k and no other. */
  lemma EditWhereDistinct(games: seq<LotoGame>, k: nat, e: Edit)
    requires DistinctIds(games) && k < |games|
    ensures EditWhere(games, games[k].id, e) == games[k := ApplyEdit(games[k], e)]
  {
    var r := EditWhere(games, games[k].id, e);
    forall i | 0 <= i < |games| ensures r[i] == games[k := ApplyEdit(games[k], e)][i] {
      if i != k {
        assert games[i].id != games[k].id;
      }
    }
  }

  /** Edits other than Finish leave every game's flag alone, so the active game
      stays the same one. */
  lemma EditKeepsActive(games: seq<LotoGame>, id: string, e: Edit)
    requires !e.Finish?
    ensures ActiveIndex(EditWhere(games, id, e)) == ActiveIndex(games)
  {
    var r := EditWhere(games, id, e);
    assert forall i :: 0 <= i < |games| ==> r[i].isActive == games[i].isActive;
  }

  /** Replacing game k by a game with the same id, active only if game k was
      and then without repeated draws, keeps the structural part of the invariant. */
  lemma ReplaceKeepsShape(games: seq<LotoGame>, k: nat, g: LotoGame)
    requires k < |games| && g.id == games[k].id
    requires g.isActive ==> games[k].isActive && NoDup(g.numbers)
    requires DistinctIds(games) && AtMostOneActive(games) && ActiveDrawsDistinct(games)
    ensures var u := games[k := g];
      DistinctIds(u) && AtMostOneActive(u) && ActiveDrawsDistinct(u)
  {
  }

  /** addNumber's update keeps the invariant: the increment of `n` is exactly
      the recount once `n` is appended to the running game. */
  lemma AppendKeepsConsistent(games: seq<LotoGame>, frequency: Frequency, k: nat, n: int)
    requires Consistent(games, frequency)
    requires ActiveIndex(games) == Some(k) && n !in games[k].numbers
    ensures Consistent(EditWhere(games, games[k].id, Append(n)), Applied(frequency, [n], true))
  {
    var g := ApplyEdit(games[k], Append(n));
    EditWhereDistinct(games, k, Append(n));
    NoDupAppend(games[k].numbers, n);
    ReplaceKeepsShape(games, k, g);
    var u := games[k := g];
    forall y ensures Count(AllNumbers(u), y) == Count(AllNumbers(games), y) + (if y == n then 1 else 0) {
      AllNumbersUpdate(games, k, g, y);
      CountAppend(games[k].numbers, [n], y);
    }
    RecountAfterIncrement(AllNumbers(games), AllNumbers(u), n);
  }

  /** removeNumber's update keeps the invariant: the running game held `n`
      once, the filter drops that one draw and the decrement follows it. */
  lemma WithdrawKeepsConsistent(games: seq<LotoGame>, frequency: Frequency, k: nat, n: int)
    requires Consistent(games, frequency)
    requires ActiveIndex(games) == Some(k) && n in games[k].numbers
    ensures Consistent(EditWhere(games, games[k].id, Withdraw(n)), Applied(frequency, [n], false))
    ensures n !in EditWhere(games, games[k].id, Withdraw(n))[k].numbers
  {
    var nums := games[k].numbers;
    var g := ApplyEdit(games[k], Withdraw(n));
    EditWhereDistinct(games, k, Withdraw(n));
    FilterKeepsNoDup(nums, (y: int) => y != n);
    ReplaceKeepsShape(games, k, g);
    var u := games[k := g];
    NoDupCountAtMostOne(nums, n);
    forall y ensures Count(AllNumbers(games), y) == Count(AllNumbers(u), y) + (if y == n then 1 else 0) {
      AllNumbersUpdate(games, k, g, y);
      FilterCount(nums, (y: int) => y != n, y);
    }
    RecountAfterDecrement(AllNumbers(games), AllNumbers(u), n);
    FilterCount(nums, (y: int) => y != n, n);
    CountPositive(g.numbers, n);
  }

  /** removeLastNumber's update keeps the invariant: the slice drops the last
      draw and the decrement is for that number. */
  lemma DropLastKeepsConsistent(games: seq<LotoGame>, frequency: Frequency, k: nat)
    requires Consistent(games, frequency)
    requires ActiveIndex(games) == Some(k) && games[k].numbers != []
    ensures var last := games[k].numbers[|games[k].numbers| - 1];
      Consistent(EditWhere(games, games[k].id, DropLast), Applied(frequency, [last], false))
  {
    var nums := games[k].numbers;
    var last := nums[|nums| - 1];
    var g := ApplyEdit(games[k], DropLast);
    assert nums == g.numbers + [last];
    EditWhereDistinct(games, k, DropLast);
    ReplaceKeepsShape(games, k, g);
    var u := games[k := g];
    forall y ensures Count(AllNumbers(games), y) == Count(AllNumbers(u), y) + (if y == last then 1 else 0) {
      AllNumbersUpdate(games, k, g, y);
      CountAppend(g.numbers, [last], y);
    }
    RecountAfterDecrement(AllNumbers(games), AllNumbers(u), last);
  }

  /** Closing the running game keeps the invariant. */
  lemma FinishKeepsConsistent(games: seq<LotoGame>, frequency: Frequency, k: nat, t: int)
    requires Consistent(games, frequency)
    requires ActiveIndex(games) == Some(k)
    ensures Consistent(EditWhere(games, games[k].id, Finish(t)), frequency)
  {
    var g := ApplyEdit(games[k], Finish(t));
    EditWhereDistinct(games, k, Finish(t));
    ReplaceKeepsShape(games, k, g);
    var u := games[k := g];
    forall y ensures Count(AllNumbers(u), y) == Count(AllNumbers(games), y) {
      AllNumbersUpdate(games, k, g, y);
    }
    RecountOfSameDraws(AllNumbers(u), AllNumbers(games));
  }

  /** Closing the running game leaves no game running and keeps the ids. */
  lemma FinishLeavesNoneRunning(games: seq<LotoGame>, k: nat, t: int)
    requires DistinctIds(games) && AtMostOneActive(games)
    requires ActiveIndex(games) == Some(k)
    ensures var u := EditWhere(games, games[k].id, Finish(t));
      ActiveIndex(u).None? && Ids(u) == Ids(games)
  {
    var u := EditWhere(games, games[k].id, Finish(t));
    EditWhereDistinct(games, k, Finish(t));
    forall i | 0 <= i < |u| ensures !u[i].isActive {
      if i > k {
        assert games[k].isActive;
      }
    }
    assert forall i :: 0 <= i < |u| ==> u[i].id == games[i].id;
    forall x | x in Ids(games) ensures x in Ids(u) {
      var i :| 0 <= i < |games| && games[i].id == x;
      assert u[i] in u;
    }
  }

  /** Appending a fresh game when none is running keeps the invariant and
      makes the new game the active one. */
  lemma StartKeepsConsistent(games: seq<LotoGame>, frequency: Frequency, g: LotoGame)
    requires Consistent(games, frequency) && ActiveIndex(games).None?
    requires g.id !in Ids(games) && g.numbers == []
    ensures Consistent(games + [g], frequency)
    ensures ActiveIndex(games + [g]) == if g.isActive then Some(|games|) else None
  {
    AllNumbersAppend(games, g);
    assert AllNumbers(games) + g.numbers == AllNumbers(games);
    var u := games + [g];
    forall i | 0 <= i < |games| ensures u[i].id != g.id && !u[i].isActive {
      assert games[i] in games;
    }
  }

  /** removeLastNumber's whole transition on the running game: it stays the
      running game, and the invariant is kept. */
  lemma DropLastStep(games: seq<LotoGame>, frequency: Frequency)
    requires ActiveIndex(games).Some? && games[ActiveIndex(games).value].numbers != []
    ensures var k := ActiveIndex(games).value;
      var nums := games[k].numbers;
      var u := EditWhere(games, games[k].id, DropLast);
      && ActiveIndex(u) == Some(k)
      && (Consistent(games, frequency) ==> Consistent(u, Applied(frequency, [nums[|nums| - 1]], false)))
  {
    var k := ActiveIndex(games).value;
    EditKeepsActive(games, games[k].id, DropLast);
    if Consistent(games, frequency) {
      DropLastKeepsConsistent(games, frequency, k);
    }
  }

  /** startNewGame keeps the invariant when the new id is fresh, and the new
      game becomes the only running one. */
  lemma StartNewGameKeepsConsistent(games: seq<LotoGame>, frequency: Frequency, g: LotoGame, t: int)
    requires Consistent(games, frequency)
    requires g.id !in Ids(games) && g.numbers == [] && g.isActive
    ensures Consistent(Closed(games, t) + [g], frequency)
    ensures ActiveIndex(Closed(games, t) + [g]) == Some(|games|)
  {
    var c := Closed(games, t);
    var k := ActiveIndex(games);
    if k.Some? {
      FinishKeepsConsistent(games, frequency, k.value, t);
      FinishLeavesNoneRunning(games, k.value, t);
    }
    StartKeepsConsistent(c, frequency, g);
  }

  /** Drawing a number and then withdrawing the last draw restores both the
      games and the frequency map. */
  lemma AppendThenDropLast(games: seq<LotoGame>, frequency: Frequency, k: nat, n: int)
    requires Consistent(games, frequency)
    requires ActiveIndex(games) == Some(k) && n !in games[k].numbers
    ensures var u := EditWhere(games, games[k].id, Append(n));
      && EditWhere(u, games[k].id, DropLast) == games
      && Applied(Applied(frequency, [n], true), [n], false) == frequency
  {
    var id := games[k].id;
    var g := ApplyEdit(games[k], Append(n));
    EditWhereDistinct(games, k, Append(n));
    ReplaceKeepsShape(games, k, g);
    var u := games[k := g];
    EditWhereDistinct(u, k, DropLast);
    assert ApplyEdit(g, DropLast) == games[k] by {
      assert SliceTo(g.numbers, -1) == games[k].numbers;
    }
    assert u[k := games[k]] == games;
    RecountCounts(games);
    if n in frequency {
      CountPositive(AllNumbers(games), n);
      assert Get(frequency, n) == Count(AllNumbers(games), n);
    }
    IncrementThenDecrement(frequency, n);
  }

  /** The state useGameState reads and writes through setGlobalStats. */
  class GameState {
    var games: seq<LotoGame>
    var allTimeFrequency: Frequency
    var totalGamesPlayed: int

    ghost predicate Valid()
      reads this
    {
      Consistent(games, allTimeFrequency)
    }

    constructor (stats: GlobalStats)
      ensures games == stats.games && allTimeFrequency == stats.allTimeFrequency
      ensures totalGamesPlayed == stats.totalGamesPlayed
      ensures Consistent(stats.games, stats.allTimeFrequency) ==> Valid()
    {
      games := stats.games;
      allTimeFrequency := stats.allTimeFrequency;
      totalGamesPlayed := stats.totalGamesPlayed;
    }

    /** `activeGame`: `games.find(g => g.isActive) || null`. */
    function ActiveGame(): (r: Option<LotoGame>)
      reads this
      ensures r.None? <==> forall i :: 0 <= i < |games| ==> !games[i].isActive
      ensures r.Some? ==> r.value.isActive && r.value in games
    {
      var k := ActiveIndex(games);
      if k.None? then None else Some(games[k.value])
    }

    /** isNumberDrawn: the number is among the active game's draws. */
    function IsNumberDrawn(n: int): (b: bool)
      reads this
      ensures b ==> ActiveGame().Some? && n in ActiveGame().value.numbers
      ensures ActiveGame().Some? && n in ActiveGame().value.numbers ==> b
    {
      var a := ActiveGame();
      a.Some? && n in a.value.numbers
    }

    /** getGameDuration with the current time supplied: from the active game's
        start to its end, or to now while it has none. */
    function GameDuration(now: int): (d: Option<int>)
      reads this
      ensures d.Some? <==> ActiveGame().Some?
      ensures d.Some? && ActiveGame().value.endTime.None? ==> d.value == now - ActiveGame().value.startTime
      ensures d.Some? && ActiveGame().value.endTime.Some? ==>
        d.value == ActiveGame().value.endTime.value - ActiveGame().value.startTime
    {
      var a := ActiveGame();
      if a.None? then None
      else Some(a.value.endTime.GetOr(now) - a.value.startTime)
    }

    /** addNumber: refused without a running game, outside 1..90, or when the
        number is already drawn; otherwise appended and counted. */
    method AddNumber(n: int) returns (ok: bool)
      modifies this
      ensures ok <==> old(ActiveGame()).Some? && 1 <= n <= 90 && !old(IsNumberDrawn(n))
      ensures !ok ==> games == old(games) && allTimeFrequency == old(allTimeFrequency)
      ensures ok ==> games == EditWhere(old(games), old(ActiveGame()).value.id, Append(n))
      ensures ok ==> allTimeFrequency == Applied(old(allTimeFrequency), [n], true)
      ensures ok ==> IsNumberDrawn(n)
      ensures totalGamesPlayed == old(totalGamesPlayed)
      ensures old(Valid()) ==> Valid()
    {
      var active := ActiveGame();
      if active.None? || n < 1 || n > 90 || n in active.value.numbers {
        return false;
      }
      ghost var before, frequency, k := games, allTimeFrequency, ActiveIndex(games).value;
      games := EditWhere(games, active.value.id, Append(n));
      allTimeFrequency := UpdateFrequency(allTimeFrequency, [n], true);
      ok := true;
      EditKeepsActive(before, active.value.id, Append(n));
      if Consistent(before, frequency) {
        AppendKeepsConsistent(before, frequency, k, n);
      }
    }

    /** removeNumber: refused without a running game, when the number is not
        drawn, or when the user declines; otherwise filtered out and uncounted. */
    method RemoveNumber(n: int, confirmed: bool) returns (ok: bool)
      modifies this
      ensures ok <==> old(IsNumberDrawn(n)) && confirmed
      ensures !ok ==> games == old(games) && allTimeFrequency == old(allTimeFrequency)
      ensures ok ==> games == EditWhere(old(games), old(ActiveGame()).value.id, Withdraw(n))
      ensures ok ==> allTimeFrequency == Applied(old(allTimeFrequency), [n], false)
      ensures ok ==> ActiveGame().Some? && ActiveIndex(games) == old(ActiveIndex(games))
      ensures ok && old(Valid()) ==> !IsNumberDrawn(n)
      ensures totalGamesPlayed == old(totalGamesPlayed)
      ensures old(Valid()) ==> Valid()
    {
      var active := ActiveGame();
      if active.None? || n !in active.value.numbers || !confirmed {
        return false;
      }
      ghost var before, frequency, k := games, allTimeFrequency, ActiveIndex(games).value;
      games := EditWhere(games, active.value.id, Withdraw(n));
      allTimeFrequency := UpdateFrequency(allTimeFrequency, [n], false);
      ok := true;
      EditKeepsActive(before, active.value.id, Withdraw(n));
      if Consistent(before, frequency) {
        WithdrawKeepsConsistent(before, frequency, k, n);
      }
    }

    /** removeLastNumber: refused without a running game or without draws;
        otherwise the last draw is sliced off and uncounted. */
    method RemoveLastNumber() returns (ok: bool)
      modifies this
      ensures ok <==> old(ActiveGame()).Some? && old(ActiveGame()).value.numbers != []
      ensures !ok ==> games == old(games) && allTimeFrequency == old(allTimeFrequency)
      ensures ok ==> games == EditWhere(old(games), old(ActiveGame()).value.id, DropLast)
      ensures ok ==> var drawn := old(ActiveGame()).value.numbers;
        allTimeFrequency == Applied(old(allTimeFrequency), [drawn[|drawn| - 1]], false)
      ensures ok ==> ActiveIndex(games) == old(ActiveIndex(games))
      ensures totalGamesPlayed == old(totalGamesPlayed)
      ensures old(Valid()) ==> Valid()
    {
      var active := ActiveGame();
      if active.None? || active.value.numbers == [] {
        return false;
      }
      var drawn := active.value.numbers;
      var lastNumber := drawn[|drawn| - 1];
      ghost var before, frequency := games, allTimeFrequency;
      games := EditWhere(games, active.value.id, DropLast);
      allTimeFrequency := UpdateFrequency(allTimeFrequency, [lastNumber], false);
      ok := true;
      DropLastStep(before, frequency);
    }

    /** endGame: closes the running game at `now`; nothing happens without one. */
    method EndGame(now: Instant)
      modifies this
      ensures old(ActiveGame()).None? ==> games == old(games)
      ensures old(ActiveGame()).Some? ==> games == EditWhere(old(games), old(ActiveGame()).value.id, Finish(now.ms))
      ensures allTimeFrequency == old(allTimeFrequency) && totalGamesPlayed == old(totalGamesPlayed)
      ensures old(Valid()) ==> Valid() && ActiveGame().None?
    {
      var active := ActiveGame();
      if active.None? {
        return;
      }
      ghost var before, k := games, ActiveIndex(games).value;
      games := EditWhere(games, active.value.id, Finish(now.ms));
      if Consistent(before, allTimeFrequency) {
        FinishKeepsConsistent(before, allTimeFrequency, k, now.ms);
        FinishLeavesNoneRunning(before, k, now.ms);
      }
    }

    /** startNewGame: with a game running and the user declining, nothing
        happens; otherwise the running game (if any) is closed at `now`, a new
        active game with id `newId` is appended and the counter goes up. */
    method StartNewGame(name: string, confirmed: bool, newId: string, now: Instant) returns (started: bool)
      modifies this
      ensures started <==> old(ActiveGame()).None? || confirmed
      ensures !started ==> games == old(games) && totalGamesPlayed == old(totalGamesPlayed)
      ensures started ==> games == Closed(old(games), now.ms) + [NewGame(newId, name, old(totalGamesPlayed), now)]
      ensures started ==> totalGamesPlayed == old(totalGamesPlayed) + 1
      ensures allTimeFrequency == old(allTimeFrequency)
      ensures started && old(Valid()) && newId !in old(Ids(games)) ==>
        Valid() && ActiveGame() == Some(NewGame(newId, name, old(totalGamesPlayed), now))
    {
      var existing := ActiveGame();
      if existing.Some? && !confirmed {
        return false;
      }
      var newGame := NewGame(newId, name, totalGamesPlayed, now);
      ghost var before, wasValid := games, Valid();
      if existing.Some? {
        games := EditWhere(games, existing.value.id, Finish(now.ms));
      }
      games := games + [newGame];
      totalGamesPlayed := totalGamesPlayed + 1;
      started := true;
      assert games == Closed(before, now.ms) + [newGame];
      if wasValid && newId !in Ids(before) {
        StartNewGameKeepsConsistent(before, allTimeFrequency, newGame, now.ms);
      }
    }
  }
}
