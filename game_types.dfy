/** The data model: rounds (manches), games (parties) and the persisted global
    statistics. Timestamps are epoch milliseconds; a game's `date` keeps both its
    ISO text (searched and displayed) and its parsed value (used for ordering). */
module GameTypes {
  import opened Wrappers
  import opened SeqUtil

  /** An ISO-8601 timestamp together with `new Date(iso).getTime()`. */
  datatype Instant = Instant(iso: string, ms: int)

  /** A round: draws in chronological order and the manually recorded
      1-based positions of the four milestones. */
  datatype Manche = Manche(
    id: string,
    mancheNumber: int,
    startTime: int,
    endTime: Option<int>,
    numbers: seq<int>,
    isActive: bool,
    quineAt: Option<int>,
    deuxiemeQuineAt: Option<int>,
    doubleQuineAt: Option<int>,
    cartonPleinAt: Option<int>)

  /** A game. The hooks and utilities read the flat `numbers`; the merge on
      import and the games list read `manches`. */
  datatype LotoGame = LotoGame(
    id: string,
    name: string,
    date: Instant,
    startTime: int,
    endTime: Option<int>,
    numbers: seq<int>,
    manches: seq<Manche>,
    isActive: bool)

  datatype GlobalStats = GlobalStats(
    games: seq<LotoGame>,
    allTimeFrequency: map<int, int>,
    totalGamesPlayed: int,
    createdAt: string,
    lastUpdated: string)

  /** The flat draws of all games, game after game. */
  function AllNumbers(games: seq<LotoGame>): seq<int>
    decreases |games|
  {
    if games == [] then [] else AllNumbers(games[..|games| - 1]) + games[|games| - 1].numbers
  }

  /** Appending a game appends its draws. */
  lemma AllNumbersAppend(games: seq<LotoGame>, g: LotoGame)
    ensures AllNumbers(games + [g]) == AllNumbers(games) + g.numbers
  {
    assert (games + [g])[..|games|] == games;
  }

  /** A number is among all draws iff some game drew it. */
  lemma {:induction false} AllNumbersMember(games: seq<LotoGame>, x: int)
    ensures x in AllNumbers(games) <==> exists i :: 0 <= i < |games| && x in games[i].numbers
    decreases |games|
  {
    if games != [] {
      var n := |games| - 1;
      AllNumbersMember(games[..n], x);
      if x in AllNumbers(games[..n]) {
        var i :| 0 <= i < n && x in games[..n][i].numbers;
        assert x in games[i].numbers;
      }
    }
  }

  /** Replacing game k trades its draws for the new game's: every number's
      count changes by its count in the new game minus its count in the old one. */
  lemma {:induction false} AllNumbersUpdate(games: seq<LotoGame>, k: nat, g: LotoGame, y: int)
    requires k < |games|
    ensures Count(AllNumbers(games[k := g]), y) + Count(games[k].numbers, y)
         == Count(AllNumbers(games), y) + Count(g.numbers, y)
    decreases |games|
  {
    var n := |games| - 1;
    var u := games[k := g];
    CountAppend(AllNumbers(u[..n]), u[n].numbers, y);
    CountAppend(AllNumbers(games[..n]), games[n].numbers, y);
    if k == n {
      assert u[..n] == games[..n];
    } else {
      assert u[..n] == games[..n][k := g];
      AllNumbersUpdate(games[..n], k, g, y);
    }
  }

  /** The draws of all manches of one game, manche after manche. */
  function MancheNumbers(manches: seq<Manche>): seq<int>
    decreases |manches|
  {
    if manches == [] then [] else MancheNumbers(manches[..|manches| - 1]) + manches[|manches| - 1].numbers
  }

  /** The draws of all manches of all games. */
  function AllMancheNumbers(games: seq<LotoGame>): seq<int>
    decreases |games|
  {
    if games == [] then []
    else AllMancheNumbers(games[..|games| - 1]) + MancheNumbers(games[|games| - 1].manches)
  }

  function Ids(games: seq<LotoGame>): set<string> {
    set g | g in games :: g.id
  }

  ghost predicate DistinctIds(games: seq<LotoGame>) {
    forall i, j :: 0 <= i < j < |games| ==> games[i].id != games[j].id
  }

  /** The game the hooks treat as active: the first one flagged active (`find`). */
  function ActiveIndex(games: seq<LotoGame>): (r: Option<nat>)
    ensures r.None? <==> forall i :: 0 <= i < |games| ==> !games[i].isActive
    ensures r.Some? ==>
      && r.value < |games| && games[r.value].isActive
      && forall i :: 0 <= i < r.value ==> !games[i].isActive
    decreases |games|
  {
    if games == [] then None
    else if games[0].isActive then Some(0)
    else
      var r := ActiveIndex(games[1..]);
      if r.None? then None else Some(r.value + 1)
  }
}
