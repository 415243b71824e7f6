/** CSV export of drawn numbers: one header line, then one line per draw with
    the game id, the quoted game name, the number, its 1-based order and an
    estimated timestamp (the game start plus 30 seconds per earlier draw).
    Turning a timestamp into ISO text is the platform's `toISOString`; it is a
    parameter `iso` here. */
module CsvExport {
  import opened SeqUtil
  import opened Text
  import opened GameTypes

  /** Assumed spacing between two draws, in milliseconds. */
  const DRAW_INTERVAL_MS: int := 30000

  datatype CsvRow = CsvRow(gameId: string, gameName: string, number: int, order: int, timestamp: int)

  const HEADERS: seq<string> := ["Game ID", "Game Name", "Number", "Order", "Timestamp"]
  const HEADER_LINE: string := "Game ID,Game Name,Number,Order,Timestamp"

  /** The rows of one game, draw by draw. */
  function GameRows(game: LotoGame): seq<CsvRow> {
    seq(|game.numbers|, i requires 0 <= i < |game.numbers| =>
      CsvRow(game.id, game.name, game.numbers[i], i + 1, game.startTime + i * DRAW_INTERVAL_MS))
  }

  /** One data line: the name is wrapped in double quotes as it is, with no escaping. */
  function RowLine(row: CsvRow, iso: int -> string): string {
    Join([row.gameId, "\"" + row.gameName + "\"", IntToString(row.number), IntToString(row.order), iso(row.timestamp)], ",")
  }

  function Lines(rows: seq<CsvRow>, iso: int -> string): seq<string> {
    [HEADER_LINE] + seq(|rows|, i requires 0 <= i < |rows| => RowLine(rows[i], iso))
  }

  /** The header line and the data lines joined by '\n', with no trailing newline. */
  function CsvText(rows: seq<CsvRow>, iso: int -> string): string {
    Join(Lines(rows, iso), "\n")
  }

  /** exportGameAsCSV. */
  function ExportGameAsCsv(game: LotoGame, iso: int -> string): string {
    CsvText(GameRows(game), iso)
  }

  /** The rows of all games, game after game. */
  function AllRows(games: seq<LotoGame>): seq<CsvRow>
    decreases |games|
  {
    if games == [] then [] else AllRows(games[..|games| - 1]) + GameRows(games[|games| - 1])
  }

  /** exportAllGamesAsCSV: pushes every game's rows, game after game, then joins
      the lines. */
  method ExportAllGamesAsCsv(stats: GlobalStats, iso: int -> string) returns (text: string)
    ensures text == CsvText(AllRows(stats.games), iso)
  {
    var games := stats.games;
    var allRows: seq<CsvRow> := [];
    for k := 0 to |games|
      invariant allRows == AllRows(games[..k])
    {
      var game := games[k];
      ghost var before := allRows;
      for index := 0 to |game.numbers|
        invariant allRows == before + GameRows(game)[..index]
      {
        assert GameRows(game)[..index + 1] == GameRows(game)[..index] + [GameRows(game)[index]];
        allRows := allRows + [CsvRow(game.id, game.name, game.numbers[index], index + 1,
                                     game.startTime + index * DRAW_INTERVAL_MS)];
      }
      assert GameRows(game)[..|game.numbers|] == GameRows(game);
      assert games[..k + 1][..k] == games[..k];
    }
    assert games[..|games|] == games;
    text := CsvText(allRows, iso);
  }

  /** The header line is the five column names joined by commas. */
  lemma HeaderIsJoinedNames()
    ensures HEADER_LINE == Join(HEADERS, ",")
  {
    JoinFive("Game ID", "Game Name", "Number", "Order", "Timestamp", ",");
  }

  lemma HeaderLacksNewline()
    ensures CountChar(HEADER_LINE, '\n') == 0
  {
    CountCharAbsent(HEADER_LINE, '\n');
  }

  /** A data line spelled out: id, then the raw name between quotes, then the
      number, the order and the timestamp text, separated by commas. */
  lemma RowLineText(row: CsvRow, iso: int -> string)
    ensures RowLine(row, iso)
         == row.gameId + ",\"" + row.gameName + "\"," + IntToString(row.number) + ","
            + IntToString(row.order) + "," + iso(row.timestamp)
  {
    JoinFive(row.gameId, "\"" + row.gameName + "\"", IntToString(row.number), IntToString(row.order), iso(row.timestamp), ",");
  }

  /** Nothing is escaped: every comma in the id or the name adds a separator to
      the line, beyond the four between the five fields. */
  lemma RowLineCommas(row: CsvRow, iso: int -> string)
    requires CountChar(iso(row.timestamp), ',') == 0
    ensures CountChar(RowLine(row, iso), ',') == 4 + CountChar(row.gameId, ',') + CountChar(row.gameName, ',')
  {
    RowLineText(row, iso);
    RowLineCharCount(row, iso, ',');
  }

  /** A character other than a digit or '-' is counted on a line as in its
      text fields plus the separators and quotes. */
  lemma RowLineCharCount(row: CsvRow, iso: int -> string, c: char)
    requires !IsDigit(c) && c != '-'
    ensures CountChar(RowLine(row, iso), c)
         == CountChar(row.gameId, c) + CountChar(row.gameName, c) + CountChar(iso(row.timestamp), c)
            + 4 * (if c == ',' then 1 else 0) + 2 * (if c == '"' then 1 else 0)
  {
    RowLineText(row, iso);
    var n, o := IntToString(row.number), IntToString(row.order);
    IntToStringLacks(row.number, c);
    IntToStringLacks(row.order, c);
    var one := if c == ',' then 1 else 0;
    var quote := if c == '"' then 1 else 0;
    assert CountChar(",", c) == one && CountChar("\"", c) == quote;
    assert CountChar(",\"", c) == one + quote by { CountCharAppend(",", "\"", c); }
    assert CountChar("\",", c) == one + quote by { CountCharAppend("\"", ",", c); }
    var s1 := row.gameId + ",\"";
    CountCharAppend(row.gameId, ",\"", c);
    var s2 := s1 + row.gameName;
    CountCharAppend(s1, row.gameName, c);
    var s3 := s2 + "\",";
    CountCharAppend(s2, "\",", c);
    var s4 := s3 + n;
    CountCharAppend(s3, n, c);
    var s5 := s4 + ",";
    CountCharAppend(s4, ",", c);
    var s6 := s5 + o;
    CountCharAppend(s5, o, c);
    var s7 := s6 + ",";
    CountCharAppend(s6, ",", c);
    CountCharAppend(s7, iso(row.timestamp), c);
  }

  /** The export starts with the header line. */
  lemma CsvStartsWithHeader(rows: seq<CsvRow>, iso: int -> string)
    ensures IsPrefix(HEADER_LINE, CsvText(rows, iso))
  {
    JoinStartsWithFirst(Lines(rows, iso), "\n");
  }

  /** No id, name or timestamp text of the rows holds a newline. */
  ghost predicate SingleLineRows(rows: seq<CsvRow>, iso: int -> string) {
    forall i :: 0 <= i < |rows| ==>
      && CountChar(rows[i].gameId, '\n') == 0
      && CountChar(rows[i].gameName, '\n') == 0
      && CountChar(iso(rows[i].timestamp), '\n') == 0
  }

  /** When no id, name or timestamp text holds a newline, the text has one line
      per row after the header: exactly |rows| newlines. */
  lemma CsvLineCount(rows: seq<CsvRow>, iso: int -> string)
    requires SingleLineRows(rows, iso)
    ensures CountChar(CsvText(rows, iso), '\n') == |rows|
  {
    var lines := Lines(rows, iso);
    HeaderLacksNewline();
    forall i | 0 <= i < |lines| ensures CountChar(lines[i], '\n') == 0 {
      if i > 0 {
        RowLineCharCount(rows[i - 1], iso, '\n');
      }
    }
    JoinSeparatorCount(lines, '\n');
  }

  /** The exported rows carry all draws, game after game and in draw order. */
  lemma {:induction false} AllRowsNumbers(games: seq<LotoGame>)
    ensures |AllRows(games)| == |AllNumbers(games)|
    ensures forall i :: 0 <= i < |AllRows(games)| ==> AllRows(games)[i].number == AllNumbers(games)[i]
    decreases |games|
  {
    if games != [] {
      AllRowsNumbers(games[..|games| - 1]);
    }
  }

  /** Draw i of game k sits after the draws of the earlier games, carries that
      game's id and name, the order i + 1 (restarting at 1 in each game) and
      the game start plus 30 seconds per earlier draw of the same game. */
  lemma {:induction false} AllRowsOfGame(games: seq<LotoGame>, k: nat, i: nat)
    requires k < |games| && i < |games[k].numbers|
    ensures var p := |AllNumbers(games[..k])| + i;
      && p < |AllRows(games)|
      && AllRows(games)[p]
         == CsvRow(games[k].id, games[k].name, games[k].numbers[i], i + 1, games[k].startTime + 30000 * i)
    decreases |games|
  {
    var n := |games| - 1;
    AllRowsNumbers(games[..n]);
    if k < n {
      AllRowsOfGame(games[..n], k, i);
      assert games[..n][..k] == games[..k];
    } else {
      assert games[..k] == games[..n];
    }
  }

  /** Exporting all of a single game's statistics gives that game's own export. */
  lemma ExportAllOfOneGame(game: LotoGame, iso: int -> string)
    ensures CsvText(AllRows([game]), iso) == ExportGameAsCsv(game, iso)
  {
    assert [game][..0] == [];
    assert AllRows([game]) == GameRows(game);
  }

  /** The full export has one line per draw of every game after the header. */
  lemma ExportAllLineCount(games: seq<LotoGame>, iso: int -> string)
    requires forall k :: 0 <= k < |games| ==>
      CountChar(games[k].id, '\n') == 0 && CountChar(games[k].name, '\n') == 0
    requires forall t :: CountChar(iso(t), '\n') == 0
    ensures CountChar(CsvText(AllRows(games), iso), '\n') == |AllNumbers(games)|
  {
    var rows := AllRows(games);
    AllRowsNumbers(games);
    forall j | 0 <= j < |rows|
      ensures CountChar(rows[j].gameId, '\n') == 0 && CountChar(rows[j].gameName, '\n') == 0
    {
      var k := RowGame(games, j);
    }
    assert SingleLineRows(rows, iso);
    CsvLineCount(rows, iso);
  }

  /** The game and draw a row of the full export comes from. */
  lemma {:induction false} RowSource(games: seq<LotoGame>, j: nat) returns (k: nat, i: nat)
    requires j < |AllRows(games)|
    ensures k < |games| && i < |games[k].numbers| && j == |AllNumbers(games[..k])| + i
    decreases |games|
  {
    var n := |games| - 1;
    AllRowsNumbers(games[..n]);
    if j < |AllRows(games[..n])| {
      k, i := RowSource(games[..n], j);
      assert games[..n][..k] == games[..k];
    } else {
      k, i := n, j - |AllRows(games[..n])|;
      assert games[..k] == games[..n];
    }
  }

  /** The game a row of the full export comes from. */
  lemma RowGame(games: seq<LotoGame>, j: nat) returns (k: nat)
    requires j < |AllRows(games)|
    ensures k < |games| && AllRows(games)[j].gameId == games[k].id && AllRows(games)[j].gameName == games[k].name
  {
    var i;
    k, i := RowSource(games, j);
    AllRowsOfGame(games, k, i);
  }
}
