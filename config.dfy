/** Application constants: the 1..90 number space, the 9 x 10 grid, the
    top/flop list length, the decade table and the import size limit. */
module Config {
  const TOTAL_NUMBERS: int := 90
  const MIN_NUMBER: int := 1
  const MAX_NUMBER: int := 90
  const GRID_ROWS: int := 9
  const GRID_COLS: int := 10
  const TOP_FLOP_COUNT: int := 15
  const MAX_IMPORT_FILE_SIZE: int := 5 * 1024 * 1024

  /** One row of the decade table: its label and its inclusive bounds. */
  datatype Decade = Decade(range: string, start: int, end: int)

  const DECADES: seq<Decade> := [
    Decade("1-10", 1, 10),
    Decade("11-20", 11, 20),
    Decade("21-30", 21, 30),
    Decade("31-40", 31, 40),
    Decade("41-50", 41, 50),
    Decade("51-60", 51, 60),
    Decade("61-70", 61, 70),
    Decade("71-80", 71, 80),
    Decade("81-90", 81, 90)
  ]

  /** The decade table tiles 1..90 with nine contiguous ranges of ten numbers. */
  lemma DecadesShape()
    ensures |DECADES| == 9 && DECADES[0].start == MIN_NUMBER && DECADES[8].end == MAX_NUMBER
    ensures forall i :: 0 < i < |DECADES| ==> DECADES[i].start == DECADES[i - 1].end + 1
    ensures forall i :: 0 <= i < |DECADES| ==> DECADES[i].end - DECADES[i].start + 1 == 10
  {
  }

  /** Decade i (0-based) covers 10i+1 .. 10i+10. */
  lemma DecadeBounds(i: int)
    requires 0 <= i < |DECADES|
    ensures DECADES[i].start == 10 * i + 1 && DECADES[i].end == 10 * i + 10
  {
  }

  /** Grid and number-space sizes agree. */
  lemma GridCoversNumbers()
    ensures GRID_ROWS * GRID_COLS == TOTAL_NUMBERS == MAX_NUMBER - MIN_NUMBER + 1 == 90
    ensures TOP_FLOP_COUNT == 15 && MAX_IMPORT_FILE_SIZE == 5242880
  {
  }

  /** Every number of 1..90 lies in exactly one decade, the one at index (n - 1) / 10. */
  lemma {:induction false} DecadeOfNumber(n: int)
    requires MIN_NUMBER <= n <= MAX_NUMBER
    ensures var k := (n - 1) / 10;
      0 <= k < |DECADES| && DECADES[k].start <= n <= DECADES[k].end &&
      forall j :: 0 <= j < |DECADES| && DECADES[j].start <= n <= DECADES[j].end ==> j == k
  {
    var k := (n - 1) / 10;
    DecadesShape();
    assert DECADES[k].start == 10 * k + 1 && DECADES[k].end == 10 * k + 10;
    forall j | 0 <= j < |DECADES| && DECADES[j].start <= n <= DECADES[j].end ensures j == k {
      assert DECADES[j].start == 10 * j + 1 && DECADES[j].end == 10 * j + 10;
    }
  }
}
