/** The runtime type guards `isManche`, `isLotoGame` and `isGlobalStats`,
    applied to parsed JSON. They check the shape of each field with `typeof`,
    `Array.isArray` and `every`, and nothing about how fields relate. */
module Guards {
  /** A parsed JSON value as JavaScript sees it. `NaN` is kept apart from the
      other numbers because every comparison with it is false. */
  datatype Json =
    | Undefined
    | Null
    | Bool(b: bool)
    | Num(x: real)
    | NaN
    | Str(s: string)
    | Arr(items: seq<Json>)
    | Obj(fields: map<string, Json>)

  /** `typeof v === 'object' && v !== null`: objects and arrays. */
  predicate IsObject(v: Json) {
    v.Arr? || v.Obj?
  }

  /** `v[key]`: a missing property reads as undefined. */
  function Field(v: Json, key: string): Json {
    if v.Obj? && key in v.fields then v.fields[key] else Undefined
  }

  predicate IsString(v: Json) { v.Str? }

  /** `typeof v === 'number'`, which NaN passes too. */
  predicate IsNumber(v: Json) { v.Num? || v.NaN? }

  predicate IsBoolean(v: Json) { v.Bool? }

  /** `typeof n === 'number' && n >= 1 && n <= 90`. */
  predicate IsDrawValue(n: Json) {
    n.Num? && 1.0 <= n.x <= 90.0
  }

  /** An optional string field: absent or a string. */
  predicate OptionalString(v: Json) {
    v == Undefined || v.Str?
  }

  /** isManche. */
  predicate IsManche(v: Json) {
    && IsObject(v)
    && IsString(Field(v, "id"))
    && IsNumber(Field(v, "mancheNumber"))
    && IsString(Field(v, "startTime"))
    && Field(v, "numbers").Arr?
    && (forall i :: 0 <= i < |Field(v, "numbers").items| ==> IsDrawValue(Field(v, "numbers").items[i]))
    && IsBoolean(Field(v, "isActive"))
    && OptionalString(Field(v, "endTime"))
  }

  /** isLotoGame. */
  predicate IsLotoGame(v: Json) {
    && IsObject(v)
    && IsString(Field(v, "id"))
    && IsString(Field(v, "name"))
    && IsString(Field(v, "date"))
    && IsString(Field(v, "startTime"))
    && Field(v, "manches").Arr?
    && (forall i :: 0 <= i < |Field(v, "manches").items| ==> IsManche(Field(v, "manches").items[i]))
    && IsBoolean(Field(v, "isActive"))
    && OptionalString(Field(v, "endTime"))
  }

  /** isGlobalStats: the frequency map is only checked to be of type 'object'. */
  predicate IsGlobalStats(v: Json) {
    && IsObject(v)
    && Field(v, "games").Arr?
    && (forall i :: 0 <= i < |Field(v, "games").items| ==> IsLotoGame(Field(v, "games").items[i]))
    && (Field(v, "allTimeFrequency").Null? || IsObject(Field(v, "allTimeFrequency")))
    && IsNumber(Field(v, "totalGamesPlayed"))
    && IsString(Field(v, "createdAt"))
    && IsString(Field(v, "lastUpdated"))
  }

  /** All three guards reject null and every value that is not an object. */
  lemma GuardsRejectNonObjects(v: Json)
    requires !IsObject(v)
    ensures !IsManche(v) && !IsLotoGame(v) && !IsGlobalStats(v)
  {
  }

  /** Every draw of an accepted manche is a number in 1..90. */
  lemma MancheDrawsInRange(v: Json, i: nat)
    requires IsManche(v) && i < |Field(v, "numbers").items|
    ensures Field(v, "numbers").items[i].Num?
    ensures 1.0 <= Field(v, "numbers").items[i].x <= 90.0
  {
  }

  /** A draw outside 1..90, or NaN, or one that is not a number, makes the
      manche fail. */
  lemma MancheRejectsBadDraw(v: Json, i: nat, bad: Json)
    requires IsManche(v) && v.Obj? && i < |Field(v, "numbers").items| && !IsDrawValue(bad)
    ensures !IsManche(Obj(v.fields["numbers" := Arr(Field(v, "numbers").items[i := bad])]))
  {
    var w := Obj(v.fields["numbers" := Arr(Field(v, "numbers").items[i := bad])]);
    assert Field(w, "numbers").items[i] == bad;
  }

  /** A manche whose draws repeat, that is not a whole number, whose round
      number is NaN and whose milestones lie past its draws. */
  function OddManche(): Json {
    Obj(map[
      "id" := Str("m"),
      "mancheNumber" := NaN,
      "startTime" := Str("2024-01-01T20:00:00.000Z"),
      "numbers" := Arr([Num(5.0), Num(5.0), Num(2.5)]),
      "isActive" := Bool(false),
      "quineAt" := Num(99.0),
      "cartonPleinAt" := Str("late")])
  }

  /** isManche checks neither repeated draws, nor whole numbers, nor the round
      number beyond its type, nor the milestone fields. */
  lemma OddMancheAccepted()
    ensures IsManche(OddManche())
    ensures var ns := Field(OddManche(), "numbers").items; ns[0] == ns[1] && ns[2] == Num(2.5)
  {
    var ns := Field(OddManche(), "numbers").items;
    assert ns == [Num(5.0), Num(5.0), Num(2.5)];
  }

  /** Every manche of an accepted game is an accepted manche, and one bad manche
      makes the game fail. */
  lemma GameNeedsEveryManche(v: Json, i: nat, bad: Json)
    requires IsLotoGame(v) && v.Obj? && i < |Field(v, "manches").items| && !IsManche(bad)
    ensures IsManche(Field(v, "manches").items[i])
    ensures !IsLotoGame(Obj(v.fields["manches" := Arr(Field(v, "manches").items[i := bad])]))
  {
    var w := Obj(v.fields["manches" := Arr(Field(v, "manches").items[i := bad])]);
    assert Field(w, "manches").items[i] == bad;
  }

  /** The frequency map is barely checked: with null or an array in its place
      accepted statistics stay accepted; only a missing or scalar value is
      refused. */
  lemma FrequencyBarelyChecked(v: Json, freq: Json)
    requires IsGlobalStats(v) && v.Obj?
    ensures IsGlobalStats(Obj(v.fields["allTimeFrequency" := freq])) <==> freq.Null? || IsObject(freq)
  {
    var w := Obj(v.fields["allTimeFrequency" := freq]);
    assert Field(w, "allTimeFrequency") == freq;
    assert Field(w, "games") == Field(v, "games");
    assert Field(w, "totalGamesPlayed") == Field(v, "totalGamesPlayed");
    assert Field(w, "createdAt") == Field(v, "createdAt");
    assert Field(w, "lastUpdated") == Field(v, "lastUpdated");
  }

  /** Every game of accepted statistics is an accepted game. */
  lemma StatsGamesAccepted(v: Json, i: nat)
    requires IsGlobalStats(v) && i < |Field(v, "games").items|
    ensures IsLotoGame(Field(v, "games").items[i])
  {
  }
}
