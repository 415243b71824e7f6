/** Importing statistics: the check made on the chosen file before it is read,
    and the merge of imported statistics into the existing ones by game id. */
module ImportStats {
  import opened SeqUtil
  import opened Text
  import opened Config
  import opened GameTypes
  import opened Storage

  /** What the file picker reports about a file: its name, size in bytes and MIME type. */
  datatype ImportFile = ImportFile(name: string, size: int, mimeType: string)

  datatype ValidationResult = ValidationResult(valid: bool, errors: seq<string>)

  /** The size limit is printed in whole megabytes. */
  const SIZE_ERROR: string := "File size exceeds maximum (" + NatToString(MAX_IMPORT_FILE_SIZE / 1024 / 1024) + "MB)"
  const TYPE_ERROR: string := "File must be a JSON file"

  /** The limit is a whole number of megabytes, so the integer quotient is the
      quotient the message prints, and the two messages differ. */
  lemma ErrorTexts()
    ensures MAX_IMPORT_FILE_SIZE % (1024 * 1024) == 0
    ensures SIZE_ERROR == "File size exceeds maximum (5MB)"
    ensures SIZE_ERROR != TYPE_ERROR
  {
    assert NatToString(5) == "5";
  }

  /** A JSON file by MIME type or by extension. */
  predicate IsJsonFile(file: ImportFile) {
    file.mimeType == "application/json" || EndsWith(file.name, ".json")
  }

  /** validateImportFile: collects the size error, then the type error. */
  method ValidateImportFile(file: ImportFile) returns (r: ValidationResult)
    ensures r.valid <==> file.size <= MAX_IMPORT_FILE_SIZE && IsJsonFile(file)
    ensures r.valid <==> r.errors == []
    ensures |r.errors| <= 2
    ensures SIZE_ERROR in r.errors <==> file.size > MAX_IMPORT_FILE_SIZE
    ensures TYPE_ERROR in r.errors <==> !IsJsonFile(file)
    ensures |r.errors| == 2 ==> r.errors == [SIZE_ERROR, TYPE_ERROR]
  {
    ErrorTexts();
    var errors: seq<string> := [];
    if file.size > MAX_IMPORT_FILE_SIZE {
      errors := errors + [SIZE_ERROR];
    }
    if file.mimeType != "application/json" && !EndsWith(file.name, ".json") {
      errors := errors + [TYPE_ERROR];
    }
    r := ValidationResult(|errors| == 0, errors);
  }

  /** The imported games the merge appends: those whose id is not an existing id,
      in imported order. */
  function NewImports(existing: seq<LotoGame>, imported: seq<LotoGame>): seq<LotoGame> {
    Filter(imported, (g: LotoGame) => g.id !in Ids(existing))
  }

  /** The innermost recount loop of mergeStats: one increment per draw of a manche. */
  method CountDraws(start: Frequency, nums: seq<int>) returns (frequency: Frequency)
    ensures frequency == Applied(start, nums, true)
  {
    frequency := start;
    for k := 0 to |nums|
      invariant frequency == Applied(start, nums[..k], true)
    {
      assert nums[..k + 1][..k] == nums[..k];
      var num := nums[k];
      frequency := frequency[num := (if num in frequency then frequency[num] else 0) + 1];
    }
    assert nums[..|nums|] == nums;
  }

  /** The middle recount loop: the draws of every manche of one game. */
  method CountManches(start: Frequency, manches: seq<Manche>) returns (frequency: Frequency)
    ensures frequency == Applied(start, MancheNumbers(manches), true)
  {
    frequency := start;
    for j := 0 to |manches|
      invariant frequency == Applied(start, MancheNumbers(manches[..j]), true)
    {
      frequency := CountDraws(frequency, manches[j].numbers);
      assert manches[..j + 1][..j] == manches[..j];
      AppliedConcat(start, MancheNumbers(manches[..j]), manches[j].numbers, true);
    }
    assert manches[..|manches|] == manches;
  }

  /** The recount loop of mergeStats: one increment per draw of every manche of
      every game, starting from an empty map. */
  method RecountManches(games: seq<LotoGame>) returns (frequency: Frequency)
    ensures frequency == Applied(map[], AllMancheNumbers(games), true)
  {
    frequency := map[];
    for i := 0 to |games|
      invariant frequency == Applied(map[], AllMancheNumbers(games[..i]), true)
    {
      frequency := CountManches(frequency, games[i].manches);
      assert games[..i + 1][..i] == games[..i];
      AppliedConcat(map[], AllMancheNumbers(games[..i]), MancheNumbers(games[i].manches), true);
    }
    assert games[..|games|] == games;
  }

  /** mergeStats: the existing games followed by the new imported ones, and a
      frequency map recounted over every manche of every merged game; the
      stored frequency maps of both inputs are not read. */
  method MergeStats(existing: GlobalStats, imported: GlobalStats, now: string) returns (r: GlobalStats)
    ensures r.games == existing.games + NewImports(existing.games, imported.games)
    ensures r.allTimeFrequency == Applied(map[], AllMancheNumbers(r.games), true)
    ensures r.totalGamesPlayed == |r.games|
    ensures r.createdAt == existing.createdAt && r.lastUpdated == now
  {
    var existingIds := set g | g in existing.games :: g.id;
    var mergedGames := existing.games;
    var addedCount := 0;
    ghost var isNew := (g: LotoGame) => g.id !in Ids(existing.games);
    for i := 0 to |imported.games|
      invariant mergedGames == existing.games + Filter(imported.games[..i], isNew)
      invariant addedCount == |mergedGames| - |existing.games|
    {
      assert imported.games[..i + 1][..i] == imported.games[..i];
      var importedGame := imported.games[i];
      if importedGame.id !in existingIds {
        mergedGames := mergedGames + [importedGame];
        addedCount := addedCount + 1;
      }
    }
    assert imported.games[..|imported.games|] == imported.games;

    var frequency := RecountManches(mergedGames);
    r := GlobalStats(mergedGames, frequency, |mergedGames|, existing.createdAt, now);
  }

  /** An imported game is appended exactly as often as it occurs in the import
      when its id is new, and never otherwise; so duplicates inside the import
      are all appended. */
  lemma NewImportsCount(existing: seq<LotoGame>, imported: seq<LotoGame>, g: LotoGame)
    ensures Count(NewImports(existing, imported), g)
         == if g.id in Ids(existing) then 0 else Count(imported, g)
  {
    FilterCount(imported, (h: LotoGame) => h.id !in Ids(existing), g);
  }

  /** No id is lost: the merged ids are the existing ids together with the imported ones. */
  lemma MergedIds(existing: seq<LotoGame>, imported: seq<LotoGame>)
    ensures Ids(existing + NewImports(existing, imported)) == Ids(existing) + Ids(imported)
  {
    var isNew := (h: LotoGame) => h.id !in Ids(existing);
    var added := NewImports(existing, imported);
    FilterMembers(imported, isNew);
    forall x | x in Ids(imported) ensures x in Ids(existing + added) {
      var g :| g in imported && g.id == x;
      if x !in Ids(existing) {
        assert g in added;
        assert g in existing + added;
      }
    }
    forall x | x in Ids(existing + added) ensures x in Ids(existing) + Ids(imported) {
      var g :| g in existing + added && g.id == x;
      if g !in existing {
        assert g in imported;
      }
    }
  }

  /** Importing games whose ids are all known leaves the game list as it was;
      in particular merging statistics with themselves keeps their games. */
  lemma MergeKnownGamesOnly(existing: seq<LotoGame>, imported: seq<LotoGame>)
    requires Ids(imported) <= Ids(existing)
    ensures existing + NewImports(existing, imported) == existing
  {
    var isNew := (h: LotoGame) => h.id !in Ids(existing);
    forall i | 0 <= i < |imported| ensures !isNew(imported[i]) {
      assert imported[i].id in Ids(imported);
    }
    FilterNone(imported, isNew);
  }

  lemma MergeWithItself(stats: GlobalStats)
    ensures stats.games + NewImports(stats.games, stats.games) == stats.games
  {
    MergeKnownGamesOnly(stats.games, stats.games);
  }

  /** The merged map sends each number to its number of draws over all manches
      of the merged games, and holds no number that was never drawn. */
  lemma MergedFrequencyCounts(games: seq<LotoGame>, n: int)
    ensures Get(Applied(map[], AllMancheNumbers(games), true), n) == Count(AllMancheNumbers(games), n)
    ensures n in Applied(map[], AllMancheNumbers(games), true) <==> Count(AllMancheNumbers(games), n) > 0
  {
    RecountIsCountMap(AllMancheNumbers(games));
    CountPositive(AllMancheNumbers(games), n);
  }
}
