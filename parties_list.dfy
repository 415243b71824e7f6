/** The list of all games: a name search, a sort by date, by name or by the
    draws over all manches in either direction, the sort controls, and the
    counts of games in progress and finished. */
module PartiesList {
  import opened SeqUtil
  import opened Text
  import opened Sorting
  import opened GameTypes

  datatype SortField = Date | Name | NumbersDrawn
  datatype SortOrder = Asc | Desc

  function Flip(order: SortOrder): SortOrder {
    if order == Asc then Desc else Asc
  }

  /** The sort controls of the list: the field and the direction, 'date' and
      'desc' at first. */
  class SortControls {
    var sortField: SortField
    var sortOrder: SortOrder

    constructor()
      ensures sortField == Date && sortOrder == Desc
    {
      sortField := Date;
      sortOrder := Desc;
    }

    /** toggleSortOrder: the other direction, same field. */
    method ToggleSortOrder()
      modifies this
      ensures sortField == old(sortField)
      ensures sortOrder != old(sortOrder) && sortOrder == Flip(old(sortOrder))
    {
      sortOrder := if sortOrder == Asc then Desc else Asc;
    }

    /** handleSortFieldChange: the current field again toggles the direction; a
        different field becomes the field, in descending direction. */
    method HandleSortFieldChange(field: SortField)
      modifies this
      ensures sortField == field
      ensures old(sortField) == field ==> sortOrder == Flip(old(sortOrder))
      ensures old(sortField) != field ==> sortOrder == Desc
    {
      if sortField == field {
        ToggleSortOrder();
      } else {
        sortField := field;
        sortOrder := Desc;
      }
    }
  }

  /** The same field chosen twice in a row restores the direction; a new field
      chosen twice ends in ascending direction. */
  method ChooseTwice(controls: SortControls, field: SortField)
    modifies controls
    ensures controls.sortField == field
    ensures old(controls.sortField) == field ==> controls.sortOrder == old(controls.sortOrder)
    ensures old(controls.sortField) != field ==> controls.sortOrder == Asc
  {
    controls.HandleSortFieldChange(field);
    controls.HandleSortFieldChange(field);
  }

  // ----- the search -----

  /** The name test: the lowered name contains the lowered query. */
  function NameMatches(query: string): LotoGame -> bool {
    (g: LotoGame) => Contains(ToLower(g.name), ToLower(query))
  }

  function Searched(games: seq<LotoGame>, query: string): seq<LotoGame> {
    Filter(games, NameMatches(query))
  }

  /** The search keeps exactly the games whose lowered name contains the
      lowered query, each as often as in the list. */
  lemma SearchedCount(games: seq<LotoGame>, query: string, g: LotoGame)
    ensures Count(Searched(games, query), g)
         == if Contains(ToLower(g.name), ToLower(query)) then Count(games, g) else 0
  {
    FilterCount(games, NameMatches(query), g);
  }

  lemma EmptyIsContained(s: string)
    ensures Contains(s, "")
  {
    assert IsPrefix("", s);
  }

  /** An empty query keeps the whole list. */
  lemma EmptyQueryKeepsAll(games: seq<LotoGame>)
    ensures Searched(games, "") == games
  {
    forall i | 0 <= i < |games| ensures NameMatches("")(games[i]) {
      EmptyIsContained(ToLower(games[i].name));
    }
    FilterAll(games, NameMatches(""));
  }

  // ----- the sort -----

  /** `manches.reduce((acc, m) => acc + m.numbers.length, 0)`. */
  function DrawCount(manches: seq<Manche>): int
    decreases |manches|
  {
    if manches == [] then 0 else DrawCount(manches[..|manches| - 1]) + |manches[|manches| - 1].numbers|
  }

  /** The reduce counts the draws of all the game's manches. */
  lemma {:induction false} DrawCountIsAllDraws(manches: seq<Manche>)
    ensures DrawCount(manches) == |MancheNumbers(manches)|
    decreases |manches|
  {
    if manches != [] {
      DrawCountIsAllDraws(manches[..|manches| - 1]);
    }
  }

  /** The ascending comparison of a field: date difference, `localeCompare` of
      the names, or difference of the draw counts. */
  function Comparison(field: SortField): (LotoGame, LotoGame) -> int {
    match field
    case Date => (a: LotoGame, b: LotoGame) => a.date.ms - b.date.ms
    case Name => (a: LotoGame, b: LotoGame) => StrCompare(a.name, b.name)
    case NumbersDrawn => (a: LotoGame, b: LotoGame) => DrawCount(a.manches) - DrawCount(b.manches)
  }

  /** The comparator handed to `sort`: 'desc' negates the comparison. */
  function Comparator(field: SortField, order: SortOrder): (LotoGame, LotoGame) -> int {
    var cmp := Comparison(field);
    if order == Asc then cmp else (a: LotoGame, b: LotoGame) => -cmp(a, b)
  }

  /** filteredAndSortedGames: the searched copy, sorted in place. */
  function FilteredAndSorted(games: seq<LotoGame>, query: string, field: SortField, order: SortOrder): seq<LotoGame> {
    Sort(Searched(games, query), Comparator(field, order))
  }

  lemma ComparisonIsPreorder(field: SortField)
    ensures TotalPreorder(Comparison(field)) && Antisymmetric(Comparison(field))
  {
    var cmp := Comparison(field);
    if field == Name {
      forall a, b ensures cmp(a, b) == -cmp(b, a) {
        StrCompareAntisymmetric(a.name, b.name);
      }
      forall a, b, c | cmp(a, b) <= 0 && cmp(b, c) <= 0 ensures cmp(a, c) <= 0 {
        StrCompareTransitive(a.name, b.name, c.name);
      }
    }
  }

  lemma ComparatorIsPreorder(field: SortField, order: SortOrder)
    ensures TotalPreorder(Comparator(field, order)) && Antisymmetric(Comparator(field, order))
  {
    ComparisonIsPreorder(field);
    if order == Desc {
      NegatedIsTotalPreorder(Comparison(field), Comparator(field, order));
    }
  }

  /** The list shows a permutation of the searched games, ordered by the chosen
      field in the chosen direction. */
  lemma FilteredAndSortedIsSortedPermutation(games: seq<LotoGame>, query: string, field: SortField, order: SortOrder)
    ensures multiset(FilteredAndSorted(games, query, field, order)) == multiset(Searched(games, query))
    ensures SortedBy(FilteredAndSorted(games, query, field, order), Comparator(field, order))
  {
    ComparatorIsPreorder(field, order);
    SortIsSorted(Searched(games, query), Comparator(field, order));
  }

  /** Read pairwise: ascending puts no game after one that it exceeds in the
      field, descending no game after one that it falls short of. */
  lemma FilteredAndSortedOrders(games: seq<LotoGame>, query: string, field: SortField, i: nat, j: nat)
    requires i < j < |Searched(games, query)|
    ensures Comparison(field)(FilteredAndSorted(games, query, field, Asc)[i], FilteredAndSorted(games, query, field, Asc)[j]) <= 0
    ensures Comparison(field)(FilteredAndSorted(games, query, field, Desc)[j], FilteredAndSorted(games, query, field, Desc)[i]) <= 0
  {
    FilteredAndSortedIsSortedPermutation(games, query, field, Asc);
    FilteredAndSortedIsSortedPermutation(games, query, field, Desc);
    ComparisonIsPreorder(field);
  }

  /** When no two of the searched games tie in the field, the descending list is
      the ascending list reversed. */
  lemma DescIsReversedAsc(games: seq<LotoGame>, query: string, field: SortField)
    requires NoTies(Searched(games, query), Comparison(field))
    ensures FilteredAndSorted(games, query, field, Desc) == Reverse(FilteredAndSorted(games, query, field, Asc))
  {
    ComparisonIsPreorder(field);
    SortNegatedIsReverse(Searched(games, query), Comparison(field), Comparator(field, Desc));
  }

  // ----- the counts -----

  function ActiveCount(games: seq<LotoGame>): nat {
    |Filter(games, (g: LotoGame) => g.isActive)|
  }

  function CompletedCount(games: seq<LotoGame>): nat {
    |Filter(games, (g: LotoGame) => !g.isActive)|
  }

  /** Every game is either in progress or finished. */
  lemma CountsCoverAllGames(games: seq<LotoGame>)
    ensures ActiveCount(games) + CompletedCount(games) == |games|
  {
    FilterSplit(games, (g: LotoGame) => g.isActive, (g: LotoGame) => !g.isActive);
  }
}
