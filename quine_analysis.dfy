/** Milestones of a round: the manually recorded positions (1-based, in draws) at
    which the first quine, the second quine, the double quine and the full card
    ("carton plein") were called, per round and aggregated over rounds. */
module QuineAnalysis {
  import opened Wrappers
  import opened SeqUtil
  import opened Sorting
  import opened GameTypes

  datatype MilestoneType = Quine | DeuxiemeQuine | DoubleQuine | CartonPlein

  datatype QuineMilestone = QuineMilestone(kind: MilestoneType, numberDrawn: int, position: int)

  datatype MancheQuineAnalysis = MancheQuineAnalysis(
    mancheId: string,
    mancheNumber: int,
    milestones: seq<QuineMilestone>,
    firstQuine: Option<int>,
    deuxiemeQuine: Option<int>,
    doubleQuine: Option<int>,
    cartonPlein: Option<int>)

  /** The field of the round that records a milestone kind. */
  function RecordedAt(m: Manche, kind: MilestoneType): Option<int> {
    match kind
    case Quine => m.quineAt
    case DeuxiemeQuine => m.deuxiemeQuineAt
    case DoubleQuine => m.doubleQuineAt
    case CartonPlein => m.cartonPleinAt
  }

  /** Order in which the analysis considers the kinds. */
  function Rank(x: QuineMilestone): int {
    match x.kind
    case Quine => 0
    case DeuxiemeQuine => 1
    case DoubleQuine => 2
    case CartonPlein => 3
  }

  /** `at && at <= numbers.length`: the position is defined, non-zero and not
      beyond the draws (a negative position passes). */
  predicate Kept(at: Option<int>, length: int) {
    at.Some? && at.value != 0 && at.value <= length
  }

  /** `numbers[at - 1] || 0`: the draw at a 1-based position, 0 outside the draws. */
  function NumberAt(numbers: seq<int>, at: int): int {
    if 1 <= at <= |numbers| then numbers[at - 1] else 0
  }

  /** The milestone entry the analysis pushes for a kind. */
  function MilestoneOf(m: Manche, kind: MilestoneType): QuineMilestone {
    var at := RecordedAt(m, kind).GetOr(0);
    QuineMilestone(kind, NumberAt(m.numbers, at), at)
  }

  function ByPosition(a: QuineMilestone, b: QuineMilestone): int { a.position - b.position }

  /** analyzeMancheQuines: pushes one entry per kept milestone, in the order
      quine, second quine, double quine, carton plein, then sorts them by
      position (a stable sort, so equal positions keep that order). */
  method AnalyzeMancheQuines(m: Manche) returns (r: MancheQuineAnalysis)
    ensures r.mancheId == m.id && r.mancheNumber == m.mancheNumber
    ensures r.firstQuine == KeptAt(m, Quine) && r.deuxiemeQuine == KeptAt(m, DeuxiemeQuine)
    ensures r.doubleQuine == KeptAt(m, DoubleQuine) && r.cartonPlein == KeptAt(m, CartonPlein)
    ensures r.milestones == Sort(Pushed(m), ByPosition)
    ensures MilestonesWellFormed(m, r.milestones)
  {
    var milestones: seq<QuineMilestone> := [];
    var firstQuine, deuxiemeQuine, doubleQuine, cartonPlein;
    milestones, firstQuine := PushIfKept(m, Quine, milestones);
    assert milestones == PushedFor(m, Quine);
    milestones, deuxiemeQuine := PushIfKept(m, DeuxiemeQuine, milestones);
    milestones, doubleQuine := PushIfKept(m, DoubleQuine, milestones);
    milestones, cartonPlein := PushIfKept(m, CartonPlein, milestones);
    assert milestones == Pushed(m);
    r := MancheQuineAnalysis(m.id, m.mancheNumber, Sort(milestones, ByPosition), firstQuine, deuxiemeQuine, doubleQuine, cartonPlein);
    AnalysisMilestones(m);
  }

  /** One of the four blocks: when the kind's recorded position is defined,
      non-zero and within the draws, report it and push its milestone entry. */
  method PushIfKept(m: Manche, kind: MilestoneType, milestones: seq<QuineMilestone>)
    returns (pushed: seq<QuineMilestone>, reported: Option<int>)
    ensures pushed == milestones + PushedFor(m, kind)
    ensures reported == KeptAt(m, kind)
  {
    var at := RecordedAt(m, kind);
    pushed, reported := milestones, None;
    if at.Some? && at.value != 0 && at.value <= |m.numbers| {
      reported := at;
      pushed := milestones + [QuineMilestone(kind, NumberAt(m.numbers, at.value), at.value)];
    }
  }

  /** The milestone list of a round's analysis: each entry is the milestone of its
      kind, a kind's entry is present iff its position is kept, there are at most
      four entries with no kind twice, ordered by position with ties in the order
      quine, second quine, double quine, carton plein. */
  ghost predicate MilestonesWellFormed(m: Manche, ms: seq<QuineMilestone>) {
    && (forall i :: 0 <= i < |ms| ==> ms[i] == MilestoneOf(m, ms[i].kind))
    && (forall kind :: MilestoneOf(m, kind) in ms <==> Kept(RecordedAt(m, kind), |m.numbers|))
    && |ms| <= 4
    && SortedWithTies(ms, ByPosition, Rank)
    && (forall i, j :: 0 <= i < j < |ms| ==> ms[i].kind != ms[j].kind)
  }

  lemma AnalysisMilestones(m: Manche)
    ensures MilestonesWellFormed(m, Sort(Pushed(m), ByPosition))
  {
    PushedAtMostFour(m);
    PushedInKindOrder(m);
    PushedEntries(m);
    PushedExactlyKept(m);
    SortedMilestones(m, Pushed(m));
  }

  /** The position a block reports: the recorded one when it is kept. */
  function KeptAt(m: Manche, kind: MilestoneType): Option<int> {
    if Kept(RecordedAt(m, kind), |m.numbers|) then RecordedAt(m, kind) else None
  }

  /** What one milestone block pushes: its entry when the position is kept. */
  function PushedFor(m: Manche, kind: MilestoneType): seq<QuineMilestone> {
    if Kept(RecordedAt(m, kind), |m.numbers|) then [MilestoneOf(m, kind)] else []
  }

  /** What the four blocks push, in order. */
  function Pushed(m: Manche): seq<QuineMilestone> {
    PushedFor(m, Quine) + PushedFor(m, DeuxiemeQuine) + PushedFor(m, DoubleQuine) + PushedFor(m, CartonPlein)
  }

  /** All four blocks push at most one entry each, in kind order, each the
      milestone of its kind, exactly for the kept kinds. */
  lemma PushedAtMostFour(m: Manche)
    ensures |Pushed(m)| <= 4
  {
  }

  /** The blocks run in kind order. */
  lemma PushedInKindOrder(m: Manche)
    ensures StrictlyAscending(Pushed(m), Rank)
  {
    var a, b, c, d := PushedFor(m, Quine), PushedFor(m, DeuxiemeQuine), PushedFor(m, DoubleQuine), PushedFor(m, CartonPlein);
  }

  /** Every pushed entry is the milestone of its kind. */
  lemma PushedEntries(m: Manche)
    ensures var p := Pushed(m);
      forall i :: 0 <= i < |p| ==> p[i] == MilestoneOf(m, p[i].kind)
  {
  }

  /** A kind's milestone is pushed iff its recorded position is kept. */
  lemma PushedExactlyKept(m: Manche)
    ensures forall kind :: MilestoneOf(m, kind) in Pushed(m) <==> Kept(RecordedAt(m, kind), |m.numbers|)
  {
  }

  /** Sorting the pushed entries keeps them, orders them by position with ties in
      push order, and leaves no kind twice. */
  lemma SortedMilestones(m: Manche, pushed: seq<QuineMilestone>)
    requires StrictlyAscending(pushed, Rank)
    requires forall i :: 0 <= i < |pushed| ==> pushed[i] == MilestoneOf(m, pushed[i].kind)
    ensures var r := Sort(pushed, ByPosition);
      && (forall x :: x in r <==> x in pushed)
      && (forall i :: 0 <= i < |r| ==> r[i] == MilestoneOf(m, r[i].kind))
      && SortedWithTies(r, ByPosition, Rank)
      && (forall i, j :: 0 <= i < j < |r| ==> r[i].kind != r[j].kind)
  {
    var r := Sort(pushed, ByPosition);
    SortBreaksTiesByInputOrder(pushed, ByPosition, Rank);
    forall x ensures x in r <==> x in pushed {
      SortSameElements(pushed, ByPosition, x);
    }
    forall i | 0 <= i < |r| ensures r[i] == MilestoneOf(m, r[i].kind) {
      SortSameElements(pushed, ByPosition, r[i]);
      var k :| 0 <= k < |pushed| && pushed[k] == r[i];
    }
  }

  // ----- aggregation over rounds -----

  /** Count, average, minimum and maximum of one milestone's positions; the
      average, fastest and slowest are `null` when nothing was collected. */
  datatype MilestoneStats = MilestoneStats(average: Option<real>, total: int, fastest: Option<int>, slowest: Option<int>)

  /** calculateQuineStats' twelve fields, grouped by milestone kind. */
  datatype QuineStats = QuineStats(quine: MilestoneStats, deuxiemeQuine: MilestoneStats, doubleQuine: MilestoneStats, cartonPlein: MilestoneStats)

  predicate IsCompleted(m: Manche) { !m.isActive }

  /** `manches.filter(m => !m.isActive)`. */
  function Completed(manches: seq<Manche>): seq<Manche> {
    Filter(manches, IsCompleted)
  }

  /** `.map(m => m.<kind>At).filter(p => p !== undefined && p > 0)`: no check
      against the round's draw count. */
  function Positions(manches: seq<Manche>, kind: MilestoneType): (r: seq<int>)
    ensures |r| <= |manches|
    decreases |manches|
  {
    if manches == [] then []
    else
      var p := Positions(manches[..|manches| - 1], kind);
      var at := RecordedAt(manches[|manches| - 1], kind);
      if at.Some? && at.value > 0 then p + [at.value] else p
  }

  function StatsOf(ps: seq<int>): MilestoneStats {
    if |ps| > 0 then MilestoneStats(Some(Sum(ps) as real / |ps| as real), |ps|, Some(Min(ps)), Some(Max(ps)))
    else MilestoneStats(None, 0, None, None)
  }

  /** calculateQuineStats over the completed rounds only. */
  function CalculateQuineStats(manches: seq<Manche>): QuineStats {
    var done := Completed(manches);
    QuineStats(StatsOf(Positions(done, Quine)), StatsOf(Positions(done, DeuxiemeQuine)),
               StatsOf(Positions(done, DoubleQuine)), StatsOf(Positions(done, CartonPlein)))
  }

  function StatsFor(q: QuineStats, kind: MilestoneType): MilestoneStats {
    match kind
    case Quine => q.quine
    case DeuxiemeQuine => q.deuxiemeQuine
    case DoubleQuine => q.doubleQuine
    case CartonPlein => q.cartonPlein
  }

  /** A position is collected iff some completed round records it, positive,
      whatever its draw count. */
  lemma {:induction false} PositionsMembers(manches: seq<Manche>, kind: MilestoneType, x: int)
    ensures x in Positions(manches, kind) <==>
      x > 0 && exists i :: 0 <= i < |manches| && RecordedAt(manches[i], kind) == Some(x)
    decreases |manches|
  {
    if manches != [] {
      var p := manches[..|manches| - 1];
      PositionsMembers(p, kind, x);
      if exists i :: 0 <= i < |manches| && RecordedAt(manches[i], kind) == Some(x) {
        var i :| 0 <= i < |manches| && RecordedAt(manches[i], kind) == Some(x);
        if i < |p| {
          assert RecordedAt(p[i], kind) == Some(x);
        }
      }
    }
  }

  /** The collected positions are exactly the positive recorded positions of the
      completed rounds. */
  lemma CollectedPositions(manches: seq<Manche>, kind: MilestoneType, x: int)
    ensures x in Positions(Completed(manches), kind) <==>
      x > 0 && exists m :: m in manches && !m.isActive && RecordedAt(m, kind) == Some(x)
  {
    var done := Completed(manches);
    PositionsMembers(done, kind, x);
    FilterMembers(manches, IsCompleted);
    if x in Positions(done, kind) {
      var i :| 0 <= i < |done| && RecordedAt(done[i], kind) == Some(x);
      assert done[i] in done;
    }
    if x > 0 && exists m :: m in manches && !m.isActive && RecordedAt(m, kind) == Some(x) {
      var m :| m in manches && !m.isActive && RecordedAt(m, kind) == Some(x);
      assert m in done;
      var i :| 0 <= i < |done| && done[i] == m;
    }
  }

  /** Each total is the number of collected positions; the average, fastest and
      slowest are absent iff the total is 0; otherwise fastest and slowest are
      the least and greatest position and the average lies between them. */
  lemma StatsOfBounds(ps: seq<int>)
    ensures var st := StatsOf(ps);
      && st.total == |ps|
      && (st.average.None? <==> st.total == 0)
      && (st.fastest.None? <==> st.total == 0)
      && (st.slowest.None? <==> st.total == 0)
      && (st.total > 0 ==>
        && st.fastest.value in ps && st.slowest.value in ps
        && (forall i :: 0 <= i < |ps| ==> st.fastest.value <= ps[i] <= st.slowest.value)
        && st.fastest.value as real <= st.average.value <= st.slowest.value as real)
  {
    if |ps| > 0 {
      var total, n, lo, hi := Sum(ps), |ps|, Min(ps), Max(ps);
      SumBetween(ps, lo, hi);
      AverageBetween(total, n, lo, hi);
      assert StatsOf(ps).average.value == total as real / n as real;
    }
  }

  /** Filtering keeps the same rounds when two lists agree on every completed
      round and on which rounds are active. */
  lemma {:induction false} CompletedIgnoresActive(a: seq<Manche>, b: seq<Manche>)
    requires |a| == |b|
    requires forall i :: 0 <= i < |a| ==> a[i].isActive == b[i].isActive && (!a[i].isActive ==> a[i] == b[i])
    ensures Completed(a) == Completed(b)
    decreases |a|
  {
    if a != [] {
      CompletedIgnoresActive(a[..|a| - 1], b[..|b| - 1]);
    }
  }

  /** Changing anything about an active round, short of finishing it, does not
      change the aggregated statistics. */
  lemma ActiveManchesIgnored(a: seq<Manche>, b: seq<Manche>)
    requires |a| == |b|
    requires forall i :: 0 <= i < |a| ==> a[i].isActive == b[i].isActive && (!a[i].isActive ==> a[i] == b[i])
    ensures CalculateQuineStats(a) == CalculateQuineStats(b)
  {
    CompletedIgnoresActive(a, b);
  }

  /** A completed round whose recorded quine lies beyond its draws still counts
      towards the aggregate, although its own analysis drops it. */
  lemma StatsDoNotCheckDrawCount(m: Manche)
    requires !m.isActive && m.quineAt == Some(5) && m.numbers == []
    ensures !Kept(RecordedAt(m, Quine), |m.numbers|)
    ensures CalculateQuineStats([m]).quine.total == 1
  {
    assert Completed([m]) == [m] by {
      assert [m][..0] == [];
    }
    assert [m][..0] == [];
  }

  // ----- labels -----

  /** getMilestoneLabel, with the texts the source file holds: its second label
      stores the 'è' of "2ème" as the two UTF-8 bytes C3 A8, each read as a
      character of its own ("2Ã¨me Quine"). */
  function MilestoneLabel(kind: MilestoneType): (s: string)
    ensures |s| > 0
  {
    match kind
    case Quine => "Quine"
    case DeuxiemeQuine => "2\U{C3}\U{A8}me Quine"
    case DoubleQuine => "Double Quine"
    case CartonPlein => "Carton Plein"
  }

  /** A character of U+0080..U+07FF encoded as its two UTF-8 bytes, each byte
      read back as the character with that code (the Latin-1 reading). */
  function Utf8AsLatin1(c: char): (r: string)
    requires 0x80 <= c as int < 0x800
    ensures |r| == 2 && 0xC2 <= r[0] as int < 0xE0 && 0x80 <= r[1] as int < 0xC0
    ensures (r[0] as int - 0xC0) * 64 + (r[1] as int - 0x80) == c as int
  {
    [(0xC0 + c as int / 64) as char, (0x80 + c as int % 64) as char]
  }

  /** The second label as written is "2ème Quine" with its 'è' mis-encoded that
      way, and so differs from the French text it stands for. */
  lemma DeuxiemeLabelIsMisEncoded()
    ensures MilestoneLabel(DeuxiemeQuine) == "2" + Utf8AsLatin1('è') + "me Quine"
    ensures MilestoneLabel(DeuxiemeQuine) != "2ème Quine"
  {
    assert MilestoneLabel(DeuxiemeQuine)[1] != "2ème Quine"[1];
  }

  /** Distinct kinds get distinct labels. */
  lemma MilestoneLabelInjective(a: MilestoneType, b: MilestoneType)
    ensures MilestoneLabel(a) == MilestoneLabel(b) ==> a == b
  {
    assert MilestoneLabel(a)[0] == MilestoneLabel(b)[0] ==> a == b;
  }
}
