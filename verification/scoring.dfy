/** The pure ball and wicket reducer of the scoring library: each call takes
    a match and returns a new one, with the old match pushed onto a history
    capped at 50 snapshots. */
module Scoring {
  import opened Wrappers
  import opened Text
  import opened Cricket

  /** Most snapshots a ball keeps for undo. */
  const HistoryCap: nat := 50

  /** `ProcessBallOptions`; an absent `isExtra` is false and an absent
      `batRunsOnNoBall` is 0. */
  datatype BallOptions = BallOptions(
    runs: int,
    isExtra: bool,
    extraType: Option<ExtraType>,
    batRunsOnNoBall: int)

  /** Appends `prev` to the history and evicts the oldest entry once the
      list grows past the cap. */
  function PushSnapshot(history: seq<Match>, prev: Match): (r: seq<Match>)
    ensures |history| < HistoryCap ==> r == history + [prev]
    ensures |history| >= HistoryCap ==> r == history[1..] + [prev]
    ensures |history| <= HistoryCap ==> |r| <= HistoryCap
    ensures |r| > 0 && r[|r| - 1] == prev
  {
    var h := history + [prev];
    if |h| > HistoryCap then
      assert h[1..] == history[1..] + [prev];
      h[1..]
    else h
  }

  /** The delivery counts towards the over: it is neither a wide nor a no-ball. */
  predicate IsCounted(o: BallOptions) {
    o.extraType != Some(Wide) && o.extraType != Some(NoBall)
  }

  /** Runs added to the team and charged to the bowler: the one-run no-ball
      penalty plus the bat runs, or the face value for everything else. */
  function Conceded(o: BallOptions): int {
    if o.extraType == Some(NoBall) then 1 + o.batRunsOnNoBall else o.runs
  }

  /** Runs credited to the striker's bat when the striker is credited at all. */
  function BatRuns(o: BallOptions): int {
    if o.extraType == Some(NoBall) then o.batRunsOnNoBall else o.runs
  }

  /** Reads back a rendered integer; None when `s` is not an integer as
      `toString` writes it (so "07", "-0" and "" read as nothing). */
  function ReadInt(s: string): (r: Option<int>)
    ensures r.Some? ==> IntToString(r.value) == s
  {
    if IsIntNumeral(s) then
      assert s[0] == '-' ==> forall i | 1 <= i < |s| :: s[i] == s[1..][i - 1];
      IntNumeralRoundTrip(s);
      Some(ParseInt(s))
    else None
  }

  /** Different texts never read back as the same number. */
  lemma ReadIntInjective(s: string, t: string)
    requires ReadInt(s).Some? && ReadInt(s) == ReadInt(t)
    ensures s == t
  {
  }

  /** The extra a label's first letter announces. */
  function LabelKind(s: string): Option<ExtraType> {
    if |s| == 0 then None
    else if s[0] == 'W' then Some(Wide)
    else if s[0] == 'N' then Some(NoBall)
    else if s[0] == 'B' then Some(Bye)
    else if s[0] == 'L' then Some(LegBye)
    else None
  }

  lemma ReadIntRoundTrip(n: int)
    ensures IntToString(n) != ""
    ensures ReadInt(IntToString(n)) == Some(n)
    ensures LabelKind(IntToString(n)) == None
  {
    IntRoundTrip(n);
  }

  /** `s` is the tag `p` followed by a rendering of `n`. */
  predicate Tagged(s: string, p: string, n: int) {
    |s| > |p| && s[..|p|] == p && ReadInt(s[|p|..]) == Some(n)
  }

  /** A tagged text is exactly the tag followed by the number's rendering,
      so a tag and a number admit one text only. */
  lemma TaggedIsRendering(s: string, p: string, n: int)
    requires Tagged(s, p, n)
    ensures s == p + IntToString(n)
  {
    assert s == s[..|p|] + s[|p|..];
  }

  lemma ReadIntAfterPrefix(p: string, n: int)
    ensures Tagged(p + IntToString(n), p, n)
  {
    assert (p + IntToString(n))[..|p|] == p;
    assert (p + IntToString(n))[|p|..] == IntToString(n);
    ReadIntRoundTrip(n);
  }

  /** The display label of a delivery. It announces the kind of extra with
      its first letter and shows the runs beyond the extra's own, so both can
      be read back from it. */
  function Label(o: BallOptions): (r: string)
    ensures LabelKind(r) == o.extraType
    ensures o.extraType == None ==> ReadInt(r) == Some(o.runs)
    ensures o.extraType == Some(Wide) ==>
      && (o.runs > 1 ==> Tagged(r, "WD+", o.runs - 1))
      && (o.runs <= 1 ==> r == "WD")
    ensures o.extraType == Some(NoBall) ==>
      && (o.batRunsOnNoBall != 0 ==> Tagged(r, "NB+", o.batRunsOnNoBall))
      && (o.batRunsOnNoBall == 0 ==> r == "NB")
    ensures o.extraType == Some(Bye) ==>
      && (o.runs != 0 ==> Tagged(r, "B", o.runs))
      && (o.runs == 0 ==> r == "B")
    ensures o.extraType == Some(LegBye) ==>
      && (o.runs != 0 ==> Tagged(r, "LB", o.runs))
      && (o.runs == 0 ==> r == "LB")
  {
    match o.extraType
    case Some(Wide) =>
      if o.runs > 1 then ReadIntAfterPrefix("WD+", o.runs - 1); "WD+" + IntToString(o.runs - 1)
      else "WD"
    case Some(NoBall) =>
      if o.batRunsOnNoBall != 0 then
        ReadIntAfterPrefix("NB+", o.batRunsOnNoBall); "NB+" + IntToString(o.batRunsOnNoBall)
      else "NB"
    case Some(Bye) =>
      if o.runs != 0 then ReadIntAfterPrefix("B", o.runs); "B" + IntToString(o.runs) else "B"
    case Some(LegBye) =>
      if o.runs != 0 then ReadIntAfterPrefix("LB", o.runs); "LB" + IntToString(o.runs) else "LB"
    case None =>
      ReadIntRoundTrip(o.runs); IntToString(o.runs)
  }

  /** The over-strip entry for a delivery; its flags name the extra. */
  function Delivery(o: BallOptions): (b: Ball)
    ensures b.run == o.runs && b.display == Label(o) && !b.isWicket
    ensures b.isWide <==> o.extraType == Some(Wide)
    ensures b.isNoball <==> o.extraType == Some(NoBall)
    ensures b.isBye <==> o.extraType == Some(Bye)
    ensures b.isLegBye <==> o.extraType == Some(LegBye)
    ensures IsLegal(b) <==> IsCounted(o)
  {
    Ball(o.runs, Label(o), o.extraType == Some(Wide), o.extraType == Some(NoBall),
         o.extraType == Some(Bye), o.extraType == Some(LegBye), false)
  }

  function CreditBatter(p: Player, o: BallOptions): Player {
    var credited := BatRuns(o);
    p.(runs := p.runs + credited,
       balls := p.balls + (if IsCounted(o) then 1 else 0),
       fours := p.fours + (if credited == 4 then 1 else 0),
       sixes := p.sixes + (if credited == 6 then 1 else 0))
  }

  function ChargeBowler(p: Player, o: BallOptions): Player {
    p.(bowlRuns := p.bowlRuns + Conceded(o),
       bowlBalls := p.bowlBalls + (if IsCounted(o) then 1 else 0))
  }

  /** Odd runs from the bat or from byes and leg-byes. */
  predicate OddRuns(o: BallOptions) {
    (if o.extraType == Some(NoBall) then OddJs(o.batRunsOnNoBall) else OddJs(o.runs))
    || (ByeLike(o.extraType) && OddJs(o.runs))
  }

  /** Applies one delivery. */
  function ProcessBallGeneric(m: Match, o: BallOptions): (r: Match)
    ensures r.history == PushSnapshot(m.history, m)
    ensures |m.history| <= HistoryCap ==> |r.history| <= HistoryCap
    ensures SameFixture(m, r) && r.wickets == m.wickets && r.bowlerId == m.bowlerId
    ensures o.extraType == Some(NoBall) ==> r.score == m.score + 1 + o.batRunsOnNoBall
    ensures o.extraType != Some(NoBall) ==> r.score == m.score + o.runs
    ensures o.extraType == Some(Wide) || o.extraType == Some(NoBall) ==> r.totalBalls == m.totalBalls
    ensures o.extraType != Some(Wide) && o.extraType != Some(NoBall) ==> r.totalBalls == m.totalBalls + 1
    ensures IsCounted(o) && r.totalBalls % 6 == 0 ==> r.currentOverBalls == []
    ensures !(IsCounted(o) && r.totalBalls % 6 == 0) ==> r.currentOverBalls == m.currentOverBalls + [Delivery(o)]
  {
    var m3 := ChargeBowlerOf(CreditStrikerOf(Tally(m, o), o), o);
    var m4 := if OddRuns(o) && (!IsCounted(o) || m3.totalBalls % 6 != 0) then RotateStrike(m3) else m3;
    if IsCounted(o) && m4.totalBalls % 6 == 0 then RotateStrike(m4.(currentOverBalls := [])) else m4
  }

  /** First stage of a ball: snapshot, strip entry, score and ball count. */
  function Tally(m: Match, o: BallOptions): Match {
    m.(history := PushSnapshot(m.history, m),
       currentOverBalls := m.currentOverBalls + [Delivery(o)],
       score := m.score + Conceded(o),
       totalBalls := m.totalBalls + (if IsCounted(o) then 1 else 0))
  }

  /** `q` is bowler `p` charged `runs` runs and `balls` balls. */
  predicate BowlerCharged(p: Player, q: Player, runs: int, balls: int) {
    && q.bowlRuns == p.bowlRuns + runs && q.bowlBalls == p.bowlBalls + balls
    && q.(bowlRuns := p.bowlRuns, bowlBalls := p.bowlBalls) == p
  }

  /** Second stage: the striker's batting line. */
  function CreditStrikerOf(m: Match, o: BallOptions): (r: Match)
    ensures r == m.(teamA := r.teamA, teamB := r.teamB)
    ensures r.teamA.name == m.teamA.name && r.teamB.name == m.teamB.name
    ensures m.battingTeam == m.teamA.name ==> r.teamB == m.teamB
    ensures m.battingTeam != m.teamA.name ==> r.teamA == m.teamA
    ensures var before := TeamNamed(m, m.battingTeam).players;
      var after := TeamNamed(r, m.battingTeam).players;
      var at := CreditedStriker(m, o.extraType);
      && OnlyChanged(before, after, at)
      && (at.Some? ==> BatterCredited(before[at.value], after[at.value], BatRuns(o), if IsCounted(o) then 1 else 0))
  {
    if !ByeLike(o.extraType) && Truthy(m.strikerId) then
      var f := (p: Player) => CreditBatter(p, o);
      UpdatePlayerOnly(m, m.battingTeam, m.strikerId.value, f);
      UpdatePlayer(m, m.battingTeam, m.strikerId.value, f)
    else m
  }

  /** Third stage: the bowler's figures. */
  function ChargeBowlerOf(m: Match, o: BallOptions): (r: Match)
    ensures r == m.(teamA := r.teamA, teamB := r.teamB)
    ensures r.teamA.name == m.teamA.name && r.teamB.name == m.teamB.name
    ensures m.bowlingTeam == m.teamA.name ==> r.teamB == m.teamB
    ensures m.bowlingTeam != m.teamA.name ==> r.teamA == m.teamA
    ensures var before := TeamNamed(m, m.bowlingTeam).players;
      var after := TeamNamed(r, m.bowlingTeam).players;
      var at := ChargedBowler(m);
      && OnlyChanged(before, after, at)
      && (at.Some? ==> BowlerCharged(before[at.value], after[at.value], Conceded(o), if IsCounted(o) then 1 else 0))
  {
    if Truthy(m.bowlerId) then
      var f := (p: Player) => ChargeBowler(p, o);
      UpdatePlayerOnly(m, m.bowlingTeam, m.bowlerId.value, f);
      UpdatePlayer(m, m.bowlingTeam, m.bowlerId.value, f)
    else m
  }

  /** The rosters after a ball are those after its crediting stages. */
  lemma BallRosters(m: Match, o: BallOptions)
    ensures var r := ProcessBallGeneric(m, o);
      var m3 := ChargeBowlerOf(CreditStrikerOf(Tally(m, o), o), o);
      r.teamA == m3.teamA && r.teamB == m3.teamB
  {
  }

  /** Strike: a counted ball that completes an over swaps the pair exactly
      once whatever the runs; any other ball swaps exactly when the runs
      that decide it (bat runs on a no-ball, face value otherwise) are odd. */
  lemma BallStrikeRotation(m: Match, o: BallOptions)
    ensures var r := ProcessBallGeneric(m, o);
      var swapped := r.strikerId == m.nonStrikerId && r.nonStrikerId == m.strikerId;
      var kept := r.strikerId == m.strikerId && r.nonStrikerId == m.nonStrikerId;
      && (IsCounted(o) && (m.totalBalls + 1) % 6 == 0 ==> swapped)
      && (!(IsCounted(o) && (m.totalBalls + 1) % 6 == 0) ==>
            if OddJs(BatRuns(o)) then swapped else kept)
  {
    var m3 := ChargeBowlerOf(CreditStrikerOf(Tally(m, o), o), o);
    assert m3.strikerId == m.strikerId && m3.nonStrikerId == m.nonStrikerId;
    assert m3.totalBalls == m.totalBalls + (if IsCounted(o) then 1 else 0);
    assert OddRuns(o) <==> OddJs(BatRuns(o));
  }

  /** One more ball either completes the over or moves one place along it. */
  lemma NextBallInOver(t: int)
    requires t >= 0
    ensures (t + 1) % 6 == if t % 6 == 5 then 0 else t % 6 + 1
  {
    var q := t / 6;
    assert t == 6 * q + t % 6;
    if t % 6 < 5 {
      assert t + 1 == 6 * q + (t % 6 + 1);
    } else {
      assert t + 1 == 6 * (q + 1);
    }
  }

  /** A delivery `b` recorded the way both reducers record one (a legal
      ball that completes the over clears the strip, anything else is
      appended) keeps the over invariant. */
  lemma StripStep(m: Match, r: Match, b: Ball)
    requires OverInvariant(m)
    requires r.totalBalls == m.totalBalls + (if IsLegal(b) then 1 else 0)
    requires IsLegal(b) && r.totalBalls % 6 == 0 ==> r.currentOverBalls == []
    requires !(IsLegal(b) && r.totalBalls % 6 == 0) ==> r.currentOverBalls == m.currentOverBalls + [b]
    ensures OverInvariant(r)
  {
    if IsLegal(b) {
      LegalStep(m.totalBalls, r.totalBalls, m.currentOverBalls, r.currentOverBalls, b);
    } else {
      LegalCountAppend(m.currentOverBalls, b);
    }
  }

  /** The legal case of `StripStep`, on the counters alone. */
  lemma LegalStep(t: int, t': int, strip: seq<Ball>, strip': seq<Ball>, b: Ball)
    requires t >= 0 && LegalCount(strip) == t % 6
    requires IsLegal(b) && t' == t + 1
    requires t' % 6 == 0 ==> strip' == []
    requires t' % 6 != 0 ==> strip' == strip + [b]
    ensures LegalCount(strip') == t' % 6
  {
    NextBallInOver(t);
    if t' % 6 != 0 {
      LegalCountAppend(strip, b);
    }
  }

  /** Both counters of the over strip move together: a ball keeps the
      legal entries of the strip equal to `totalBalls mod 6`. */
  lemma BallKeepsOverInvariant(m: Match, o: BallOptions)
    requires OverInvariant(m)
    ensures OverInvariant(ProcessBallGeneric(m, o))
  {
    StripStep(m, ProcessBallGeneric(m, o), Delivery(o));
  }

  /** The striker's record: credited with the bat runs (none on byes and
      leg-byes), a ball faced unless the delivery was a wide or a no-ball,
      a four or a six when the credited runs are exactly 4 or 6. Nobody else
      on the batting side changes. */
  lemma BallCreditsStriker(m: Match, o: BallOptions)
    requires SidesDiffer(m)
    ensures var before := TeamNamed(m, m.battingTeam).players;
      var after := TeamNamed(ProcessBallGeneric(m, o), m.battingTeam).players;
      var at := CreditedStriker(m, o.extraType);
      var credited := if o.extraType == Some(NoBall) then o.batRunsOnNoBall else o.runs;
      var faced := if o.extraType == Some(Wide) || o.extraType == Some(NoBall) then 0 else 1;
      && (ByeLike(o.extraType) || !Truthy(m.strikerId) ==> after == before)
      && OnlyChanged(before, after, at)
      && (at.Some? ==> BatterCredited(before[at.value], after[at.value], credited, faced))
  {
    var m1 := Tally(m, o);
    var m2 := CreditStrikerOf(m1, o);
    var m3 := ChargeBowlerOf(m2, o);
    BallRosters(m, o);
    SameRosters(ProcessBallGeneric(m, o), m3, m.battingTeam);
    assert TeamNamed(m3, m.battingTeam) == TeamNamed(m2, m.battingTeam);
    assert TeamNamed(m1, m.battingTeam) == TeamNamed(m, m.battingTeam);
  }

  /** The bowler's record: charged the runs added to the score (byes and
      leg-byes included) and a ball only when the delivery counts. Nobody
      else on the bowling side changes. */
  lemma BallChargesBowler(m: Match, o: BallOptions)
    requires SidesDiffer(m)
    ensures var r := ProcessBallGeneric(m, o);
      var before := TeamNamed(m, m.bowlingTeam).players;
      var after := TeamNamed(r, m.bowlingTeam).players;
      var at := ChargedBowler(m);
      && OnlyChanged(before, after, at)
      && (at.Some? ==> BowlerCharged(before[at.value], after[at.value], r.score - m.score, r.totalBalls - m.totalBalls))
  {
    var m1 := Tally(m, o);
    var m2 := CreditStrikerOf(m1, o);
    var m3 := ChargeBowlerOf(m2, o);
    BallRosters(m, o);
    SameRosters(ProcessBallGeneric(m, o), m3, m.bowlingTeam);
    assert TeamNamed(m2, m.bowlingTeam) == TeamNamed(m1, m.bowlingTeam);
    assert TeamNamed(m1, m.bowlingTeam) == TeamNamed(m, m.bowlingTeam);
  }

  /** Applies one dismissal of the striker. */
  function ProcessWicketGeneric(m: Match): (r: Match)
    ensures r.history == m.history + [m]
    ensures SameFixture(m, r) && r.bowlerId == m.bowlerId
    ensures r.wickets == m.wickets + 1 && r.totalBalls == m.totalBalls + 1 && r.score == m.score
    ensures r.totalBalls % 6 == 0 ==>
      r.currentOverBalls == [] && r.strikerId == m.nonStrikerId && r.nonStrikerId == m.strikerId
    ensures r.totalBalls % 6 != 0 ==>
      r.currentOverBalls == m.currentOverBalls + [WicketBall]
      && r.strikerId == m.strikerId && r.nonStrikerId == m.nonStrikerId
  {
    var m3 := WicketToBowler(DismissStriker(WicketTally(m)));
    var m4 := m3.(currentOverBalls := m3.currentOverBalls + [WicketBall]);
    if m4.totalBalls % 6 == 0 then RotateStrike(m4.(currentOverBalls := [])) else m4
  }

  /** Where the striker's line sits: found by id, with no truthiness test. */
  function DismissedStriker(m: Match): (r: Option<nat>)
    ensures r.Some? ==> r.value < |TeamNamed(m, m.battingTeam).players|
  {
    if m.strikerId.Some? then FindPlayer(TeamNamed(m, m.battingTeam).players, m.strikerId.value) else None
  }

  /** `q` is bowler `p` with one more ball and one more wicket. */
  predicate WicketCredited(p: Player, q: Player) {
    && q.bowlBalls == p.bowlBalls + 1 && q.bowlWickets == p.bowlWickets + 1
    && q.(bowlBalls := p.bowlBalls, bowlWickets := p.bowlWickets) == p
  }

  /** The striker is marked out and charged the ball. */
  function DismissStriker(m: Match): (r: Match)
    ensures r == m.(teamA := r.teamA, teamB := r.teamB)
    ensures r.teamA.name == m.teamA.name && r.teamB.name == m.teamB.name
    ensures m.battingTeam == m.teamA.name ==> r.teamB == m.teamB
    ensures m.battingTeam != m.teamA.name ==> r.teamA == m.teamA
    ensures var before := TeamNamed(m, m.battingTeam).players;
      var after := TeamNamed(r, m.battingTeam).players;
      var at := DismissedStriker(m);
      OnlyChanged(before, after, at) && (at.Some? ==> Dismissed(before[at.value], after[at.value]))
  {
    if m.strikerId.Some? then
      var f := (p: Player) => p.(isOut := true, balls := p.balls + 1);
      UpdatePlayerOnly(m, m.battingTeam, m.strikerId.value, f);
      UpdatePlayer(m, m.battingTeam, m.strikerId.value, f)
    else m
  }

  /** The bowler, when one is set, gets the ball and the wicket. */
  function WicketToBowler(m: Match): (r: Match)
    ensures r == m.(teamA := r.teamA, teamB := r.teamB)
    ensures r.teamA.name == m.teamA.name && r.teamB.name == m.teamB.name
    ensures m.bowlingTeam == m.teamA.name ==> r.teamB == m.teamB
    ensures m.bowlingTeam != m.teamA.name ==> r.teamA == m.teamA
    ensures var before := TeamNamed(m, m.bowlingTeam).players;
      var after := TeamNamed(r, m.bowlingTeam).players;
      var at := ChargedBowler(m);
      OnlyChanged(before, after, at) && (at.Some? ==> WicketCredited(before[at.value], after[at.value]))
  {
    if Truthy(m.bowlerId) then
      var f := (p: Player) => p.(bowlBalls := p.bowlBalls + 1, bowlWickets := p.bowlWickets + 1);
      UpdatePlayerOnly(m, m.bowlingTeam, m.bowlerId.value, f);
      UpdatePlayer(m, m.bowlingTeam, m.bowlerId.value, f)
    else m
  }

  lemma WicketKeepsOverInvariant(m: Match)
    requires OverInvariant(m)
    ensures OverInvariant(ProcessWicketGeneric(m))
  {
    StripStep(m, ProcessWicketGeneric(m), WicketBall);
  }

  /** The match a wicket starts from: snapshot and counters. */
  function WicketTally(m: Match): Match {
    m.(history := m.history + [m], wickets := m.wickets + 1, totalBalls := m.totalBalls + 1)
  }

  /** The rosters after a wicket are those after its two crediting stages. */
  lemma WicketRosters(m: Match)
    ensures var r := ProcessWicketGeneric(m);
      var m3 := WicketToBowler(DismissStriker(WicketTally(m)));
      r.teamA == m3.teamA && r.teamB == m3.teamB
  {
  }

  /** The dismissed striker is marked out with one more ball faced; nobody
      else on the batting side changes. */
  lemma WicketDismissesStriker(m: Match)
    requires SidesDiffer(m)
    ensures var bat := TeamNamed(m, m.battingTeam).players;
      var bat' := TeamNamed(ProcessWicketGeneric(m), m.battingTeam).players;
      var out := DismissedStriker(m);
      OnlyChanged(bat, bat', out) && (out.Some? ==> Dismissed(bat[out.value], bat'[out.value]))
  {
    var m1 := WicketTally(m);
    var m2 := DismissStriker(m1);
    var m3 := WicketToBowler(m2);
    WicketRosters(m);
    SameRosters(ProcessWicketGeneric(m), m3, m.battingTeam);
    assert TeamNamed(m3, m.battingTeam) == TeamNamed(m2, m.battingTeam);
    assert TeamNamed(m1, m.battingTeam) == TeamNamed(m, m.battingTeam);
  }

  /** The bowler gets one more ball and one more wicket; nobody else on the
      bowling side changes. */
  lemma WicketCreditsBowler(m: Match)
    requires SidesDiffer(m)
    ensures var bowl := TeamNamed(m, m.bowlingTeam).players;
      var bowl' := TeamNamed(ProcessWicketGeneric(m), m.bowlingTeam).players;
      var bw := ChargedBowler(m);
      OnlyChanged(bowl, bowl', bw) && (bw.Some? ==> WicketCredited(bowl[bw.value], bowl'[bw.value]))
  {
    var m1 := WicketTally(m);
    var m2 := DismissStriker(m1);
    var m3 := WicketToBowler(m2);
    WicketRosters(m);
    SameRosters(ProcessWicketGeneric(m), m3, m.bowlingTeam);
    assert TeamNamed(m2, m.bowlingTeam) == TeamNamed(m1, m.bowlingTeam);
    assert TeamNamed(m1, m.bowlingTeam) == TeamNamed(m, m.bowlingTeam);
  }
}
