/** The scoring screen's own reducer and helpers: roster generation from the
    setup form, the opening match record, ball and wicket processing with the
    overs-limit gate and automatic next-batter choice, undo, and the overs
    display. The screen's snapshots are shallow copies whose team records
    are the same objects that later balls change in place; here each
    snapshot keeps its own pre-ball rosters as values, and `UndoLastBall`
    takes the rosters from the live match when it undoes, which is what the
    shared objects amount to. */
module Scorer {
  import opened Wrappers
  import opened Text
  import opened Cricket
  import Scoring

  /** The dialog a step leaves open for the operator. */
  datatype Prompt = NoPrompt | NextBowler | NextBatter

  datatype Step = Step(m: Match, prompt: Prompt)

  // ---------------------------------------------------------------------
  // Setup

  /** The names of the form that are filled in, in order. */
  function Filled(names: seq<string>): (r: seq<string>)
    ensures |r| <= |names|
    ensures forall k | 0 <= k < |r| :: !IsBlank(r[k])
    ensures |names| == 1 ==> (r == names <==> !IsBlank(names[0])) && (r == [] <==> IsBlank(names[0]))
  {
    if |names| == 0 then []
    else (if IsBlank(names[0]) then [] else [names[0]]) + Filled(names[1..])
  }

  /** The filter works name by name: filtering a form in two parts and
      joining the results is filtering the whole form. With the one-name
      case in `Filled`'s contract this fixes the order and the multiplicity
      of what is kept. */
  lemma {:induction false} FilledAppend(a: seq<string>, b: seq<string>)
    ensures Filled(a + b) == Filled(a) + Filled(b)
  {
    if |a| == 0 {
      assert a + b == b;
    } else {
      assert (a + b)[1..] == a[1..] + b;
      FilledAppend(a[1..], b);
    }
  }

  /** Everything the filter keeps comes from the form. */
  lemma {:induction false} FilledFromForm(names: seq<string>)
    ensures forall k | 0 <= k < |Filled(names)| :: Filled(names)[k] in names
  {
    if |names| > 0 {
      var tail := names[1..];
      FilledFromForm(tail);
      var rest := Filled(tail);
      var r := Filled(names);
      forall k | 0 <= k < |r| ensures r[k] in names {
        if IsBlank(names[0]) {
          assert r[k] == rest[k];
          assert rest[k] in tail;
        } else if k > 0 {
          assert r[k] == rest[k - 1];
          assert rest[k - 1] in tail;
        }
      }
    }
  }

  /** Every filled-in name of the form is kept. */
  lemma {:induction false} FilledKeepsAll(names: seq<string>)
    ensures forall k | 0 <= k < |names| :: !IsBlank(names[k]) ==> names[k] in Filled(names)
  {
    if |names| > 0 {
      var tail := names[1..];
      FilledKeepsAll(tail);
      var rest := Filled(tail);
      var r := Filled(names);
      assert r == (if IsBlank(names[0]) then [] else [names[0]]) + rest;
      forall k | 0 <= k < |names| && !IsBlank(names[k]) ensures names[k] in r {
        if k > 0 {
          assert names[k] == tail[k - 1];
          assert names[k] in rest;
        }
      }
    }
  }

  /** The id of the k-th (from 1) generated player of a team. */
  function PlayerId(teamName: string, k: nat): string {
    Lower(teamName) + "_p" + NatToString(k)
  }

  function FreshPlayer(id: string, name: string): Player {
    Player(id, name, 0, 0, 0, 0, 0, false, 0, 0, 0)
  }

  /** Fresh players for `filled`, the k-th (from 1) named after `filled[k - 1]`. */
  function Numbered(teamName: string, filled: seq<string>): (r: seq<Player>)
    ensures |r| == |filled|
    ensures forall k | 0 <= k < |r| :: r[k] == FreshPlayer(PlayerId(teamName, k + 1), Trim(filled[k]))
  {
    if |filled| == 0 then []
    else
      var n := |filled|;
      Numbered(teamName, filled[..n - 1]) + [FreshPlayer(PlayerId(teamName, n), Trim(filled[n - 1]))]
  }

  /** `generatePlayers`: one player per filled-in name, stored trimmed, with
      ids numbered from 1 and every counter at zero. */
  function GeneratePlayers(teamName: string, names: seq<string>): (r: seq<Player>)
    ensures |r| == |Filled(names)|
    ensures forall k | 0 <= k < |r| :: r[k].id == PlayerId(teamName, k + 1)
    ensures forall k | 0 <= k < |r| :: r[k] == FreshPlayer(r[k].id, Trim(Filled(names)[k]))
  {
    Numbered(teamName, Filled(names))
  }

  lemma PlayerIdsDiffer(teamName: string, i: nat, j: nat)
    requires i != j
    ensures PlayerId(teamName, i) != PlayerId(teamName, j)
  {
    var p := Lower(teamName) + "_p";
    if PlayerId(teamName, i) == PlayerId(teamName, j) {
      assert (p + NatToString(i))[|p|..] == NatToString(i);
      assert (p + NatToString(j))[|p|..] == NatToString(j);
      NatToStringInjective(i, j);
    }
  }

  /** Generated players have pairwise distinct ids. */
  lemma GeneratedIdsDistinct(teamName: string, names: seq<string>)
    ensures DistinctIds(GeneratePlayers(teamName, names))
  {
    var r := GeneratePlayers(teamName, names);
    forall i, j | 0 <= i < j < |r| ensures r[i].id != r[j].id {
      PlayerIdsDiffer(teamName, i + 1, j + 1);
    }
  }

  /** Generated names are never empty and carry no surrounding white space. */
  lemma GeneratedNamesTrimmed(teamName: string, names: seq<string>)
    ensures var r := GeneratePlayers(teamName, names);
      forall k | 0 <= k < |r| ::
        r[k].name != "" && !IsSpace(r[k].name[0]) && !IsSpace(r[k].name[|r[k].name| - 1])
  {
    var r := GeneratePlayers(teamName, names);
    var f := Filled(names);
    forall k | 0 <= k < |r|
      ensures r[k].name != "" && !IsSpace(r[k].name[0]) && !IsSpace(r[k].name[|r[k].name| - 1])
    {
      TrimSpec(f[k]);
    }
  }

  /** `areMinimumPlayersFilled`: both teams would get at least one player. */
  function AreMinimumPlayersFilled(teamANames: seq<string>, teamBNames: seq<string>): (r: bool)
    ensures r <==> |GeneratePlayers("", teamANames)| > 0 && |GeneratePlayers("", teamBNames)| > 0
  {
    var a := exists i | 0 <= i < |teamANames| :: !IsBlank(teamANames[i]);
    var b := exists i | 0 <= i < |teamBNames| :: !IsBlank(teamBNames[i]);
    FilledFromForm(teamANames);
    FilledFromForm(teamBNames);
    FilledKeepsAll(teamANames);
    FilledKeepsAll(teamBNames);
    assert |Filled(teamANames)| > 0 ==> Filled(teamANames)[0] in teamANames;
    assert |Filled(teamBNames)| > 0 ==> Filled(teamBNames)[0] in teamBNames;
    a && b
  }

  /** The setup form. */
  datatype Setup = Setup(teamA: string, teamB: string, overs: int, tossWinner: string, tossDecision: Decision)

  /** `handleBowlerSelection`: the opening match record, or nothing while no
      bowler is selected. The random code and the clock are parameters. */
  function StartMatch(id: string, setup: Setup, teamANames: seq<string>, teamBNames: seq<string>,
                      striker: string, nonStriker: string, bowler: string, createdAt: int): (r: Option<Match>)
    ensures r.None? <==> bowler == ""
    ensures r.Some? ==>
      var x := r.value;
      && x.teamA == Team(setup.teamA, GeneratePlayers(setup.teamA, teamANames))
      && x.teamB == Team(setup.teamB, GeneratePlayers(setup.teamB, teamBNames))
      && x.toss == Toss(setup.tossWinner, setup.tossDecision)
      && x.battingTeam == BattingSide(x.toss, setup.teamA, setup.teamB)
      && x.bowlingTeam == BowlingSide(x.toss, setup.teamA, setup.teamB)
      && (setup.teamA != setup.teamB ==> x.battingTeam != x.bowlingTeam)
      && {x.battingTeam, x.bowlingTeam} == {setup.teamA, setup.teamB}
      && x.innings == 1 && x.status == Live && x.target == 0 && x.overs == setup.overs
      && x.score == 0 && x.wickets == 0 && x.totalBalls == 0
      && x.currentOverBalls == [] && x.history == [] && OverInvariant(x)
      && x.strikerId == Some(striker) && x.nonStrikerId == Some(nonStriker) && x.bowlerId == Some(bowler)
  {
    if bowler == "" then None
    else
      var toss := Toss(setup.tossWinner, setup.tossDecision);
      Some(Match(id,
                 Team(setup.teamA, GeneratePlayers(setup.teamA, teamANames)),
                 Team(setup.teamB, GeneratePlayers(setup.teamB, teamBNames)),
                 setup.overs, toss,
                 BattingSide(toss, setup.teamA, setup.teamB),
                 BowlingSide(toss, setup.teamA, setup.teamB),
                 1, Live, 0, 0, 0, [], Some(striker), Some(nonStriker), Some(bowler),
                 [], 0, None, createdAt))
  }

  /** A match started between two differently named teams bats one team
      record and bowls the other. */
  lemma StartedSidesDiffer(id: string, setup: Setup, teamANames: seq<string>, teamBNames: seq<string>,
                           striker: string, nonStriker: string, bowler: string, createdAt: int)
    requires setup.teamA != setup.teamB && bowler != ""
    ensures var r := StartMatch(id, setup, teamANames, teamBNames, striker, nonStriker, bowler, createdAt);
      r.Some? && SidesDiffer(r.value)
  {
    var r := StartMatch(id, setup, teamANames, teamBNames, striker, nonStriker, bowler, createdAt);
    assert r.value.teamA.name == setup.teamA;
  }

  // ---------------------------------------------------------------------
  // Balls and wickets

  /** The over just completed ends the over rather than the innings: the
      component only closes an over below the overs limit. */
  predicate OverEnds(m: Match) {
    m.totalBalls % 6 == 0 && m.totalBalls < m.overs * 6
  }

  /** The strip entry: the runs as text, whatever the extra. */
  function Entry(runs: int, extraType: Option<ExtraType>): (b: Ball)
    ensures b.run == runs && Scoring.ReadInt(b.display) == Some(runs) && !b.isWicket
    ensures b.isWide <==> extraType == Some(Wide)
    ensures b.isNoball <==> extraType == Some(NoBall)
    ensures b.isBye <==> extraType == Some(Bye)
    ensures b.isLegBye <==> extraType == Some(LegBye)
    ensures IsLegal(b) <==> extraType != Some(Wide) && extraType != Some(NoBall)
  {
    Scoring.ReadIntRoundTrip(runs);
    Ball(runs, IntToString(runs), extraType == Some(Wide), extraType == Some(NoBall),
         extraType == Some(Bye), extraType == Some(LegBye), false)
  }

  /** On a plain delivery the screen's strip entry is the library's; on an
      extra it differs only in the display, which stays the bare runs where
      the library writes a tagged label. */
  lemma EntryAgainstDelivery(runs: int, extraType: Option<ExtraType>, batRunsOnNoBall: int)
    ensures var d := Scoring.Delivery(Scoring.BallOptions(runs, extraType.Some?, extraType, batRunsOnNoBall));
      && Entry(runs, extraType).(display := d.display) == d
      && (extraType == None ==> Entry(runs, extraType) == d)
      && (extraType != None ==> Entry(runs, extraType).display != d.display)
  {
    Scoring.ReadIntRoundTrip(runs);
  }

  /** Everything `processBall` does before the end-of-over test. */
  function BallStages(m: Match, runs: int, isExtra: bool, extraType: Option<ExtraType>): (r: Match)
    ensures SameFixture(m, r) && r.wickets == m.wickets && r.bowlerId == m.bowlerId
    ensures r.history == m.history + [m] && r.score == m.score + runs
    ensures r.totalBalls == m.totalBalls + (if isExtra then 0 else 1)
    ensures r.currentOverBalls == m.currentOverBalls + [Entry(runs, extraType)]
    ensures OddJs(runs) && r.totalBalls % 6 != 0 ==>
      r.strikerId == m.nonStrikerId && r.nonStrikerId == m.strikerId
    ensures !(OddJs(runs) && r.totalBalls % 6 != 0) ==>
      r.strikerId == m.strikerId && r.nonStrikerId == m.nonStrikerId
    ensures r.teamA == BallRosters(m, runs, isExtra, extraType).teamA
    ensures r.teamB == BallRosters(m, runs, isExtra, extraType).teamB
  {
    var m3 := BallRosters(m, runs, isExtra, extraType);
    var m4 := if !isExtra then m3.(totalBalls := m3.totalBalls + 1) else m3;
    if OddJs(runs) && m4.totalBalls % 6 != 0 then RotateStrike(m4) else m4
  }

  /** The first stages of `processBall`: snapshot, score, strip entry, then
      the striker's and the bowler's lines. */
  function BallRosters(m: Match, runs: int, isExtra: bool, extraType: Option<ExtraType>): Match {
    ChargeBowler(CreditStriker(BallTally(m, runs, extraType), m, runs, isExtra, extraType), m, runs, isExtra)
  }

  /** Snapshot, score and strip entry. */
  function BallTally(m: Match, runs: int, extraType: Option<ExtraType>): Match {
    m.(history := m.history + [m], score := m.score + runs,
       currentOverBalls := m.currentOverBalls + [Entry(runs, extraType)])
  }

  function BatLine(p: Player, runs: int, isExtra: bool): Player {
    p.(runs := p.runs + runs, balls := p.balls + (if isExtra then 0 else 1),
       fours := p.fours + (if runs == 4 then 1 else 0),
       sixes := p.sixes + (if runs == 6 then 1 else 0))
  }

  function BowlLine(p: Player, runs: int, isExtra: bool): Player {
    p.(runs := p.runs + runs, balls := p.balls + (if isExtra then 0 else 1))
  }

  /** `q` is bowler `p` charged `runs` and `balls` in its own `runs` and
      `balls` fields. */
  predicate BowlerLine(p: Player, q: Player, runs: int, balls: int) {
    q.runs == p.runs + runs && q.balls == p.balls + balls && q.(runs := p.runs, balls := p.balls) == p
  }

  /** The striker's line, looked up through the pre-ball match `pre`. */
  function CreditStriker(m: Match, pre: Match, runs: int, isExtra: bool, extraType: Option<ExtraType>): (r: Match)
    ensures r == m.(teamA := r.teamA, teamB := r.teamB)
    ensures r.teamA.name == m.teamA.name && r.teamB.name == m.teamB.name
    ensures pre.battingTeam == m.teamA.name ==> r.teamB == m.teamB
    ensures pre.battingTeam != m.teamA.name ==> r.teamA == m.teamA
    ensures var before := TeamNamed(m, pre.battingTeam).players;
      var after := TeamNamed(r, pre.battingTeam).players;
      var at := if !ByeLike(extraType) && Truthy(pre.strikerId) then FindPlayer(before, pre.strikerId.value) else None;
      && OnlyChanged(before, after, at)
      && (at.Some? ==> BatterCredited(before[at.value], after[at.value], runs, if isExtra then 0 else 1))
  {
    if !ByeLike(extraType) && Truthy(pre.strikerId) then
      var f := (p: Player) => BatLine(p, runs, isExtra);
      UpdatePlayerOnly(m, pre.battingTeam, pre.strikerId.value, f);
      UpdatePlayer(m, pre.battingTeam, pre.strikerId.value, f)
    else m
  }

  /** The bowler's figures, kept in the bowler's own `runs` and `balls`. */
  function ChargeBowler(m: Match, pre: Match, runs: int, isExtra: bool): (r: Match)
    ensures r == m.(teamA := r.teamA, teamB := r.teamB)
    ensures r.teamA.name == m.teamA.name && r.teamB.name == m.teamB.name
    ensures pre.bowlingTeam == m.teamA.name ==> r.teamB == m.teamB
    ensures pre.bowlingTeam != m.teamA.name ==> r.teamA == m.teamA
    ensures var before := TeamNamed(m, pre.bowlingTeam).players;
      var after := TeamNamed(r, pre.bowlingTeam).players;
      var at := if Truthy(pre.bowlerId) then FindPlayer(before, pre.bowlerId.value) else None;
      && OnlyChanged(before, after, at)
      && (at.Some? ==> BowlerLine(before[at.value], after[at.value], runs, if isExtra then 0 else 1))
  {
    if Truthy(pre.bowlerId) then
      var f := (p: Player) => BowlLine(p, runs, isExtra);
      UpdatePlayerOnly(m, pre.bowlingTeam, pre.bowlerId.value, f);
      UpdatePlayer(m, pre.bowlingTeam, pre.bowlerId.value, f)
    else m
  }

  /** `processBall`. Score always grows by `runs`; only a non-extra counts
      as a ball; the over is closed (strip cleared, strike swapped, next
      bowler asked for) only below the overs limit, and odd runs swap strike
      only away from a multiple of six. */
  function ProcessBall(m: Match, runs: int, isExtra: bool, extraType: Option<ExtraType>): (r: Step)
    ensures SameFixture(m, r.m) && r.m.wickets == m.wickets && r.m.bowlerId == m.bowlerId
    ensures r.m.history == m.history + [m]
    ensures r.m.score == m.score + runs
    ensures r.m.totalBalls == m.totalBalls + (if isExtra then 0 else 1)
    ensures r.prompt != NextBatter
    ensures OverEnds(r.m) ==>
      && r.prompt == NextBowler && r.m.currentOverBalls == []
      && r.m.strikerId == m.nonStrikerId && r.m.nonStrikerId == m.strikerId
    ensures !OverEnds(r.m) ==>
      && r.prompt == NoPrompt && r.m.currentOverBalls == m.currentOverBalls + [Entry(runs, extraType)]
      && (OddJs(runs) && r.m.totalBalls % 6 != 0 ==>
            r.m.strikerId == m.nonStrikerId && r.m.nonStrikerId == m.strikerId)
      && (!(OddJs(runs) && r.m.totalBalls % 6 != 0) ==>
            r.m.strikerId == m.strikerId && r.m.nonStrikerId == m.nonStrikerId)
  {
    var m5 := BallStages(m, runs, isExtra, extraType);
    if OverEnds(m5) then Step(RotateStrike(m5.(currentOverBalls := [])), NextBowler)
    else Step(m5, NoPrompt)
  }

  /** The rosters after `processBall` are those after its crediting stages. */
  lemma BallTeams(m: Match, runs: int, isExtra: bool, extraType: Option<ExtraType>)
    ensures ProcessBall(m, runs, isExtra, extraType).m.teamA == BallRosters(m, runs, isExtra, extraType).teamA
    ensures ProcessBall(m, runs, isExtra, extraType).m.teamB == BallRosters(m, runs, isExtra, extraType).teamB
  {
  }

  /** On the last legal ball of the last over the over is neither closed nor
      is strike swapped, whatever the runs. */
  lemma LastBallOfInnings(m: Match, runs: int)
    requires m.totalBalls + 1 == m.overs * 6
    ensures var r := ProcessBall(m, runs, false, None);
      && r.prompt == NoPrompt
      && r.m.currentOverBalls == m.currentOverBalls + [Entry(runs, None)]
      && r.m.strikerId == m.strikerId && r.m.nonStrikerId == m.nonStrikerId
  {
  }

  lemma RostersCreditStriker(m: Match, runs: int, isExtra: bool, extraType: Option<ExtraType>)
    requires SidesDiffer(m)
    ensures var before := TeamNamed(m, m.battingTeam).players;
      var after := TeamNamed(BallRosters(m, runs, isExtra, extraType), m.battingTeam).players;
      var at := CreditedStriker(m, extraType);
      && OnlyChanged(before, after, at)
      && (at.Some? ==> BatterCredited(before[at.value], after[at.value], runs, if isExtra then 0 else 1))
  {
    var m1 := BallTally(m, runs, extraType);
    var m2 := CreditStriker(m1, m, runs, isExtra, extraType);
    var m3 := ChargeBowler(m2, m, runs, isExtra);
    assert TeamNamed(m1, m.battingTeam) == TeamNamed(m, m.battingTeam);
    assert TeamNamed(m3, m.battingTeam) == TeamNamed(m2, m.battingTeam);
  }

  lemma RostersChargeBowler(m: Match, runs: int, isExtra: bool, extraType: Option<ExtraType>)
    requires SidesDiffer(m)
    ensures var before := TeamNamed(m, m.bowlingTeam).players;
      var after := TeamNamed(BallRosters(m, runs, isExtra, extraType), m.bowlingTeam).players;
      var at := ChargedBowler(m);
      && OnlyChanged(before, after, at)
      && (at.Some? ==> BowlerLine(before[at.value], after[at.value], runs, if isExtra then 0 else 1))
  {
    var m1 := BallTally(m, runs, extraType);
    var m2 := CreditStriker(m1, m, runs, isExtra, extraType);
    assert TeamNamed(m1, m.bowlingTeam) == TeamNamed(m, m.bowlingTeam);
    assert TeamNamed(m2, m.bowlingTeam) == TeamNamed(m1, m.bowlingTeam);
  }

  /** The striker's line after `processBall`: all the runs (wides and
      no-balls included) and a ball unless the delivery is an extra, a four
      or six by the runs alone; nothing on byes and leg-byes. Nobody else on
      the batting side changes. */
  lemma BallCreditsStriker(m: Match, runs: int, isExtra: bool, extraType: Option<ExtraType>)
    requires SidesDiffer(m)
    ensures var before := TeamNamed(m, m.battingTeam).players;
      var after := TeamNamed(ProcessBall(m, runs, isExtra, extraType).m, m.battingTeam).players;
      var at := CreditedStriker(m, extraType);
      && OnlyChanged(before, after, at)
      && (at.Some? ==> BatterCredited(before[at.value], after[at.value], runs, if isExtra then 0 else 1))
  {
    RostersCreditStriker(m, runs, isExtra, extraType);
    BallTeams(m, runs, isExtra, extraType);
    SameRosters(ProcessBall(m, runs, isExtra, extraType).m, BallRosters(m, runs, isExtra, extraType), m.battingTeam);
  }

  /** The bowler's line after `processBall`: its `runs` grow by the runs and
      its `balls` by one unless the delivery is an extra. Nobody else on the
      bowling side changes. */
  lemma BallChargesBowler(m: Match, runs: int, isExtra: bool, extraType: Option<ExtraType>)
    requires SidesDiffer(m)
    ensures var before := TeamNamed(m, m.bowlingTeam).players;
      var after := TeamNamed(ProcessBall(m, runs, isExtra, extraType).m, m.bowlingTeam).players;
      var at := ChargedBowler(m);
      && OnlyChanged(before, after, at)
      && (at.Some? ==> BowlerLine(before[at.value], after[at.value], runs, if isExtra then 0 else 1))
  {
    RostersChargeBowler(m, runs, isExtra, extraType);
    BallTeams(m, runs, isExtra, extraType);
    SameRosters(ProcessBall(m, runs, isExtra, extraType).m, BallRosters(m, runs, isExtra, extraType), m.bowlingTeam);
  }

  /** The batters who may come in: not out, and not the non-striker. */
  function Eligible(players: seq<Player>, nonStrikerId: Option<string>): (r: seq<Player>)
    ensures |r| <= |players|
    ensures |players| == 1 ==>
      var ok := !players[0].isOut && nonStrikerId != Some(players[0].id);
      (r == players <==> ok) && (r == [] <==> !ok)
    ensures forall k | 0 <= k < |r| :: r[k] in players && !r[k].isOut && nonStrikerId != Some(r[k].id)
    ensures forall k | 0 <= k < |players| ::
      !players[k].isOut && nonStrikerId != Some(players[k].id) ==> players[k] in r
  {
    if |players| == 0 then []
    else
      (if !players[0].isOut && nonStrikerId != Some(players[0].id) then [players[0]] else [])
      + Eligible(players[1..], nonStrikerId)
  }

  /** The filter works player by player: filtering a roster in two parts
      and joining the results is filtering the whole roster. With the
      one-player case in `Eligible`'s contract this fixes the order and the
      count of eligible batters that `processWicket` branches on. */
  lemma {:induction false} EligibleAppend(a: seq<Player>, b: seq<Player>, nonStrikerId: Option<string>)
    ensures Eligible(a + b, nonStrikerId) == Eligible(a, nonStrikerId) + Eligible(b, nonStrikerId)
  {
    if |a| == 0 {
      assert a + b == b;
    } else {
      assert (a + b)[1..] == a[1..] + b;
      EligibleAppend(a[1..], b, nonStrikerId);
    }
  }

  /** Everything `processWicket` does before choosing the next batter. */
  function WicketStages(m: Match): (r: Match)
    requires Truthy(m.strikerId)
    ensures SameFixture(m, r) && r.bowlerId == m.bowlerId
    ensures r.history == m.history + [m]
    ensures r.wickets == m.wickets + 1 && r.totalBalls == m.totalBalls + 1 && r.score == m.score
    ensures OverEnds(r) ==>
      r.currentOverBalls == [] && r.strikerId == m.nonStrikerId && r.nonStrikerId == m.strikerId
    ensures !OverEnds(r) ==>
      && r.currentOverBalls == m.currentOverBalls + [WicketBall]
      && r.strikerId == m.strikerId && r.nonStrikerId == m.nonStrikerId
    ensures r.teamA == WicketRosters(m).teamA && r.teamB == WicketRosters(m).teamB
  {
    var m3 := WicketRosters(m);
    var m4 := m3.(currentOverBalls := m.currentOverBalls + [WicketBall]);
    if OverEnds(m4) then RotateStrike(m4.(currentOverBalls := [])) else m4
  }

  /** The first stages of `processWicket`: snapshot, counters, then the
      striker's and the bowler's lines. */
  function WicketRosters(m: Match): Match
    requires Truthy(m.strikerId)
  {
    CreditWicket(Scoring.DismissStriker(Scoring.WicketTally(m)), m)
  }

  /** The bowler's ball and wicket, kept in the bowler's own `balls` and
      `wickets`, looked up through the pre-ball match `pre`. */
  function CreditWicket(m: Match, pre: Match): (r: Match)
    ensures r == m.(teamA := r.teamA, teamB := r.teamB)
    ensures r.teamA.name == m.teamA.name && r.teamB.name == m.teamB.name
    ensures pre.bowlingTeam == m.teamA.name ==> r.teamB == m.teamB
    ensures pre.bowlingTeam != m.teamA.name ==> r.teamA == m.teamA
    ensures var before := TeamNamed(m, pre.bowlingTeam).players;
      var after := TeamNamed(r, pre.bowlingTeam).players;
      var at := if Truthy(pre.bowlerId) then FindPlayer(before, pre.bowlerId.value) else None;
      OnlyChanged(before, after, at) && (at.Some? ==> WicketTaken(before[at.value], after[at.value]))
  {
    if Truthy(pre.bowlerId) then
      var f := (p: Player) => p.(balls := p.balls + 1, wickets := p.wickets + 1);
      UpdatePlayerOnly(m, pre.bowlingTeam, pre.bowlerId.value, f);
      UpdatePlayer(m, pre.bowlingTeam, pre.bowlerId.value, f)
    else m
  }

  /** `q` is bowler `p` with one more ball and one more wicket. */
  predicate WicketTaken(p: Player, q: Player) {
    q.balls == p.balls + 1 && q.wickets == p.wickets + 1 && q.(balls := p.balls, wickets := p.wickets) == p
  }

  /** `processWicket`: a no-op without a striker. Otherwise one more wicket
      and ball, a `W` entry under the same overs-limit gate as a ball, then
      the next batter: chosen automatically when exactly one is eligible,
      left to the operator when several are, and nobody when none is. */
  function ProcessWicket(m: Match): (r: Step)
    ensures !Truthy(m.strikerId) ==> r == Step(m, NoPrompt)
    ensures Truthy(m.strikerId) ==>
      var w := WicketStages(m);
      var avail := Eligible(TeamNamed(w, m.battingTeam).players, m.nonStrikerId);
      && r.m == w.(strikerId := r.m.strikerId)
      && (|avail| > 1 ==> r.prompt == NextBatter && r.m.strikerId == w.strikerId)
      && (|avail| == 1 ==> r.m.strikerId == Some(avail[0].id))
      && (|avail| == 0 ==> r.m.strikerId == w.strikerId)
      && (|avail| <= 1 ==> (r.prompt == NextBowler <==> OverEnds(w)) && r.prompt != NextBatter)
  {
    if !Truthy(m.strikerId) then Step(m, NoPrompt)
    else
      var w := WicketStages(m);
      var avail := Eligible(TeamNamed(w, m.battingTeam).players, m.nonStrikerId);
      if |avail| > 1 then Step(w, NextBatter)
      else
        var w' := if |avail| == 1 then w.(strikerId := Some(avail[0].id)) else w;
        if OverEnds(w') then Step(w', NextBowler) else Step(w', NoPrompt)
  }

  /** A batter chosen automatically is one who may come in: not out and not
      the batter at the other end before the ball. */
  lemma AutoBatterIsEligible(m: Match)
    requires Truthy(m.strikerId)
    ensures var w := WicketStages(m);
      var team := TeamNamed(w, m.battingTeam).players;
      var r := ProcessWicket(m);
      r.m.strikerId != w.strikerId ==>
        exists k | 0 <= k < |team| :: r.m.strikerId == Some(team[k].id) && !team[k].isOut
                                      && m.nonStrikerId != Some(team[k].id)
  {
    var w := WicketStages(m);
    var team := TeamNamed(w, m.battingTeam).players;
    var avail := Eligible(team, m.nonStrikerId);
    if |avail| == 1 {
      assert avail[0] in team;
    }
  }

  lemma WicketRosterLines(m: Match)
    requires SidesDiffer(m) && Truthy(m.strikerId)
    ensures var w := WicketRosters(m);
      var bat := TeamNamed(m, m.battingTeam).players;
      var bat' := TeamNamed(w, m.battingTeam).players;
      var bowl := TeamNamed(m, m.bowlingTeam).players;
      var bowl' := TeamNamed(w, m.bowlingTeam).players;
      var out := FindPlayer(bat, m.strikerId.value);
      var bw := ChargedBowler(m);
      && OnlyChanged(bat, bat', out) && (out.Some? ==> Dismissed(bat[out.value], bat'[out.value]))
      && OnlyChanged(bowl, bowl', bw) && (bw.Some? ==> WicketTaken(bowl[bw.value], bowl'[bw.value]))
  {
    var m1 := Scoring.WicketTally(m);
    var m2 := Scoring.DismissStriker(m1);
    assert TeamNamed(m1, m.battingTeam) == TeamNamed(m, m.battingTeam);
    assert TeamNamed(m2, m.bowlingTeam) == TeamNamed(m, m.bowlingTeam);
    assert TeamNamed(WicketRosters(m), m.battingTeam) == TeamNamed(m2, m.battingTeam);
  }

  /** The dismissed striker is out with one more ball faced; the bowler gets
      one more ball and wicket. Nobody else changes. */
  lemma WicketUpdatesPlayers(m: Match)
    requires SidesDiffer(m) && Truthy(m.strikerId)
    ensures var r := ProcessWicket(m).m;
      var bat := TeamNamed(m, m.battingTeam).players;
      var bat' := TeamNamed(r, m.battingTeam).players;
      var bowl := TeamNamed(m, m.bowlingTeam).players;
      var bowl' := TeamNamed(r, m.bowlingTeam).players;
      var out := FindPlayer(bat, m.strikerId.value);
      var bw := ChargedBowler(m);
      && OnlyChanged(bat, bat', out) && (out.Some? ==> Dismissed(bat[out.value], bat'[out.value]))
      && OnlyChanged(bowl, bowl', bw) && (bw.Some? ==> WicketTaken(bowl[bw.value], bowl'[bw.value]))
  {
    WicketRosterLines(m);
    var r := ProcessWicket(m).m;
    assert r.teamA == WicketRosters(m).teamA && r.teamB == WicketRosters(m).teamB;
    SameRosters(r, WicketRosters(m), m.battingTeam);
    SameRosters(r, WicketRosters(m), m.bowlingTeam);
  }

  // ---------------------------------------------------------------------
  // Undo and display

  /** `undoLastBall`: the last snapshot becomes the match again. The rosters
      are shared with the live match, so they stay as they are. */
  function UndoLastBall(m: Match): (r: Match)
    ensures |m.history| == 0 ==> r == m
    ensures r.teamA == m.teamA && r.teamB == m.teamB
    ensures |m.history| > 0 ==> |r.history| == |m.history[|m.history| - 1].history|
    ensures |m.history| > 0 ==>
      var last := m.history[|m.history| - 1];
      r.(teamA := last.teamA, teamB := last.teamB) == last
  {
    if |m.history| == 0 then m
    else m.history[|m.history| - 1].(teamA := m.teamA, teamB := m.teamB)
  }

  /** Undoing a ball gives back every match-level field of the match before
      it: score, wickets, balls, over strip, batters, bowler and history. */
  lemma UndoAfterBall(m: Match, runs: int, isExtra: bool, extraType: Option<ExtraType>)
    ensures var r := ProcessBall(m, runs, isExtra, extraType).m;
      UndoLastBall(r) == m.(teamA := r.teamA, teamB := r.teamB)
  {
  }

  /** Undoing a wicket does the same, whichever next-batter branch ran. */
  lemma UndoAfterWicket(m: Match)
    requires Truthy(m.strikerId)
    ensures var r := ProcessWicket(m).m;
      UndoLastBall(r) == m.(teamA := r.teamA, teamB := r.teamB)
  {
  }

  /** JavaScript's `a % b` for positive `b`: the sign follows `a`. */
  function JsRem(a: int, b: int): (r: int)
    requires b > 0
    ensures a >= 0 ==> r == a % b
    ensures a < 0 ==> r <= 0 && (a - r) % b == 0
    ensures -b < r < b
  {
    if a >= 0 then a % b
    else
      var q := (-a) / b;
      assert a - -((-a) % b) == b * -q;
      MultipleHasNoRemainder(a - -((-a) % b), b, -q);
      -((-a) % b)
  }

  /** A multiple of `b` leaves no remainder. */
  lemma MultipleHasNoRemainder(a: int, b: int, q: int)
    requires b > 0 && a == b * q
    ensures a % b == 0
  {
    var d := a / b;
    var k := q - d;
    assert a == b * d + a % b;
    assert b * k == b * q - b * d;
    assert b * k == a % b;
    MultipleAwayFromZero(b, k);
  }

  /** A non-zero multiple of `b` is at least `b` away from zero. */
  lemma MultipleAwayFromZero(b: int, k: int)
    requires b > 0
    ensures k >= 1 ==> b * k >= b
    ensures k <= -1 ==> b * k <= -b
  {
    if k >= 1 {
      assert b * k == b * (k - 1) + b;
      assert b * (k - 1) >= 0;
    } else if k <= -1 {
      assert b * k == -(b * (-k - 1)) - b;
      assert b * (-k - 1) >= 0;
    }
  }

  /** `getCurrentOver` as numbers: completed overs and balls into the next. */
  function CurrentOver(m: Match): (r: (int, int))
    ensures m.totalBalls >= 0 ==> 0 <= r.1 < 6 && r.0 >= 0 && r.0 * 6 + r.1 == m.totalBalls
  {
    (m.totalBalls / 6, JsRem(m.totalBalls, 6))
  }

  /** `getCurrentOver` as shown: "overs.balls", the ball part one digit. */
  function CurrentOverText(m: Match): (s: string)
    ensures m.totalBalls >= 0 ==>
      s == NatToString(m.totalBalls / 6) + "." + [DigitChar(m.totalBalls % 6)]
  {
    IntToString(CurrentOver(m).0) + "." + IntToString(CurrentOver(m).1)
  }

  // ---------------------------------------------------------------------
  // Sides across steps

  /** Balls and wickets keep the fixture, so a match that bats one team
      record and bowls the other still does after any of them. */
  lemma StepsKeepSidesDiffer(m: Match, runs: int, isExtra: bool, extraType: Option<ExtraType>)
    requires SidesDiffer(m)
    ensures SidesDiffer(ProcessBall(m, runs, isExtra, extraType).m)
    ensures SidesDiffer(ProcessWicket(m).m)
  {
  }

  // ---------------------------------------------------------------------
  // Corrections

  /** An extra bowled when the ball count is a multiple of six, below the
      overs limit (the first ball of an innings being a wide, say), closes
      an over although no legal ball was added: the strip is cleared, strike
      swaps and the next bowler is asked for. */
  lemma ExtraClosesOver(m: Match, runs: int, extraType: Option<ExtraType>)
    requires m.totalBalls % 6 == 0 && m.totalBalls < m.overs * 6
    ensures var r := ProcessBall(m, runs, true, extraType);
      && r.m.totalBalls == m.totalBalls
      && r.prompt == NextBowler && r.m.currentOverBalls == []
      && r.m.strikerId == m.nonStrikerId && r.m.nonStrikerId == m.strikerId
  {
  }

  /** `processBall` with the over-end test applied only to a ball that
      counts. */
  function ProcessBallFixed(m: Match, runs: int, isExtra: bool, extraType: Option<ExtraType>): (r: Step)
    ensures r.m.score == m.score + runs
    ensures r.m.totalBalls == m.totalBalls + (if isExtra then 0 else 1)
    ensures isExtra ==>
      && r.prompt == NoPrompt && r.m.currentOverBalls == m.currentOverBalls + [Entry(runs, extraType)]
      && (OddJs(runs) && m.totalBalls % 6 != 0 ==>
            r.m.strikerId == m.nonStrikerId && r.m.nonStrikerId == m.strikerId)
      && (!(OddJs(runs) && m.totalBalls % 6 != 0) ==>
            r.m.strikerId == m.strikerId && r.m.nonStrikerId == m.nonStrikerId)
  {
    var m5 := BallStages(m, runs, isExtra, extraType);
    if !isExtra && OverEnds(m5) then Step(RotateStrike(m5.(currentOverBalls := [])), NextBowler)
    else Step(m5, NoPrompt)
  }

  /** The correction changes nothing for a ball that counts. */
  lemma FixedBallAgreesOnLegal(m: Match, runs: int, extraType: Option<ExtraType>)
    ensures ProcessBallFixed(m, runs, false, extraType) == ProcessBall(m, runs, false, extraType)
  {
  }

  /** The correction departs from `processBall` exactly on the extras that
      the over-end test misreads. */
  lemma FixedBallDiffersOnlyThere(m: Match, runs: int, extraType: Option<ExtraType>)
    ensures ProcessBallFixed(m, runs, true, extraType) != ProcessBall(m, runs, true, extraType)
            <==> OverEnds(m)
  {
    var s := BallStages(m, runs, true, extraType);
    if OverEnds(m) {
      assert ProcessBall(m, runs, true, extraType).prompt == NextBowler;
    }
  }

  /** A wicket on the last ball of an over that is not the last one, with
      exactly one batter left to come in: the over-end swap moves the
      dismissed batter to the non-striker's end, and the incoming batter
      then replaces the surviving batter at the striker's end. The
      dismissed batter stays at the crease. */
  lemma WicketLastBallKeepsDismissed(m: Match)
    requires Truthy(m.strikerId)
    requires OverEnds(WicketStages(m))
    requires |Eligible(TeamNamed(WicketStages(m), m.battingTeam).players, m.nonStrikerId)| == 1
    ensures ProcessWicket(m).m.nonStrikerId == m.strikerId
    ensures ProcessWicket(m).m.strikerId != m.nonStrikerId
  {
    var w := WicketStages(m);
    var avail := Eligible(TeamNamed(w, m.battingTeam).players, m.nonStrikerId);
    assert m.nonStrikerId != Some(avail[0].id);
  }

  /** `processWicket` with the incoming batter taking the dismissed
      batter's end: the non-striker's end after an over-ending swap, the
      striker's end otherwise. */
  function ProcessWicketFixed(m: Match): (r: Step)
    ensures !Truthy(m.strikerId) ==> r == Step(m, NoPrompt)
    ensures Truthy(m.strikerId) ==>
      var w := WicketStages(m);
      var avail := Eligible(TeamNamed(w, m.battingTeam).players, m.nonStrikerId);
      && r.m == w.(strikerId := r.m.strikerId, nonStrikerId := r.m.nonStrikerId)
      && (|avail| != 1 ==> r == ProcessWicket(m))
      && (|avail| == 1 && OverEnds(w) ==>
            r.m.strikerId == m.nonStrikerId && r.m.nonStrikerId == Some(avail[0].id))
      && (|avail| == 1 && !OverEnds(w) ==>
            r.m.strikerId == Some(avail[0].id) && r.m.nonStrikerId == m.nonStrikerId)
  {
    if !Truthy(m.strikerId) then Step(m, NoPrompt)
    else
      var w := WicketStages(m);
      var avail := Eligible(TeamNamed(w, m.battingTeam).players, m.nonStrikerId);
      if |avail| > 1 then Step(w, NextBatter)
      else
        var w' :=
          if |avail| == 0 then w
          else if OverEnds(w) then w.(nonStrikerId := Some(avail[0].id))
          else w.(strikerId := Some(avail[0].id));
        if OverEnds(w') then Step(w', NextBowler) else Step(w', NoPrompt)
  }

  /** No batter who may come in is the one just dismissed, when the batting
      roster's ids are distinct. */
  lemma IncomingIsNotDismissed(m: Match, k: nat)
    requires SidesDiffer(m) && Truthy(m.strikerId)
    requires DistinctIds(TeamNamed(m, m.battingTeam).players)
    requires k < |Eligible(TeamNamed(WicketStages(m), m.battingTeam).players, m.nonStrikerId)|
    ensures Eligible(TeamNamed(WicketStages(m), m.battingTeam).players, m.nonStrikerId)[k].id != m.strikerId.value
  {
    var bat := TeamNamed(m, m.battingTeam).players;
    var bat' := TeamNamed(WicketStages(m), m.battingTeam).players;
    var avail := Eligible(bat', m.nonStrikerId);
    WicketRosterLines(m);
    SameRosters(WicketStages(m), WicketRosters(m), m.battingTeam);
    var out := FindPlayer(bat, m.strikerId.value);
    assert avail[k] in bat';
    var j :| 0 <= j < |bat'| && bat'[j] == avail[k];
    assert !bat'[j].isOut;
    assert out != Some(j);
    assert bat'[j] == bat[j];
  }

  /** After the corrected wicket, with one batter to come in and distinct
      ids at the crease and in the roster, the dismissed batter is at
      neither end and the surviving batter is still at one of them. */
  lemma FixedWicketRemovesDismissed(m: Match)
    requires SidesDiffer(m) && Truthy(m.strikerId) && m.strikerId != m.nonStrikerId
    requires DistinctIds(TeamNamed(m, m.battingTeam).players)
    requires |Eligible(TeamNamed(WicketStages(m), m.battingTeam).players, m.nonStrikerId)| == 1
    ensures var r := ProcessWicketFixed(m).m;
      && r.strikerId != m.strikerId && r.nonStrikerId != m.strikerId
      && (r.strikerId == m.nonStrikerId || r.nonStrikerId == m.nonStrikerId)
  {
    IncomingIsNotDismissed(m, 0);
  }

  /** Undo after a ball leaves the striker's bat runs credited: the
      snapshots share the rosters with the live match, so the runs are not
      taken back. */
  lemma UndoKeepsBatRuns(m: Match, runs: int)
    requires SidesDiffer(m) && CreditedStriker(m, None).Some?
    ensures var k := CreditedStriker(m, None).value;
      var u := UndoLastBall(ProcessBall(m, runs, false, None).m);
      TeamNamed(u, m.battingTeam).players[k].runs == TeamNamed(m, m.battingTeam).players[k].runs + runs
  {
    BallCreditsStriker(m, runs, false, None);
    var r := ProcessBall(m, runs, false, None).m;
    SameRosters(UndoLastBall(r), r, m.battingTeam);
  }

  /** Undo that restores the whole snapshot, rosters included, as a deep
      copy of the match would. */
  function UndoSnapshot(m: Match): (r: Match)
    ensures |m.history| == 0 ==> r == m
    ensures |m.history| > 0 ==> r == m.history[|m.history| - 1]
    ensures r.(teamA := m.teamA, teamB := m.teamB) == UndoLastBall(m)
  {
    if |m.history| == 0 then m else m.history[|m.history| - 1]
  }

  /** The full-snapshot undo gives back exactly the match before a ball. */
  lemma UndoSnapshotAfterBall(m: Match, runs: int, isExtra: bool, extraType: Option<ExtraType>)
    ensures UndoSnapshot(ProcessBall(m, runs, isExtra, extraType).m) == m
  {
  }

  /** And exactly the match before a wicket that was taken. */
  lemma UndoSnapshotAfterWicket(m: Match)
    requires Truthy(m.strikerId)
    ensures UndoSnapshot(ProcessWicket(m).m) == m
  {
  }
}
