/** The scorer's data model (players, teams, deliveries, the match record)
    and the small operations both client-side reducers share: looking a
    player up by id, choosing a team by name, swapping strike, the toss rule
    and the over bookkeeping invariant. */
module Cricket {
  import opened Wrappers

  /** One player. The batting counters are always present; the bowling
      counters (`wickets` in the component's reducer, `bowl*` in the library
      reducer) are optional in the source and read as 0 when absent. */
  datatype Player = Player(
    id: string,
    name: string,
    runs: int,
    balls: int,
    fours: int,
    sixes: int,
    wickets: int,
    isOut: bool,
    bowlRuns: int,
    bowlBalls: int,
    bowlWickets: int)

  datatype Team = Team(name: string, players: seq<Player>)

  /** One entry of the current-over strip. Absent flags read as false. */
  datatype Ball = Ball(
    run: int,
    display: string,
    isWide: bool,
    isNoball: bool,
    isBye: bool,
    isLegBye: bool,
    isWicket: bool)

  datatype Decision = Bat | Bowl

  datatype Toss = Toss(winner: string, decision: Decision)

  datatype Status = PreMatch | Live | Break | Finished

  type InningsNumber = i: int | i == 1 || i == 2 witness 1

  /** The whole match; `history` holds earlier whole-match snapshots. */
  datatype Match = Match(
    id: string,
    teamA: Team,
    teamB: Team,
    overs: int,
    toss: Toss,
    battingTeam: string,
    bowlingTeam: string,
    innings: InningsNumber,
    status: Status,
    score: int,
    wickets: int,
    totalBalls: int,
    currentOverBalls: seq<Ball>,
    strikerId: Option<string>,
    nonStrikerId: Option<string>,
    bowlerId: Option<string>,
    history: seq<Match>,
    target: int,
    result: Option<string>,
    createdAt: int)

  /** JavaScript truthiness of an optional id: absent and "" are falsy. */
  predicate Truthy(id: Option<string>) {
    id.Some? && id.value != ""
  }

  /** `n % 2 === 1` under JavaScript's truncating remainder, where a negative
      odd number leaves -1. */
  predicate OddJs(n: int) {
    n > 0 && n % 2 == 1
  }

  /** `players.find(p => p.id === id)`, as the position of the first match. */
  function FindPlayer(players: seq<Player>, id: string): (r: Option<nat>)
    ensures r.Some? ==> r.value < |players| && players[r.value].id == id
    ensures r.Some? ==> forall j | 0 <= j < r.value :: players[j].id != id
    ensures r.None? ==> forall j | 0 <= j < |players| :: players[j].id != id
  {
    if |players| == 0 then None
    else if players[0].id == id then Some(0)
    else match FindPlayer(players[1..], id)
      case None => None
      case Some(k) => Some(k + 1)
  }

  /** The source picks a team by comparing a side's name with team A's name:
      `name === match.teamA.name ? match.teamA : match.teamB`. */
  function TeamNamed(m: Match, name: string): (r: Team)
    ensures r == m.teamA || r == m.teamB
    ensures name == m.teamA.name || name == m.teamB.name ==> r.name == name
    ensures name != m.teamA.name ==> r == m.teamB
  {
    if name == m.teamA.name then m.teamA else m.teamB
  }

  /** Replaces the team `TeamNamed(m, name)` would return. */
  function WithTeamNamed(m: Match, name: string, t: Team): (r: Match)
    requires t.name == TeamNamed(m, name).name
    ensures TeamNamed(r, name) == t
    ensures r.teamA.name == m.teamA.name && r.teamB.name == m.teamB.name
    ensures name == m.teamA.name ==> r.teamB == m.teamB
    ensures name != m.teamA.name ==> r.teamA == m.teamA
    ensures r == m.(teamA := r.teamA, teamB := r.teamB)
  {
    if name == m.teamA.name then m.(teamA := t) else m.(teamB := t)
  }

  /** Applies `f` to the first player of team `side` whose id is `id`;
      no change when there is none (the source's `if (player)` guard). */
  function UpdatePlayer(m: Match, side: string, id: string, f: Player -> Player): (r: Match)
    ensures r == m.(teamA := r.teamA, teamB := r.teamB)
    ensures r.teamA.name == m.teamA.name && r.teamB.name == m.teamB.name
    ensures |TeamNamed(r, side).players| == |TeamNamed(m, side).players|
    ensures FindPlayer(TeamNamed(m, side).players, id).None? ==> r == m
    ensures FindPlayer(TeamNamed(m, side).players, id).Some? ==>
      var i := FindPlayer(TeamNamed(m, side).players, id).value;
      && TeamNamed(r, side).players == TeamNamed(m, side).players[i := f(TeamNamed(m, side).players[i])]
      && (side == m.teamA.name ==> r.teamB == m.teamB)
      && (side != m.teamA.name ==> r.teamA == m.teamA)
  {
    var t := TeamNamed(m, side);
    match FindPlayer(t.players, id)
    case None => m
    case Some(i) => WithTeamNamed(m, side, t.(players := t.players[i := f(t.players[i])]))
  }

  /** Two rosters agree everywhere except possibly at position `at`. */
  predicate OnlyChanged(before: seq<Player>, after: seq<Player>, at: Option<nat>) {
    |after| == |before| && forall j | 0 <= j < |before| && at != Some(j) :: after[j] == before[j]
  }

  /** Only the first player with the id is touched, and it becomes `f` of itself. */
  lemma UpdatePlayerOnly(m: Match, side: string, id: string, f: Player -> Player)
    ensures var before := TeamNamed(m, side).players;
      var after := TeamNamed(UpdatePlayer(m, side, id, f), side).players;
      var at := FindPlayer(before, id);
      && OnlyChanged(before, after, at)
      && (at.Some? ==> after[at.value] == f(before[at.value]))
  {
  }

  /** Players `p` and `q` differ exactly as a batting line credited with
      `runs` off `faced` balls: a four or six when the runs are exactly 4 or 6. */
  predicate BatterCredited(p: Player, q: Player, runs: int, faced: int) {
    && q.runs == p.runs + runs
    && q.balls == p.balls + faced
    && q.fours == p.fours + (if runs == 4 then 1 else 0)
    && q.sixes == p.sixes + (if runs == 6 then 1 else 0)
    && q.(runs := p.runs, balls := p.balls, fours := p.fours, sixes := p.sixes) == p
  }

  /** `q` is `p` dismissed: marked out, with the ball faced. */
  predicate Dismissed(p: Player, q: Player) {
    q.isOut && q.balls == p.balls + 1 && q.(isOut := p.isOut, balls := p.balls) == p
  }

  /** Rosters are read through the team records alone. */
  lemma SameRosters(a: Match, b: Match, side: string)
    requires a.teamA == b.teamA && a.teamB == b.teamB
    ensures TeamNamed(a, side) == TeamNamed(b, side)
  {
  }

  /** The kinds of extra a delivery can be. */
  datatype ExtraType = Wide | NoBall | Bye | LegBye

  /** Byes and leg-byes: runs that are not the striker's. */
  predicate ByeLike(extraType: Option<ExtraType>) {
    extraType == Some(Bye) || extraType == Some(LegBye)
  }

  /** Where the striker's line sits in the batting roster when a delivery
      credits it: not on byes and leg-byes, not without a striker, not when
      no player has the striker's id. */
  function CreditedStriker(m: Match, extraType: Option<ExtraType>): (r: Option<nat>)
    ensures r.Some? ==> r.value < |TeamNamed(m, m.battingTeam).players|
  {
    if !ByeLike(extraType) && Truthy(m.strikerId)
    then FindPlayer(TeamNamed(m, m.battingTeam).players, m.strikerId.value)
    else None
  }

  /** Where the bowler's line sits in the bowling roster, when one is set. */
  function ChargedBowler(m: Match): (r: Option<nat>)
    ensures r.Some? ==> r.value < |TeamNamed(m, m.bowlingTeam).players|
  {
    if Truthy(m.bowlerId) then FindPlayer(TeamNamed(m, m.bowlingTeam).players, m.bowlerId.value) else None
  }

  /** No two players of a roster share an id. */
  predicate DistinctIds(players: seq<Player>) {
    forall i, j | 0 <= i < j < |players| :: players[i].id != players[j].id
  }

  /** `rotateStrike`: the striker and non-striker ids trade places. */
  function RotateStrike(m: Match): (r: Match)
    ensures r.strikerId == m.nonStrikerId && r.nonStrikerId == m.strikerId
    ensures r.(strikerId := m.strikerId, nonStrikerId := m.nonStrikerId) == m
  {
    m.(strikerId := m.nonStrikerId, nonStrikerId := m.strikerId)
  }

  /** Swapping strike twice restores the pair. */
  lemma RotateTwice(m: Match)
    ensures RotateStrike(RotateStrike(m)) == m
  {
  }

  /** The entry both reducers append for a dismissal. */
  const WicketBall := Ball(0, "W", false, false, false, false, true)

  /** The fields a single delivery never touches. */
  predicate SameFixture(a: Match, b: Match) {
    && a.id == b.id && a.overs == b.overs && a.toss == b.toss
    && a.teamA.name == b.teamA.name && a.teamB.name == b.teamB.name
    && a.battingTeam == b.battingTeam && a.bowlingTeam == b.bowlingTeam
    && a.innings == b.innings && a.status == b.status && a.target == b.target
    && a.result == b.result && a.createdAt == b.createdAt
  }

  /** The batting and the bowling side name different team records, the
      normal situation; when they do not, one roster receives both updates. */
  predicate SidesDiffer(m: Match) {
    (m.battingTeam == m.teamA.name) != (m.bowlingTeam == m.teamA.name)
  }

  /** A delivery that counts towards the over: neither a wide nor a no-ball. */
  predicate IsLegal(b: Ball) {
    !b.isWide && !b.isNoball
  }

  /** Number of legal deliveries in an over strip. */
  function LegalCount(balls: seq<Ball>): (n: nat)
    ensures n <= |balls|
  {
    if |balls| == 0 then 0
    else LegalCount(balls[..|balls| - 1]) + (if IsLegal(balls[|balls| - 1]) then 1 else 0)
  }

  lemma LegalCountAppend(balls: seq<Ball>, b: Ball)
    ensures LegalCount(balls + [b]) == LegalCount(balls) + (if IsLegal(b) then 1 else 0)
  {
    assert (balls + [b])[..|balls|] == balls;
  }

  /** The over strip holds exactly the legal deliveries of the over in
      progress: `totalBalls mod 6` of them. */
  predicate OverInvariant(m: Match) {
    m.totalBalls >= 0 && LegalCount(m.currentOverBalls) == m.totalBalls % 6
  }

  /** The side that bats first: the toss winner's choice applied to the toss
      winner, where any winner other than team A's name counts as team B. */
  function BattingSide(toss: Toss, a: string, b: string): (r: string)
    ensures r == a || r == b
    ensures toss.winner == a ==> (r == a <==> toss.decision == Bat) || a == b
    ensures toss.winner != a ==> (r == b <==> toss.decision == Bat) || a == b
  {
    if toss.winner == a then (if toss.decision == Bat then a else b)
    else (if toss.decision == Bat then b else a)
  }

  /** The side that bowls first: the team that is not batting. */
  function BowlingSide(toss: Toss, a: string, b: string): (r: string)
    ensures r == a || r == b
    ensures a != b ==> r != BattingSide(toss, a, b)
    ensures (r == a && BattingSide(toss, a, b) == b) || (r == b && BattingSide(toss, a, b) == a)
  {
    if toss.winner == a then (if toss.decision == Bat then b else a)
    else (if toss.decision == Bat then a else b)
  }
}
