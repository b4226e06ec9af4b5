/** The match server's REST handlers for creating a match, appending a
    scoring event and undoing the last one. A match document keeps, per
    innings, the event log and running totals; appending bumps the totals
    by the event's increments, undoing pops the log and replays what is
    left. The document store is a parameter: a lookup that found nothing is
    `None`. */
module Server {
  import opened Wrappers
  import Cricket

  /** The handlers' error replies. */
  datatype Error =
    | BadRequest(message: string)   // 400
    | NotFound                      // 404
    | ServerError(message: string)  // 500

  function StatusCode(e: Error): int {
    match e
    case BadRequest(_) => 400
    case NotFound => 404
    case ServerError(_) => 500
  }

  // ---------------------------------------------------------------------
  // Creating a match

  datatype PlayerRef = PlayerRef(id: string, name: string)

  datatype TeamBody = TeamBody(name: string, players: seq<PlayerRef>)

  /** The toss as sent: the decision is a free string until validated. */
  datatype TossBody = TossBody(winner: string, decision: string)

  /** The create request. `oversLimit` is a JSON number, so it may carry a
      fraction that validation must reject. */
  datatype CreateMatchBody = CreateMatchBody(
    code: string,
    teamA: TeamBody,
    teamB: TeamBody,
    oversLimit: real,
    toss: TossBody,
    strikerId: Option<string>,
    nonStrikerId: Option<string>,
    bowlerId: Option<string>)

  /** The request schema on teams: a non-empty name and at least one player,
      each with a non-empty name. */
  predicate ValidTeam(t: TeamBody) {
    |t.name| >= 1 && |t.players| >= 1 && forall k | 0 <= k < |t.players| :: |t.players[k].name| >= 1
  }

  /** The whole request schema. */
  predicate ValidCreate(b: CreateMatchBody) {
    && 3 <= |b.code| <= 8
    && ValidTeam(b.teamA) && ValidTeam(b.teamB)
    && b.oversLimit.Floor as real == b.oversLimit && 1.0 <= b.oversLimit <= 50.0
    && (b.toss.decision == "bat" || b.toss.decision == "bowl")
  }

  function ParseDecision(s: string): (r: Option<Cricket.Decision>)
    ensures r == Some(Cricket.Bat) <==> s == "bat"
    ensures r == Some(Cricket.Bowl) <==> s == "bowl"
  {
    if s == "bat" then Some(Cricket.Bat) else if s == "bowl" then Some(Cricket.Bowl) else None
  }

  /** Checks a team, field by field. */
  function CheckTeam(t: TeamBody, side: string): (r: Result<(), Error>)
    ensures r.Success? <==> ValidTeam(t)
  {
    if |t.name| == 0 then Failure(BadRequest(side + ".name"))
    else if |t.players| == 0 then Failure(BadRequest(side + ".players"))
    else if exists k | 0 <= k < |t.players| :: |t.players[k].name| == 0 then Failure(BadRequest(side + ".players.name"))
    else Success(())
  }

  /** Checks the request, field by field, in schema order. */
  function CheckCreate(b: CreateMatchBody): (r: Result<Cricket.Decision, Error>)
    ensures r.Success? <==> ValidCreate(b)
    ensures r.Success? ==> ParseDecision(b.toss.decision) == Some(r.value)
    ensures r.Failure? ==> StatusCode(r.error) == 400
  {
    if !(3 <= |b.code| <= 8) then Failure(BadRequest("code"))
    else
      var _ :- CheckTeam(b.teamA, "teamA");
      var _ :- CheckTeam(b.teamB, "teamB");
      if b.oversLimit.Floor as real != b.oversLimit || !(1.0 <= b.oversLimit <= 50.0)
      then Failure(BadRequest("oversLimit"))
      else match ParseDecision(b.toss.decision)
        case None => Failure(BadRequest("toss.decision"))
        case Some(d) => Success(d)
  }

  /** One innings of a stored match. */
  datatype Innings = Innings(
    battingTeam: string,
    bowlingTeam: string,
    oversLimit: int,
    strikerId: Option<string>,
    nonStrikerId: Option<string>,
    bowlerId: Option<string>,
    events: seq<Event>,
    score: int,
    wickets: int,
    balls: int)

  /** A stored match. */
  datatype MatchDoc = MatchDoc(
    code: string,
    teamA: TeamBody,
    teamB: TeamBody,
    toss: TossBody,
    status: Cricket.Status,
    inningsIndex: int,
    innings: seq<Innings>)

  /** The side that bats first on the server: the toss winner's choice, any
      winner other than team A's name counting as team B. */
  function ServerBatting(b: CreateMatchBody): (r: string)
    ensures r == b.teamA.name || r == b.teamB.name
    ensures b.toss.winner == b.teamA.name ==>
      (r == b.teamA.name <==> b.toss.decision == "bat") || b.teamA.name == b.teamB.name
    ensures b.toss.winner != b.teamA.name ==>
      (r == b.teamB.name <==> b.toss.decision == "bat") || b.teamA.name == b.teamB.name
  {
    if b.toss.winner == b.teamA.name
    then (if b.toss.decision == "bat" then b.teamA.name else b.teamB.name)
    else (if b.toss.decision == "bat" then b.teamB.name else b.teamA.name)
  }

  /** The other side: team B when team A bats, team A otherwise. */
  function ServerBowling(b: CreateMatchBody): (r: string)
    ensures r == b.teamA.name || r == b.teamB.name
    ensures b.teamA.name != b.teamB.name ==> r != ServerBatting(b)
  {
    if ServerBatting(b) == b.teamA.name then b.teamB.name else b.teamA.name
  }

  /** `POST /`: a live match in its first innings, with the sides from the
      toss, the opening batters and bowler from the request, an empty log
      and zero totals; 400 when the request breaks the schema. */
  function CreateMatch(b: CreateMatchBody): (r: Result<MatchDoc, Error>)
    ensures r.Success? <==> ValidCreate(b)
    ensures r.Failure? ==> StatusCode(r.error) == 400
    ensures r.Success? ==>
      var d := r.value;
      && d.code == b.code && d.teamA == b.teamA && d.teamB == b.teamB && d.toss == b.toss
      && d.status == Cricket.Live && d.inningsIndex == 0 && |d.innings| == 1
      && var inn := d.innings[0];
      && inn.battingTeam == ServerBatting(b) && inn.bowlingTeam == ServerBowling(b)
      && inn.oversLimit as real == b.oversLimit && 1 <= inn.oversLimit <= 50
      && inn.strikerId == b.strikerId && inn.nonStrikerId == b.nonStrikerId && inn.bowlerId == b.bowlerId
      && inn.events == [] && inn.score == 0 && inn.wickets == 0 && inn.balls == 0
  {
    var _ :- CheckCreate(b);
    var inn := Innings(ServerBatting(b), ServerBowling(b), b.oversLimit.Floor,
                       b.strikerId, b.nonStrikerId, b.bowlerId, [], 0, 0, 0);
    Success(MatchDoc(b.code, b.teamA, b.teamB, b.toss, Cricket.Live, 0, [inn]))
  }

  /** The server picks the same sides from a valid toss as the scoring
      screen does, although it writes the bowling side differently (as the
      team that is not batting). */
  lemma ServerTossAgrees(b: CreateMatchBody, d: Cricket.Decision)
    requires ParseDecision(b.toss.decision) == Some(d)
    ensures var toss := Cricket.Toss(b.toss.winner, d);
      && ServerBatting(b) == Cricket.BattingSide(toss, b.teamA.name, b.teamB.name)
      && ServerBowling(b) == Cricket.BowlingSide(toss, b.teamA.name, b.teamB.name)
  {
  }

  // ---------------------------------------------------------------------
  // Events

  datatype EventType =
    | Run | Boundary | Six | Wide | Noball | Bye | Legbye | Wicket | Retire | OverEnd | InningsEnd | MatchEnd

  /** The wire name of an event type. */
  function EventName(t: EventType): string {
    match t
    case Run => "run"
    case Boundary => "boundary"
    case Six => "six"
    case Wide => "wide"
    case Noball => "noball"
    case Bye => "bye"
    case Legbye => "legbye"
    case Wicket => "wicket"
    case Retire => "retire"
    case OverEnd => "overEnd"
    case InningsEnd => "inningsEnd"
    case MatchEnd => "matchEnd"
  }

  /** The request schema on `type`: one of the twelve names. */
  function ParseEventType(s: string): (r: Option<EventType>)
    ensures r.Some? ==> EventName(r.value) == s
  {
    if s == "run" then Some(Run)
    else if s == "boundary" then Some(Boundary)
    else if s == "six" then Some(Six)
    else if s == "wide" then Some(Wide)
    else if s == "noball" then Some(Noball)
    else if s == "bye" then Some(Bye)
    else if s == "legbye" then Some(Legbye)
    else if s == "wicket" then Some(Wicket)
    else if s == "retire" then Some(Retire)
    else if s == "overEnd" then Some(OverEnd)
    else if s == "inningsEnd" then Some(InningsEnd)
    else if s == "matchEnd" then Some(MatchEnd)
    else None
  }

  /** Every event type is accepted under its own name, so the names are
      distinct and parsing inverts naming. */
  lemma EventNameRoundTrip(t: EventType)
    ensures ParseEventType(EventName(t)) == Some(t)
  {
  }

  /** The payload fields the handlers read; an absent field is `None`. */
  datatype Payload = Payload(runs: Option<int>, extra: Option<int>, batRuns: Option<int>)

  /** `x || d` on a payload number: absent and zero both fall back to `d`. */
  function OrDefault(x: Option<int>, d: int): (r: int)
    ensures x.None? ==> r == d
    ensures x.Some? ==> r == if x.value == 0 then d else x.value
  {
    var v := x.GetOr(0);
    if v == 0 then d else v
  }

  datatype Event = Event(kind: EventType, payload: Payload, atBallIndex: int)

  /** An append request; `payload` is `None` when it is missing or not an
      object. */
  datatype EventBody = EventBody(kind: string, payload: Option<Payload>)

  /** Running totals of an innings. */
  datatype Totals = Totals(score: int, wickets: int, balls: int)

  const Zero := Totals(0, 0, 0)

  function TotalsOf(inn: Innings): Totals {
    Totals(inn.score, inn.wickets, inn.balls)
  }

  /** The event types that use up a ball. */
  predicate UsesBall(t: EventType) {
    t in {Run, Boundary, Six, Bye, Legbye, Wicket}
  }

  /** The runs an event adds: the payload's runs (default 0) on a run, bye
      or leg-bye, 4 and 6 on boundaries, the runs (default 1) on a wide,
      the extra (default 1) plus the bat runs (default 0) on a no-ball. */
  function RunsOf(t: EventType, p: Payload): int {
    match t
    case Run => OrDefault(p.runs, 0)
    case Boundary => 4
    case Six => 6
    case Wide => OrDefault(p.runs, 1)
    case Noball => OrDefault(p.extra, 1) + OrDefault(p.batRuns, 0)
    case Bye => OrDefault(p.runs, 0)
    case Legbye => OrDefault(p.runs, 0)
    case _ => 0
  }

  /** The increments `POST /:id/events` applies, one branch per type. */
  function ApplyEvent(t: Totals, kind: EventType, p: Payload): (r: Totals)
    ensures r.score == t.score + RunsOf(kind, p)
    ensures r.balls == t.balls + (if UsesBall(kind) then 1 else 0)
    ensures r.wickets == t.wickets + (if kind == Wicket then 1 else 0)
  {
    match kind
    case Run => Totals(t.score + OrDefault(p.runs, 0), t.wickets, t.balls + 1)
    case Boundary => Totals(t.score + 4, t.wickets, t.balls + 1)
    case Six => Totals(t.score + 6, t.wickets, t.balls + 1)
    case Wide => Totals(t.score + OrDefault(p.runs, 1), t.wickets, t.balls)
    case Noball => Totals(t.score + OrDefault(p.extra, 1) + OrDefault(p.batRuns, 0), t.wickets, t.balls)
    case Bye => Totals(t.score + OrDefault(p.runs, 0), t.wickets, t.balls + 1)
    case Legbye => Totals(t.score + OrDefault(p.runs, 0), t.wickets, t.balls + 1)
    case Wicket => Totals(t.score, t.wickets + 1, t.balls + 1)
    case _ => t
  }

  /** One step of the recomputation `POST /:id/undo` runs over the log,
      written as that handler writes it; it agrees with the append handler
      on what every event is worth. */
  function ReplayStep(t: Totals, ev: Event): (r: Totals)
    ensures r == ApplyEvent(t, ev.kind, ev.payload)
  {
    if ev.kind == Run then Totals(t.score + OrDefault(ev.payload.runs, 0), t.wickets, t.balls + 1)
    else if ev.kind == Boundary then Totals(t.score + 4, t.wickets, t.balls + 1)
    else if ev.kind == Six then Totals(t.score + 6, t.wickets, t.balls + 1)
    else if ev.kind == Wide then Totals(t.score + OrDefault(ev.payload.runs, 1), t.wickets, t.balls)
    else if ev.kind == Noball then
      Totals(t.score + OrDefault(ev.payload.extra, 1) + OrDefault(ev.payload.batRuns, 0), t.wickets, t.balls)
    else if ev.kind == Bye || ev.kind == Legbye then Totals(t.score + OrDefault(ev.payload.runs, 0), t.wickets, t.balls + 1)
    else if ev.kind == Wicket then Totals(t.score, t.wickets + 1, t.balls + 1)
    else t
  }

  /** The totals a log adds up to, replayed from zero in order. */
  function Replay(events: seq<Event>): (r: Totals)
    ensures 0 <= r.wickets <= r.balls <= |events|
    decreases |events|
  {
    if |events| == 0 then Zero
    else ReplayStep(Replay(events[..|events| - 1]), events[|events| - 1])
  }

  /** Events of the given types in a log. */
  function CountKinds(events: seq<Event>, kinds: set<EventType>): (n: nat)
    ensures n <= |events|
  {
    if |events| == 0 then 0
    else CountKinds(events[..|events| - 1], kinds) + (if events[|events| - 1].kind in kinds then 1 else 0)
  }

  /** Replaying a log counts one ball per event that uses one and one
      wicket per wicket event. */
  lemma {:induction false} ReplayCounts(events: seq<Event>)
    ensures Replay(events).balls == CountKinds(events, {Run, Boundary, Six, Bye, Legbye, Wicket})
    ensures Replay(events).wickets == CountKinds(events, {Wicket})
  {
    if |events| > 0 {
      var n := |events|;
      ReplayCounts(events[..n - 1]);
    }
  }

  /** Replaying a longer log is one more step. */
  lemma ReplaySnoc(events: seq<Event>, ev: Event)
    ensures Replay(events + [ev]) == ApplyEvent(Replay(events), ev.kind, ev.payload)
  {
    assert (events + [ev])[..|events|] == events;
  }

  /** The recomputation loop of `POST /:id/undo`. */
  method Recompute(events: seq<Event>) returns (t: Totals)
    ensures t == Replay(events)
  {
    t := Zero;
    var i := 0;
    while i < |events|
      invariant 0 <= i <= |events|
      invariant t == Replay(events[..i])
    {
      assert events[..i + 1][..i] == events[..i];
      t := ReplayStep(t, events[i]);
      i := i + 1;
    }
    assert events[..|events|] == events;
  }

  /** An innings whose totals are what its log adds up to. */
  predicate Consistent(inn: Innings) {
    TotalsOf(inn) == Replay(inn.events)
  }

  /** A newly created match starts consistent. */
  lemma CreatedConsistent(b: CreateMatchBody)
    requires CreateMatch(b).Success?
    ensures Consistent(CreateMatch(b).value.innings[0])
  {
  }

  /** The current innings; a document whose index is out of range makes the
      handlers throw, which they report as 500. */
  function CurrentInnings(d: MatchDoc): (r: Result<Innings, Error>)
    ensures r.Success? <==> 0 <= d.inningsIndex < |d.innings|
    ensures r.Success? ==> r.value == d.innings[d.inningsIndex]
    ensures r.Failure? ==> StatusCode(r.error) == 500
  {
    if 0 <= d.inningsIndex < |d.innings| then Success(d.innings[d.inningsIndex])
    else Failure(ServerError("no current innings"))
  }

  /** `POST /:id/events`: 400 for an unknown type or a missing payload, 404
      when no match was found, 500 without a current innings; otherwise the
      event is logged with the ball count it was bowled at and the totals
      take its increments. */
  function AppendEvent(found: Option<MatchDoc>, body: EventBody): (r: Result<MatchDoc, Error>)
    ensures ParseEventType(body.kind).None? || body.payload.None? ==> r.Failure? && StatusCode(r.error) == 400
    ensures ParseEventType(body.kind).Some? && body.payload.Some? && found.None? ==> r == Failure(NotFound)
    ensures ParseEventType(body.kind).Some? && body.payload.Some? && found.Some? ==>
      var d := found.value;
      && (r.Success? <==> 0 <= d.inningsIndex < |d.innings|)
      && (r.Failure? ==> StatusCode(r.error) == 500)
      && (r.Success? ==>
            var i := d.inningsIndex;
            var inn := d.innings[i];
            var ev := Event(ParseEventType(body.kind).value, body.payload.value, inn.balls);
            && |r.value.innings| == |d.innings|
            && r.value == d.(innings := d.innings[i := r.value.innings[i]])
            && r.value.innings[i] == inn.(events := inn.events + [ev], score := r.value.innings[i].score,
                                          wickets := r.value.innings[i].wickets, balls := r.value.innings[i].balls)
            && TotalsOf(r.value.innings[i]) == ApplyEvent(TotalsOf(inn), ev.kind, ev.payload))
  {
    match ParseEventType(body.kind)
    case None => Failure(BadRequest("type"))
    case Some(kind) =>
      if body.payload.None? then Failure(BadRequest("payload"))
      else if found.None? then Failure(NotFound)
      else
        var d := found.value;
        var inn :- CurrentInnings(d);
        var t := ApplyEvent(TotalsOf(inn), kind, body.payload.value);
        var inn' := inn.(events := inn.events + [Event(kind, body.payload.value, inn.balls)],
                         score := t.score, wickets := t.wickets, balls := t.balls);
        Success(d.(innings := d.innings[d.inningsIndex := inn']))
  }

  /** `POST /:id/undo`: 404 when no match was found, 500 without a current
      innings, 400 (and nothing saved) when the log is empty; otherwise the
      last event is dropped and the totals are recomputed from the rest. */
  function Undo(found: Option<MatchDoc>): (r: Result<MatchDoc, Error>)
    ensures found.None? ==> r == Failure(NotFound)
    ensures found.Some? ==>
      var d := found.value;
      && (!(0 <= d.inningsIndex < |d.innings|) ==> r.Failure? && StatusCode(r.error) == 500)
      && (0 <= d.inningsIndex < |d.innings| ==>
            var i := d.inningsIndex;
            var inn := d.innings[i];
            && (|inn.events| == 0 ==> r.Failure? && StatusCode(r.error) == 400)
            && (|inn.events| > 0 ==>
                  && r.Success?
                  && |r.value.innings| == |d.innings|
                  && r.value == d.(innings := d.innings[i := r.value.innings[i]])
                  && r.value.innings[i].events == inn.events[..|inn.events| - 1]
                  && r.value.innings[i] == inn.(events := r.value.innings[i].events,
                                                score := r.value.innings[i].score,
                                                wickets := r.value.innings[i].wickets,
                                                balls := r.value.innings[i].balls)
                  && Consistent(r.value.innings[i])))
  {
    if found.None? then Failure(NotFound)
    else
      var d := found.value;
      var inn :- CurrentInnings(d);
      if |inn.events| == 0 then Failure(BadRequest("No events to undo"))
      else
        var rest := inn.events[..|inn.events| - 1];
        var t := Replay(rest);
        var inn' := inn.(events := rest, score := t.score, wickets := t.wickets, balls := t.balls);
        Success(d.(innings := d.innings[d.inningsIndex := inn']))
  }

  /** Appending keeps a consistent innings consistent. */
  lemma AppendKeepsConsistent(d: MatchDoc, body: EventBody)
    requires AppendEvent(Some(d), body).Success?
    requires Consistent(d.innings[d.inningsIndex])
    ensures Consistent(AppendEvent(Some(d), body).value.innings[d.inningsIndex])
  {
    var inn := d.innings[d.inningsIndex];
    ReplaySnoc(inn.events, Event(ParseEventType(body.kind).value, body.payload.value, inn.balls));
  }

  /** Undo right after an append gives back the document as it was, when
      the innings was consistent: the log loses the new event and the
      replayed totals are the old ones. */
  lemma UndoAfterAppend(d: MatchDoc, body: EventBody)
    requires AppendEvent(Some(d), body).Success?
    requires Consistent(d.innings[d.inningsIndex])
    ensures Undo(Some(AppendEvent(Some(d), body).value)) == Success(d)
  {
    var i := d.inningsIndex;
    var inn := d.innings[i];
    var a := AppendEvent(Some(d), body).value;
    var ev := Event(ParseEventType(body.kind).value, body.payload.value, inn.balls);
    assert a.innings[i].events == inn.events + [ev];
    assert a.innings[i].events[..|a.innings[i].events| - 1] == inn.events;
    var u := Undo(Some(a)).value;
    assert TotalsOf(u.innings[i]) == Replay(inn.events) == TotalsOf(inn);
    assert u.innings[i] == inn;
    UpdateBack(d.innings, i, a.innings[i]);
    assert u.innings == a.innings[i := inn] == d.innings;
  }

  /** Writing a slot and then writing its old value back restores the
      sequence. */
  lemma UpdateBack<T>(s: seq<T>, i: int, x: T)
    requires 0 <= i < |s|
    ensures s[i := x][i := s[i]] == s
  {
  }

  /** Undo on an empty log is refused with 400 whatever else the document
      holds, and so changes nothing. */
  lemma UndoEmptyFails(d: MatchDoc)
    requires 0 <= d.inningsIndex < |d.innings| && d.innings[d.inningsIndex].events == []
    ensures Undo(Some(d)) == Failure(BadRequest("No events to undo"))
  {
  }
}
