# Ball-by-ball cricket scoring, modelled in Dafny

This project models the scoring core of Ball-by-ball-blast, a cricket
scoring app. The core has three parts:

- **The shared scoring library** (`Scoring`). `processBallGeneric` applies
  one delivery: a run, a wide, a no-ball, a bye or a leg-bye. It keeps a
  capped undo history of snapshots. It labels the delivery for the over
  strip, credits the striker and charges the bowler, and rotates the strike
  on odd runs and at the end of an over. `processWicketGeneric` applies a
  dismissal. `rotateStrike` swaps the two batters.
- **The scoring screen** (`Scorer`). It generates players from the setup
  form and starts a match from the toss. Its own `processBall` and
  `processWicket` differ from the library: both skip the over-end swap and
  the next-bowler dialog once the overs limit is reached (later balls are
  still scored), and `processWicket` asks the operator for the next batter
  when more than one is eligible. There is also an undo
  button and the "overs.balls" display. The screen copies matches shallowly,
  so a snapshot's team records are the same objects that later balls
  change in place. In the model each snapshot holds its own pre-ball
  rosters as values. Undo restores the snapshot's other fields and takes
  the rosters from the live match, as the shared objects make it do.
- **The match server** (`Server`). Its create handler validates the request
  schema and applies the toss rule. Its append handler logs a typed event,
  with the ball count it was bowled at, and bumps the running totals. Its
  undo handler pops the log and recomputes the totals by replaying what is
  left.

The modules are:

- `Wrappers`: `Option` and `Result`.
- `Text`:
  - JavaScript number-to-string and its inverse;
  - `trim` with JavaScript's white-space set;
  - lower-casing.
- `Cricket`: the records of `src/types/cricket.ts` and the helpers both
  scoring paths share, namely:
  - team lookup by name;
  - `find` over a roster;
  - the strike rotation;
  - the toss rule;
  - the over-strip invariant, which says the strip holds exactly
    `totalBalls % 6` legal deliveries.
- `Scoring`: `src/lib/scoring.ts`.
- `Scorer`: `src/components/CricketScorer.tsx`.
- `Server`: `server/src/routes/matches.ts`.

Every member is a pure function of its inputs:

- The generated match id and `Date.now()` are parameters (`id`, `createdAt`).
- The document store is an `Option<MatchDoc>` holding what the lookup found.
- React state setters become a returned `Prompt`: no dialog, the
  next-bowler dialog, or the next-batter dialog.

## Model

| member | source | states |
|---|---|---|
| Text.NatRoundTrip | src/lib/scoring.ts:32 | reading back the decimal text of a natural number gives the number |
| Text.IntToString | src/lib/scoring.ts:32 | the rendering of an integer is a canonical numeral: digits with no leading zero, a minus sign exactly for negative numbers, and never "-0" (for integers within JavaScript's safe range, see Left out) |
| Text.IntRoundTrip | src/lib/scoring.ts:32 | the rendering of an integer is non-empty and parses back as the same integer |
| Text.NatNumeralRoundTrip | src/lib/scoring.ts:32 | every canonical natural numeral is the rendering of the number it denotes |
| Text.IntNumeralRoundTrip | src/lib/scoring.ts:32 | every canonical integer numeral is the rendering of the number it denotes, so rendering is onto the canonical numerals |
| Text.NatToStringInjective | src/components/CricketScorer.tsx:38 | different numbers render to different digit strings, which is what keeps generated player ids apart |
| Text.TrimStartSpec | src/components/CricketScorer.tsx:36 | `trimStart` keeps a suffix, drops only white space, and stops at a non-space |
| Text.TrimEndSpec | src/components/CricketScorer.tsx:36 | `trimEnd` keeps a prefix, drops only white space, and stops at a non-space |
| Text.Trim | src/components/CricketScorer.tsx:36 | `trim` returns the name's middle slice after the leading white space, with only white space outside it, and a non-empty result starts and ends with a non-space |
| Text.TrimSpec | src/components/CricketScorer.tsx:36 | a trimmed name is the input with only its leading and trailing white space removed: it starts and ends with a non-space, and it is empty exactly when the name is all white space |
| Text.Lower | src/components/CricketScorer.tsx:38 | lower-casing keeps the length (ASCII letters only, see Left out) |
| Cricket.TeamNamed | src/lib/scoring.ts:64 | a side name picks one of the two teams: the team of that name when either team has it, and team B for any name that is not team A's |
| Cricket.FindPlayer | src/lib/scoring.ts:65 | `find` by id returns the first player with that id, or nothing when no player has it |
| Cricket.WithTeamNamed | src/lib/scoring.ts:64 | replacing the team a side name selects leaves the other team and both names alone |
| Cricket.UpdatePlayer | src/lib/scoring.ts:65-72 | mutating the found player changes that one roster entry and nothing else in the match; with no such player, nothing changes |
| Cricket.UpdatePlayerOnly | src/lib/scoring.ts:65-72 | every player but the first with the id is untouched, and that one becomes the update of itself |
| Cricket.RotateStrike | src/lib/scoring.ts:16-20 | striker and non-striker trade places and nothing else changes |
| Cricket.LegalCountAppend | src/types/cricket.ts:19-27 | appending a delivery adds one legal delivery exactly when it is neither a wide nor a no-ball |
| Cricket.BattingSide | src/components/CricketScorer.tsx:82-84 | the side batting first is one of the two teams: the toss winner when it chose to bat, the other team otherwise, and any winner that is not team A counts as team B |
| Cricket.BowlingSide | src/components/CricketScorer.tsx:85-87 | the bowling side is the team that is not batting |
| Scoring.PushSnapshot | src/lib/scoring.ts:24-28 | the snapshot is pushed last; when the history was already at the cap of 50, the oldest entry goes, so a history within the cap stays within it |
| Scoring.ReadIntRoundTrip | src/lib/scoring.ts:32 | a plain run label reads back as the runs and names no extra |
| Scoring.ReadIntAfterPrefix | src/lib/scoring.ts:33-36 | a prefix followed by a rendered number can be split back into the prefix and the number |
| Scoring.ReadInt | src/lib/scoring.ts:32 | a text reads as a number only when it is exactly that number's rendering, so "07", "00" and "-0" read as nothing |
| Scoring.ReadIntInjective | src/lib/scoring.ts:32 | two texts that read as the same number are the same text |
| Scoring.TaggedIsRendering | src/lib/scoring.ts:33-36 | a text tagged with a prefix and a number is exactly the prefix followed by the number's rendering |
| Scoring.Label | src/lib/scoring.ts:32-36 | the label's first letter names the extra. A wide reads `WD`, or `WD+` and the rendering of the runs beyond the first. A no-ball reads `NB`, or `NB+` and the rendering of the bat runs. A bye or leg-bye reads `B` or `LB` followed by the rendering of the runs, or the bare letters on zero. A plain delivery is the rendering of its runs. With `Scoring.TaggedIsRendering` and `Scoring.ReadIntInjective` this fixes the text |
| Scoring.Delivery | src/lib/scoring.ts:38-45 | the strip entry carries the runs and the label, flags exactly the extra given, and is legal exactly when the delivery counts towards the over |
| Scoring.ProcessBallGeneric | src/lib/scoring.ts:22-101 | score grows by 1 plus the bat runs on a no-ball and by the runs otherwise. Balls grow by one except on wides and no-balls. The strip gets the new entry unless a counted ball completes the over, which empties it. The history gains the pre-ball snapshot under the cap. Fixture, wickets and bowler are unchanged |
| Scoring.CreditStrikerOf | src/lib/scoring.ts:62-73 | only the credited striker's line changes: runs by the bat runs, balls faced by one on a counted ball, a four or six counted on exactly 4 or 6; the bowling team is untouched |
| Scoring.ChargeBowlerOf | src/lib/scoring.ts:75-84 | only the bowler's line changes: runs conceded (1 plus the bat runs on a no-ball) and one ball on a counted delivery; the batting team is untouched |
| Scoring.BallStrikeRotation | src/lib/scoring.ts:86-98 | a counted ball that completes the over swaps ends; otherwise odd bat runs (or odd byes and leg-byes) swap ends and even ones keep them, with JavaScript's `%` on negative runs |
| Scoring.LegalStep | src/lib/scoring.ts:94-98 | a legal delivery keeps the strip's legal count equal to the balls modulo six |
| Scoring.StripStep | src/lib/scoring.ts:94-98 | any delivery, legal or extra, keeps the over-strip invariant |
| Scoring.BallKeepsOverInvariant | src/lib/scoring.ts:47-98 | `processBallGeneric` preserves the over-strip invariant |
| Scoring.BallCreditsStriker | src/lib/scoring.ts:62-73 | on distinct sides, byes, leg-byes and a missing striker leave the batting roster alone; otherwise only the striker's line changes, crediting the bat runs and a ball faced unless the delivery was a wide or no-ball |
| Scoring.BallChargesBowler | src/lib/scoring.ts:75-84 | on distinct sides, only the bowler's line changes, charged exactly the runs the team scored and the balls the team used |
| Scoring.ProcessWicketGeneric | src/lib/scoring.ts:103-135 | one more wicket and ball, no runs, and the full pre-wicket snapshot pushed with no cap. A completed over empties the strip and swaps ends; otherwise `W` is appended and the ends stay |
| Scoring.DismissStriker | src/lib/scoring.ts:110-115 | only the striker's line changes: marked out and charged the ball |
| Scoring.WicketToBowler | src/lib/scoring.ts:117-124 | only the bowler's line changes: one more ball and one more wicket |
| Scoring.WicketKeepsOverInvariant | src/lib/scoring.ts:126-132 | `processWicketGeneric` preserves the over-strip invariant |
| Scoring.WicketDismissesStriker | src/lib/scoring.ts:110-115 | on distinct sides, the wicket marks out exactly the striker's line and touches no other batter |
| Scoring.WicketCreditsBowler | src/lib/scoring.ts:117-124 | on distinct sides, the wicket credits exactly the bowler's line and touches no other bowler |
| Scorer.Filled | src/components/CricketScorer.tsx:36 | no blank name survives the filter and the list does not grow; a one-name form keeps its name exactly when it is not blank |
| Scorer.FilledAppend | src/components/CricketScorer.tsx:36 | filtering two parts of a form and joining the results is filtering the whole form, so the kept names stay in form order, each as often as it was filled in |
| Scorer.FilledFromForm | src/components/CricketScorer.tsx:36 | every kept name comes from the form |
| Scorer.FilledKeepsAll | src/components/CricketScorer.tsx:36 | every non-blank name on the form is kept |
| Scorer.Numbered | src/components/CricketScorer.tsx:37-45 | the k-th kept name becomes a fresh player with id `<team lower-cased>_p<k>` and the trimmed name |
| Scorer.GeneratePlayers | src/components/CricketScorer.tsx:35-46 | one fresh player per non-blank name, in form order, numbered from 1, with zeroed figures and trimmed names |
| Scorer.PlayerIdsDiffer | src/components/CricketScorer.tsx:38 | different positions give different ids within a team |
| Scorer.GeneratedIdsDistinct | src/components/CricketScorer.tsx:35-46 | the generated roster has no repeated id |
| Scorer.GeneratedNamesTrimmed | src/components/CricketScorer.tsx:36-39 | every generated name is non-empty and has no white space at either end |
| Scorer.AreMinimumPlayersFilled | src/components/CricketScorer.tsx:49-53 | the start button is enabled exactly when both teams would get at least one player |
| Scorer.StartMatch | src/components/CricketScorer.tsx:63-106 | nothing happens without a bowler. Otherwise the match is live in innings 1, with generated rosters, the toss rule's sides, zero score, balls and target, an empty strip and history, the chosen openers and bowler, and the over-strip invariant holding |
| Scorer.StartedSidesDiffer | src/components/CricketScorer.tsx:82-87 | with two differently named teams and a bowler, the started match bats and bowls different teams |
| Scorer.Entry | src/components/CricketScorer.tsx:122-129 | the screen's strip entry carries the runs, displays their rendering whatever the extra, flags exactly the extra given, and is legal exactly when it is neither a wide nor a no-ball |
| Scorer.EntryAgainstDelivery | src/components/CricketScorer.tsx:122-129 | the screen's entry equals the library's on a plain delivery, and on an extra differs from it in the display alone |
| Scorer.BallStages | src/components/CricketScorer.tsx:119-168 | before the over check: snapshot pushed with no cap, score up by the runs, balls up by one unless an extra, the plain-text entry appended, and ends swapped on odd runs unless the over is at a multiple of six |
| Scorer.CreditStriker | src/components/CricketScorer.tsx:136-146 | only the striker's line changes (not on byes or leg-byes): runs up by the runs, a ball faced unless an extra, a four or six counted on 4 or 6 |
| Scorer.ChargeBowler | src/components/CricketScorer.tsx:148-156 | only the bowler's line changes, and in its batting fields: runs up by the runs and balls up by one unless an extra |
| Scorer.ProcessBall | src/components/CricketScorer.tsx:116-185 | score and balls as in the stages. When the balls reach a multiple of six below the overs limit, the strip empties, ends swap and the next-bowler dialog opens. Otherwise the entry stays, odd runs swap ends, and no dialog opens |
| Scorer.LastBallOfInnings | src/components/CricketScorer.tsx:171 | the innings' last legal ball opens no dialog and keeps its entry, and the ends stay even on odd runs |
| Scorer.RostersCreditStriker | src/components/CricketScorer.tsx:136-146 | on distinct sides, the crediting stages change only the striker's line and credit it as above |
| Scorer.RostersChargeBowler | src/components/CricketScorer.tsx:148-156 | on distinct sides, the crediting stages change only the bowler's line and charge it as above |
| Scorer.BallCreditsStriker | src/components/CricketScorer.tsx:136-146 | on distinct sides, `processBall` changes only the striker's batting line |
| Scorer.BallChargesBowler | src/components/CricketScorer.tsx:148-156 | on distinct sides, `processBall` changes only the bowler's line |
| Scorer.Eligible | src/components/CricketScorer.tsx:233 | the eligible batters are roster entries not out and not the non-striker, and every such entry is eligible; a one-player roster yields that player exactly when eligible |
| Scorer.EligibleAppend | src/components/CricketScorer.tsx:233 | filtering two parts of a roster and joining the results is filtering the whole roster, which fixes the order and the count of eligible batters |
| Scorer.WicketStages | src/components/CricketScorer.tsx:191-230 | one more wicket and ball, snapshot pushed with no cap. Under the overs gate the strip empties and ends swap; otherwise `W` is appended |
| Scorer.CreditWicket | src/components/CricketScorer.tsx:205-213 | only the bowler's line changes: one more ball and one more wicket |
| Scorer.ProcessWicket | src/components/CricketScorer.tsx:188-250 | nothing happens without a striker. With several eligible batters the next-batter dialog opens. With exactly one, that batter takes the striker's id. With none the striker stays. With at most one, the next-bowler dialog opens exactly when the over ended below the limit |
| Scorer.AutoBatterIsEligible | src/components/CricketScorer.tsx:233-240 | an automatically chosen batter is on the roster, not out, and not the non-striker |
| Scorer.WicketRosterLines | src/components/CricketScorer.tsx:197-213 | on distinct sides the stages mark out only the striker's line and credit only the bowler's line |
| Scorer.WicketUpdatesPlayers | src/components/CricketScorer.tsx:197-213 | on distinct sides `processWicket` marks out only the striker and credits only the bowler |
| Scorer.UndoLastBall | src/components/CricketScorer.tsx:289-294 | with no history nothing changes. Otherwise the result is the last snapshot in every field but the rosters, which stay those of the live match, because snapshots share them |
| Scorer.UndoAfterBall | src/components/CricketScorer.tsx:289-294 | undo after a ball restores every field of the match before it except the rosters |
| Scorer.UndoAfterWicket | src/components/CricketScorer.tsx:289-294 | undo after a wicket restores every field of the match before it except the rosters |
| Scorer.JsRem | src/components/CricketScorer.tsx:271 | JavaScript's remainder: Dafny's on non-negative input; on negative input a non-positive value that differs from the dividend by a multiple of `b`; always strictly inside (-b, b) |
| Scorer.CurrentOver | src/components/CricketScorer.tsx:268-273 | completed overs and balls into the over recompose the ball count, with the balls below six |
| Scorer.CurrentOverText | src/components/CricketScorer.tsx:268-273 | the display is the completed overs, a dot, and one digit for the balls into the over |
| Scorer.StepsKeepSidesDiffer | src/components/CricketScorer.tsx:116-250 | neither a ball nor a wicket changes which team bats and which bowls |
| Scorer.ExtraClosesOver | src/components/CricketScorer.tsx:159-182 | as written, an extra bowled when the balls already sit at a multiple of six below the limit empties the strip, swaps ends and opens the next-bowler dialog |
| Scorer.ProcessBallFixed | src/components/CricketScorer.tsx:159-182 | with the over gate limited to counted balls, an extra never empties the strip, never opens a dialog and swaps ends only on odd runs off the over boundary |
| Scorer.FixedBallAgreesOnLegal | src/components/CricketScorer.tsx:159-182 | the corrected ball matches the original on every legal delivery |
| Scorer.FixedBallDiffersOnlyThere | src/components/CricketScorer.tsx:159-182 | on an extra, the corrected ball differs from the original exactly when the over-end gate holds |
| Scorer.WicketLastBallKeepsDismissed | src/components/CricketScorer.tsx:222-240 | as written, a wicket that ends an over with one eligible batter left leaves the dismissed batter as non-striker |
| Scorer.ProcessWicketFixed | src/components/CricketScorer.tsx:222-240 | the corrected wicket sends the incoming batter to the end the dismissed one left: the non-striker's end after an over-end swap, the striker's end otherwise |
| Scorer.IncomingIsNotDismissed | src/components/CricketScorer.tsx:233 | with distinct ids on the roster, no eligible batter carries the dismissed striker's id |
| Scorer.FixedWicketRemovesDismissed | src/components/CricketScorer.tsx:222-240 | after the corrected wicket the dismissed batter is at neither end and the surviving batter is still at one |
| Scorer.UndoKeepsBatRuns | src/components/CricketScorer.tsx:120-146 | as written, undoing a credited ball leaves the runs on the striker's line |
| Scorer.UndoSnapshot | src/components/CricketScorer.tsx:289-294 | the corrected undo returns the last snapshot itself, rosters included, and differs from the as-written undo in the rosters alone |
| Scorer.UndoSnapshotAfterBall | src/components/CricketScorer.tsx:289-294 | with full snapshots, undo after a ball gives back the match exactly |
| Scorer.UndoSnapshotAfterWicket | src/components/CricketScorer.tsx:289-294 | with full snapshots, undo after a taken wicket gives back the match exactly |
| Server.CheckTeam | server/src/routes/matches.ts:7-11 | a team passes exactly when its name and every player's name are non-empty and it has a player |
| Server.CheckCreate | server/src/routes/matches.ts:8-17 | the request passes exactly when it meets the schema: code of 3 to 8 characters, both teams valid, a whole-number overs limit from 1 to 50, decision `bat` or `bowl`; failures are 400 |
| Server.ParseDecision | server/src/routes/matches.ts:13 | `bat` and `bowl` are the only decisions, each read as itself |
| Server.ServerBatting | server/src/routes/matches.ts:26 | the batting side is one of the two teams. When team A won the toss, team A bats exactly when the decision is `bat`. When any other name won, team B bats exactly when the decision is `bat`. Both hold whenever the two names differ |
| Server.ServerBowling | server/src/routes/matches.ts:27 | the bowling side is one of the two teams and, when their names differ, not the batting side |
| Server.CreateMatch | server/src/routes/matches.ts:19-46 | 400 exactly when the schema fails. Otherwise a live match in innings 0 with one innings holding the toss rule's sides, the overs limit, the openers and bowler sent, an empty log and zero totals |
| Server.ServerTossAgrees | server/src/routes/matches.ts:26-27 | the server's batting and bowling sides are those the scoring screen's toss rule gives |
| Server.ParseEventType | server/src/routes/matches.ts:75 | an accepted type is named by the string sent |
| Server.EventNameRoundTrip | server/src/routes/matches.ts:75 | each of the twelve types is accepted under its own name |
| Server.OrDefault | server/src/routes/matches.ts:89-105 | a payload field defaulted by logical or gives the default when it is missing or zero, and the field otherwise |
| Server.ApplyEvent | server/src/routes/matches.ts:89-111 | an event adds its runs to the score. Runs, boundaries, sixes, byes, leg-byes and wickets add a ball. Only a wicket adds a wicket |
| Server.ReplayStep | server/src/routes/matches.ts:129-136 | one step of the undo handler's recomputation adds exactly the increments the append handler applies for that event |
| Server.Replay | server/src/routes/matches.ts:128-137 | replaying a log never counts more wickets than balls, nor more balls than events |
| Server.ReplayCounts | server/src/routes/matches.ts:128-137 | replayed balls are the number of ball-using events, and replayed wickets the number of wicket events |
| Server.ReplaySnoc | server/src/routes/matches.ts:129-137 | replaying a log with one more event applies that event to the old replay |
| Server.Recompute | server/src/routes/matches.ts:128-137 | the recomputation loop ends with the replay of the whole log |
| Server.CreatedConsistent | server/src/routes/matches.ts:42-45 | a newly created innings' totals are those of its empty log |
| Server.CurrentInnings | server/src/routes/matches.ts:85 | the current innings is found exactly when the index is in range; otherwise the handler fails with 500 |
| Server.AppendEvent | server/src/routes/matches.ts:79-117 | 400 on an unknown type or missing payload, before the lookup. Then 404 on no match and 500 on no current innings. Otherwise only the current innings changes: the event is logged with the ball count before it, and the totals move by its increments |
| Server.Undo | server/src/routes/matches.ts:119-143 | 404 on no match, 500 on no current innings, 400 on an empty log. Otherwise only the current innings changes: its last event goes and its totals become the replay of the rest |
| Server.AppendKeepsConsistent | server/src/routes/matches.ts:86-136 | appending keeps an innings' totals equal to the replay of its log |
| Server.UndoAfterAppend | server/src/routes/matches.ts:79-143 | undo straight after an append gives back the document as it was, when the innings was consistent |
| Server.UndoEmptyFails | server/src/routes/matches.ts:124-125 | undo on an empty log is refused with 400 |

## Left out

- Deep clones (`src/lib/scoring.ts:12-14`): `cloneMatch` goes through JSON, and becomes a plain value copy here. JSON also drops `undefined` fields and turns `NaN` into `null`; neither is modelled.
- Shared rosters on the scoring screen: `{ ...match }` copies only the top level, so a snapshot's teams are the live team objects. `Scorer` does not model object identity. Its snapshots keep their own pre-ball rosters as values, and `Scorer.UndoLastBall` swaps in the live rosters when it undoes.
- The random match id and `Date.now()` (`src/components/CricketScorer.tsx:66,99`) are parameters of `Scorer.StartMatch`.
- The scoring screen's `extraType` is a free string. Only its equality with the four literals matters, so it is an `Option<ExtraType>`, with any other string read as `None`.
- Text.IntToString: JavaScript numbers are doubles. Integers beyond 2^53 - 1 in magnitude are not exact, and from 1e21 up `toString` writes exponent form (`"1e+21"`). The unbounded rendering here matches `toString` only for integers within the safe range, |n| <= 2^53 - 1. Runs and counters stay far inside it.
- JavaScript numbers are integers here. Runs, counters and payload fields are never `NaN`, infinite or fractional. The server's `Number(...)` coercion of arbitrary payload values is not modelled, and payload fields are integers or absent.
- Text.Lower: only ASCII letters are lowered. JavaScript's `toLowerCase` follows full Unicode case mapping and can change the length (`'İ'` becomes two code units), so the proved length equality does not hold in JavaScript for such names.
- Strings are sequences of Dafny characters rather than UTF-16 code units. The schema's length bounds and `trim` are stated on those characters.
- The `console.log` calls (`src/components/CricketScorer.tsx:172,224`) are left out.
- React state setters and dialogs become the returned `Prompt`. The dialog handlers that later pick a striker, bowler or batter (`handleStrikerSelection`, `handleNextBowlerSelection` and the rest) are left out.
- Request bodies arrive already typed: a field of the wrong JSON type or a missing field, such as `oversLimit: "20"` or no `toss` (`server/src/routes/matches.ts:20-22,80-81`), cannot be written down, so the schema library's 400 for it is not modelled. `Server.CheckCreate` covers only the value constraints.
- A malformed match id makes `findById` throw a cast error, which the handlers report as 500 (`server/src/routes/matches.ts:83,121`). The model's lookup only finds or misses, so it gives 404 or a document and never this 500.
- The handlers are modelled as atomic. Two concurrent appends to one match each read, change and save the document, and one update can be lost. `Server.AppendKeepsConsistent` and `Server.Undo`'s consistency hold for a single writer only.
- The database, `await`, and the 201 and 500 replies of a failed create or save are left out. `Server.CreateMatch` returns the document that would be stored.
- The `GET` routes (`server/src/routes/matches.ts:54-72`) only read the store and are left out.
- `dismissalType`, `dismissedBy`, the `BowlerStats` record, run rates, second innings, targets, results and match completion are left out. They are outside the scoring core.
- Server.CheckCreate: a failure reports only the first failing field. The schema library would report every one, in a flattened error object, still with status 400.
- Server.Innings has no `target` field. The create handler does not set one, and the storage schema that would default it is not part of this model.
- Scorer.UndoSnapshotAfterWicket requires a striker, because without one `processWicket` returns before pushing a snapshot (`Scorer.ProcessWicket` states that no-op).

## Findings

| source | as written | input that shows it | evidently intended | confidence | as-written member | corrected member |
|---|---|---|---|---|---|---|
| src/components/CricketScorer.tsx:171 | the over-end test runs after every delivery, extras included | a wide as the first ball of a six-over match: `totalBalls` stays 0, so the strip is cleared, ends swap and the next-bowler dialog opens | only a counted ball can complete an over | not executed | Scorer.ExtraClosesOver | Scorer.ProcessBallFixed |
| src/components/CricketScorer.tsx:223-240 | at an over end the ends swap first, then the single eligible batter overwrites `strikerId`, which now holds the surviving batter | striker `a`, non-striker `b`, a wicket on the sixth ball with one more batter `c`: `b` is replaced by `c` and the dismissed `a` stays as non-striker | the newcomer takes the dismissed batter's place, and the survivor keeps theirs | not executed | Scorer.WicketLastBallKeepsDismissed | Scorer.ProcessWicketFixed |
| src/components/CricketScorer.tsx:120,141,289-294 | snapshots are shallow copies, so they share the player objects that `processBall` mutates in place | a 4 scored and then undone: the score goes back but the striker keeps the 4 runs | undo restores the players' figures too | not executed | Scorer.UndoKeepsBatRuns | Scorer.UndoSnapshot |
