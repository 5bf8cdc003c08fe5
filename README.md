# Taboo arena: a verified model of the game core

The server in `server.js` runs a game of taboo between two language models.
Each player gets a secret word. The players take turns producing one
response each. A player who says their own word loses, and the other player
wins. The server owns a single current game and a flag that refuses a second
`startGame` while a game is running. It streams every turn to observers as
events.

This project models that core in Dafny and proves what it promises:

- `ascii_text.dfy` (module `AsciiText`): ASCII lower-casing (`toLowerCase`)
  and substring search (`includes`), with the bridge between the recursive
  scan and "occurs at some position".
- `taboo_rules.dfy` (module `TabooRules`): the game as values. It covers the
  two players, the model roster and the random draw, the violation detector,
  the per-player context builder, and the game record with the invariant
  every reachable game keeps. It also has the outcome of one turn (`AfterTurn`,
  `TurnEvents`) and of the turn loop (`RunReplies`, `RunEvents`), with
  lemmas about each.
- `taboo_server.dfy` (module `TabooServer`): the mutable state.
  - Class `TabooGame` has the source's fields and methods.
  - Class `Server` holds `currentGame`, `isGameInProgress` and a log of
    every emitted event. Its handlers are `StartGame`, `PlayTurn` and
    `RunGame`.
  - Each method is proved against the functions of `TabooRules`.
- `scenarios.dfy` (module `Scenarios`): three concrete games. In the first,
  a first response says "ROCKETS" and loses at once. In the second, a
  harmless first response is recorded. In the third, a second start request
  is refused while a game runs.

Modelling choices:

- **Random draws.** `Math.random()` becomes a sequence of draws in [0, 1),
  passed to the constructor. The model for player A comes from the first
  draw. Player B's model comes from the following draws, redrawn until it
  differs from A's. The precondition `GoodDraws` says such a later draw
  exists. It is what makes the source's rejection loop terminate.
- **The completion gateway.** Its reply to one request is a `Reply`:
  - `Rejected(error)` stands for a non-200 status or a missing body.
  - `Streamed(fragments, broken)` stands for a stream of optional delta
    contents. It either runs to its end (`broken == None`) or breaks off
    with an error message.
- **Events.** Every `io.emit` and `socket.emit` of the handlers is appended
  to `Server.events`.
- **The turn loop.** `RunGame` is given a finite sequence of replies, one
  per turn.

Four behaviours of the code are easy to misread; the model records them as
written:

- On a failed turn, the `catch` block (server.js:217-221) emits the error
  and stops the loop, but it does not clear `isGameInProgress`. The game is
  therefore left running, and every later `startGame` is refused.
  `Server.PlayTurn` states exactly this: the flag changes only when the
  game ends.
- Only the lower-cased taboo words are stored (server.js:44-45); the
  casing the players typed is not kept anywhere in the game.
- The taboo words are not checked for being non-empty.
  `TabooRules.EmptyWordAlwaysViolates` shows the consequence: an empty
  word is found in every response.
- `getGameState` hands out the game's own containers by reference. The
  model's values cannot alias, so its snapshot is a copy.

## Model

| member | source | states |
|---|---|---|
| AsciiText.LowerChar | server.js:81 | an upper-case ASCII letter is mapped to its lower-case partner (offset 32), every other character is kept, and the result is never upper-case |
| AsciiText.Lower | server.js:44-45 | `toLowerCase` keeps the length, maps each character by `LowerChar`, and yields a string with no upper-case letter |
| AsciiText.LowerOfLower | server.js:44-45 | lower-casing an already lower-case string changes nothing |
| AsciiText.IsSubstring | server.js:82-84 | `includes`: scans the text from the left and holds when some suffix starts with the pattern; its meaning is fixed by `SubstringIffOccurs` |
| AsciiText.SubstringIffOccurs | server.js:82-84 | the left-to-right scan behind `includes` succeeds exactly when the pattern occurs at some position of the text |
| TabooRules.Id | server.js:55 | the two player ids are distinct from the roles "system", "assistant" and "user" used in the context |
| TabooRules.Other | server.js:88 | the opponent of a player is the other player |
| TabooRules.OtherIsInvolution | server.js:87-89 | switching twice returns to the same player, and a switch always changes the id |
| TabooRules.RandomModel | server.js:35-38 | the roster entry at `floor(r * models.length)` for a draw r in [0, 1), computed on exact reals, is always a roster member |
| TabooRules.RedrawFrom | server.js:51-53 | the redraw loop settles on a roster model different from player A's, namely the model of the first remaining draw that differs from A's: every draw before it gave A's model |
| TabooRules.NewGame | server.js:41-60 | a new game has lower-cased taboo words, two distinct roster models (A's from the first draw, B's where the redraw loop stops), empty turns and history, player A to move, not over, no winner, and it satisfies the game invariant |
| TabooRules.Violates | server.js:79-85 | `checkViolation` on a stored word: the lower-cased response includes the word, the word plus "s", or the word plus "es"; characterised by `ViolatesIffContains` and `ViolatesIffSpelled` |
| TabooRules.ViolatesIffContains | server.js:79-85 | a response violates exactly when its lower-cased text contains the bare taboo word; the "s" and "es" variants add nothing |
| TabooRules.ViolatesIffSpelled | server.js:79-85 | case insensitivity: a response violates exactly when some slice of it, in any letter case, lower-cases to the taboo word |
| TabooRules.EmptyWordAlwaysViolates | server.js:80-82 | an empty taboo word is found in every response |
| TabooRules.Instruction | server.js:101-112 | the instruction that opens a context has role "user" |
| TabooRules.InstructionMentions | server.js:103-111 | the instruction text names the topic, the player's own taboo word and the opponent's |
| TabooRules.Relabel | server.js:115-129 | the `map` callback: the viewer's own entry becomes "assistant", a "system" entry is kept, any other entry becomes "user", and the content is kept |
| TabooRules.RelabelAll | server.js:115-129 | the relabelled history keeps length and every content; an entry becomes "assistant" iff the viewer wrote it, stays "system" iff it was "system", and becomes "user" otherwise |
| TabooRules.Context | server.js:95-133 | the context is one longer than the history, opens with the viewer's instruction, and carries entry i of the history at i+1 with the roles above |
| TabooRules.RelabelSwapsRoles | server.js:115-129 | for a history written by the two players, the two relabellings agree on every content and swap "assistant" and "user" |
| TabooRules.PerspectivesInvert | server.js:95-133 | the two players' contexts have the same length and contents after the instruction, and each "assistant" in one is "user" in the other, both ways |
| TabooRules.Snapshot | server.js:66-77 | the snapshot carries the topic, taboo words, models, turns, current player, game-over flag and winner of the game |
| TabooRules.Consistent | server.js:183-205 | the invariant of every reachable game: lower-case taboo words, two distinct roster models, turns and history of equal length with entry i spoken by the player of turn i with that player's model, no recorded turn violating, the player to move fixed by the number of turns, and a winner exactly when the game is over, namely the player not to move |
| TabooRules.Alternation | server.js:197-205 | in every consistent game, history roles are the players' ids, turns and history have equal length, consecutive turns alternate starting with player A, and the player to move is not the last speaker |
| TabooRules.Piece | server.js:172 | a fragment's contribution, `choice.delta?.content ?? ''`: its content when present, "" otherwise |
| TabooRules.Joined | server.js:160-173 | `fullResponse` after the stream: the fragments' contents concatenated in arrival order, a fragment without content adding "" |
| TabooRules.ProgressEvents | server.js:168-180 | one `turnProgress` event per fragment, in arrival order, carrying the fragment's content or "" |
| TabooRules.RecordTurn | server.js:196-205 | a non-violating response appended as one history entry with the speaker's id and one turn with speaker, model and text, then the move passed to the other player |
| TabooRules.DeclareViolation | server.js:185-187 | the game marked over with the other player as winner, turns and history untouched |
| TabooRules.Settle | server.js:183-214 | a finished response settled: `DeclareViolation` when it holds the speaker's taboo word, `RecordTurn` otherwise |
| TabooRules.Continues | server.js:137-220 | `playTurn`'s result: true exactly when the game was running, the stream completed and the response does not violate, which is `!currentGame.gameOver` at 216; falsy (`undefined`) after the early return at 137 and `false` in the catch at 220; both are modelled as false, since `runGame` only tests the result's truth at 227 |
| TabooRules.AfterTurn | server.js:137-221 | the game after one `playTurn`: unchanged when the game is over or the reply did not complete, otherwise the completed response settled; its properties are `AfterTurnConsistent` and `AfterTurnFrame` |
| TabooRules.Verdict | server.js:188-213 | the closing event of a finished response: `gameOver` with winner, both models and the reason naming the offender, or `turnComplete` whose `player` is read after the switch and so equals `nextPlayer` |
| TabooRules.ViolationReason | server.js:192 | the `gameOver` reason: the offender's id, its model in parentheses, then "used their taboo word" |
| TabooRules.TurnError | server.js:219 | the catch message: "Error during", the player's id, "'s turn", the player's model in parentheses, then the error detail |
| TabooRules.TurnEvents | server.js:168-221 | the events of one `playTurn`: none for a finished game, one `error` for a refused request, otherwise one progress event per fragment followed by an `error` if the stream broke off or by the verdict; their order is `TurnEventsOrder` |
| TabooRules.SettleConsistent | server.js:183-214 | settling a response in a running game keeps the game invariant |
| TabooRules.AfterTurnConsistent | server.js:137-221 | every call of `playTurn` keeps the game invariant |
| TabooRules.AfterTurnFrame | server.js:137-216 | a turn never changes topic, taboo words or models; a finished game is left alone; the game ends iff the completed response violates, with the other player as winner; a non-violating completed turn appends exactly one turn and one history entry for the speaker and switches player; every other outcome leaves turns, history and player unchanged |
| TabooRules.TurnEventsOrder | server.js:168-221 | a turn of a finished game emits nothing; otherwise all but the last event are `turnProgress`; the last is `gameOver` iff the turn ends the game, `turnComplete` iff it continues, and `error` iff the stream did not complete |
| TabooRules.TurnGameOverCount | server.js:185-194 | one turn emits exactly one `gameOver` if it ends the game and none otherwise |
| TabooRules.TurnGameOverLast | server.js:168-213 | within a turn only the last event can be `gameOver`, and a turn that continues emits none |
| TabooRules.RunReplies | server.js:224-230 | the game after `runGame` over a sequence of replies: turns are played while the game is not over, replies remain and the last turn continued |
| TabooRules.RunEvents | server.js:224-230 | the events of that run, turn after turn, in the order `RunReplies` plays them |
| TabooRules.RunConsistent | server.js:224-230 | the turn loop keeps the game invariant |
| TabooRules.RunAppendOnly | server.js:224-230 | the loop only appends to turns and history, at most one turn per reply, leaves a finished game alone, and keeps taboo words and models |
| TabooRules.GameOverReportedOnce | server.js:185-194 | over a whole run, `gameOver` is emitted once exactly when the run ends a running game, and only as the last event |
| TabooServer.TabooGame.constructor | server.js:41-60 | the constructor's redraw loop builds exactly `NewGame` from the draws, so the new game is valid |
| TabooServer.TabooGame.GetGameState | server.js:66-77 | the snapshot's fields are the game's current fields |
| TabooServer.TabooGame.CheckViolation | server.js:79-85 | the check holds iff the lower-cased response contains the player's stored taboo word |
| TabooServer.TabooGame.SwitchPlayer | server.js:87-89 | the player to move becomes the other player and nothing else changes |
| TabooServer.TabooGame.AddToHistory | server.js:91-93 | exactly one `{role, content}` entry is appended to the history and nothing else changes |
| TabooServer.TabooGame.GetCurrentPlayerContext | server.js:95-133 | the context for the player to move has length one plus the history, opens with a "user" message, keeps every content, and labels each entry "assistant", "system" or "user" as described for `RelabelAll` |
| TabooServer.Server.constructor | server.js:32-33 | the server starts with no game, the flag cleared and no events |
| TabooServer.Server.StartGame | server.js:239-256 | while the flag is set, the request is refused with an `error` and a `gameInProgress` snapshot, and the current game is untouched; otherwise the flag is set, a fresh game equal to `NewGame` replaces the current one, and `gameStarted` is emitted with its topic, taboo words and models |
| TabooServer.Server.StreamFragments | server.js:160-181 | the accumulated response is the join of the fragments, and one `turnProgress` event per fragment is appended |
| TabooServer.Server.PlayTurn | server.js:136-222 | without a game nothing happens; otherwise the game becomes `AfterTurn` of the reply, the events of `TurnEvents` are appended, the result says whether the game continues, the flag is cleared only when the game ends (not on an error), and the request sent is the context of the player to move |
| TabooServer.Server.StreamTurn | server.js:159-216 | for a streamed reply, the game, events, result and flag are those of `AfterTurn`, `TurnEvents` and `Continues` |
| TabooServer.Server.SettleTurn | server.js:183-216 | a violation ends the game with the other player as winner, emits `gameOver` and clears the flag; otherwise the response is recorded, the player switches and `turnComplete` is emitted |
| TabooServer.Server.RunGame | server.js:224-230 | the loop leaves the game at `RunReplies` of the replies and appends exactly `RunEvents`, so it stops at the first turn that does not continue |
| Scenarios.DrawsSuffice | server.js:35-38 | the draws 0.0 and 0.5 pick "gpt-4o-mini" and "AI21-Jamba-1.5-Mini", two different models |
| Scenarios.SpaceTravel | server.js:41-60 | the "space travel" game stores "rocket" and "moon", the two drawn models, no turns and player A to move |
| Scenarios.ViolatingOpening | server.js:183-194 | if player A's first completed response holds "rocket", the game ends with player B as winner, nothing is recorded, and the loop stops after that turn |
| Scenarios.ViolatingOpeningEvents | server.js:168-194 | that run emits one progress event per fragment, then `gameOver` with player B, both models and the reason naming player A, and never `turnComplete` |
| Scenarios.BoastViolates | server.js:79-85 | "We should build ROCKETS to reach it.", streamed in four fragments, violates "rocket" |
| Scenarios.RocketsEndTheGame | server.js:183-194 | with that boast, player B wins, the run emits five events ending in `gameOver`, and none is `turnComplete` |
| Scenarios.HarmlessOpening | server.js:195-205 | a first response without "rocket" is recorded as one "modelA" history entry and turn, and player B moves next |
| Scenarios.HarmlessOpeningEvents | server.js:168-213 | that turn emits the fragment, then `turnComplete` naming player B as next player with its model |
| Scenarios.MusingIsClean | server.js:79-85 | "I love exploring the cosmos" does not violate "rocket" |
| Scenarios.CosmosContinues | server.js:195-205 | after that response the history holds one "modelA" entry and player B is to move |
| Scenarios.StartWhileRunning | server.js:239-244 | a second start after one completed turn is refused with exactly the error and a snapshot, and the running game keeps its one turn |

## Left out

- The model client and the network request (server.js:27-30, 143-157) are not modelled. Their outcome is the `Reply` given to `PlayTurn`, and the request is returned as the context only. Model name, temperature and token limits are not modelled.
- Server-sent-event parsing, `JSON.parse` and the `[DONE]` marker (server.js:166-171) are not modelled. A reply is already a sequence of optional fragments. A stream that ends without the marker behaves like one that has it.
- Who receives an event (one socket or every observer) is not distinguished; all events go to one log. The connection handler (server.js:232-237) and console logging are left out.
- The one-second pause between turns and the asynchronous interleaving of `runGame` with other handlers (server.js:224-230) are left out. The loop is sequential and sees a finite sequence of replies.
- Concurrency is not modelled. In particular, a `startGame` that lands while a turn awaits the gateway is not modelled.
- `Math.random` is an oracle of draws. The `startTime` and turn timestamps (server.js:58, 203) are left out.
- `toLowerCase` is modelled on ASCII only. Unicode case mapping is not modelled.
- TabooRules.Instruction: its contract states only the role. The text is the template with the three words filled in, and `InstructionMentions` proves which words it names. Its prose is not otherwise reasoned about.
- TabooRules.RandomModel: draws are exact reals; the IEEE rounding of `r * 6` is not modelled. A draw just below k/6 (k = 1, 2, 4, 5) whose product rounds up to k picks roster entry k in the source and entry k - 1 here. Every entry stays reachable and every draw still yields a roster member, so no property depends on it.
- TabooServer.Server.StartGame: the `startGame` payload is assumed to carry three strings. With a malformed payload, the constructor throws at `toLowerCase` (server.js:44-45) after the flag is set (server.js:246). The flag then stays set with the old game, or none, as `currentGame`, so every later start is refused at server.js:240-243: with the finished old game's snapshot, or by a TypeError at server.js:242 when there was no game. That path is not modelled, and `Server.Valid` excludes the state it reaches.
- Express static hosting and `server.listen` (server.js:12-16, 259-262) are process plumbing and are not modelled.
