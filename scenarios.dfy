/** Three concrete games: a first response that says a plural of the taboo
    word in capitals, a harmless first response, and a second start request
    while a game is running. */
module Scenarios {
  import opened AsciiText
  import opened TabooRules
  import opened TabooServer

  /** Two `Math.random()` results: 0.0 picks the first roster entry for
      player A, 0.5 the fourth for player B. */
  const Draws: seq<real> := [0.0, 0.5]

  lemma DrawsSuffice()
    ensures GoodDraws(Draws)
    ensures RandomModel(Draws[0]) == "gpt-4o-mini"
    ensures RandomModel(Draws[1]) == "AI21-Jamba-1.5-Mini"
  {
    assert (0.5 * |Roster| as real).Floor == 3;
    assert RandomModel(Draws[1]) != RandomModel(Draws[0]);
  }

  /** The game created with topic "space travel" and taboo words "rocket" and "moon". */
  function SpaceTravel(): (g: GameRecord)
    ensures g.tabooWords == PerPlayer("rocket", "moon")
    ensures g.playerModels == PerPlayer("gpt-4o-mini", "AI21-Jamba-1.5-Mini")
    ensures g.turns == [] && g.currentPlayer == ModelA && !g.gameOver
  {
    DrawsSuffice();
    LowerOfLower("rocket");
    LowerOfLower("moon");
    NewGame("space travel", "rocket", "moon", Draws)
  }

  /** A first response that holds player A's taboo word ends the game at
      once: player B wins, nothing is recorded, and the turn loop stops there. */
  lemma ViolatingOpening(g: GameRecord, fragments: seq<Option<string>>, later: seq<Reply>)
    requires g == SpaceTravel()
    requires Violates(Joined(fragments), "rocket")
    ensures var reply := Streamed(fragments, None);
      var h := AfterTurn(g, reply);
      && h.gameOver && h.winner == Some(ModelB)
      && h.turns == [] && h.chatHistory == [] && h.currentPlayer == ModelA
      && RunReplies(g, [reply] + later) == h
  {
    var reply := Streamed(fragments, None);
    var replies := [reply] + later;
    assert replies[0] == reply;
    assert !Continues(g, reply);
  }

  /** What observers see of that game: one progress event per fragment, then
      `gameOver` naming player B as winner and player A as the offender, and
      no `turnComplete` in this turn or in any the loop could play after it. */
  lemma ViolatingOpeningEvents(g: GameRecord, fragments: seq<Option<string>>, later: seq<Reply>)
    requires g == SpaceTravel()
    requires Violates(Joined(fragments), "rocket")
    ensures var es := RunEvents(g, [Streamed(fragments, None)] + later);
      && |es| == |fragments| + 1
      && es[|fragments|] == GameOver(ModelB, "AI21-Jamba-1.5-Mini", "gpt-4o-mini", ViolationReason(ModelA, "gpt-4o-mini"))
      && forall i :: 0 <= i < |es| ==> !es[i].TurnComplete?
  {
    var reply := Streamed(fragments, None);
    var replies := [reply] + later;
    assert replies[0] == reply;
    assert !Continues(g, reply);
    var es := TurnEvents(g, reply);
    assert RunEvents(g, replies) == es;
    assert es == ProgressEvents(ModelA, "gpt-4o-mini", fragments) + [Verdict(g, Joined(fragments))];
  }

  const Lead: string := "We should build "
  const Shout: string := "ROCKETS"
  const Tail: string := " to reach it."
  const Boast: string := Lead + Shout + Tail

  /** The boast arrives in four fragments, one of them without content. */
  const BoastFragments: seq<Option<string>> := [Some(Lead), Some(Shout), None, Some(Tail)]

  /** Four fragments, the third without content, join to the other three. */
  lemma JoinedFour(a: string, b: string, c: string)
    ensures Joined([Some(a), Some(b), None, Some(c)]) == a + b + c
  {
    var fragments := [Some(a), Some(b), None, Some(c)];
    assert fragments[..1][..0] == [] && Joined(fragments[..1]) == a;
    assert fragments[..2][..1] == fragments[..1] && Joined(fragments[..2]) == a + b;
    assert fragments[..3][..2] == fragments[..2] && Joined(fragments[..3]) == a + b + "";
    assert a + b + "" == a + b;
    assert fragments[..4][..3] == fragments[..3] && fragments[..4] == fragments;
  }

  /** "ROCKETS" in capitals counts as saying "rocket". */
  lemma BoastViolates()
    ensures Violates(Joined(BoastFragments), "rocket")
  {
    JoinedFour(Lead, Shout, Tail);
    var n := |Lead|;
    assert Boast[n..n + 6] == Shout[..6] == "ROCKET";
    assert Lower("ROCKET") == "rocket";
    assert SpelledAt(Boast, "rocket", n);
    ViolatesIffSpelled(Boast, "rocket");
  }

  /** Player A opens with the boast: player B wins and the turn loop stops
      after five events, the last of them `gameOver`. */
  lemma RocketsEndTheGame(g: GameRecord, later: seq<Reply>)
    requires g == SpaceTravel()
    ensures var h, es := AfterTurn(g, Streamed(BoastFragments, None)), RunEvents(g, [Streamed(BoastFragments, None)] + later);
      && h.gameOver && h.winner == Some(ModelB) && h.turns == []
      && |es| == 5 && es[4].GameOver? && es[4].winner == ModelB
      && forall i :: 0 <= i < |es| ==> !es[i].TurnComplete?
  {
    BoastViolates();
    ViolatingOpening(g, BoastFragments, later);
    ViolatingOpeningEvents(g, BoastFragments, later);
  }

  /** A first response without player A's taboo word is recorded as one
      "modelA" history entry and player B moves next. */
  lemma HarmlessOpening(g: GameRecord, text: string)
    requires g == SpaceTravel()
    requires !Violates(text, "rocket")
    ensures var reply := Streamed([Some(text)], None);
      var h := AfterTurn(g, reply);
      && Continues(g, reply)
      && h.chatHistory == [Message("modelA", text)]
      && h.turns == [Turn(ModelA, "gpt-4o-mini", text)]
      && h.currentPlayer == ModelB && !h.gameOver && h.winner == None
  {
    JoinedOne(text);
  }

  /** The same turn as observers see it: the fragment, then `turnComplete`
      naming player B as the next player and its model. */
  lemma HarmlessOpeningEvents(g: GameRecord, text: string)
    requires g == SpaceTravel()
    requires !Violates(text, "rocket")
    ensures TurnEvents(g, Streamed([Some(text)], None))
         == [TurnProgress(ModelA, "gpt-4o-mini", text),
             TurnComplete(ModelB, "gpt-4o-mini", text, ModelB, "AI21-Jamba-1.5-Mini")]
  {
    JoinedOne(text);
    var fragments := [Some(text)];
    var progress := ProgressEvents(ModelA, "gpt-4o-mini", fragments);
    assert progress == [TurnProgress(ModelA, "gpt-4o-mini", text)];
    assert Verdict(g, text) == TurnComplete(ModelB, "gpt-4o-mini", text, ModelB, "AI21-Jamba-1.5-Mini");
    assert TurnEvents(g, Streamed(fragments, None)) == progress + [Verdict(g, text)];
  }

  lemma JoinedOne(text: string)
    ensures Joined([Some(text)]) == text
  {
    assert [Some(text)][..0] == [];
    assert Joined([Some(text)]) == "" + text;
  }

  const Musing: string := "I love exploring the cosmos"

  /** "I love exploring the cosmos" has no "k", so it cannot hold "rocket". */
  lemma MusingIsClean()
    ensures !Violates(Musing, "rocket")
  {
    var text := Lower(Musing);
    forall j | 0 <= j < |text|
      ensures text[j] != 'k'
    {
      assert Musing[j] != 'k' && Musing[j] != 'K';
    }
    MissingCharNotSubstring("rocket", text, 3);
    ViolatesIffContains(Musing, "rocket");
  }

  /** Player A opens with the musing: the game goes on with player B to move. */
  lemma CosmosContinues(g: GameRecord)
    requires g == SpaceTravel()
    ensures var h := AfterTurn(g, Streamed([Some(Musing)], None));
      && h.chatHistory == [Message("modelA", Musing)] && h.currentPlayer == ModelB && !h.gameOver
  {
    MusingIsClean();
    HarmlessOpening(g, Musing);
  }

  /** A second `startGame` while a game is running, after one completed
      turn, is refused: the requester gets the error and a snapshot, and the
      running game keeps its single recorded turn. */
  method StartWhileRunning(topic: string, tabooA: string, tabooB: string, draws: seq<real>, reply: Reply,
                           topic2: string, tabooA2: string, tabooB2: string, draws2: seq<real>)
    returns (first: bool, second: bool, sameGame: bool, turnsKept: nat, reported: seq<Event>)
    requires GoodDraws(draws) && GoodDraws(draws2)
    requires Continues(NewGame(topic, tabooA, tabooB, draws), reply)
    ensures first && !second && sameGame && turnsKept == 1
    ensures |reported| == 2 && reported[0] == Error(AlreadyInProgress)
    ensures reported[1].GameInProgress? && |reported[1].state.turns| == 1
    ensures reported[1].state.turns[0] == Turn(ModelA, RandomModel(draws[0]), Joined(reply.fragments))
  {
    var server := new Server();
    first := server.StartGame(topic, tabooA, tabooB, draws);
    ghost var g := server.currentGame.Record();
    AfterTurnFrame(g, reply);
    var continues, request := server.PlayTurn(reply);
    var game := server.currentGame;
    var before := |server.events|;
    second := server.StartGame(topic2, tabooA2, tabooB2, draws2);
    sameGame := server.currentGame == game;
    turnsKept := |server.currentGame.turns|;
    reported := server.events[before..];
  }
}
