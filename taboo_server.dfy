/** The server's mutable state: the `TabooGame` object, the process-wide
    `currentGame` and `isGameInProgress`, and the handlers that change them
    (`startGame`, `playTurn`, `runGame`).  Every event the server emits is
    appended to one log. */
module TabooServer {
  import opened AsciiText
  import opened TabooRules

  class TabooGame {
    var topic: string
    var tabooWords: PerPlayer<string>
    var playerModels: PerPlayer<string>
    var turns: seq<Turn>
    var chatHistory: seq<Message>
    var currentPlayer: Player
    var gameOver: bool
    var winner: Option<Player>

    /** The fields as one value. */
    function Record(): GameRecord
      reads this
    {
      GameRecord(topic, tabooWords, playerModels, turns, chatHistory, currentPlayer, gameOver, winner)
    }

    ghost predicate Valid()
      reads this
    {
      Consistent(Record())
    }

    /** Lower-cases the taboo words, draws player A's model, then redraws
        player B's model until it differs; `draws` are the results of the
        successive `Math.random()` calls. */
    constructor (topic: string, tabooA: string, tabooB: string, draws: seq<real>)
      requires GoodDraws(draws)
      ensures Valid()
      ensures Record() == NewGame(topic, tabooA, tabooB, draws)
    {
      var modelA := RandomModel(draws[0]);
      var k := 1;
      var modelB := RandomModel(draws[k]);
      while modelB == modelA
        invariant 1 <= k < |draws|
        invariant modelB == RandomModel(draws[k])
        invariant exists j :: k <= j < |draws| && RandomModel(draws[j]) != modelA
        invariant RedrawFrom(draws, modelA, 1) == RedrawFrom(draws, modelA, k)
        decreases |draws| - k
      {
        k := k + 1;
        modelB := RandomModel(draws[k]);
      }
      this.topic := topic;
      this.tabooWords := PerPlayer(Lower(tabooA), Lower(tabooB));
      this.playerModels := PerPlayer(modelA, modelB);
      this.turns := [];
      this.currentPlayer := ModelA;
      this.gameOver := false;
      this.winner := None;
      this.chatHistory := [];
    }

    /** `getGameState`. */
    function GetGameState(): (s: GameState)
      reads this
      ensures s.turns == turns && s.currentPlayer == currentPlayer
      ensures s.gameOver == gameOver && s.winner == winner
      ensures s.topic == topic && s.tabooWords == tabooWords && s.models == playerModels
    {
      Snapshot(Record())
    }

    /** `checkViolation`: does `response` hold `player`'s taboo word? */
    function CheckViolation(response: string, player: Player): (violated: bool)
      reads this
      ensures violated <==> IsSubstring(tabooWords.Get(player), Lower(response))
    {
      ViolatesIffContains(response, tabooWords.Get(player));
      Violates(response, tabooWords.Get(player))
    }

    method SwitchPlayer()
      modifies this`currentPlayer
      ensures currentPlayer == Other(old(currentPlayer))
    {
      currentPlayer := if currentPlayer == ModelA then ModelB else ModelA;
    }

    method AddToHistory(role: string, content: string)
      modifies this`chatHistory
      ensures chatHistory == old(chatHistory) + [Message(role, content)]
    {
      chatHistory := chatHistory + [Message(role, content)];
    }

    /** `getCurrentPlayerContext`: the messages sent for the player to move. */
    function GetCurrentPlayerContext(): (messages: seq<Message>)
      reads this
      ensures |messages| == 1 + |chatHistory| && messages[0].role == "user"
      ensures forall i :: 0 <= i < |chatHistory| ==> messages[i + 1].content == chatHistory[i].content
      ensures forall i :: 0 <= i < |chatHistory| ==>
                (messages[i + 1].role == "assistant" <==> chatHistory[i].role == Id(currentPlayer))
      ensures forall i :: 0 <= i < |chatHistory| ==>
                (messages[i + 1].role == "system" <==> chatHistory[i].role == "system")
      ensures forall i :: 0 <= i < |chatHistory| ==>
                (messages[i + 1].role == "user" <==> chatHistory[i].role != Id(currentPlayer) && chatHistory[i].role != "system")
    {
      Context(topic, tabooWords, chatHistory, currentPlayer)
    }
  }

  class Server {
    var currentGame: TabooGame?
    var isGameInProgress: bool
    /** Every event emitted, to all observers or to the requesting socket. */
    var events: seq<Event>

    ghost predicate Valid()
      reads this, currentGame
    {
      && (currentGame != null ==> currentGame.Valid())
      && (isGameInProgress ==> currentGame != null && !currentGame.gameOver)
    }

    constructor ()
      ensures Valid()
      ensures currentGame == null && !isGameInProgress && events == []
    {
      currentGame := null;
      isGameInProgress := false;
      events := [];
    }

    /** The `startGame` handler.  While a game is in progress the request is
        refused and nothing about the current game changes; otherwise a new
        game replaces it.  The turn loop is started separately by `RunGame`. */
    method StartGame(topic: string, tabooA: string, tabooB: string, draws: seq<real>) returns (started: bool)
      requires Valid()
      requires GoodDraws(draws)
      modifies this
      ensures Valid()
      ensures started == !old(isGameInProgress)
      ensures isGameInProgress
      ensures !started ==>
                && currentGame == old(currentGame)
                && events == old(events) + [Error(AlreadyInProgress), GameInProgress(currentGame.GetGameState())]
      ensures started ==>
                && fresh(currentGame)
                && currentGame.Record() == NewGame(topic, tabooA, tabooB, draws)
                && events == old(events) +
                     [GameStarted(topic, currentGame.tabooWords, currentGame.playerModels)]
    {
      if isGameInProgress {
        events := events + [Error(AlreadyInProgress), GameInProgress(currentGame.GetGameState())];
        return false;
      }
      isGameInProgress := true;
      currentGame := new TabooGame(topic, tabooA, tabooB, draws);
      events := events + [GameStarted(currentGame.topic, currentGame.tabooWords, currentGame.playerModels)];
      started := true;
    }

    /** The streaming loop of `playTurn`: publish one `turnProgress` event per
        fragment as it arrives and accumulate the full response. */
    method StreamFragments(player: Player, model: string, fragments: seq<Option<string>>)
      returns (fullResponse: string)
      modifies this`events
      ensures fullResponse == Joined(fragments)
      ensures events == old(events) + ProgressEvents(player, model, fragments)
    {
      fullResponse := "";
      var i := 0;
      while i < |fragments|
        invariant 0 <= i <= |fragments|
        invariant fullResponse == Joined(fragments[..i])
        invariant events == old(events) + ProgressEvents(player, model, fragments[..i])
      {
        var content := Piece(fragments[i]);
        assert fragments[..i + 1][..i] == fragments[..i];
        assert Joined(fragments[..i + 1]) == fullResponse + content;
        assert ProgressEvents(player, model, fragments[..i + 1])
            == ProgressEvents(player, model, fragments[..i]) + [TurnProgress(player, model, content)];
        fullResponse := fullResponse + content;
        events := events + [TurnProgress(player, model, content)];
        i := i + 1;
      }
      assert fragments[..i] == fragments;
    }

    /** `playTurn`: one turn of the current game with the gateway's `reply`.
        `request` is the context sent to the gateway; `continues` is what the
        handler returns to the loop. */
    method PlayTurn(reply: Reply) returns (continues: bool, request: seq<Message>)
      requires Valid()
      modifies this, currentGame
      ensures Valid()
      ensures currentGame == old(currentGame)
      ensures old(currentGame) == null ==>
                !continues && events == old(events) && isGameInProgress == old(isGameInProgress)
      ensures old(currentGame) != null ==>
                && currentGame.Record() == AfterTurn(old(currentGame.Record()), reply)
                && events == old(events) + TurnEvents(old(currentGame.Record()), reply)
                && continues == Continues(old(currentGame.Record()), reply)
                && isGameInProgress == (old(isGameInProgress) && !currentGame.gameOver)
      ensures old(currentGame) != null && !old(currentGame.gameOver) ==>
                request == old(currentGame.GetCurrentPlayerContext())
    {
      request := [];
      if currentGame == null || currentGame.gameOver {
        return false, request;
      }
      var game := currentGame;
      ghost var g0 := game.Record();
      var player := game.currentPlayer;
      var model := game.playerModels.Get(player);
      request := game.GetCurrentPlayerContext();
      if reply.Rejected? {
        events := events + [Error(TurnError(player, model, reply.error))];
        return false, request;
      }
      continues := StreamTurn(game, reply);
    }

    /** The part of `playTurn` after the gateway accepted the request: drain
        the stream, then settle the response, or report the error that broke
        the stream off. */
    method StreamTurn(game: TabooGame, reply: Reply) returns (continues: bool)
      requires Valid() && currentGame == game && !game.gameOver && reply.Streamed?
      modifies this`events, this`isGameInProgress, game
      ensures Valid()
      ensures game.Record() == AfterTurn(old(game.Record()), reply)
      ensures events == old(events) + TurnEvents(old(game.Record()), reply)
      ensures continues == Continues(old(game.Record()), reply)
      ensures isGameInProgress == (old(isGameInProgress) && !game.gameOver)
    {
      var player := game.currentPlayer;
      var model := game.playerModels.Get(player);
      var fullResponse := StreamFragments(player, model, reply.fragments);
      if reply.broken.Some? {
        events := events + [Error(TurnError(player, model, reply.broken.value))];
        return false;
      }
      SettleTurn(game, fullResponse);
      continues := !game.gameOver;
    }

    /** The end of `playTurn` once the stream has drained: on a violation the
        game ends, the other player wins and the in-progress flag is cleared;
        otherwise the response is recorded and the move passes on. */
    method SettleTurn(game: TabooGame, fullResponse: string)
      requires Valid() && currentGame == game && !game.gameOver
      modifies this`events, this`isGameInProgress, game
      ensures Valid()
      ensures game.Record() == Settle(old(game.Record()), fullResponse)
      ensures events == old(events) + [Verdict(old(game.Record()), fullResponse)]
      ensures isGameInProgress == (old(isGameInProgress) && !game.gameOver)
    {
      ghost var g0 := game.Record();
      var player := game.currentPlayer;
      var model := game.playerModels.Get(player);
      var violation := game.CheckViolation(fullResponse, player);
      ViolatesIffContains(fullResponse, game.tabooWords.Get(player));
      if violation {
        game.gameOver := true;
        game.winner := Some(Other(player));
        var winner := Other(player);
        events := events + [GameOver(winner, game.playerModels.Get(winner), model, ViolationReason(player, model))];
        isGameInProgress := false;
      } else {
        game.AddToHistory(Id(player), fullResponse);
        game.turns := game.turns + [Turn(player, model, fullResponse)];
        game.SwitchPlayer();
        events := events + [TurnComplete(game.currentPlayer, model, fullResponse,
                                         game.currentPlayer, game.playerModels.Get(game.currentPlayer))];
      }
      SettleConsistent(g0, fullResponse);
    }

    /** Regrouping the event log; stated as a lemma so the loop of `RunGame`
        sees this one instance instead of searching for it. */
    static lemma AppendAssoc(a: seq<Event>, b: seq<Event>, c: seq<Event>)
      ensures a + b + c == a + (b + c)
    {
    }

    /** How one more turn advances the loop's bookkeeping. */
    static lemma LoopStep(g0: GameRecord, replies: seq<Reply>, i: nat, cur: GameRecord, emitted: seq<Event>)
      requires i < |replies| && !cur.gameOver
      requires RunReplies(g0, replies) == RunReplies(cur, replies[i..])
      requires RunEvents(g0, replies) == emitted + RunEvents(cur, replies[i..])
      ensures var next, step := AfterTurn(cur, replies[i]), TurnEvents(cur, replies[i]);
        && (Continues(cur, replies[i]) ==>
              && RunReplies(g0, replies) == RunReplies(next, replies[i + 1..])
              && RunEvents(g0, replies) == emitted + step + RunEvents(next, replies[i + 1..]))
        && (!Continues(cur, replies[i]) ==>
              && RunReplies(g0, replies) == next
              && RunEvents(g0, replies) == emitted + step)
    {
      var rest := replies[i..];
      assert rest[0] == replies[i] && rest[1..] == replies[i + 1..];
      RunStep(cur, rest);
    }

    /** `runGame` fed with the gateway's replies, one per turn: play turns
        while the game is not over and the last turn continued.  The pause
        between turns is not modelled. */
    method RunGame(replies: seq<Reply>)
      requires Valid()
      modifies this, currentGame
      ensures Valid()
      ensures currentGame == old(currentGame)
      ensures old(currentGame) == null ==> events == old(events) && isGameInProgress == old(isGameInProgress)
      ensures old(currentGame) != null ==>
                && currentGame.Record() == RunReplies(old(currentGame.Record()), replies)
                && events == old(events) + RunEvents(old(currentGame.Record()), replies)
                && isGameInProgress == (old(isGameInProgress) && !currentGame.gameOver)
    {
      if currentGame == null {
        return;
      }
      var game := currentGame;
      ghost var g0 := game.Record();
      var i := 0;
      var continues := true;
      ghost var cur := g0;
      ghost var emitted: seq<Event> := [];
      assert replies[i..] == replies;
      assert RunEvents(g0, replies) == emitted + RunEvents(cur, replies[i..]);
      while continues && i < |replies| && !game.gameOver
        invariant 0 <= i <= |replies|
        invariant currentGame == game && Valid() && game.Record() == cur
        invariant events == old(events) + emitted
        invariant continues ==>
                    && RunReplies(g0, replies) == RunReplies(cur, replies[i..])
                    && RunEvents(g0, replies) == emitted + RunEvents(cur, replies[i..])
        invariant !continues ==>
                    && RunReplies(g0, replies) == cur
                    && RunEvents(g0, replies) == emitted
        invariant isGameInProgress == (old(isGameInProgress) && !cur.gameOver)
        decreases |replies| - i
      {
        ghost var step := TurnEvents(cur, replies[i]);
        LoopStep(g0, replies, i, cur, emitted);
        var request;
        continues, request := PlayTurn(replies[i]);
        assert events == old(events) + emitted + step;
        AppendAssoc(old(events), emitted, step);
        emitted := emitted + step;
        cur := AfterTurn(cur, replies[i]);
        i := i + 1;
        if continues {
          assert RunEvents(g0, replies) == emitted + RunEvents(cur, replies[i..]);
        }
      }
      if continues {
        assert RunEvents(cur, replies[i..]) == [] && RunReplies(cur, replies[i..]) == cur;
        assert emitted + [] == emitted;
      }
    }
  }
}
