/** The rules of one taboo game as values: the two players, the model roster,
    the violation detector, the per-player context builder and the outcome of
    one turn.  The classes in TabooServer carry this state in mutable fields
    and are specified by the functions here. */
module TabooRules {
  import opened AsciiText

  datatype Option<T> = None | Some(value: T)

  // ---------------------------------------------------------------------------
  // Players

  /** The two player ids, 'modelA' and 'modelB'. */
  datatype Player = ModelA | ModelB

  /** The role string a player's entries carry in the chat history. */
  function Id(p: Player): (s: string)
    ensures s != "system" && s != "assistant" && s != "user"
  {
    match p
    case ModelA => "modelA"
    case ModelB => "modelB"
  }

  /** The opponent: `currentPlayer === 'modelA' ? 'modelB' : 'modelA'`. */
  function Other(p: Player): (q: Player)
    ensures q != p
  {
    if p == ModelA then ModelB else ModelA
  }

  lemma OtherIsInvolution(p: Player)
    ensures Other(Other(p)) == p
    ensures Id(Other(p)) != Id(p)
  {
  }

  /** A record keyed by the two player ids, such as `tabooWords` or `playerModels`. */
  datatype PerPlayer<T> = PerPlayer(modelA: T, modelB: T) {
    function Get(p: Player): T {
      match p
      case ModelA => modelA
      case ModelB => modelB
    }
  }

  /** The player whose turn it is once `n` turns have been recorded. */
  function PlayerAt(n: nat): Player {
    if n % 2 == 0 then ModelA else ModelB
  }

  lemma PlayerAtNext(n: nat)
    ensures PlayerAt(n + 1) == Other(PlayerAt(n))
  {
  }

  // ---------------------------------------------------------------------------
  // Model roster and random choice

  const Roster: seq<string> := [
    "gpt-4o-mini",
    "Meta-Llama-3.1-8B-Instruct",
    "Cohere-command-r",
    "AI21-Jamba-1.5-Mini",
    "Ministral-3B",
    "Phi-3.5-MoE-instruct"
  ]

  /** `models[Math.floor(r * models.length)]` for a draw `r` of `Math.random()`. */
  function RandomModel(r: real): (m: string)
    requires IsDraw(r)
    ensures m in Roster
  {
    var k := (r * |Roster| as real).Floor;
    assert 0 <= k < |Roster| by {
      assert 0.0 <= r * |Roster| as real < |Roster| as real;
    }
    Roster[k]
  }

  predicate IsDraw(r: real) {
    0.0 <= r < 1.0
  }

  /** A stream of `Math.random()` results long enough for the construction of
      a game: after the first draw (player A's model) some later draw yields
      another model, so the redraw loop for player B stops. */
  predicate GoodDraws(draws: seq<real>) {
    && |draws| > 0
    && (forall k :: 0 <= k < |draws| ==> IsDraw(draws[k]))
    && exists k :: 1 <= k < |draws| && RandomModel(draws[k]) != RandomModel(draws[0])
  }

  /** The model that the redraw loop settles on, starting at draw `k`, when
      player A holds `a`: the first draw from `k` on that is not `a`. */
  function RedrawFrom(draws: seq<real>, a: string, k: nat): (m: string)
    requires forall j :: 0 <= j < |draws| ==> IsDraw(draws[j])
    requires exists j :: k <= j < |draws| && RandomModel(draws[j]) != a
    ensures m in Roster && m != a
    ensures exists j :: k <= j < |draws| && m == RandomModel(draws[j])
                        && forall l :: k <= l < j ==> RandomModel(draws[l]) == a
    decreases |draws| - k
  {
    if RandomModel(draws[k]) != a then RandomModel(draws[k]) else RedrawFrom(draws, a, k + 1)
  }

  // ---------------------------------------------------------------------------
  // Violation detector

  /** `checkViolation`: the lower-cased response contains the taboo word,
      or the word followed by "s" or by "es". */
  predicate Violates(response: string, word: string) {
    var text := Lower(response);
    IsSubstring(word, text) || IsSubstring(word + "s", text) || IsSubstring(word + "es", text)
  }

  /** The plural disjuncts add nothing: a violation is exactly an occurrence
      of the bare word in the lower-cased response. */
  lemma ViolatesIffContains(response: string, word: string)
    ensures Violates(response, word) <==> IsSubstring(word, Lower(response))
  {
    var text := Lower(response);
    SubstringIffOccurs(word, text);
    SubstringIffOccurs(word + "s", text);
    SubstringIffOccurs(word + "es", text);
    if i :| OccursAt(word + "s", text, i) {
      PrefixOccurs(word, "s", text, i);
    }
    if i :| OccursAt(word + "es", text, i) {
      PrefixOccurs(word, "es", text, i);
    }
  }

  /** Some slice of `response`, in whatever letter case, spells `word` at `i`. */
  predicate SpelledAt(response: string, word: string, i: int) {
    0 <= i && i + |word| <= |response| && Lower(response[i..i + |word|]) == word
  }

  /** Case insensitivity: a response violates exactly when some slice of it,
      lower-cased, is the taboo word. */
  lemma ViolatesIffSpelled(response: string, word: string)
    ensures Violates(response, word) <==> exists i :: SpelledAt(response, word, i)
  {
    ViolatesIffContains(response, word);
    var text := Lower(response);
    SubstringIffOccurs(word, text);
    if Violates(response, word) {
      var i :| OccursAt(word, text, i);
      LowerSlice(response, i, i + |word|);
      assert SpelledAt(response, word, i);
    }
    if i :| SpelledAt(response, word, i) {
      LowerSlice(response, i, i + |word|);
      assert OccursAt(word, text, i);
    }
  }

  /** An empty taboo word is found in every response. */
  lemma EmptyWordAlwaysViolates(response: string)
    ensures Violates(response, "")
  {
    assert Lower(response)[..0] == "";
  }

  // ---------------------------------------------------------------------------
  // Turn context builder

  datatype Message = Message(role: string, content: string)

  /** A line break followed by the indentation the template literal carries. */
  const Break: string := "\n                    "

  /** The fixed text of the instruction, between the places where the topic
      and the taboo words are filled in. */
  const Opening: string := "You are participating in a conversation about "
  const AvoidWord: string := ". " + Break + "You are playing a word game where you must avoid using the word "
  const TrickWord: string := " and try to trick me into saying the word '"
  const Guidance: string :=
    "'." + Break + "Keep your responses natural and conversational, using just one clear sentence at a time."
    + Break + "Engage with what the other participant says while trying to steer the conversation"
    + Break + "in interesting directions."
    + Break + "Remember: You cannot use the word \""
  const NoVariation: string := "\" or any variation of it in your response. " + Break + "I cannot use \""
  const Closing: string :=
    "\", but you should try and trick me into saying it."
    + Break + "Like you, I am an AI language model, so I can be prompt engineered if needed."
    + Break + "Respond with just one or two natural sentences that continues the conversation and attempts to trick me into saying the word '"

  /** The instruction message that opens every context: the topic, the
      player's own taboo word and the opponent's, filled into the template. */
  function Instruction(topic: string, ownTaboo: string, otherTaboo: string): (m: Message)
    ensures m.role == "user"
  {
    Message("user", Opening + topic + AvoidWord + ownTaboo + TrickWord + otherTaboo + Reminder(ownTaboo, otherTaboo))
  }

  /** The part of the instruction after the first mention of the opponent's word. */
  function Reminder(ownTaboo: string, otherTaboo: string): string {
    Guidance + ownTaboo + NoVariation + otherTaboo + Closing + otherTaboo + "'."
  }

  /** In `p + x + q + y + s + z + rest`, each of `x`, `y` and `z` occurs. */
  lemma ThreeOccur(p: string, x: string, q: string, y: string, s: string, z: string, rest: string)
    ensures var t := p + x + q + y + s + z + rest;
      IsSubstring(x, t) && IsSubstring(y, t) && IsSubstring(z, t)
  {
    var t := p + x + q + y + s + z + rest;
    assert t == p + x + (q + y + s + z + rest);
    OccursInConcat(p, x, q + y + s + z + rest);
    assert t == p + x + q + y + (s + z + rest);
    OccursInConcat(p + x + q, y, s + z + rest);
    OccursInConcat(p + x + q + y + s, z, rest);
  }

  /** The instruction names the topic and both taboo words. */
  lemma InstructionMentions(topic: string, ownTaboo: string, otherTaboo: string)
    ensures var text := Instruction(topic, ownTaboo, otherTaboo).content;
      IsSubstring(topic, text) && IsSubstring(ownTaboo, text) && IsSubstring(otherTaboo, text)
  {
    ThreeOccur(Opening, topic, AvoidWord, ownTaboo, TrickWord, otherTaboo, Reminder(ownTaboo, otherTaboo));
  }

  /** One history entry as `viewer` sees it. */
  function Relabel(m: Message, viewer: Player): Message {
    if m.role == Id(viewer) then Message("assistant", m.content)
    else if m.role != "system" then Message("user", m.content)
    else m
  }

  /** The history re-tagged from `viewer`'s side: own entries become
      "assistant", "system" entries stay, everything else becomes "user". */
  function RelabelAll(history: seq<Message>, viewer: Player): (r: seq<Message>)
    ensures |r| == |history|
    ensures forall i :: 0 <= i < |history| ==> r[i].content == history[i].content
    ensures forall i :: 0 <= i < |history| ==> (r[i].role == "assistant" <==> history[i].role == Id(viewer))
    ensures forall i :: 0 <= i < |history| ==> (r[i].role == "system" <==> history[i].role == "system")
    ensures forall i :: 0 <= i < |history| ==>
              (r[i].role == "user" <==> history[i].role != Id(viewer) && history[i].role != "system")
  {
    if history == [] then [] else [Relabel(history[0], viewer)] + RelabelAll(history[1..], viewer)
  }

  /** `getCurrentPlayerContext`: the instruction for `viewer`, then the whole
      history in `viewer`'s labelling. */
  function Context(topic: string, tabooWords: PerPlayer<string>, history: seq<Message>, viewer: Player)
    : (r: seq<Message>)
    ensures |r| == 1 + |history|
    ensures r[0].role == "user"
    ensures r[0] == Instruction(topic, tabooWords.Get(viewer), tabooWords.Get(Other(viewer)))
    ensures forall i :: 0 <= i < |history| ==> r[i + 1].content == history[i].content
    ensures forall i :: 0 <= i < |history| ==> (r[i + 1].role == "assistant" <==> history[i].role == Id(viewer))
    ensures forall i :: 0 <= i < |history| ==> (r[i + 1].role == "system" <==> history[i].role == "system")
    ensures forall i :: 0 <= i < |history| ==>
              (r[i + 1].role == "user" <==> history[i].role != Id(viewer) && history[i].role != "system")
  {
    var first, rest := Instruction(topic, tabooWords.Get(viewer), tabooWords.Get(Other(viewer))), RelabelAll(history, viewer);
    assert forall i :: 0 <= i < |rest| ==> ([first] + rest)[i + 1] == rest[i];
    [first] + rest
  }

  predicate SpokenByPlayers(history: seq<Message>) {
    forall i :: 0 <= i < |history| ==> history[i].role == Id(ModelA) || history[i].role == Id(ModelB)
  }

  /** Relabelling a history spoken by the two players for one and for the
      other swaps "assistant" and "user" and keeps every content. */
  lemma RelabelSwapsRoles(history: seq<Message>)
    requires SpokenByPlayers(history)
    ensures var a, b := RelabelAll(history, ModelA), RelabelAll(history, ModelB);
      && |a| == |b|
      && forall j :: 0 <= j < |a| ==>
           && a[j].content == b[j].content
           && (a[j].role == "assistant" <==> b[j].role == "user")
           && (a[j].role == "user" <==> b[j].role == "assistant")
  {
    var a, b := RelabelAll(history, ModelA), RelabelAll(history, ModelB);
    forall j | 0 <= j < |a|
      ensures a[j].role == "assistant" <==> b[j].role == "user"
      ensures a[j].role == "user" <==> b[j].role == "assistant"
    {
      assert Id(ModelA) != Id(ModelB);
      if history[j].role == Id(ModelA) {
        assert a[j].role == "assistant" && b[j].role == "user";
      } else {
        assert a[j].role == "user" && b[j].role == "assistant";
      }
    }
  }

  /** The two players see the same contents, with "assistant" and "user" swapped. */
  lemma PerspectivesInvert(topic: string, tabooWords: PerPlayer<string>, history: seq<Message>)
    requires SpokenByPlayers(history)
    ensures var a, b := Context(topic, tabooWords, history, ModelA), Context(topic, tabooWords, history, ModelB);
      && |a| == |b|
      && forall i :: 1 <= i < |a| ==>
           && a[i].content == b[i].content
           && (a[i].role == "assistant" <==> b[i].role == "user")
           && (a[i].role == "user" <==> b[i].role == "assistant")
  {
    var a, b := Context(topic, tabooWords, history, ModelA), Context(topic, tabooWords, history, ModelB);
    var ra, rb := RelabelAll(history, ModelA), RelabelAll(history, ModelB);
    assert a[1..] == ra && b[1..] == rb;
    RelabelSwapsRoles(history);
    forall i | 1 <= i < |a|
      ensures a[i].content == b[i].content
      ensures a[i].role == "assistant" <==> b[i].role == "user"
      ensures a[i].role == "user" <==> b[i].role == "assistant"
    {
      assert a[i] == ra[i - 1] && b[i] == rb[i - 1];
    }
  }

  // ---------------------------------------------------------------------------
  // Game record

  /** One completed, non-violating turn. */
  datatype Turn = Turn(player: Player, model: string, response: string)

  /** Every field of a `TabooGame` except its timestamp. */
  datatype GameRecord = GameRecord(
    topic: string,
    tabooWords: PerPlayer<string>,
    playerModels: PerPlayer<string>,
    turns: seq<Turn>,
    chatHistory: seq<Message>,
    currentPlayer: Player,
    gameOver: bool,
    winner: Option<Player>)

  /** What `getGameState` hands to observers (the chat history is not part of it). */
  datatype GameState = GameState(
    topic: string,
    tabooWords: PerPlayer<string>,
    models: PerPlayer<string>,
    turns: seq<Turn>,
    currentPlayer: Player,
    gameOver: bool,
    winner: Option<Player>)

  function Snapshot(g: GameRecord): (s: GameState)
    ensures s.turns == g.turns && s.currentPlayer == g.currentPlayer
    ensures s.gameOver == g.gameOver && s.winner == g.winner
    ensures s.topic == g.topic && s.tabooWords == g.tabooWords && s.models == g.playerModels
  {
    GameState(g.topic, g.tabooWords, g.playerModels, g.turns, g.currentPlayer, g.gameOver, g.winner)
  }

  /** What every reachable game satisfies. */
  ghost predicate Consistent(g: GameRecord) {
    && IsLower(g.tabooWords.modelA) && IsLower(g.tabooWords.modelB)
    && g.playerModels.modelA in Roster && g.playerModels.modelB in Roster
    && g.playerModels.modelA != g.playerModels.modelB
    && |g.turns| == |g.chatHistory|
    && (forall i :: 0 <= i < |g.turns| ==> g.turns[i].player == PlayerAt(i))
    && (forall i :: 0 <= i < |g.turns| ==>
          g.chatHistory[i] == Message(Id(g.turns[i].player), g.turns[i].response))
    && (forall i :: 0 <= i < |g.turns| ==> g.turns[i].model == g.playerModels.Get(g.turns[i].player))
    && (forall i :: 0 <= i < |g.turns| ==>
          !Violates(g.turns[i].response, g.tabooWords.Get(g.turns[i].player)))
    && g.currentPlayer == PlayerAt(|g.turns|)
    && (g.winner.Some? <==> g.gameOver)
    && (g.gameOver ==> g.winner == Some(Other(g.currentPlayer)))
  }

  /** Consecutive turns alternate, and the history entries carry the players' ids. */
  lemma Alternation(g: GameRecord)
    requires Consistent(g)
    ensures |g.turns| == |g.chatHistory|
    ensures forall i :: 0 <= i < |g.turns| ==> g.chatHistory[i].role == Id(g.turns[i].player)
    ensures forall i :: 0 <= i < |g.turns| - 1 ==> g.turns[i].player != g.turns[i + 1].player
    ensures |g.turns| > 0 ==> g.turns[0].player == ModelA
    ensures |g.turns| > 0 ==> g.currentPlayer != g.turns[|g.turns| - 1].player
    ensures SpokenByPlayers(g.chatHistory)
  {
    forall i | 0 <= i < |g.turns| - 1
      ensures g.turns[i].player != g.turns[i + 1].player
    {
      PlayerAtNext(i);
    }
    if |g.turns| > 0 {
      PlayerAtNext(|g.turns| - 1);
    }
    forall i | 0 <= i < |g.chatHistory|
      ensures g.chatHistory[i].role == Id(ModelA) || g.chatHistory[i].role == Id(ModelB)
    {
      assert g.chatHistory[i].role == Id(g.turns[i].player);
    }
  }

  /** The state the constructor builds. */
  function NewGame(topic: string, tabooA: string, tabooB: string, draws: seq<real>): (g: GameRecord)
    requires GoodDraws(draws)
    ensures Consistent(g)
    ensures g.topic == topic && g.tabooWords == PerPlayer(Lower(tabooA), Lower(tabooB))
    ensures g.playerModels.modelA == RandomModel(draws[0])
    ensures g.playerModels.modelB != g.playerModels.modelA
    ensures g.playerModels.modelB == RedrawFrom(draws, g.playerModels.modelA, 1)
    ensures g.turns == [] && g.chatHistory == [] && g.currentPlayer == ModelA
    ensures !g.gameOver && g.winner == None
  {
    var a := RandomModel(draws[0]);
    GameRecord(topic, PerPlayer(Lower(tabooA), Lower(tabooB)), PerPlayer(a, RedrawFrom(draws, a, 1)),
               [], [], ModelA, false, None)
  }

  // ---------------------------------------------------------------------------
  // One turn

  /** What the completion gateway does with one request: refuse it (a
      non-success status or no body), or stream fragments, each a choice's
      optional delta content, possibly breaking off with an error. */
  datatype Reply =
    | Rejected(error: string)
    | Streamed(fragments: seq<Option<string>>, broken: Option<string>)

  /** A fragment's contribution: `choice.delta?.content ?? ''`. */
  function Piece(f: Option<string>): string {
    if f.Some? then f.value else ""
  }

  /** `fullResponse` after the fragments: `fullResponse += content` for each. */
  function Joined(fragments: seq<Option<string>>): string {
    if fragments == [] then ""
    else Joined(fragments[..|fragments| - 1]) + Piece(fragments[|fragments| - 1])
  }

  /** Events published to observers. */
  datatype Event =
    | GameInProgress(state: GameState)
    | GameStarted(topic: string, tabooWords: PerPlayer<string>, models: PerPlayer<string>)
    | TurnProgress(player: Player, model: string, content: string)
    | TurnComplete(player: Player, model: string, response: string, nextPlayer: Player, nextModel: string)
    | GameOver(winner: Player, winningModel: string, losingModel: string, reason: string)
    | Error(message: string)

  const AlreadyInProgress: string := "A game is already in progress. Please wait for it to finish."

  function ViolationReason(p: Player, model: string): string {
    Id(p) + " (" + model + ") used their taboo word"
  }

  function TurnError(p: Player, model: string, detail: string): string {
    "Error during " + Id(p) + "'s turn (" + model + "): " + detail
  }

  /** One `turnProgress` event per fragment, in arrival order. */
  function ProgressEvents(p: Player, model: string, fragments: seq<Option<string>>): (es: seq<Event>)
    ensures |es| == |fragments|
    ensures forall i :: 0 <= i < |es| ==> es[i] == TurnProgress(p, model, Piece(fragments[i]))
  {
    if fragments == [] then []
    else ProgressEvents(p, model, fragments[..|fragments| - 1])
         + [TurnProgress(p, model, Piece(fragments[|fragments| - 1]))]
  }

  function SpeakerModel(g: GameRecord): string {
    g.playerModels.Get(g.currentPlayer)
  }

  /** The stream ran to its end marker. */
  predicate Completed(reply: Reply) {
    reply.Streamed? && reply.broken.None?
  }

  /** The turn ends the game: the finished response holds the speaker's taboo word. */
  predicate EndsGame(g: GameRecord, reply: Reply) {
    && !g.gameOver
    && Completed(reply)
    && Violates(Joined(reply.fragments), g.tabooWords.Get(g.currentPlayer))
  }

  /** `playTurn`'s result: the game is still running after a completed turn. */
  predicate Continues(g: GameRecord, reply: Reply) {
    && !g.gameOver
    && Completed(reply)
    && !Violates(Joined(reply.fragments), g.tabooWords.Get(g.currentPlayer))
  }

  /** A non-violating response (server.js:197-205): append it to the history
      and to the turns, then hand the move to the other player. */
  function RecordTurn(g: GameRecord, text: string): GameRecord {
    g.(chatHistory := g.chatHistory + [Message(Id(g.currentPlayer), text)],
       turns := g.turns + [Turn(g.currentPlayer, SpeakerModel(g), text)],
       currentPlayer := Other(g.currentPlayer))
  }

  /** A violating response (server.js:186-187): the game ends and the other
      player wins. */
  function DeclareViolation(g: GameRecord): GameRecord {
    g.(gameOver := true, winner := Some(Other(g.currentPlayer)))
  }

  /** The outcome of a finished response: a violation ends the game,
      anything else is recorded as a turn. */
  function Settle(g: GameRecord, text: string): GameRecord {
    if Violates(text, g.tabooWords.Get(g.currentPlayer)) then DeclareViolation(g) else RecordTurn(g, text)
  }

  /** The game record after one call of `playTurn` with the gateway's `reply`. */
  function AfterTurn(g: GameRecord, reply: Reply): GameRecord {
    if g.gameOver || !Completed(reply) then g else Settle(g, Joined(reply.fragments))
  }

  /** The event that closes a finished response: `gameOver` on a violation,
      otherwise `turnComplete`, whose `player` is read after the switch and so
      names the next player. */
  function Verdict(g: GameRecord, text: string): Event {
    var p, model, next := g.currentPlayer, SpeakerModel(g), Other(g.currentPlayer);
    if Violates(text, g.tabooWords.Get(p)) then
      GameOver(next, g.playerModels.Get(next), model, ViolationReason(p, model))
    else
      TurnComplete(next, model, text, next, g.playerModels.Get(next))
  }

  /** The events one call of `playTurn` publishes. */
  function TurnEvents(g: GameRecord, reply: Reply): seq<Event> {
    if g.gameOver then []
    else
      var p, model := g.currentPlayer, SpeakerModel(g);
      match reply
      case Rejected(e) => [Error(TurnError(p, model, e))]
      case Streamed(fragments, broken) =>
        ProgressEvents(p, model, fragments) +
        (if broken.Some? then [Error(TurnError(p, model, broken.value))]
         else [Verdict(g, Joined(fragments))])
  }

  /** Settling a response keeps a running game consistent. */
  lemma SettleConsistent(g: GameRecord, text: string)
    requires Consistent(g) && !g.gameOver
    ensures Consistent(Settle(g, text))
  {
    if !Violates(text, g.tabooWords.Get(g.currentPlayer)) {
      PlayerAtNext(|g.turns|);
    }
  }

  /** A turn keeps the game consistent. */
  lemma AfterTurnConsistent(g: GameRecord, reply: Reply)
    requires Consistent(g)
    ensures Consistent(AfterTurn(g, reply))
  {
    if !g.gameOver && Completed(reply) {
      SettleConsistent(g, Joined(reply.fragments));
    }
  }

  /** What a turn changes and what it keeps. */
  lemma AfterTurnFrame(g: GameRecord, reply: Reply)
    ensures var h := AfterTurn(g, reply);
      && h.topic == g.topic && h.tabooWords == g.tabooWords && h.playerModels == g.playerModels
      && (g.gameOver ==> h == g)
      && (h.gameOver <==> g.gameOver || EndsGame(g, reply))
      && (EndsGame(g, reply) ==> h.winner == Some(Other(g.currentPlayer)))
      && (!Continues(g, reply) ==>
            h.turns == g.turns && h.chatHistory == g.chatHistory && h.currentPlayer == g.currentPlayer)
      && (Continues(g, reply) ==>
            && |h.turns| == |g.turns| + 1 && h.turns[..|g.turns|] == g.turns
            && h.turns[|g.turns|].player == g.currentPlayer
            && h.turns[|g.turns|].response == Joined(reply.fragments)
            && h.chatHistory == g.chatHistory + [Message(Id(g.currentPlayer), Joined(reply.fragments))]
            && h.currentPlayer == Other(g.currentPlayer)
            && h.gameOver == g.gameOver && h.winner == g.winner)
  {
    var h := AfterTurn(g, reply);
    if Continues(g, reply) {
      assert h.turns == g.turns + [h.turns[|g.turns|]];
    }
  }

  /** A turn publishes its progress events first and one final event last:
      the final one is `gameOver` exactly when the turn ends the game. */
  lemma TurnEventsOrder(g: GameRecord, reply: Reply)
    ensures var es := TurnEvents(g, reply);
      && (g.gameOver <==> es == [])
      && (forall i :: 0 <= i < |es| - 1 ==> es[i].TurnProgress?)
      && (es != [] ==> !es[|es| - 1].TurnProgress?)
      && (es != [] ==> (es[|es| - 1].GameOver? <==> EndsGame(g, reply)))
      && (es != [] ==> (es[|es| - 1].TurnComplete? <==> Continues(g, reply)))
      && (es != [] ==> (es[|es| - 1].Error? <==> !Completed(reply)))
  {
  }

  // ---------------------------------------------------------------------------
  // The turn loop

  /** `runGame` over a finite stream of replies: play until the game is over,
      a turn does not continue, or the replies run out. */
  function RunReplies(g: GameRecord, replies: seq<Reply>): GameRecord
    decreases |replies|
  {
    if replies == [] || g.gameOver then g
    else if Continues(g, replies[0]) then RunReplies(AfterTurn(g, replies[0]), replies[1..])
    else AfterTurn(g, replies[0])
  }

  /** The events `runGame` publishes over the same replies. */
  function RunEvents(g: GameRecord, replies: seq<Reply>): seq<Event>
    decreases |replies|
  {
    if replies == [] || g.gameOver then []
    else if Continues(g, replies[0]) then
      TurnEvents(g, replies[0]) + RunEvents(AfterTurn(g, replies[0]), replies[1..])
    else TurnEvents(g, replies[0])
  }

  /** One step of the loop, unfolded. */
  lemma RunStep(g: GameRecord, replies: seq<Reply>)
    requires replies != [] && !g.gameOver
    ensures Continues(g, replies[0]) ==>
              && RunReplies(g, replies) == RunReplies(AfterTurn(g, replies[0]), replies[1..])
              && RunEvents(g, replies) == TurnEvents(g, replies[0]) + RunEvents(AfterTurn(g, replies[0]), replies[1..])
    ensures !Continues(g, replies[0]) ==>
              && RunReplies(g, replies) == AfterTurn(g, replies[0])
              && RunEvents(g, replies) == TurnEvents(g, replies[0])
  {
  }

  function CountGameOver(es: seq<Event>): nat {
    if es == [] then 0 else (if es[0].GameOver? then 1 else 0) + CountGameOver(es[1..])
  }

  lemma {:induction false} CountGameOverAppend(a: seq<Event>, b: seq<Event>)
    ensures CountGameOver(a + b) == CountGameOver(a) + CountGameOver(b)
  {
    if a != [] {
      assert (a + b)[1..] == a[1..] + b;
      CountGameOverAppend(a[1..], b);
    } else {
      assert a + b == b;
    }
  }

  lemma {:induction false} ProgressHasNoGameOver(p: Player, model: string, fragments: seq<Option<string>>)
    ensures CountGameOver(ProgressEvents(p, model, fragments)) == 0
  {
    if fragments != [] {
      var n := |fragments| - 1;
      CountGameOverAppend(ProgressEvents(p, model, fragments[..n]), [TurnProgress(p, model, Piece(fragments[n]))]);
      ProgressHasNoGameOver(p, model, fragments[..n]);
    }
  }

  lemma TurnGameOverCount(g: GameRecord, reply: Reply)
    ensures CountGameOver(TurnEvents(g, reply)) == if EndsGame(g, reply) then 1 else 0
  {
    if !g.gameOver && reply.Streamed? {
      var es := TurnEvents(g, reply);
      var progress := ProgressEvents(g.currentPlayer, SpeakerModel(g), reply.fragments);
      ProgressHasNoGameOver(g.currentPlayer, SpeakerModel(g), reply.fragments);
      CountGameOverAppend(progress, es[|progress|..]);
      assert es == progress + es[|progress|..];
    }
  }

  /** The loop keeps the game consistent. */
  lemma {:induction false} RunConsistent(g: GameRecord, replies: seq<Reply>)
    requires Consistent(g)
    ensures Consistent(RunReplies(g, replies))
    decreases |replies|
  {
    if replies != [] && !g.gameOver {
      AfterTurnConsistent(g, replies[0]);
      if Continues(g, replies[0]) {
        RunConsistent(AfterTurn(g, replies[0]), replies[1..]);
      }
    }
  }

  /** The loop only appends: earlier turns and history entries stay, at most
      one turn is added per reply, and a finished game stays finished. */
  lemma {:induction false} RunAppendOnly(g: GameRecord, replies: seq<Reply>)
    ensures var h := RunReplies(g, replies);
      && g.turns <= h.turns && g.chatHistory <= h.chatHistory
      && |h.turns| <= |g.turns| + |replies|
      && (g.gameOver ==> h == g)
      && h.tabooWords == g.tabooWords && h.playerModels == g.playerModels
    decreases |replies|
  {
    if replies != [] && !g.gameOver {
      AfterTurnFrame(g, replies[0]);
      if Continues(g, replies[0]) {
        var g' := AfterTurn(g, replies[0]);
        RunAppendOnly(g', replies[1..]);
        assert g.turns <= g'.turns;
        assert g.chatHistory <= g'.chatHistory;
      }
    }
  }

  /** Within one turn, only the last event can be `gameOver`, and a turn
      that continues publishes none. */
  lemma TurnGameOverLast(g: GameRecord, reply: Reply)
    ensures var es := TurnEvents(g, reply);
      && (forall i :: 0 <= i < |es| - 1 ==> !es[i].GameOver?)
      && (Continues(g, reply) ==> forall i :: 0 <= i < |es| ==> !es[i].GameOver?)
  {
    TurnEventsOrder(g, reply);
  }

  lemma NoGameOverBeforeLast(a: seq<Event>, b: seq<Event>)
    requires forall i :: 0 <= i < |a| ==> !a[i].GameOver?
    requires forall i :: 0 <= i < |b| - 1 ==> !b[i].GameOver?
    ensures forall i :: 0 <= i < |a + b| - 1 ==> !(a + b)[i].GameOver?
  {
    forall i | 0 <= i < |a + b| - 1
      ensures !(a + b)[i].GameOver?
    {
      if i >= |a| {
        assert (a + b)[i] == b[i - |a|];
      }
    }
  }

  /** A `gameOver` event is published exactly once, by the run that ends the
      game, and it is the last event of that run. */
  lemma {:induction false} GameOverReportedOnce(g: GameRecord, replies: seq<Reply>)
    ensures var es := RunEvents(g, replies);
      && CountGameOver(es) == (if !g.gameOver && RunReplies(g, replies).gameOver then 1 else 0)
      && (forall i :: 0 <= i < |es| - 1 ==> !es[i].GameOver?)
    decreases |replies|
  {
    if replies != [] && !g.gameOver {
      var r := replies[0];
      TurnGameOverCount(g, r);
      TurnGameOverLast(g, r);
      if Continues(g, r) {
        var g' := AfterTurn(g, r);
        assert !g'.gameOver;
        var first, rest := TurnEvents(g, r), RunEvents(g', replies[1..]);
        assert RunEvents(g, replies) == first + rest;
        GameOverReportedOnce(g', replies[1..]);
        CountGameOverAppend(first, rest);
        NoGameOverBeforeLast(first, rest);
      }
    }
  }
}
