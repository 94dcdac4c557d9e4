/** The chat turn of app.py (`chat`, behind `POST /chat`): validate the
    message, record the user turn, answer from the intent table or the AI
    responder, put at most one mood prefix in front, record the assistant
    turn and remember the exchange. Any exception inside the turn becomes an
    error reply without a history. */
module Chat {
  import opened Options
  import opened Text
  import opened Memory
  import opened Intents
  import opened Sentiment
  import opened Responder

  const EmptyMessageReply: string := "Please type something!"
  const BackendError: string := "Backend error \U{2014} check logs"
  const ComfortPrefix: string := "I'm here for you. "
  const CheerPrefix: string := "Love that energy! "

  /** The JSON body of the reply: `history` is absent on the error path. */
  datatype ChatResponse = ChatResponse(response: string, history: Option<seq<Turn>>)

  /** The outside world of one turn: the TextBlob polarity of the message,
      the chat-completion call, and the two draws of `random.choice` (among
      an intent's responses, among the fallbacks). */
  datatype Oracles = Oracles(polarity: real, complete: seq<Turn> -> Completion,
                             intentPick: nat, fallbackPick: nat)

  /** A reply together with the memory log after the turn. */
  datatype Outcome = Outcome(response: ChatResponse, memory: seq<MemoryRecord>)

  /** The text put in front of a reply for each mood. */
  function MoodPrefix(mood: Mood): string {
    match mood
    case Negative => ComfortPrefix
    case Positive => CheerPrefix
    case Neutral => ""
  }

  /** The answer before the mood prefix: the intent's response when there is
      one and it is not empty, otherwise the AI responder's reply. */
  function BaseReply(intent: IntentResult, aiReply: string): string {
    if intent.Reply? && intent.text != "" then intent.text else aiReply
  }

  /** One turn of `chat`, from the memory log before it to the reply and the
      log after it. */
  function ChatOutcome(log: seq<MemoryRecord>, table: seq<Intent>, aiEnabled: bool,
                       message: string, history: seq<Turn>, o: Oracles): Outcome
  {
    if Strip(message) == [] then
      Outcome(ChatResponse(EmptyMessageReply, Some(history)), log)
    else
      var withUser := history + [Turn(UserRole, message)];
      var intent := IntentOutcome(table, message, o.intentPick);
      if intent.EmptyResponses? then
        Outcome(ChatResponse(BackendError, None), log)
      else
        var base := BaseReply(intent, AiResponse(aiEnabled, log, withUser, o.complete, o.fallbackPick));
        var final := MoodPrefix(Classify(o.polarity)) + base;
        Outcome(ChatResponse(final, Some(withUser + [Turn(AssistantRole, final)])),
                Remembered(log, message, final))
  }

  /** An empty or whitespace-only message is answered with a request to type
      something; the history comes back as sent and nothing is remembered. */
  lemma BlankMessageEchoes(log: seq<MemoryRecord>, table: seq<Intent>, aiEnabled: bool,
                           message: string, history: seq<Turn>, o: Oracles)
    requires IsBlank(message)
    ensures ChatOutcome(log, table, aiEnabled, message, history, o)
            == Outcome(ChatResponse(EmptyMessageReply, Some(history)), log)
  {
    StripEmptyIffBlank(message);
  }

  /** When the winning intent has no responses, `random.choice` raises and the
      turn ends in the error reply, without history and without remembering. */
  lemma EmptyResponsesCrash(log: seq<MemoryRecord>, table: seq<Intent>, aiEnabled: bool,
                            message: string, history: seq<Turn>, o: Oracles)
    requires !IsBlank(message)
    requires FirstMatch(table, message).Some?
    requires table[FirstMatch(table, message).value].responses == []
    ensures ChatOutcome(log, table, aiEnabled, message, history, o)
            == Outcome(ChatResponse(BackendError, None), log)
  {
    StripEmptyIffBlank(message);
  }

  /** A turn that does not fail grows the history by exactly two turns, the
      user's message and then the reply; the reply is the base answer with
      the one mood prefix the polarity selects, or none, and the exchange is
      remembered. */
  lemma NormalTurnShape(log: seq<MemoryRecord>, table: seq<Intent>, aiEnabled: bool,
                        message: string, history: seq<Turn>, o: Oracles)
    requires !IsBlank(message)
    requires !IntentOutcome(table, message, o.intentPick).EmptyResponses?
    ensures
      var out := ChatOutcome(log, table, aiEnabled, message, history, o);
      var final := out.response.response;
      var base := BaseReply(IntentOutcome(table, message, o.intentPick),
                            AiResponse(aiEnabled, log, history + [Turn(UserRole, message)],
                                       o.complete, o.fallbackPick));
      && out.response.history.Some?
      && |out.response.history.value| == |history| + 2
      && out.response.history.value[..|history|] == history
      && out.response.history.value[|history|] == Turn(UserRole, message)
      && out.response.history.value[|history| + 1] == Turn(AssistantRole, final)
      && (final == base || final == ComfortPrefix + base || final == CheerPrefix + base)
      && (o.polarity > Threshold ==> final == CheerPrefix + base)
      && (o.polarity < -Threshold ==> final == ComfortPrefix + base)
      && (-Threshold <= o.polarity <= Threshold ==> final == base)
      && out.memory == Remembered(log, message, final)
  {
    StripEmptyIffBlank(message);
    var withUser := history + [Turn(UserRole, message)];
    var base := BaseReply(IntentOutcome(table, message, o.intentPick),
                          AiResponse(aiEnabled, log, withUser, o.complete, o.fallbackPick));
    var final := MoodPrefix(Classify(o.polarity)) + base;
    assert ChatOutcome(log, table, aiEnabled, message, history, o)
           == Outcome(ChatResponse(final, Some(withUser + [Turn(AssistantRole, final)])),
                      Remembered(log, message, final));
  }

  /** The mood prefix follows the polarity alone, and at most one is used. */
  lemma PrefixPolicy(polarity: real, base: string)
    ensures polarity > Threshold ==> MoodPrefix(Classify(polarity)) + base == CheerPrefix + base
    ensures polarity < -Threshold ==> MoodPrefix(Classify(polarity)) + base == ComfortPrefix + base
    ensures -Threshold <= polarity <= Threshold ==> MoodPrefix(Classify(polarity)) + base == base
  {
  }

  /** A message that matches an intent with a non-empty response is answered
      from that intent's responses, whatever the language model would say and
      whether or not it is enabled. */
  lemma IntentReplyWins(log: seq<MemoryRecord>, table: seq<Intent>, aiEnabled: bool, aiEnabled': bool,
                        message: string, history: seq<Turn>, o: Oracles,
                        complete': seq<Turn> -> Completion, fallbackPick': nat)
    requires !IsBlank(message)
    requires IntentOutcome(table, message, o.intentPick).Reply?
    requires IntentOutcome(table, message, o.intentPick).text != ""
    ensures
      var out := ChatOutcome(log, table, aiEnabled, message, history, o);
      var text := IntentOutcome(table, message, o.intentPick).text;
      && out.response.response == MoodPrefix(Classify(o.polarity)) + text
      && text in table[FirstMatch(table, message).value].responses
      && out == ChatOutcome(log, table, aiEnabled', message, history,
                            o.(complete := complete', fallbackPick := fallbackPick'))
  {
    StripEmptyIffBlank(message);
  }

  /** "hello" with no matching intent and the model disabled: the offline
      notice, perhaps with a mood prefix, and a history of two turns. */
  lemma OfflineHello(log: seq<MemoryRecord>, table: seq<Intent>, o: Oracles)
    requires FirstMatch(table, "hello").None?
    ensures
      var out := ChatOutcome(log, table, false, "hello", [], o);
      && out.response.response == MoodPrefix(Classify(o.polarity)) + OfflineReply
      && out.response.history.Some?
      && |out.response.history.value| == 2
      && out.memory == log
  {
    assert !IsSpace("hello"[0]);
    StripEmptyIffBlank("hello");
  }

  /** A message of six characters or fewer is never remembered, whatever the
      reply. */
  lemma ShortMessageNotRemembered(log: seq<MemoryRecord>, table: seq<Intent>, aiEnabled: bool,
                                  message: string, history: seq<Turn>, o: Oracles)
    requires |message| <= MinUserLength
    ensures ChatOutcome(log, table, aiEnabled, message, history, o).memory == log
  {
  }

  /** A turn keeps the memory log within its cap. */
  lemma TurnKeepsMemoryBound(log: seq<MemoryRecord>, table: seq<Intent>, aiEnabled: bool,
                             message: string, history: seq<Turn>, o: Oracles)
    requires |log| <= MaxRecords
    ensures |ChatOutcome(log, table, aiEnabled, message, history, o).memory| <= MaxRecords
  {
    var out := ChatOutcome(log, table, aiEnabled, message, history, o);
    if Strip(message) != [] && !IntentOutcome(table, message, o.intentPick).EmptyResponses? {
      RememberedBounded(log, message, out.response.response);
    }
  }

  /** `chat()`: one turn against the process-wide memory store. */
  method ChatTurn(memory: MemoryStore, table: seq<Intent>, aiEnabled: bool,
                  message: string, history: seq<Turn>, o: Oracles) returns (r: ChatResponse)
    modifies memory
    ensures Outcome(r, memory.records) == ChatOutcome(old(memory.records), table, aiEnabled, message, history, o)
    ensures memory.saved == if Strip(message) != [] && r.history.Some? && Qualifies(message)
                            then memory.records else old(memory.saved)
  {
    if Strip(message) == [] {
      return ChatResponse(EmptyMessageReply, Some(history));
    }
    var turns := history + [Turn(UserRole, message)];
    var intentReply := CheckIntent(table, message, o.intentPick);
    if intentReply.EmptyResponses? {
      return ChatResponse(BackendError, None);
    }
    var mood := Classify(o.polarity);
    var reply: string;
    if intentReply.Reply? && intentReply.text != "" {
      reply := intentReply.text;
    } else {
      reply := AiResponse(aiEnabled, memory.records, turns, o.complete, o.fallbackPick);
    }
    ghost var base := reply;
    if mood == Negative {
      reply := ComfortPrefix + reply;
    } else if mood == Positive {
      reply := CheerPrefix + reply;
    }
    assert reply == MoodPrefix(mood) + base;
    turns := turns + [Turn(AssistantRole, reply)];
    memory.Store(message, reply);
    r := ChatResponse(reply, Some(turns));
  }
}
