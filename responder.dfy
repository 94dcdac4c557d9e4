/** The AI responder of app.py (`get_ai_response`): a fixed notice while the
    language model is disabled; otherwise one request made of a system prompt,
    which quotes the five most recent memory records, followed by the
    conversation history; the model's text on success and one of eight canned
    replies on any failure. */
module Responder {
  import opened Text
  import opened Memory

  /** One message of a conversation, `{"role": ..., "content": ...}`; the
      roles a caller sends are kept as given. */
  datatype Turn = Turn(role: string, content: string)

  const SystemRole: string := "system"
  const UserRole: string := "user"
  const AssistantRole: string := "assistant"

  /** What the chat-completion call gives back: the reply's text, or an
      exception of any kind (network, authentication, quota, format). */
  datatype Completion = Completed(text: string) | Failed

  /** The reply while the model is disabled (no API key, or the client could
      not be built). */
  const OfflineReply: string := "AI brain offline \U{2014} but I'm still here "

  /** The canned replies one of which stands in for a failed call. */
  const Fallbacks: seq<string> := [
    "I'm here to chat",
    "Tell me more!",
    "I'm listening",
    "Let's keep talking",
    "Sorry, my AI brain is a bit tired right now!",
    "Hmm, something's not working, but I'm still here for you!",
    "Oops, AI hiccup! But I'm still here to chat!",
    "Sorry, I'm having a little trouble thinking right now, but I'm all ears!"
  ]

  /** How many of the newest memory records the prompt quotes. */
  const RecentCount: nat := 5

  /** One memory record as a line of the prompt. */
  function MemoryLine(m: MemoryRecord): string {
    "User: " + m.user + " | AI: " + m.ai
  }

  /** Python's `sep.join(lines)`. */
  function Join(sep: string, lines: seq<string>): string {
    if |lines| == 0 then ""
    else if |lines| == 1 then lines[0]
    else lines[0] + sep + Join(sep, lines[1..])
  }

  /** Each joined line can be found in the joined text. */
  lemma {:induction false} JoinContainsEach(sep: string, lines: seq<string>, i: nat)
    requires i < |lines|
    ensures Contains(Join(sep, lines), lines[i])
  {
    if |lines| == 1 {
      ContainsInfix("", lines[0], "");
      assert "" + lines[0] + "" == Join(sep, lines);
    } else if i == 0 {
      ContainsInfix("", lines[0], sep + Join(sep, lines[1..]));
      assert "" + lines[0] + (sep + Join(sep, lines[1..])) == Join(sep, lines);
    } else {
      JoinContainsEach(sep, lines[1..], i - 1);
      ContainsWithin(lines[0] + sep, Join(sep, lines[1..]), "", lines[i]);
      assert lines[0] + sep + Join(sep, lines[1..]) + "" == Join(sep, lines);
    }
  }

  /** The prompt lines: one per record among the last five, oldest first. */
  function ContextLines(log: seq<MemoryRecord>): (lines: seq<string>)
    ensures |lines| == if |log| < RecentCount then |log| else RecentCount
    ensures forall i :: 0 <= i < |lines| ==> lines[i] == MemoryLine(log[|log| - |lines| + i])
  {
    var recent := Last(log, RecentCount);
    seq(|recent|, i requires 0 <= i < |recent| => MemoryLine(recent[i]))
  }

  /** `memory_context`: the prompt lines joined by newlines. */
  function MemoryContext(log: seq<MemoryRecord>): string {
    Join("\n", ContextLines(log))
  }

  /** The system prompt around the memory context. */
  function SystemPrompt(log: seq<MemoryRecord>): string {
    "\nYou are a ChatGPT-like assistant.\nBe friendly, helpful, and human.\n\nPast memory:\n"
    + MemoryContext(log) + "\n"
  }

  /** The `messages` of the request: the system turn, then the history. */
  function Messages(log: seq<MemoryRecord>, history: seq<Turn>): seq<Turn> {
    [Turn(SystemRole, SystemPrompt(log))] + history
  }

  /** The request carries exactly one system turn, first, followed by the
      caller's history unchanged. */
  lemma MessagesShape(log: seq<MemoryRecord>, history: seq<Turn>)
    ensures |Messages(log, history)| == |history| + 1
    ensures Messages(log, history)[0].role == SystemRole
    ensures Messages(log, history)[1..] == history
  {
  }

  /** Every one of the five newest records is quoted in the system prompt. */
  lemma PromptQuotesRecent(log: seq<MemoryRecord>, k: nat)
    requires k < |log| && |log| - RecentCount <= k
    ensures Contains(SystemPrompt(log), MemoryLine(log[k]))
  {
    var lines := ContextLines(log);
    var i := k - (|log| - |lines|);
    assert lines[i] == MemoryLine(log[k]);
    JoinContainsEach("\n", lines, i);
    ContainsWithin("\nYou are a ChatGPT-like assistant.\nBe friendly, helpful, and human.\n\nPast memory:\n",
                   MemoryContext(log), "\n", MemoryLine(log[k]));
  }

  /** Records older than the newest five do not affect the prompt. */
  lemma PromptIgnoresOlder(older: seq<MemoryRecord>, log: seq<MemoryRecord>)
    requires |log| >= RecentCount
    ensures SystemPrompt(older + log) == SystemPrompt(log)
  {
    assert Last(older + log, RecentCount) == Last(log, RecentCount);
  }

  /** `get_ai_response(history)`: `complete` is the chat-completion call,
      given the messages the request would carry; `pick` is the draw of
      `random.choice` among the fallbacks. */
  function AiResponse(enabled: bool, log: seq<MemoryRecord>, history: seq<Turn>,
                      complete: seq<Turn> -> Completion, pick: nat): (r: string)
    ensures !enabled ==> r == OfflineReply
    ensures enabled ==> match complete(Messages(log, history))
                        case Completed(text) => r == text
                        case Failed => r in Fallbacks
  {
    if !enabled then OfflineReply
    else match complete(Messages(log, history))
      case Completed(text) => text
      case Failed => Fallbacks[pick % |Fallbacks|]
  }

  /** A failed call can end in any of the eight fallbacks, and only in them. */
  lemma FailureReachesEveryFallback(log: seq<MemoryRecord>, history: seq<Turn>,
                                    complete: seq<Turn> -> Completion, j: nat)
    requires j < |Fallbacks|
    requires complete(Messages(log, history)) == Failed
    ensures AiResponse(true, log, history, complete, j) == Fallbacks[j]
  {
    assert |Fallbacks| == 8;
    assert j % |Fallbacks| == j;
  }
}
