# aichatbot chat pipeline, modelled in Dafny

This project models the per-turn pipeline of the `aichatbot` backend (`app.py`). A `POST /chat`
request brings a message and the conversation history. The handler works in these steps:

- It answers an empty or whitespace-only message with "Please type something!".
- Otherwise it appends the user turn to the history.
- It looks for a scripted intent: the first intent, in table order, that has a pattern which is a
  case-insensitive substring of the message.
- It buckets the message's sentiment polarity at ±0.2.
- It answers with the intent's canned response. When there is none, or it is empty, it asks the
  language model, which falls back to canned replies when disabled or failing.
- It puts at most one mood prefix in front of the answer.
- It appends the assistant turn.
- It remembers the exchange in a memory log capped at 200 records. Only messages longer than six
  characters are remembered.

A separate knowledge store records, verbatim, each message that mentions "remember".

The outside world becomes plain inputs (`Chat.Oracles`):

- the TextBlob polarity, as a `real`;
- the chat-completion call, as a total function from the request's messages to
  `Completed(text) | Failed`. The model applies it to exactly the messages `get_ai_response` builds;
- each `random.choice`, as a drawn index `pick`, taken modulo the list's length. Every element is
  reachable (`Intents.ChooseReachesEvery`, `Responder.FailureReachesEveryFallback`).

Modules:

- `Text`: `str.strip`, `str.lower` and `in`.
- `Memory`: `store_memory` and the `MemoryStore` class.
- `Knowledge`: `learn_fact` and the `KnowledgeStore` class.
- `Intents`: `check_intent`, as a nested-loop method proved against `FirstMatch`/`IntentOutcome`.
- `Sentiment`: `get_sentiment`.
- `Responder`: `get_ai_response`.
- `Chat`: `chat`, as the imperative `ChatTurn` on a `MemoryStore`, proved equal to the pure
  `ChatOutcome`, which the lemmas describe.

File writes (`save_memory`, `save_knowledge`) appear as a ghost `saved` snapshot of the last content
written.

Behaviours of the code worth stating:

- An intent whose chosen response is the empty string does not answer the turn. `chat` tests
  `intent_reply` for truthiness, so the AI responder answers instead (`Chat.BaseReply`).
- A matched intent with no responses makes `random.choice` raise. The turn then ends in
  "Backend error — check logs" without a history, and memory stays unchanged
  (`Chat.EmptyResponsesCrash`).
- Intents are searched in table order. The first intent with any pattern found in the message
  decides the answer; which of its patterns matched does not matter, since the answer is drawn from
  the whole intent's `responses`.
- A memory log loaded with more than 200 records is cut only at its first insertion. So the cap
  holds after any remembered message, and it is preserved once reached (`Memory.RememberedBounded`).

## Model

| member | source | states |
|---|---|---|
| `Text.LStrip` | app.py:151 | the result is a suffix of the input, everything removed is whitespace, and it does not start with whitespace |
| `Text.RStrip` | app.py:151 | the result is a prefix of the input, everything removed is whitespace, and it does not end with whitespace |
| `Text.StripEmptyIffBlank` | app.py:151 | `not message.strip()` holds exactly when every character is Python whitespace (so also for the empty message) |
| `Text.Lower` | app.py:82 | lower-casing keeps the length and maps each character to its lower-case form |
| `Text.LowerIdempotent` | app.py:86 | lower-casing an already lower-cased string changes nothing |
| `Text.ContainsIffOccurs` | app.py:86 | the substring test `p in s` holds exactly when `p` occurs at some index of `s` |
| `Memory.Last` | app.py:61 | `s[-n:]` has min(len, n) elements and is the tail of `s` |
| `Memory.LastOfLast` | app.py:61 | trimming to the last n before appending and again after equals trimming once after |
| `Memory.RememberedShape` | app.py:54-61 | a message of at most 6 characters leaves the log unchanged. Otherwise the log holds min(old+1, 200) records, the new `{user, ai}` record is last, and the earlier ones are the newest old records, in order |
| `Memory.RememberedBounded` | app.py:55-61 | a log within 200 stays within 200, and any remembered message brings the log within 200 |
| `Memory.RememberAllKeepsNewest` | app.py:54-62 | storing qualifying exchanges one by one leaves exactly the last 200 of old log + exchanges, oldest first |
| `Memory.TwoHundredFiftyKeepLastTwoHundred` | app.py:54-62 | 250 qualifying exchanges into an empty log leave exactly the last 200, in order |
| `Memory.MemoryStore.constructor` | app.py:40-48 | the store starts with the loaded log, which is also the file's content |
| `Memory.MemoryStore.Save` | app.py:50-52 | the whole log is written out and the log is unchanged |
| `Memory.MemoryStore.Store` | app.py:54-62 | the new log is `Remembered(old log, user, ai)`. The file is rewritten exactly when the message qualifies |
| `Knowledge.TriggersIgnoresCase` | app.py:77 | the keyword test gives the same answer for a message and for its lower-cased form |
| `Knowledge.KeywordIsLearned` | app.py:76-79 | a message containing "remember" in any letter case is appended verbatim |
| `Knowledge.LearnedFactsQualify` | app.py:55 | a message that triggers `learn_fact` is longer than 6 characters, so it also qualifies for memory |
| `Knowledge.KnowledgeStore.constructor` | app.py:64-70 | the store starts with the loaded facts, which are also the file's content |
| `Knowledge.KnowledgeStore.Save` | app.py:72-74 | the whole fact list is written out and the list is unchanged |
| `Knowledge.KnowledgeStore.Learn` | app.py:76-79 | the message is appended unchanged and the file rewritten exactly when its lower-cased form contains "remember". Otherwise nothing changes |
| `Intents.FirstMatch` | app.py:84-88 | no index iff no intent matches. Otherwise the index of a matching intent before which none matches |
| `Intents.Choose` | app.py:87 | `random.choice` raises exactly on an empty list. Otherwise it returns a member of the list |
| `Intents.ChooseReachesEvery` | app.py:87 | every response is the choice of some draw |
| `Intents.IntentOutcome` | app.py:81-89 | `None` iff no lower-cased pattern of any intent is a substring of the lower-cased message. Otherwise the first matching intent decides: the error if its responses are empty, else one of its responses |
| `Intents.CheckIntent` | app.py:81-89 | the nested loop with early return computes `IntentOutcome` |
| `Sentiment.Classify` | app.py:91-97 | positive iff polarity > 0.2, negative iff polarity < -0.2, neutral iff -0.2 <= polarity <= 0.2 |
| `Sentiment.ClassifyMonotone` | app.py:93-97 | a higher polarity never gets a lower bucket |
| `Sentiment.ClassifySymmetric` | app.py:93-97 | negating the polarity swaps positive and negative and keeps neutral |
| `Responder.ContextLines` | app.py:104-107 | the context has min(len, 5) lines, the i-th formatted from the i-th of the newest five records, oldest first |
| `Responder.JoinContainsEach` | app.py:104 | every line joined by `"\n".join` is a substring of the result |
| `Responder.PromptQuotesRecent` | app.py:104-115 | each of the five newest memory records appears in the system prompt as "User: … \| AI: …" |
| `Responder.PromptIgnoresOlder` | app.py:104-107 | records older than the newest five do not change the system prompt |
| `Responder.MessagesShape` | app.py:117 | the request is one system turn followed by the history unchanged |
| `Responder.AiResponse` | app.py:99-141 | disabled gives exactly the offline notice. Enabled gives the completion's text on success, and a member of the 8 fallbacks on failure |
| `Responder.FailureReachesEveryFallback` | app.py:131-141 | every fallback is reachable by some draw after a failed call |
| `Chat.BlankMessageEchoes` | app.py:151-152 | an empty or whitespace-only message gets "Please type something!", the history unchanged, and memory unchanged |
| `Chat.EmptyResponsesCrash` | app.py:156-174 | a winning intent with no responses ends the turn in "Backend error — check logs" with no history and memory unchanged |
| `Chat.NormalTurnShape` | app.py:154-170 | the history grows by exactly the user turn then the assistant turn with the reply. The reply is the base answer with "Love that energy! " when polarity > 0.2, "I'm here for you. " when polarity < -0.2, and no prefix otherwise, and the exchange is remembered |
| `Chat.PrefixPolicy` | app.py:157-164 | polarity > 0.2 prepends "Love that energy! ", polarity < -0.2 prepends "I'm here for you. ", and otherwise there is no prefix |
| `Chat.IntentReplyWins` | app.py:156-159 | a non-empty intent reply, from the first matching intent's responses, is the base answer. Neither the model, its being enabled nor the fallback draw changes the outcome |
| `Chat.OfflineHello` | app.py:100-101 | "hello" with no matching intent and the model disabled answers the offline notice (perhaps prefixed), gives a history of length 2, and remembers nothing |
| `Chat.ShortMessageNotRemembered` | app.py:168 | a message of at most 6 characters never changes memory, whatever the path |
| `Chat.TurnKeepsMemoryBound` | app.py:168 | a turn keeps a memory log of at most 200 records within 200 |
| `Chat.ChatTurn` | app.py:144-174 | the imperative turn returns the reply and leaves the memory log that `ChatOutcome` describes. The file is rewritten exactly when an exchange is remembered |
| `Text.Strip` | app.py:151 | definition of `message.strip()`; described by `Text.LStrip`, `Text.RStrip` and `Text.StripEmptyIffBlank` |
| `Text.Contains` | app.py:77 | definition of Python's substring test `p in s` (also app.py:86); described by `Text.ContainsIffOccurs` |
| `Memory.Qualifies` | app.py:55 | definition of the gate `len(user_msg) > 6`; described by `Memory.RememberedShape` and `Chat.ShortMessageNotRemembered` |
| `Memory.Remembered` | app.py:54-61 | definition of the log after `store_memory`; described by `Memory.RememberedShape`, `Memory.RememberedBounded` and `Memory.RememberAllKeepsNewest` |
| `Knowledge.Triggers` | app.py:77 | definition of `"remember" in user_msg.lower()`; described by `Knowledge.TriggersIgnoresCase` and `Knowledge.KeywordIsLearned` |
| `Knowledge.Learned` | app.py:76-78 | definition of the fact list after `learn_fact`; described by `Knowledge.KeywordIsLearned` and `Knowledge.KnowledgeStore.Learn` |
| `Intents.Matches` | app.py:85-86 | definition of "some lower-cased pattern of the intent is in the lower-cased message"; described by `Intents.FirstMatch` and `Intents.IntentOutcome` |
| `Responder.MemoryLine` | app.py:105 | definition of one prompt line "User: … \| AI: …"; described by `Responder.ContextLines` and `Responder.PromptQuotesRecent` |
| `Responder.Join` | app.py:104 | definition of `"\n".join`; described by `Responder.JoinContainsEach` |
| `Responder.MemoryContext` | app.py:104-107 | definition of `memory_context`; described by `Responder.ContextLines`, `Responder.PromptQuotesRecent` and `Responder.PromptIgnoresOlder` |
| `Responder.SystemPrompt` | app.py:109-115 | definition of `system_prompt`; described by `Responder.PromptQuotesRecent` and `Responder.PromptIgnoresOlder` |
| `Responder.Messages` | app.py:117 | definition of `messages`; described by `Responder.MessagesShape` |
| `Chat.MoodPrefix` | app.py:161-164 | definition of the prefix chosen for each mood; described by `Chat.PrefixPolicy` |
| `Chat.BaseReply` | app.py:159 | definition of `intent_reply if intent_reply else get_ai_response(history)`; described by `Chat.IntentReplyWins` and `Chat.NormalTurnShape` |
| `Chat.ChatOutcome` | app.py:144-174 | definition of one turn of `chat` as a value; described by `Chat.BlankMessageEchoes`, `Chat.EmptyResponsesCrash`, `Chat.NormalTurnShape`, `Chat.IntentReplyWins`, `Chat.OfflineHello`, `Chat.ShortMessageNotRemembered` and `Chat.TurnKeepsMemoryBound`, and implemented by `Chat.ChatTurn` |
| `Text.IsSpace` | app.py:151 | definition of the characters `strip()` removes: Python's `str.isspace` set; described by `Text.LStrip`, `Text.RStrip` and `Text.StripEmptyIffBlank` |
| `Text.IsBlank` | app.py:151 | definition of a whitespace-only (or empty) message; described by `Text.StripEmptyIffBlank` |
| `Text.LowerChar` | app.py:82 | the per-character `str.lower`: the result is never an upper-case ASCII letter, an ASCII capital maps to its lower-case letter, and any other character is kept (also app.py:86) |
| `Memory.RememberAll` | app.py:54-62 | definition of a run of `store_memory` calls; described by `Memory.RememberAllKeepsNewest` and `Memory.TwoHundredFiftyKeepLastTwoHundred` |

## Left out

- HTTP plumbing is not modelled: Flask routing, `request.get_json`, `jsonify`, CORS and `app.run`. The request's fields are parameters.
- A `message` that is not a string in the JSON is not modelled. In Python, `message.strip()` at app.py:151 would raise and take the error path.
- A `history` that is not a list in the JSON is not modelled. On a blank message, app.py:151-152 returns it as sent, whatever its JSON type, and raises nothing. Only on the non-blank path does `history.append` at app.py:154 raise and take the error path.
- The entries of `intent.json` are taken as well-typed: lists of strings for `patterns` and `responses`. In Python, a pattern that is not a string makes `pattern.lower()` raise at app.py:86. A response that is not a string changes what app.py:159-164 does: its truthiness decides between it and the AI reply, and a mood prefix added to it raises.
- A missing `history` defaults to `[]`. The model takes the history as given.
- The OpenAI client construction and the `chat.completions.create` call are not modelled. The call is the `complete` oracle, and `aiEnabled` stands for whether a client was built. The model name, temperature and token cap are not modelled.
- A completion whose `content` is null is not modelled. The oracle always yields a string.
- TextBlob's polarity computation is an opaque library. The polarity is a `real` input.
- Floating-point comparison against 0.2 is modelled with exact reals.
- `random.choice` is not random here. It is modelled as a drawn index, reduced modulo the list length.
- Startup file loading is not modelled: reading, creating and recovering `intent.json`, `memory.json` and `knowledge.json`. The stores' constructors take the loaded content. A corrupt `knowledge.json` stops startup, unlike the other two files.
- JSON serialisation of the files is not modelled. A save is a ghost snapshot of the list written.
- `print` logging is not modelled.
- Text.Lower: only ASCII letters are lower-cased. Python's full Unicode case mapping is not modelled, and neither are mappings that change the string's length.
- Unsynchronised concurrent requests on the two global stores, and the updates they can lose, are not modelled.
- `learn_fact` is modelled on its own, as `KnowledgeStore.Learn`. Nothing in `chat` calls it, and nothing reads the facts.
- Chat.ChatTurn: Python's `chat` extends the caller's `history` list in place. The model returns the extended history as a value, so it does not model aliasing of that list.
- Strings holding a lone surrogate code point (which `json.loads` accepts from `"\ud800"`) are not modelled: a Dafny `char` is a Unicode scalar value.
