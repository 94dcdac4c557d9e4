/** The intent matcher of app.py (`check_intent`): a first-match-wins search
    of the intent table by case-insensitive substring, answering with one of
    the winning intent's canned responses. */
module Intents {
  import opened Text
  import opened Options

  /** One entry of `intent.json`; a missing `patterns` or `responses` key is
      the empty list. */
  datatype Intent = Intent(patterns: seq<string>, responses: seq<string>)

  /** What `check_intent` gives back: `None`, a response, or the `IndexError`
      that `random.choice` raises on an empty `responses` list. */
  datatype IntentResult = NoMatch | Reply(text: string) | EmptyResponses

  /** Some pattern of `intent`, lower-cased, is a substring of the
      lower-cased message. */
  predicate Matches(intent: Intent, message: string) {
    exists j :: 0 <= j < |intent.patterns| && Contains(Lower(message), Lower(intent.patterns[j]))
  }

  /** The position of the first intent, in table order, that matches. */
  function FirstMatch(table: seq<Intent>, message: string): (r: Option<nat>)
    ensures r.None? <==> forall k :: 0 <= k < |table| ==> !Matches(table[k], message)
    ensures r.Some? ==>
      && r.value < |table|
      && Matches(table[r.value], message)
      && forall k :: 0 <= k < r.value ==> !Matches(table[k], message)
  {
    if |table| == 0 then None
    else if Matches(table[0], message) then Some(0)
    else match FirstMatch(table[1..], message)
      case None => None
      case Some(k) => Some(k + 1)
  }

  /** `random.choice(responses)`, with the draw given as `pick`: an index
      below the length, taken modulo it; an empty list raises. */
  function Choose(responses: seq<string>, pick: nat): (r: IntentResult)
    ensures r.EmptyResponses? <==> |responses| == 0
    ensures r.Reply? ==> r.text in responses
    ensures !r.NoMatch?
  {
    if |responses| == 0 then EmptyResponses else Reply(responses[pick % |responses|])
  }

  /** Every response of a list is the choice of some draw. */
  lemma ChooseReachesEvery(responses: seq<string>, j: nat)
    requires j < |responses|
    ensures Choose(responses, j) == Reply(responses[j])
  {
  }

  /** The result of `check_intent(message)` against `table` for the draw
      `pick`. */
  function IntentOutcome(table: seq<Intent>, message: string, pick: nat): (r: IntentResult)
    ensures r.NoMatch? <==>
      forall k, j :: 0 <= k < |table| && 0 <= j < |table[k].patterns| ==>
        !Contains(Lower(message), Lower(table[k].patterns[j]))
    ensures !r.NoMatch? ==>
      var k := FirstMatch(table, message).value;
      && (r.EmptyResponses? <==> |table[k].responses| == 0)
      && (r.Reply? ==> r.text in table[k].responses)
  {
    match FirstMatch(table, message)
    case None => NoMatch
    case Some(k) => Choose(table[k].responses, pick)
  }

  /** `check_intent(message)`: scans the intents in order and, within each,
      its patterns in order, returning a choice among the responses of the
      first intent with a pattern found in the message. */
  method CheckIntent(table: seq<Intent>, message: string, pick: nat) returns (r: IntentResult)
    ensures r == IntentOutcome(table, message, pick)
  {
    var msg := Lower(message);
    var i := 0;
    while i < |table|
      invariant 0 <= i <= |table|
      invariant forall k :: 0 <= k < i ==> !Matches(table[k], message)
    {
      var patterns := table[i].patterns;
      var j := 0;
      while j < |patterns|
        invariant 0 <= j <= |patterns|
        invariant forall m :: 0 <= m < j ==> !Contains(msg, Lower(patterns[m]))
      {
        if Contains(msg, Lower(patterns[j])) {
          return Choose(table[i].responses, pick);
        }
        j := j + 1;
      }
      i := i + 1;
    }
    return NoMatch;
  }
}
