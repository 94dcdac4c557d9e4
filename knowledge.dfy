/** The knowledge store of app.py: an unbounded list of raw user messages that
    mention "remember", kept in the global `knowledge` and rewritten to
    `knowledge.json` after every addition. Nothing in the chat pipeline reads
    it or calls `learn_fact`. */
module Knowledge {
  import opened Text
  import Memory

  /** The keyword `learn_fact` looks for, in lower case. */
  const Keyword: string := "remember"

  /** `"remember" in user_msg.lower()`. */
  predicate Triggers(userMsg: string) {
    Contains(Lower(userMsg), Keyword)
  }

  /** The facts after `learn_fact(userMsg)`. */
  function Learned(facts: seq<string>, userMsg: string): seq<string> {
    if Triggers(userMsg) then facts + [userMsg] else facts
  }

  /** The keyword is found whatever the case of its letters: a message
      triggers exactly when its lower-cased form does. */
  lemma TriggersIgnoresCase(userMsg: string)
    ensures Triggers(userMsg) <==> Triggers(Lower(userMsg))
  {
    LowerIdempotent(userMsg);
  }

  /** A message with "remember" written in any case between two other texts
      is learned verbatim. */
  lemma KeywordIsLearned(facts: seq<string>, before: string, word: string, after: string)
    requires Lower(word) == Keyword
    ensures Learned(facts, before + word + after) == facts + [before + word + after]
  {
    var m := before + word + after;
    assert Lower(m) == Lower(before) + Keyword + Lower(after) by {
      assert |Lower(m)| == |Lower(before) + Keyword + Lower(after)|;
      forall i | 0 <= i < |m|
        ensures Lower(m)[i] == (Lower(before) + Keyword + Lower(after))[i]
      {
        if i < |before| {
        } else if i < |before| + |word| {
          assert m[i] == word[i - |before|];
        } else {
          assert m[i] == after[i - |before| - |word|];
        }
      }
    }
    ContainsInfix(Lower(before), Keyword, Lower(after));
  }

  /** Every learned fact is long enough to qualify for the memory log too.
      This only matters if `learn_fact` is called on the messages of a chat
      turn; nothing in app.py calls it. */
  lemma LearnedFactsQualify(userMsg: string)
    requires Triggers(userMsg)
    ensures Memory.Qualifies(userMsg)
  {
    ContainsNoLonger(Lower(userMsg), Keyword);
  }

  /** The process-wide knowledge store. `saved` is the content
      `knowledge.json` was last written with by `save_knowledge`. */
  class KnowledgeStore {
    var facts: seq<string>
    ghost var saved: seq<string>

    /** The store as loaded at startup, with the file holding the same list. */
    constructor (loaded: seq<string>)
      ensures facts == loaded && saved == loaded
    {
      facts := loaded;
      saved := loaded;
    }

    /** `save_knowledge`: the whole list is written out. */
    method Save()
      modifies this
      ensures facts == old(facts) && saved == facts
    {
      saved := facts;
    }

    /** `learn_fact(userMsg)`: appends the message unchanged and writes the
        list out when it mentions "remember" in any case; otherwise changes
        nothing. */
    method Learn(userMsg: string)
      modifies this
      ensures facts == Learned(old(facts), userMsg)
      ensures saved == if Triggers(userMsg) then facts else old(saved)
    {
      if Contains(Lower(userMsg), Keyword) {
        facts := facts + [userMsg];
        Save();
      }
    }
  }
}
