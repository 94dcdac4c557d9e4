/** The long-term memory log of app.py: a bounded, first-in-first-out list of
    `{user, ai}` records, kept in the global `long_term_memory` and rewritten
    to `memory.json` after every insertion. */
module Memory {

  /** One completed exchange, `{"user": ..., "ai": ...}`. */
  datatype MemoryRecord = MemoryRecord(user: string, ai: string)

  /** The log keeps at most this many records (`[-200:]`). */
  const MaxRecords: nat := 200

  /** A user message must be longer than this to be remembered. */
  const MinUserLength: nat := 6

  /** Python's `s[-n:]` for a positive `n`: the last `n` elements of `s`, or
      all of `s` when it is shorter. */
  function Last<T>(s: seq<T>, n: nat): (r: seq<T>)
    requires n > 0
    ensures |r| == if |s| < n then |s| else n
    ensures r == s[|s| - |r|..]
  {
    if |s| <= n then s else s[|s| - n..]
  }

  /** Keeping the last `n` twice is keeping them once, whatever was appended
      in between: the window forgets nothing it would have kept. */
  lemma LastOfLast<T>(s: seq<T>, t: seq<T>, n: nat)
    requires n > 0
    ensures Last(Last(s, n) + t, n) == Last(s + t, n)
  {
    var l := Last(s, n);
    var r1 := Last(l + t, n);
    var r2 := Last(s + t, n);
    assert |r1| == |r2|;
    forall i | 0 <= i < |r1| ensures r1[i] == r2[i] {
      var j := |l + t| - |r1| + i;
      var j' := |s + t| - |r2| + i;
      if j < |l| {
        assert r1[i] == l[j] == s[|s| - |l| + j];
        assert j' == |s| - |l| + j;
      } else {
        assert r1[i] == t[j - |l|];
        assert j' - |s| == j - |l|;
      }
    }
  }

  /** `store_memory` remembers a message only when it is longer than six
      characters. */
  predicate Qualifies(userMsg: string) {
    |userMsg| > MinUserLength
  }

  /** The log after `store_memory(userMsg, aiMsg)`: the record is appended and
      the log cut to its last 200 entries, or, for a short message, the log is
      left as it was. */
  function Remembered(log: seq<MemoryRecord>, userMsg: string, aiMsg: string): seq<MemoryRecord> {
    if Qualifies(userMsg) then Last(log + [MemoryRecord(userMsg, aiMsg)], MaxRecords) else log
  }

  /** What one `store_memory` call does to the log: nothing for a short
      message; otherwise the new record is last, the log holds
      min(old length + 1, 200) records and the ones before the new record
      are the newest survivors of the old log, in their old order. */
  lemma RememberedShape(log: seq<MemoryRecord>, userMsg: string, aiMsg: string)
    ensures !Qualifies(userMsg) ==> Remembered(log, userMsg, aiMsg) == log
    ensures Qualifies(userMsg) ==>
      var r := Remembered(log, userMsg, aiMsg);
      && |r| == (if |log| + 1 < MaxRecords then |log| + 1 else MaxRecords)
      && r[|r| - 1] == MemoryRecord(userMsg, aiMsg)
      && r[..|r| - 1] == log[|log| - (|r| - 1)..]
  {
    if Qualifies(userMsg) {
      var s := log + [MemoryRecord(userMsg, aiMsg)];
      var r := Remembered(log, userMsg, aiMsg);
      assert r == s[|s| - |r|..];
      assert r[..|r| - 1] == s[|s| - |r|..|s| - 1];
      assert s[..|s| - 1] == log;
    }
  }

  /** Once the log is within the cap it stays within it, and a remembered
      message brings any log within it. */
  lemma RememberedBounded(log: seq<MemoryRecord>, userMsg: string, aiMsg: string)
    requires |log| <= MaxRecords || Qualifies(userMsg)
    ensures |Remembered(log, userMsg, aiMsg)| <= MaxRecords
  {
  }

  /** The log after storing each pair of `exchanges` in turn. */
  function RememberAll(log: seq<MemoryRecord>, exchanges: seq<MemoryRecord>): seq<MemoryRecord>
    decreases |exchanges|
  {
    if exchanges == [] then log
    else RememberAll(Remembered(log, exchanges[0].user, exchanges[0].ai), exchanges[1..])
  }

  /** Storing a run of qualifying exchanges one by one leaves exactly the last
      200 of the old log followed by the exchanges, oldest first. (A log loaded
      with more than 200 records is only cut at its first insertion.) */
  lemma {:induction false} RememberAllKeepsNewest(log: seq<MemoryRecord>, exchanges: seq<MemoryRecord>)
    requires |log| <= MaxRecords || exchanges != []
    requires forall k :: 0 <= k < |exchanges| ==> Qualifies(exchanges[k].user)
    ensures RememberAll(log, exchanges) == Last(log + exchanges, MaxRecords)
    decreases |exchanges|
  {
    if exchanges == [] {
      assert log + exchanges == log;
    } else {
      var e := exchanges[0];
      var rest := exchanges[1..];
      var log' := Remembered(log, e.user, e.ai);
      assert Qualifies(e.user);
      assert log' == Last(log + [e], MaxRecords);
      assert RememberAll(log, exchanges) == RememberAll(log', rest);
      assert forall k :: 0 <= k < |rest| ==> Qualifies(rest[k].user) by {
        forall k | 0 <= k < |rest| ensures Qualifies(rest[k].user) {
          assert rest[k] == exchanges[k + 1];
        }
      }
      RememberAllKeepsNewest(log', rest);
      LastOfLast(log + [e], rest, MaxRecords);
      assert log + [e] + rest == log + exchanges;
    }
  }

  /** 250 qualifying exchanges stored into an empty log leave exactly the last
      200 of them, in order. */
  lemma TwoHundredFiftyKeepLastTwoHundred(exchanges: seq<MemoryRecord>)
    requires |exchanges| == 250
    requires forall k :: 0 <= k < |exchanges| ==> Qualifies(exchanges[k].user)
    ensures RememberAll([], exchanges) == exchanges[50..]
  {
    RememberAllKeepsNewest([], exchanges);
    assert [] + exchanges == exchanges;
  }

  /** The process-wide memory store. `saved` is the content `memory.json` was
      last written with by `save_memory`. */
  class MemoryStore {
    var records: seq<MemoryRecord>
    ghost var saved: seq<MemoryRecord>

    /** The store as loaded at startup, with the file holding the same log. */
    constructor (loaded: seq<MemoryRecord>)
      ensures records == loaded && saved == loaded
    {
      records := loaded;
      saved := loaded;
    }

    /** `save_memory`: the whole log is written out. */
    method Save()
      modifies this
      ensures records == old(records) && saved == records
    {
      saved := records;
    }

    /** `store_memory(userMsg, aiMsg)`: appends the record and keeps the last
        200 when the message is long enough, writing the log out; otherwise
        changes nothing. */
    method Store(userMsg: string, aiMsg: string)
      modifies this
      ensures records == Remembered(old(records), userMsg, aiMsg)
      ensures saved == if Qualifies(userMsg) then records else old(saved)
    {
      if |userMsg| > MinUserLength {
        records := records + [MemoryRecord(userMsg, aiMsg)];
        records := Last(records, MaxRecords);
        Save();
      }
    }
  }
}
