/**
 The three loops that fetch the last n records of an aggregate: against a service that
 answers queries in pages, against a pager, and (in the Bolt store) with a cursor. Each
 collects newest first and then reverses in place. Pages are read one by one, and other
 writers may append to the log in between.
 */
module Paging {
  import opened Machine
  import opened Listing

  function Reversed<T>(s: seq<T>): (r: seq<T>)
    ensures |r| == |s|
    ensures forall i :: 0 <= i < |s| ==> r[i] == s[|s| - 1 - i]
  {
    seq(|s|, i requires 0 <= i < |s| => s[|s| - 1 - i])
  }

  method Reverse<T>(a: array<T>)
    modifies a
    ensures a[..] == Reversed(old(a[..]))
  {
    var i, j := 0, a.Length - 1;
    while i < j
      invariant 0 <= i <= j + 1 <= a.Length && i + j == a.Length - 1
      invariant forall k :: 0 <= k < i || j < k < a.Length ==> a[k] == old(a[a.Length - 1 - k])
      invariant forall k :: i <= k <= j ==> a[k] == old(a[k])
    {
      a[i], a[j] := a[j], a[i];
      i, j := i + 1, j - 1;
    }
  }

  method ReverseSeq<T>(s: seq<T>) returns (r: seq<T>)
    ensures r == Reversed(s)
  {
    var a := new T[|s|](i requires 0 <= i < |s| => s[i]);
    assert a[..] == s;
    Reverse(a);
    r := a[..];
  }

  /** Reversing the newest k records gives the last k records. */
  lemma ReversedNewest<T>(log: seq<T>, k: nat)
    requires k <= |log|
    ensures Reversed(Reversed(log)[..k]) == log[|log| - k..]
  {
  }

  /**
   How the service answers one query: not at all, or with a page. It puts as many records
   into a page as it likes within the limit, and may hand out a key to continue from even
   when nothing is left. Other writers may append `arrived` before the next query.
   */
  datatype Reply<+T> = Failure | Page(size: nat, keyAtEnd: bool, arrived: seq<T>)

  const MAX_INT32: int := 0x7fff_ffff

  /** One query of the log as it is now, newest first, below the key of its record `below`. */
  method Query<T>(log: seq<T>, below: nat, limit: nat, reply: Reply<T>)
    returns (ok: bool, items: seq<T>, more: bool, after: seq<T>)
    requires below <= |log|
    ensures !ok <==> reply.Failure?
    ensures ok ==>
              && |items| == Min(reply.size, Min(limit, below))
              && items == Reversed(log[below - |items|..below])
              && (more <==> |items| < below || reply.keyAtEnd)
              && after == log + reply.arrived
  {
    if reply.Failure? {
      return false, [], false, log;
    }
    var size := Min(reply.size, Min(limit, below));
    ok, items, more := true, Reversed(log[below - size..below]), size < below || reply.keyAtEnd;
    after := log + reply.arrived;
  }

  /** Appends items while some are still wanted. */
  method Collect<T>(history: seq<T>, remaining: int, items: seq<T>) returns (history': seq<T>, remaining': int)
    requires remaining >= 0
    ensures history' == history + items[..Min(remaining, |items|)]
    ensures remaining' == remaining - Min(remaining, |items|)
  {
    history', remaining' := history, remaining;
    var i := 0;
    while i < |items| && remaining' > 0
      invariant i <= |items| && remaining' == remaining - i >= 0
      invariant history' == history + items[..i]
    {
      history' := history' + [items[i]];
      remaining' := remaining' - 1;
      i := i + 1;
    }
  }

  /** A page of a log that has grown since the first query continues the first query's log. */
  lemma PageContinues<T>(log: seq<T>, now: seq<T>, seen: nat, items: seq<T>, k: nat)
    requires log <= now && seen + |items| <= |log| && k <= |items|
    requires items == Reversed(now[|log| - seen - |items|..|log| - seen])
    ensures Reversed(log)[..seen] + items[..k] == Reversed(log)[..seen + k]
  {
  }

  /**
   DynamoDB: asks page by page until n records are there or no key to continue from comes
   back. `log` is what the first query finds; `replies` is what the service and the other
   writers do, and past its end every query is answered in full.
   */
  method QueryTail<T>(log: seq<T>, n: int, replies: seq<Reply<T>>) returns (ok: bool, history: seq<T>)
    ensures ok ==> history == if n <= 0 then [] else Tail(log, n)
    ensures !ok ==> n > 0 && exists i :: 0 <= i < |replies| && replies[i].Failure?
  {
    hide Reversed;
    if n <= 0 {
      return true, [];
    }
    history := [];
    var remaining, step, more, now := n, 0, true, log;
    while remaining > 0 && more
      invariant 0 <= remaining <= n && |history| == n - remaining <= |log| && log <= now
      invariant history == Reversed(log)[..|history|]
      invariant !more ==> |history| == |log| || remaining == 0
      decreases more, if step < |replies| then |replies| - step else 0, |log| - |history|
    {
      var limit := Min(remaining, MAX_INT32);
      var reply := if step < |replies| then replies[step] else Page(limit, false, []);
      var items;
      ok, items, more, now := Query(now, |log| - |history|, limit, reply);
      if !ok {
        return;
      }
      PageContinues(log, now, |history|, items, |items|);
      history, remaining := Collect(history, remaining, items);
      step := step + 1;
    }
    ReversedNewest(log, |history|);
    history := ReverseSeq(history);
    ok := true;
  }

  /**
   Cosmos: a pager that cuts pages as it likes, whatever size it is asked for, and is read
   only as far as needed.
   */
  method PagerTail<T>(log: seq<T>, n: int, replies: seq<Reply<T>>) returns (ok: bool, history: seq<T>)
    ensures ok ==> history == if n <= 0 then [] else Tail(log, n)
    ensures !ok ==> n > 0 && exists i :: 0 <= i < |replies| && replies[i].Failure?
  {
    hide Reversed;
    if n <= 0 {
      return true, [];
    }
    history := [];
    var remaining, step, more, below, now := n, 0, true, |log|, log;
    while remaining > 0 && more
      invariant 0 <= remaining <= n && |history| == n - remaining <= |log| && log <= now
      invariant remaining > 0 ==> below == |log| - |history|
      invariant history == Reversed(log)[..|history|]
      invariant !more ==> |history| == |log| || remaining == 0
      decreases more, if step < |replies| then |replies| - step else 0, |log| - |history|
    {
      var reply := if step < |replies| then replies[step] else Page(below, false, []);
      var items;
      ok, items, more, now := Query(now, below, below, reply);
      if !ok {
        return;
      }
      PageContinues(log, now, |history|, items, Min(remaining, |items|));
      history, remaining := Collect(history, remaining, items);
      below := below - |items|;
      step := step + 1;
    }
    ReversedNewest(log, |history|);
    history := ReverseSeq(history);
    ok := true;
  }
}
