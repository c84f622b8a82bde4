/** Versioned entries read in ascending order, as an ordered query or a cursor delivers them. */
module Listing {
  import opened Machine

  /** A stored event: its version and its bytes. */
  datatype Record = Record(version: int, data: Bytes)

  /** In ascending version order, no version twice. */
  ghost predicate Versioned(records: seq<Record>) {
    forall i, j :: 0 <= i < j < |records| ==> records[i].version < records[j].version
  }

  ghost predicate Increasing(s: seq<int>) {
    forall i, j :: 0 <= i < j < |s| ==> s[i] < s[j]
  }

  /** The members of `s` from `lo` up to but not including `hi`, in ascending order. */
  ghost function Ascending(s: set<int>, lo: int, hi: int): seq<int>
    decreases hi - lo
  {
    if hi <= lo then [] else Ascending(s, lo, hi - 1) + (if hi - 1 in s then [hi - 1] else [])
  }

  ghost predicate Lists(a: seq<int>, s: set<int>, lo: int, hi: int) {
    forall x :: x in a <==> x in s && lo <= x < hi
  }

  lemma {:induction false} AscendingSorts(s: set<int>, lo: int, hi: int)
    ensures Increasing(Ascending(s, lo, hi)) && Lists(Ascending(s, lo, hi), s, lo, hi)
    decreases hi - lo
  {
    if lo < hi {
      var front := Ascending(s, lo, hi - 1);
      AscendingSorts(s, lo, hi - 1);
      assert forall i :: 0 <= i < |front| ==> front[i] in front;
    }
  }

  /** The records a reader gets when it reads everything up to version `k`. */
  ghost function Records<T>(m: map<int, T>, k: nat): seq<T> {
    if k == 0 then [] else Records(m, k - 1) + (if k in m then [m[k]] else [])
  }

  /** The store holds exactly the versions 1 to |log|, each with the record of that version. */
  ghost predicate Holds<T>(m: map<int, T>, log: seq<T>) {
    && (forall v :: v in m <==> 1 <= v <= |log|)
    && (forall v :: v in m ==> m[v] == log[v - 1])
  }

  function Min(a: int, b: int): int {
    if a < b then a else b
  }

  /** What a table keeps for an aggregate; nothing for an unknown one. */
  function Get<T>(table: map<string, seq<T>>, id: string): seq<T> {
    if id in table then table[id] else []
  }

  /** The last n records, or all of them when there are fewer. */
  function Tail<T>(log: seq<T>, n: nat): seq<T> {
    if |log| <= n then log else log[|log| - n..]
  }

  /** A read that is cut anywhere returns a prefix of a gapless log. */
  lemma {:induction false} RecordsArePrefix<T>(m: map<int, T>, log: seq<T>, k: nat)
    requires Holds(m, log)
    ensures Records(m, k) == log[..Min(k, |log|)]
  {
    if k > 0 {
      RecordsArePrefix(m, log, k - 1);
    }
  }
}
