/** Which shard file an aggregate id gets, and how the shards fill up. */
module Shards {
  import opened Machine

  /** The index bucket and the two numbers kept beside it. */
  datatype Index = Index(shards: map<string, int>, current: int, limit: int)

  const FIRST_SHARD: int := 1
  const DEFAULT_MAX_PER_SHARD: int := 10_000

  /** A new index; the limit is stored as a uint32. */
  function NewIndex(maxPerShard: int): Index {
    Index(map[], FIRST_SHARD, (if maxPerShard > 0 then maxPerShard else DEFAULT_MAX_PER_SHARD) % TWO32)
  }

  ghost function IdsOf(shards: map<string, int>, shard: int): set<string> {
    set id | id in shards && shards[id] == shard
  }

  ghost function IdsIn(ix: Index, shard: int): set<string> {
    IdsOf(ix.shards, shard)
  }

  ghost function Count(ix: Index, shard: int): nat {
    |IdsIn(ix, shard)|
  }

  /** The shard a new id goes to: the current one, or the next when that is full. */
  ghost function NextShard(ix: Index): int {
    if Count(ix, ix.current) >= ix.limit then (ix.current + 1) % TWO32 else ix.current
  }

  ghost function Assign(ix: Index, id: string): Index {
    if id in ix.shards then ix
    else ix.(shards := ix.shards[id := NextShard(ix)], current := NextShard(ix))
  }

  ghost function AssignAll(ix: Index, ids: seq<string>): Index {
    if ids == [] then ix else Assign(AssignAll(ix, ids[..|ids| - 1]), ids[|ids| - 1])
  }

  /** Once assigned, an id keeps its shard through any further assignments. */
  lemma {:induction false} ShardNeverChanges(ix: Index, ids: seq<string>, id: string)
    requires id in ix.shards
    ensures id in AssignAll(ix, ids).shards && AssignAll(ix, ids).shards[id] == ix.shards[id]
  {
    if ids != [] {
      ShardNeverChanges(ix, ids[..|ids| - 1], id);
    }
  }

  // ---------------------------------------------------------------- filling

  /**
   Every shard below the current one holds exactly `limit` ids, the current one at most
   that many and at least one as soon as there is any id, and no id is above it.
   */
  ghost predicate Filled(ix: Index) {
    && 1 <= ix.limit && 1 <= ix.current < TWO32
    && Count(ix, ix.current) <= ix.limit
    && (forall s :: 1 <= s < ix.current ==> Count(ix, s) == ix.limit)
    && (forall s :: s < 1 || s > ix.current ==> Count(ix, s) == 0)
    && |ix.shards| == (ix.current - 1) * ix.limit + Count(ix, ix.current)
    && (|ix.shards| == 0 ==> ix.current == 1)
    && (|ix.shards| > 0 ==> Count(ix, ix.current) > 0)
  }

  lemma AssignCounts(ix: Index, id: string, s: int)
    requires id !in ix.shards
    ensures Count(Assign(ix, id), s) == Count(ix, s) + (if s == NextShard(ix) then 1 else 0)
  {
    hide NextShard;
    assert IdsIn(Assign(ix, id), s) == IdsIn(ix, s) + (if s == NextShard(ix) then {id} else {});
  }

  lemma AssignKeepsFilled(ix: Index, id: string)
    requires Filled(ix) && |Assign(ix, id).shards| <= ix.limit * (TWO32 - 1)
    ensures Filled(Assign(ix, id))
  {
    hide Count;
    if id !in ix.shards {
      var after := Assign(ix, id);
      assert |after.shards| == |ix.shards| + 1;
      forall s ensures Count(after, s) == Count(ix, s) + (if s == NextShard(ix) then 1 else 0) {
        AssignCounts(ix, id, s);
      }
      if Count(ix, ix.current) >= ix.limit {
        FullUpTo(ix.current, ix.limit);
      }
    }
  }

  /** With `current` full shards below the last possible one there is a next shard number. */
  lemma FullUpTo(current: int, limit: int)
    requires 1 <= limit && 1 <= current && (current - 1) * limit + limit < limit * (TWO32 - 1)
    ensures current + 1 < TWO32 && (current + 1 - 1) * limit == (current - 1) * limit + limit
  {
  }

  lemma {:induction false} FillingStep(ix: Index, ids: seq<string>)
    requires Filled(ix) && |AssignAll(ix, ids).shards| <= ix.limit * (TWO32 - 1)
    ensures Filled(AssignAll(ix, ids)) && AssignAll(ix, ids).limit == ix.limit
  {
    hide Filled, IdsIn;
    if ids != [] {
      assert |AssignAll(ix, ids[..|ids| - 1]).shards| <= |AssignAll(ix, ids).shards|;
      FillingStep(ix, ids[..|ids| - 1]);
      AssignKeepsFilled(AssignAll(ix, ids[..|ids| - 1]), ids[|ids| - 1]);
    }
  }

  /** ceil(k / m) */
  function CeilDiv(k: nat, m: nat): nat
    requires m > 0
  {
    (k + m - 1) / m
  }

  /**
   Shard filling: with a limit that is not stored as zero, and no more distinct ids than
   fit below 2^32 shards, any sequence of assignments fills the shards in order, and k ids occupy
   exactly the shards 1 to ceil(k / limit).
   */
  lemma ShardFilling(maxPerShard: int, ids: seq<string>)
    requires NewIndex(maxPerShard).limit >= 1
    requires |AssignAll(NewIndex(maxPerShard), ids).shards| <= NewIndex(maxPerShard).limit * (TWO32 - 1)
    ensures var ix := AssignAll(NewIndex(maxPerShard), ids);
            && Filled(ix)
            && (forall s :: Count(ix, s) > 0 <==> 1 <= s <= CeilDiv(|ix.shards|, ix.limit))
  {
    hide Count;
    var start := NewIndex(maxPerShard);
    NewIndexFilled(maxPerShard);
    FillingStep(start, ids);
    var ix := AssignAll(start, ids);
    if |ix.shards| > 0 {
      CeilIs(|ix.shards|, ix.limit, ix.current, Count(ix, ix.current));
    } else {
      CeilIs(0, ix.limit, 0, 0 + ix.limit);
    }
  }

  lemma NewIndexFilled(maxPerShard: int)
    requires NewIndex(maxPerShard).limit >= 1
    ensures Filled(NewIndex(maxPerShard))
  {
  }

  lemma CeilIs(k: nat, m: nat, q: int, r: int)
    requires m > 0 && 1 <= r <= m && k == (q - 1) * m + r
    ensures CeilDiv(k, m) == q
  {
    assert k + m - 1 == q * m + (r - 1);
    DivModUnique(k + m - 1, m, q, r - 1);
  }

  // ---------------------------------------------------------------- in the caller's number

  lemma {:induction false} AssignedIds(ix: Index, ids: seq<string>)
    ensures AssignAll(ix, ids).shards.Keys == ix.shards.Keys + set id | id in ids
  {
    if ids != [] {
      var m := |ids| - 1;
      AssignedIds(ix, ids[..m]);
      assert forall id :: id in ids <==> id in ids[..m] || id == ids[m];
    }
  }

  /** Shards 1 to `last` are used; all but the last hold exactly m ids, the last at most m. */
  ghost predicate FilledTo(shards: map<string, int>, m: int, last: int) {
    && (forall s :: 1 <= s < last ==> |IdsOf(shards, s)| == m)
    && |IdsOf(shards, last)| <= m
    && forall id :: id in shards ==> 1 <= shards[id] <= last
  }

  /** Whatever is assigned, the index is filled to the limit the caller asked for. */
  lemma FilledAfter(maxPerShard: int, m: int, ids: seq<string>)
    requires m == (if maxPerShard <= 0 then 10_000 else maxPerShard % 0x1_0000_0000) && m > 0
    requires |set id | id in ids| <= m * 0xFFFF_FFFF
    ensures var ix := AssignAll(NewIndex(maxPerShard), ids);
            && Filled(ix) && ix.limit == m
            && ix.shards.Keys == (set id | id in ids) && |ix.shards| == |set id | id in ids|
  {
    hide Filled, AssignAll, NewIndex;
    LimitStored(maxPerShard);
    AssignedCount(NewIndex(maxPerShard), ids);
    NewIndexFilled(maxPerShard);
    FillingStep(NewIndex(maxPerShard), ids);
  }

  lemma LimitStored(maxPerShard: int)
    ensures NewIndex(maxPerShard).limit == if maxPerShard <= 0 then 10_000 else maxPerShard % 0x1_0000_0000
    ensures NewIndex(maxPerShard).shards == map[]
  {
  }

  lemma AssignedCount(ix: Index, ids: seq<string>)
    requires ix.shards == map[]
    ensures AssignAll(ix, ids).shards.Keys == (set id | id in ids)
    ensures |AssignAll(ix, ids).shards| == |set id | id in ids|
  {
    AssignedIds(ix, ids);
    assert AssignAll(ix, ids).shards.Keys == set id | id in ids;
    assert |AssignAll(ix, ids).shards.Keys| == |AssignAll(ix, ids).shards|;
  }

  lemma LastShard(ix: Index, m: int)
    requires Filled(ix) && ix.limit == m
    ensures CeilDiv(|ix.shards|, m) == if |ix.shards| == 0 then 0 else ix.current
  {
    hide Count;
    if |ix.shards| > 0 {
      CeilIs(|ix.shards|, m, ix.current, Count(ix, ix.current));
    } else {
      CeilIs(0, m, 0, m);
    }
  }

  lemma FilledToLast(ix: Index, m: int)
    requires Filled(ix) && ix.limit == m
    ensures var last := if |ix.shards| == 0 then 0 else ix.current;
            && FilledTo(ix.shards, m, last)
            && forall s :: 1 <= s <= last ==> IdsOf(ix.shards, s) != {}
  {
    hide IdsOf;
    assert forall s :: Count(ix, s) == |IdsOf(ix.shards, s)|;
    forall id | id in ix.shards ensures 1 <= ix.shards[id] <= ix.current {
      Counted(ix, id);
    }
    NoneInShardZero(ix);
  }

  lemma Counted(ix: Index, id: string)
    requires id in ix.shards
    ensures Count(ix, ix.shards[id]) > 0
  {
    assert id in IdsIn(ix, ix.shards[id]);
  }

  lemma NoneInShardZero(ix: Index)
    ensures |ix.shards| == 0 ==> |IdsOf(ix.shards, 0)| == 0
  {
    assert |ix.shards| == 0 ==> IdsOf(ix.shards, 0) == {};
  }

  /**
   What a caller gets: m ids a shard, as asked for, for any m that is not stored as zero. After any
   assignments of k distinct ids exactly the shards 1 to ceil(k / m) are used, and all but the last
   hold m ids.
   */
  lemma ShardsAsAskedFor(maxPerShard: int, m: int, ids: seq<string>)
    requires m == (if maxPerShard <= 0 then 10_000 else maxPerShard % 0x1_0000_0000) && m > 0
    requires |set id | id in ids| <= m * 0xFFFF_FFFF
    ensures var shards, last := AssignAll(NewIndex(maxPerShard), ids).shards, CeilDiv(|set id | id in ids|, m);
            && shards.Keys == (set id | id in ids)
            && FilledTo(shards, m, last)
            && forall s :: 1 <= s <= last ==> IdsOf(shards, s) != {}
  {
    hide Filled, AssignAll, FilledTo, IdsOf, CeilDiv, NewIndex;
    FilledAfter(maxPerShard, m, ids);
    LastShard(AssignAll(NewIndex(maxPerShard), ids), m);
    FilledToLast(AssignAll(NewIndex(maxPerShard), ids), m);
  }

  /** ... and the j-th new id, counted from 0, goes to shard j / m + 1. */
  lemma ShardOfNth(maxPerShard: int, m: int, ids: seq<string>, j: nat)
    requires m == (if maxPerShard <= 0 then 10_000 else maxPerShard % 0x1_0000_0000) && m > 0
    requires j < |ids| && ids[j] !in ids[..j]
    requires forall x, y :: 0 <= x < y < j ==> ids[x] != ids[y]
    requires j < m * 0xFFFF_FFFF
    ensures var shards := AssignAll(NewIndex(maxPerShard), ids).shards;
            ids[j] in shards && shards[ids[j]] == j / m + 1
  {
    hide AssignAll, NewIndex, Assign;
    var front, start := ids[..j], NewIndex(maxPerShard);
    NextNew(maxPerShard, m, front, ids[j]);
    AssignAllSnoc(start, front, ids[j]);
    assert front + [ids[j]] == ids[..j + 1] && ids[..j + 1] + ids[j + 1..] == ids;
    AssignAllConcat(start, ids[..j + 1], ids[j + 1..]);
    ShardNeverChanges(AssignAll(start, ids[..j + 1]), ids[j + 1..], ids[j]);
  }

  lemma NextNew(maxPerShard: int, m: int, ids: seq<string>, id: string)
    requires m == (if maxPerShard <= 0 then 10_000 else maxPerShard % 0x1_0000_0000) && m > 0
    requires id !in ids && |ids| < m * 0xFFFF_FFFF
    requires forall x, y :: 0 <= x < y < |ids| ==> ids[x] != ids[y]
    ensures var shards := Assign(AssignAll(NewIndex(maxPerShard), ids), id).shards;
            id in shards && shards[id] == |ids| / m + 1
  {
    hide Filled, AssignAll, NextShard, NewIndex;
    DistinctCount(ids);
    FilledAfter(maxPerShard, m, ids);
    NextIs(AssignAll(NewIndex(maxPerShard), ids), m, |ids|);
  }

  /** Behind the last id that fits, the counter wraps: the next new id goes to shard 0. */
  lemma CounterWraps(maxPerShard: int, m: int, ids: seq<string>, id: string)
    requires m == (if maxPerShard <= 0 then 10_000 else maxPerShard % 0x1_0000_0000) && m > 0
    requires |set x | x in ids| == m * 0xFFFF_FFFF && id !in ids
    ensures var shards := Assign(AssignAll(NewIndex(maxPerShard), ids), id).shards;
            id in shards && shards[id] == 0
  {
    hide AssignAll, NewIndex;
    FilledAfter(maxPerShard, m, ids);
    AllFull(AssignAll(NewIndex(maxPerShard), ids), m);
  }

  lemma AllFull(ix: Index, m: int)
    requires Filled(ix) && ix.limit == m && |ix.shards| == m * 0xFFFF_FFFF
    ensures ix.current == 0xFFFF_FFFF && Count(ix, ix.current) == m
  {
    var d := 0xFFFF_FFFF - ix.current;
    assert (ix.current - 1) * m + (d + 1) * m == m * 0xFFFF_FFFF;
    assert (d + 1) * m == Count(ix, ix.current);
    assert d >= 1 ==> (d + 1) * m >= 2 * m;
  }

  lemma AssignAllSnoc(ix: Index, ids: seq<string>, id: string)
    ensures AssignAll(ix, ids + [id]) == Assign(AssignAll(ix, ids), id)
  {
    assert (ids + [id])[..|ids|] == ids;
  }

  lemma NextIs(ix: Index, m: int, j: nat)
    requires Filled(ix) && ix.limit == m && |ix.shards| == j && j < m * 0xFFFF_FFFF
    ensures NextShard(ix) == j / m + 1
  {
    var c := Count(ix, ix.current);
    if c >= m {
      FullUpTo(ix.current, m);
      DivModUnique(j, m, ix.current, 0);
    } else {
      DivModUnique(j, m, ix.current - 1, c);
    }
  }

  lemma {:induction false} DistinctCount(ids: seq<string>)
    requires forall x, y :: 0 <= x < y < |ids| ==> ids[x] != ids[y]
    ensures |set id | id in ids| == |ids|
  {
    if ids != [] {
      var m := |ids| - 1;
      DistinctCount(ids[..m]);
      assert (set id | id in ids) == (set id | id in ids[..m]) + {ids[m]};
    }
  }

  lemma {:induction false} AssignAllConcat(ix: Index, a: seq<string>, b: seq<string>)
    ensures AssignAll(ix, a + b) == AssignAll(AssignAll(ix, a), b)
  {
    if b == [] {
      assert a + b == a;
    } else {
      assert (a + b)[..|a + b| - 1] == a + b[..|b| - 1];
      AssignAllConcat(ix, a, b[..|b| - 1]);
    }
  }

  /**
   The condition on the limit is exact: a multiple of 2^32 is stored as zero, and then the
   very first id already skips shard 1.
   */
  lemma ZeroLimitSkipsShards(maxPerShard: int, id: string)
    requires NewIndex(maxPerShard).limit == 0
    ensures var ix := Assign(NewIndex(maxPerShard), id);
            !Filled(ix) && ix.shards == map[id := 2] && Count(ix, 1) == 0
  {
  }
}
