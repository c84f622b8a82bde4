/** The sharded Bolt store: an index file, shard files opened on demand, one bucket per aggregate. */
module BoltStores {
  import opened Machine
  import opened Listing
  import opened VersionKeys
  import opened BoltCursors
  import opened Shards

  /** A shard file: its events bucket, once created, holds one bucket per aggregate id. */
  type ShardFile = Option<map<string, Bucket>>

  // ---------------------------------------------------------------- the plain map

  ghost predicate Int64Versions(records: seq<Record>) {
    forall i :: 0 <= i < |records| ==> IsInt64(records[i].version)
  }

  /** What saving means for one id's entries: each record replaces what its version held. */
  ghost function PutAll(m: map<int, Bytes>, records: seq<Record>): map<int, Bytes>
    requires Int64Versions(records)
  {
    if records == [] then m
    else
      var last := records[|records| - 1];
      PutAll(m, records[..|records| - 1])[Word(last.version) := last.data]
  }

  /** Record `i` is the last of its version. */
  ghost predicate LastOfVersion(records: seq<Record>, i: int) {
    0 <= i < |records| && forall j :: i < j < |records| ==> records[j].version != records[i].version
  }

  /** The last write per version wins. */
  lemma {:induction false} LastWriteWins(m: map<int, Bytes>, records: seq<Record>, i: int)
    requires Int64Versions(records) && LastOfVersion(records, i)
    ensures var w := Word(records[i].version); w in PutAll(m, records) && PutAll(m, records)[w] == records[i].data
  {
    var n := |records| - 1;
    if i < n {
      LastWriteWins(m, records[..n], i);
    }
  }

  /** A version that is not written keeps what it held. */
  lemma {:induction false} UnwrittenKept(m: map<int, Bytes>, records: seq<Record>, v: int)
    requires Int64Versions(records) && IsInt64(v) && forall i :: 0 <= i < |records| ==> records[i].version != v
    ensures EntryOf(PutAll(m, records), Word(v)) == EntryOf(m, Word(v))
  {
    if records != [] {
      UnwrittenKept(m, records[..|records| - 1], v);
    }
  }

  function EntryOf(m: map<int, Bytes>, k: int): Option<Bytes> {
    if k in m then Some(m[k]) else None
  }

  lemma {:induction false} PutAllWordKeyed(m: map<int, Bytes>, records: seq<Record>)
    requires Int64Versions(records) && WordKeyed(m)
    ensures WordKeyed(PutAll(m, records))
  {
    if records != [] {
      PutAllWordKeyed(m, records[..|records| - 1]);
    }
  }

  // ---------------------------------------------------------------- one bucket

  lemma PutContents(b: Bucket, w: nat, data: Bytes)
    requires Keyed(b) && w < TWO64
    ensures Keyed(b[Key(w) := data]) && Contents(b[Key(w) := data]) == Contents(b)[w := data]
  {
    hide FromBigEndian, Key;
    var after := b[Key(w) := data];
    KeyRoundTrip(w);
    forall x ensures x in Words(after) <==> x in Words(b) || x == w {
      if x in Words(b) {
        WordsAreKeys(b, x);
        KeyRoundTrip(x);
        assert Key(x) in after;
      }
      assert Key(w) in after;
    }
    forall x | x in Words(b) && x != w ensures 0 <= x < TWO64 && Key(x) != Key(w) && Key(x) in b {
      WordsAreKeys(b, x);
      KeyOrder(x, w);
    }
  }

  /** The body of the write transaction: one `Put` per record, in order. */
  method PutRecords(b: Bucket, records: seq<Record>) returns (after: Bucket)
    requires Keyed(b) && Int64Versions(records)
    ensures Keyed(after) && Contents(after) == PutAll(Contents(b), records)
  {
    hide Contents;
    after := b;
    for i := 0 to |records|
      invariant Keyed(after) && Contents(after) == PutAll(Contents(b), records[..i])
    {
      PutContents(after, Word(records[i].version), records[i].data);
      after := after[Key(Word(records[i].version)) := records[i].data];
      assert records[..i + 1][..i] == records[..i];
    }
    assert records[..|records|] == records;
  }

  ghost predicate FileOk(ix: Index, s: int, file: ShardFile) {
    file.Some? ==> forall id :: id in file.value ==> id in ix.shards && ix.shards[id] == s && Keyed(file.value[id])
  }

  ghost predicate DiskOk(ix: Index, files: map<int, ShardFile>) {
    forall s :: s in files ==> FileOk(ix, s, files[s])
  }

  /** The bucket an id's reads reach: none without a shard, a file, an events bucket and its own. */
  ghost function BucketOf(ix: Index, files: map<int, ShardFile>, id: string): (b: Bucket)
    requires DiskOk(ix, files)
    ensures Keyed(b)
  {
    if id in ix.shards && ix.shards[id] in files && files[ix.shards[id]].Some? && id in files[ix.shards[id]].value
    then
      assert FileOk(ix, ix.shards[id], files[ix.shards[id]]);
      files[ix.shards[id]].value[id]
    else map[]
  }

  /** Replacing one id's bucket in its own shard file changes that id's bucket alone. */
  lemma BucketReplaced(ix: Index, files: map<int, ShardFile>, id: string, bucket: Bucket)
    requires DiskOk(ix, files) && id in ix.shards && ix.shards[id] in files && Keyed(bucket)
    ensures var after := files[ix.shards[id] := Some(EventsOf(files[ix.shards[id]])[id := bucket])];
            && DiskOk(ix, after)
            && BucketOf(ix, after, id) == bucket
            && forall x :: x != id ==> BucketOf(ix, after, x) == BucketOf(ix, files, x)
  {
  }

  lemma FileBucket(ix: Index, files: map<int, ShardFile>, id: string)
    requires DiskOk(ix, files) && id in ix.shards && ix.shards[id] in files
    ensures var events := EventsOf(files[ix.shards[id]]);
            BucketOf(ix, files, id) == if id in events then events[id] else map[]
  {
  }

  function EventsOf(file: ShardFile): map<string, Bucket> {
    if file.Some? then file.value else map[]
  }

  /** How many ids outside `rest` are in the shard. */
  ghost function CountWithout(ix: Index, rest: set<string>, shard: int): nat {
    |IdsIn(ix, shard) - rest|
  }

  lemma NothingCounted(ix: Index, shard: int)
    ensures CountWithout(ix, ix.shards.Keys, shard) == 0
  {
  }

  lemma CountStep(ix: Index, rest: set<string>, id: string, shard: int)
    requires id in rest && rest <= ix.shards.Keys
    ensures CountWithout(ix, rest - {id}, shard) ==
            CountWithout(ix, rest, shard) + if ix.shards[id] == shard then 1 else 0
  {
    var ids := IdsIn(ix, shard);
    assert ids - (rest - {id}) == ids - rest + if ix.shards[id] == shard then {id} else {};
  }

  lemma AllCounted(ix: Index, shard: int)
    ensures CountWithout(ix, {}, shard) == Count(ix, shard)
  {
  }

  class BoltStore {
    /** index.db: the shard of each id, the shard being filled, ids per shard. */
    var index: Index
    /** The shard files on disk, by number. */
    var files: map<int, ShardFile>
    /** The numbers of the shard files that are open. */
    var open: set<int>

    /** An id's data is only in its own shard, under version keys. */
    ghost predicate Valid()
      reads this
    {
      DiskOk(index, files) && open <= files.Keys
    }

    /** The plain map's view of one id. */
    ghost function Entries(id: string): (m: map<int, Bytes>)
      requires Valid()
      reads this
      ensures WordKeyed(m)
    {
      ContentsWordKeyed(BucketOf(index, files, id));
      Contents(BucketOf(index, files, id))
    }

    /** Opens an empty directory. */
    constructor (maxPerShard: int)
      ensures Valid() && index == NewIndex(maxPerShard) && files == map[] && open == {}
    {
      index := NewIndex(maxPerShard);
      files := map[];
      open := {};
    }

    /** Close, then open the same directory: settings already on disk win over the option. */
    method Reopen(maxPerShard: int)
      requires Valid()
      modifies this
      ensures Valid() && index == old(index) && files == old(files) && open == {}
    {
      open := {};
    }

    method CountInShard(shard: int) returns (count: nat)
      ensures count == Count(index, shard)
    {
      hide Count;
      count := 0;
      var rest := index.shards;
      NothingCounted(index, shard);
      while rest.Keys != {}
        invariant rest.Keys <= index.shards.Keys
        invariant forall id :: id in rest ==> rest[id] == index.shards[id]
        invariant count == CountWithout(index, rest.Keys, shard)
        decreases |rest|
      {
        var id :| id in rest.Keys;
        CountStep(index, rest.Keys, id, shard);
        if rest[id] == shard {
          count := count + 1;
        }
        rest := rest - {id};
      }
      AllCounted(index, shard);
    }

    /**
     One transaction on the index file. `fault` is a failed transaction, which leaves the
     index as it was.
     */
    method AssignShard(id: string, fault: bool) returns (shard: int, ok: bool)
      requires Valid()
      modifies this`index
      ensures Valid() && ok == !fault
      ensures index == if ok then Assign(old(index), id) else old(index)
      ensures ok ==> id in index.shards && index.shards[id] == shard
      ensures BucketOf(index, files, id) == BucketOf(old(index), files, id)
      ensures forall x :: x != id ==> BucketOf(index, files, x) == BucketOf(old(index), files, x)
    {
      shard, ok := 0, !fault;
      if !fault {
        if id in index.shards {
          shard := index.shards[id];
        } else {
          var count := CountInShard(index.current);
          shard := index.current;
          if count >= index.limit {
            shard := (shard + 1) % TWO32;
          }
          index := index.(shards := index.shards[id := shard], current := shard);
        }
      }
    }

    method LookupShard(id: string, fault: bool) returns (shard: int, found: bool, ok: bool)
      ensures ok == !fault
      ensures ok ==> found == (id in index.shards) && (found ==> shard == index.shards[id])
    {
      shard, found, ok := 0, false, !fault;
      if !fault && id in index.shards {
        shard, found := index.shards[id], true;
      }
    }

    /** Opens a shard file once; a missing file is created empty. */
    method OpenShard(shard: int, fault: bool) returns (ok: bool)
      requires Valid()
      modifies this`files, this`open
      ensures Valid() && ok == (shard in old(open) || !fault)
      ensures open == if ok then old(open) + {shard} else old(open)
      ensures files == if ok && shard !in old(files) then old(files)[shard := None] else old(files)
      ensures forall id :: BucketOf(index, files, id) == BucketOf(index, old(files), id)
    {
      ok := shard in open || !fault;
      if shard !in open && !fault {
        if shard !in files {
          files := files[shard := None];
        }
        open := open + {shard};
      }
    }

    /**
     Saves to the id's shard: all records or none, nothing of any other id, and no id ever
     moves. A save that fails after the first transaction still has assigned the shard.
     */
    method Save(id: string, records: seq<Record>, indexFault: bool, openFault: bool, writeFault: bool)
      returns (ok: bool)
      requires Valid() && Int64Versions(records)
      modifies this
      ensures Valid()
      ensures index == if indexFault then old(index) else Assign(old(index), id)
      ensures !indexFault && !openFault && !writeFault ==> ok
      ensures indexFault || writeFault ==> !ok
      ensures Entries(id) == if ok then PutAll(old(Entries(id)), records) else old(Entries(id))
      ensures forall x :: x != id ==> Entries(x) == old(Entries(x))
    {
      hide Contents, Keyed, Assign, BucketOf, DiskOk;
      var shard;
      shard, ok := AssignShard(id, indexFault);
      if ok {
        ok := OpenShard(shard, openFault);
        if ok && writeFault {
          ok := false;
        } else if ok {
          var events := EventsOf(files[shard]);
          ghost var before := BucketOf(index, files, id);
          assert before == if id in events then events[id] else map[] by { FileBucket(index, files, id); }
          var bucket := PutRecords(if id in events then events[id] else map[], records);
          BucketReplaced(index, files, id, bucket);
          files := files[shard := Some(events[id := bucket])];
        }
      }
    }

    /** The bucket a read finds, by the branches both loads share. */
    method FindBucket(id: string, indexFault: bool, openFault: bool) returns (bucket: Option<Bucket>, ok: bool)
      requires Valid()
      modifies this`files, this`open
      ensures Valid()
      ensures forall x :: BucketOf(index, files, x) == BucketOf(index, old(files), x)
      ensures !indexFault && !openFault ==> ok
      ensures indexFault ==> !ok
      ensures ok && bucket.Some? ==> bucket.value == BucketOf(index, files, id)
      ensures ok && bucket.None? ==> BucketOf(index, files, id) == map[]
    {
      bucket := None;
      var shard, found;
      shard, found, ok := LookupShard(id, indexFault);
      if ok && found {
        ok := OpenShard(shard, openFault);
        if ok && files[shard].Some? && id in files[shard].value {
          bucket := Some(files[shard].value[id]);
        }
      }
    }

    /** Exactly the id's entries, in key order. */
    method Load(id: string, indexFault: bool, openFault: bool) returns (h: seq<Record>, ok: bool)
      requires Valid()
      modifies this`files, this`open
      ensures Valid()
      ensures !indexFault && !openFault ==> ok
      ensures indexFault ==> !ok
      ensures ok ==> h == Listed(Entries(id))
      ensures forall x :: Entries(x) == old(Entries(x))
    {
      hide Contents, Keyed, Listed;
      var bucket;
      h := [];
      bucket, ok := FindBucket(id, indexFault, openFault);
      if ok {
        if bucket.Some? {
          h := ScanAll(bucket.value);
        } else {
          NothingListed();
        }
      }
    }

    /** The newest n of what `Load` returns, oldest first. */
    method LoadTail(id: string, n: int, indexFault: bool, openFault: bool) returns (h: seq<Record>, ok: bool)
      requires Valid()
      modifies this`files, this`open
      ensures Valid()
      ensures !indexFault && !openFault ==> ok
      ensures indexFault ==> !ok
      ensures ok ==> h == if n <= 0 then [] else Tail(Listed(Entries(id)), n)
      ensures forall x :: Entries(x) == old(Entries(x))
    {
      hide Contents, Keyed, Listed;
      var bucket;
      h := [];
      bucket, ok := FindBucket(id, indexFault, openFault);
      if ok {
        if bucket.Some? {
          h := ScanTail(bucket.value, n);
        } else {
          NothingListed();
        }
      }
    }
  }

  lemma NothingListed()
    ensures Keyed(map[]) && WordKeyed(Contents(map[])) && Listed(Contents(map[])) == []
  {
    hide InOrder;
    assert Words(map[]) == {};
    var ws := InOrder(Contents(map[]));
    assert forall x :: x in ws ==> x in Words(map[]);
    FirstIsMember(ws);
  }

  lemma FirstIsMember(ws: seq<int>)
    ensures ws == [] || ws[0] in ws
  {
  }

  // ---------------------------------------------------------------- whole runs

  datatype Operation =
    | Save(id: string, records: seq<Record>, indexFault: bool, openFault: bool, writeFault: bool)
    | Load(id: string, indexFault: bool, openFault: bool)
    | LoadTail(id: string, n: int, indexFault: bool, openFault: bool)
    | Reopen(maxPerShard: int)

  datatype Answer = Done | Failed | Records(h: seq<Record>)

  ghost predicate Legal(ops: seq<Operation>) {
    forall i :: 0 <= i < |ops| && ops[i].Save? ==> Int64Versions(ops[i].records)
  }

  /** The plain map after a run: an id's entries are its acknowledged saves, in order. */
  ghost function Plain(ops: seq<Operation>, answers: seq<Answer>, id: string): (m: map<int, Bytes>)
    requires Legal(ops) && |ops| == |answers|
    ensures WordKeyed(m)
  {
    if ops == [] then map[]
    else
      var n := |ops| - 1;
      var before := Plain(ops[..n], answers[..n], id);
      if ops[n].Save? && ops[n].id == id && answers[n] == Done
      then PutAllWordKeyed(before, ops[n].records); PutAll(before, ops[n].records)
      else before
  }

  predicate Faultless(op: Operation) {
    match op
    case Save(_, _, indexFault, openFault, writeFault) => !indexFault && !openFault && !writeFault
    case Load(_, indexFault, openFault) => !indexFault && !openFault
    case LoadTail(_, _, indexFault, openFault) => !indexFault && !openFault
    case Reopen(_) => true
  }

  /**
   What the plain map answers to `op` after the operations `ops`. Only a fault lets the
   store answer with a failure instead.
   */
  ghost predicate Agrees(ops: seq<Operation>, answers: seq<Answer>, op: Operation, answer: Answer)
    requires Legal(ops) && |ops| == |answers|
  {
    if answer == Failed then !Faultless(op)
    else
      match op
      case Save(_, _, _, _, _) => answer == Done
      case Load(id, _, _) => answer == Records(Listed(Plain(ops, answers, id)))
      case LoadTail(id, n, _, _) =>
        answer == Records(if n <= 0 then [] else Tail(Listed(Plain(ops, answers, id)), n))
      case Reopen(_) => answer == Done
  }

  ghost predicate AllAgree(ops: seq<Operation>, answers: seq<Answer>)
    requires Legal(ops) && |ops| == |answers|
  {
    ops == [] ||
    var n := |ops| - 1;
    AllAgree(ops[..n], answers[..n]) && Agrees(ops[..n], answers[..n], ops[n], answers[n])
  }

  /** The ids whose saves got past the index transaction. */
  ghost function Assigned(ops: seq<Operation>): seq<string> {
    if ops == [] then []
    else
      var n := |ops| - 1;
      Assigned(ops[..n]) + if ops[n].Save? && !ops[n].indexFault then [ops[n].id] else []
  }

  method Perform(store: BoltStore, op: Operation) returns (answer: Answer)
    requires store.Valid() && (op.Save? ==> Int64Versions(op.records))
    modifies store
    ensures store.Valid()
    ensures store.index == if op.Save? && !op.indexFault then Assign(old(store.index), op.id) else old(store.index)
    ensures answer == Failed ==> !Faultless(op)
    ensures answer != Failed ==>
              match op
              case Save(_, _, _, _, _) => answer == Done
              case Load(id, _, _) => answer == Records(Listed(old(store.Entries(id))))
              case LoadTail(id, n, _, _) =>
                answer == Records(if n <= 0 then [] else Tail(Listed(old(store.Entries(id))), n))
              case Reopen(_) => answer == Done
    ensures forall x :: store.Entries(x) ==
                        if op.Save? && op.id == x && answer == Done
                        then PutAll(old(store.Entries(x)), op.records)
                        else old(store.Entries(x))
  {
    hide Contents, Keyed, Listed, PutAll, BucketOf, DiskOk, Assign;
    match op
    case Save(id, records, indexFault, openFault, writeFault) =>
      var ok := store.Save(id, records, indexFault, openFault, writeFault);
      answer := if ok then Done else Failed;
    case Load(id, indexFault, openFault) =>
      var h, ok := store.Load(id, indexFault, openFault);
      answer := if ok then Records(h) else Failed;
    case LoadTail(id, n, indexFault, openFault) =>
      var h, ok := store.LoadTail(id, n, indexFault, openFault);
      answer := if ok then Records(h) else Failed;
    case Reopen(maxPerShard) =>
      store.Reopen(maxPerShard);
      answer := Done;
  }

  lemma AssignedStep(ix: Index, ops: seq<Operation>)
    requires ops != []
    ensures var before := AssignAll(ix, Assigned(ops[..|ops| - 1]));
            var op := ops[|ops| - 1];
            AssignAll(ix, Assigned(ops)) == if op.Save? && !op.indexFault then Assign(before, op.id) else before
  {
    var ids := Assigned(ops[..|ops| - 1]);
    assert ids + [] == ids;
    assert ops[|ops| - 1].Save? ==> (ids + [ops[|ops| - 1].id])[..|ids|] == ids;
  }

  /** An id that has a shard at some point of a run has the same shard at its end. */
  lemma {:induction false} RunKeepsShards(ix: Index, ops: seq<Operation>, k: nat, id: string)
    requires k <= |ops| && id in AssignAll(ix, Assigned(ops[..k])).shards
    ensures id in AssignAll(ix, Assigned(ops)).shards
    ensures AssignAll(ix, Assigned(ops)).shards[id] == AssignAll(ix, Assigned(ops[..k])).shards[id]
  {
    hide NextShard;
    if k == |ops| {
      assert ops[..k] == ops;
    } else {
      var front := ops[..|ops| - 1];
      assert front[..k] == ops[..k];
      RunKeepsShards(ix, front, k, id);
      AssignedStep(ix, ops);
    }
  }

  lemma EmptyDisk(store: BoltStore)
    requires store.Valid() && store.files == map[]
    ensures forall id :: store.Entries(id) == map[]
  {
  }

  // ---------------------------------------------------------------- version order in runs

  ghost function VersionsOf(records: seq<Record>): set<int> {
    set i | 0 <= i < |records| :: records[i].version
  }

  /** The versions that acknowledged saves of an id wrote. */
  ghost function SavedVersions(ops: seq<Operation>, answers: seq<Answer>, id: string): set<int>
    requires |ops| == |answers|
  {
    if ops == [] then {} else
      var n := |ops| - 1;
      SavedVersions(ops[..n], answers[..n], id) +
      if ops[n].Save? && ops[n].id == id && answers[n] == Done then VersionsOf(ops[n].records) else {}
  }

  /** What was saved for the id is all negative or not negative at all. */
  ghost predicate NotMixed(ops: seq<Operation>, answers: seq<Answer>, id: string)
    requires |ops| == |answers|
  {
    var versions := SavedVersions(ops, answers, id);
    (forall v :: v in versions ==> v >= 0) || (forall v :: v in versions ==> v < 0)
  }

  lemma {:induction false} PutAllVersions(m: map<int, Bytes>, records: seq<Record>, v: int)
    requires Int64Versions(records) && IsInt64(v)
    ensures Word(v) in PutAll(m, records) <==> Word(v) in m || v in VersionsOf(records)
  {
    if records != [] {
      var n := |records| - 1;
      PutAllVersions(m, records[..n], v);
      assert VersionsOf(records) == VersionsOf(records[..n]) + {records[n].version};
    }
  }

  /** The plain map holds exactly the versions that were saved and acknowledged. */
  lemma {:induction false} PlainVersions(ops: seq<Operation>, answers: seq<Answer>, id: string, v: int)
    requires Legal(ops) && |ops| == |answers| && IsInt64(v)
    ensures Word(v) in Plain(ops, answers, id) <==> v in SavedVersions(ops, answers, id)
  {
    hide PutAll, VersionsOf;
    if ops != [] {
      var n := |ops| - 1;
      PlainVersions(ops[..n], answers[..n], id, v);
      if ops[n].Save? {
        PutAllVersions(Plain(ops[..n], answers[..n], id), ops[n].records, v);
      }
    }
  }

  lemma {:induction false} SavedAreInt64(ops: seq<Operation>, answers: seq<Answer>, id: string)
    requires Legal(ops) && |ops| == |answers|
    ensures forall v :: v in SavedVersions(ops, answers, id) ==> IsInt64(v)
  {
    if ops != [] {
      SavedAreInt64(ops[..|ops| - 1], answers[..|ops| - 1], id);
    }
  }

  lemma PlainOneSign(ops: seq<Operation>, answers: seq<Answer>, id: string)
    requires Legal(ops) && |ops| == |answers|
    ensures OneSign(Plain(ops, answers, id)) <==> NotMixed(ops, answers, id)
  {
    hide Plain, SavedVersions;
    var m, versions := Plain(ops, answers, id), SavedVersions(ops, answers, id);
    SavedAreInt64(ops, answers, id);
    forall v | v in versions ensures Word(v) in m {
      PlainVersions(ops, answers, id, v);
    }
    forall w | w in m ensures Signed(w) in versions {
      PlainVersions(ops, answers, id, Signed(w));
    }
  }

  /** The whole list of an id is in version order iff its acknowledged saves do not mix signs. */
  lemma PlainInVersionOrder(ops: seq<Operation>, answers: seq<Answer>, id: string)
    requires Legal(ops) && |ops| == |answers|
    ensures Versioned(Listed(Plain(ops, answers, id))) <==> NotMixed(ops, answers, id)
  {
    hide Plain, Listed, NotMixed, OneSign, Versioned;
    PlainOneSign(ops, answers, id);
    ListedInVersionOrder(Plain(ops, answers, id));
  }

  /** Answer `i` of a run: a load is in version order iff nothing mixed was saved, a tail if nothing was. */
  ghost predicate AnswerInOrder(ops: seq<Operation>, answers: seq<Answer>, i: int)
    requires |ops| == |answers| && 0 <= i < |ops|
  {
    answers[i].Records? ==>
      && (ops[i].Load? || ops[i].LoadTail?)
      && var unmixed := NotMixed(ops[..i], answers[..i], ops[i].id);
      && (ops[i].Load? ==> (Versioned(answers[i].h) <==> unmixed))
      && (ops[i].LoadTail? && unmixed ==> Versioned(answers[i].h))
  }

  lemma {:induction false} AgreesAt(ops: seq<Operation>, answers: seq<Answer>, i: nat)
    requires Legal(ops) && |ops| == |answers| && AllAgree(ops, answers) && i < |ops|
    ensures Agrees(ops[..i], answers[..i], ops[i], answers[i])
  {
    var n := |ops| - 1;
    if i < n {
      AgreesAt(ops[..n], answers[..n], i);
      assert ops[..n][..i] == ops[..i] && answers[..n][..i] == answers[..i];
    }
  }

  lemma AnswersInOrder(ops: seq<Operation>, answers: seq<Answer>, i: nat)
    requires Legal(ops) && |ops| == |answers| && AllAgree(ops, answers) && i < |ops|
    ensures AnswerInOrder(ops, answers, i)
  {
    hide AllAgree, Plain, Listed, NotMixed, Legal;
    AgreesAt(ops, answers, i);
    if answers[i].Records? {
      assert Legal(ops[..i]) by { LegalPrefix(ops, i); }
      PlainInVersionOrder(ops[..i], answers[..i], ops[i].id);
    }
  }

  lemma LegalPrefix(ops: seq<Operation>, i: nat)
    requires Legal(ops) && i <= |ops|
    ensures Legal(ops[..i])
  {
  }

  /**
   The store refines a plain map: over any sequence of saves, loads, faults and restarts on a
   new store, every answer is the plain map's, in version order unless signs were mixed. The
   index is what assigning the saved ids one after the other gives, and fills shard after shard with
   as many ids as the caller asked for.
   */
  method PerformAll(maxPerShard: int, ops: seq<Operation>) returns (store: BoltStore, answers: seq<Answer>)
    requires Legal(ops)
    ensures fresh(store) && store.Valid() && |answers| == |ops|
    ensures AllAgree(ops, answers)
    ensures forall i :: 0 <= i < |ops| ==> AnswerInOrder(ops, answers, i)
    ensures forall id :: store.Entries(id) == Plain(ops, answers, id)
    ensures store.index == AssignAll(NewIndex(maxPerShard), Assigned(ops))
    ensures var m := if maxPerShard <= 0 then 10_000 else maxPerShard % 0x1_0000_0000;
            var ids := set id | id in Assigned(ops);
            m > 0 && |ids| <= m * 0xFFFF_FFFF ==>
              store.index.shards.Keys == ids && FilledTo(store.index.shards, m, CeilDiv(|ids|, m))
  {
    hide Contents, Keyed, Listed, PutAll, BucketOf, DiskOk, Assign, NewIndex, Tail, WordKeyed, Int64Versions, Faultless,
      AnswerInOrder, FilledTo, CeilDiv;
    store := new BoltStore(maxPerShard);
    answers := [];
    assert forall id :: store.Entries(id) == map[] by { EmptyDisk(store); }
    for i := 0 to |ops|
      invariant fresh(store) && store.Valid() && |answers| == i
      invariant AllAgree(ops[..i], answers)
      invariant forall id :: store.Entries(id) == Plain(ops[..i], answers, id)
      invariant store.index == AssignAll(NewIndex(maxPerShard), Assigned(ops[..i]))
    {
      var answer := Perform(store, ops[i]);
      assert ops[..i + 1][i] == ops[i];
      assert ops[..i + 1][..i] == ops[..i];
      assert (answers + [answer])[..i] == answers;
      AssignedStep(NewIndex(maxPerShard), ops[..i + 1]);
      answers := answers + [answer];
    }
    assert ops[..|ops|] == ops && answers[..|ops|] == answers;
    forall i | 0 <= i < |ops| ensures AnswerInOrder(ops, answers, i) {
      AnswersInOrder(ops, answers, i);
    }
    ghost var m := if maxPerShard <= 0 then 10_000 else maxPerShard % 0x1_0000_0000;
    if m > 0 && |set id | id in Assigned(ops)| <= m * 0xFFFF_FFFF {
      ShardsAsAskedFor(maxPerShard, m, Assigned(ops));
    }
  }

  lemma PairInOrder(ws: seq<int>, a: int, b: int)
    requires Increasing(ws) && a < b && forall w :: w in ws <==> w == a || w == b
    ensures ws == [a, b]
  {
    assert a in ws && b in ws;
    var i :| 0 <= i < |ws| && ws[i] == a;
    var j :| 0 <= j < |ws| && ws[j] == b;
    assert ws[0] in ws && ws[1] in ws && ws[|ws| - 1] in ws;
  }

  lemma ListedPair(x: Bytes, y: Bytes)
    ensures var m := map[1 := x, TWO64 - 1 := y];
            WordKeyed(m) && Listed(m) == [Record(1, x), Record(-1, y)]
  {
    hide InOrder;
    PairInOrder(InOrder(map[1 := x, TWO64 - 1 := y]), 1, TWO64 - 1);
  }

  /** The key of version -1 sorts behind that of version 1: a run whose load is out of order. */
  method SavesOfBothSigns(maxPerShard: int, id: string, x: Bytes, y: Bytes) returns (answers: seq<Answer>)
    ensures answers == [Done, Records([Record(1, x), Record(-1, y)])]
  {
    hide Listed, AllAgree, AnswerInOrder, NewIndex, AssignAll, Contents;
    var save := Save(id, [Record(1, x), Record(-1, y)], false, false, false);
    var ops := [save, Load(id, false, false)];
    var store;
    store, answers := PerformAll(maxPerShard, ops);
    AgreesAt(ops, answers, 0);
    AgreesAt(ops, answers, 1);
    assert ops[..1] == [save] && answers[..1] == [Done];
    SavedBoth(save, id, x, y);
    ListedPair(x, y);
  }

  lemma SavedBoth(save: Operation, id: string, x: Bytes, y: Bytes)
    requires save == Save(id, [Record(1, x), Record(-1, y)], false, false, false)
    ensures Legal([save]) && Plain([save], [Done], id) == map[1 := x, TWO64 - 1 := y]
  {
    var records := save.records;
    assert records[..1] == [Record(1, x)];
    assert PutAll(map[], records[..1]) == map[1 := x];
    assert [save][..0] == [];
  }
}
