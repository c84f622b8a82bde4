/** A bbolt bucket and its ordered cursor, and the store's two cursor loops over it. */
module BoltCursors {
  import opened Machine
  import opened Listing
  import opened Paging
  import opened VersionKeys

  type Bucket = map<Bytes, Bytes>

  /** Every key of an aggregate's bucket is a version key. */
  ghost predicate Keyed(b: Bucket) {
    forall k :: k in b ==> |k| == 8
  }

  ghost function Words(b: Bucket): set<int> {
    set k | k in b :: FromBigEndian(k)
  }

  lemma WordOf(b: Bucket, k: Bytes)
    requires Keyed(b) && k in b
    ensures 0 <= FromBigEndian(k) < TWO64 && Key(FromBigEndian(k)) == k
  {
    FromBigEndianRoundTrip(k);
    Power256Of8();
  }

  lemma WordsAreKeys(b: Bucket, w: int)
    requires Keyed(b) && w in Words(b)
    ensures 0 <= w < TWO64 && Key(w) in b
  {
    var k :| k in b && FromBigEndian(k) == w;
    WordOf(b, k);
  }

  /** What a bucket holds, by version word. */
  ghost function Contents(b: Bucket): (m: map<int, Bytes>)
    requires Keyed(b)
    ensures m.Keys == Words(b)
  {
    map w | w in Words(b) :: (WordsAreKeys(b, w); b[Key(w)])
  }

  ghost predicate WordKeyed(m: map<int, Bytes>) {
    forall w :: w in m ==> 0 <= w < TWO64
  }

  ghost function InOrder(m: map<int, Bytes>): (ws: seq<int>)
    ensures Increasing(ws) && Lists(ws, m.Keys, 0, TWO64)
  {
    AscendingSorts(m.Keys, 0, TWO64);
    Ascending(m.Keys, 0, TWO64)
  }

  /** Entries in the order of their words, as records. */
  ghost function Listed(m: map<int, Bytes>): (r: seq<Record>)
    requires WordKeyed(m)
    ensures |r| == |InOrder(m)|
  {
    var ws := InOrder(m);
    seq(|ws|, i requires 0 <= i < |ws| => RecordOf(m, ws, i))
  }

  ghost function RecordOf(m: map<int, Bytes>, ws: seq<int>, i: nat): Record
    requires WordKeyed(m) && Lists(ws, m.Keys, 0, TWO64) && i < |ws|
  {
    assert ws[i] in ws;
    Record(Signed(ws[i]), m[ws[i]])
  }

  // ---------------------------------------------------------------- the cursor

  ghost predicate LeastAbove(b: Bucket, lo: int, k: Option<Bytes>) {
    match k
    case Some(x) =>
      && x in b && lo < FromBigEndian(x)
      && forall y :: y in b && lo < FromBigEndian(y) ==> FromBigEndian(x) <= FromBigEndian(y)
    case None => forall y :: y in b ==> FromBigEndian(y) <= lo
  }

  ghost predicate GreatestBelow(b: Bucket, hi: int, k: Option<Bytes>) {
    match k
    case Some(x) =>
      && x in b && FromBigEndian(x) < hi
      && forall y :: y in b && FromBigEndian(y) < hi ==> FromBigEndian(y) <= FromBigEndian(x)
    case None => forall y :: y in b ==> hi <= FromBigEndian(y)
  }

  lemma ByteOrder(b: Bucket, x: Bytes, y: Bytes)
    requires Keyed(b) && x in b && y in b
    ensures LexLess(x, y) <==> FromBigEndian(x) < FromBigEndian(y)
  {
    WordOf(b, x);
    WordOf(b, y);
    KeyOrder(FromBigEndian(x), FromBigEndian(y));
  }

  /** First (no position) and Next: the least key, byte by byte, behind the position. */
  method Next(b: Bucket, position: Option<Bytes>) returns (k: Option<Bytes>)
    requires Keyed(b) && (position.Some? ==> position.value in b)
    ensures LeastAbove(b, if position.Some? then FromBigEndian(position.value) else -1, k)
  {
    hide LexLess, FromBigEndian;
    ghost var lo := if position.Some? then FromBigEndian(position.value) as int else -1;
    k := None;
    var rest := b;
    while rest.Keys != {}
      invariant rest.Keys <= b.Keys
      invariant k.Some? ==> k.value in b && lo < FromBigEndian(k.value)
      invariant forall y :: y in b && y !in rest && lo < FromBigEndian(y) ==>
                  k.Some? && FromBigEndian(k.value) <= FromBigEndian(y)
      decreases |rest|
    {
      var x :| x in rest.Keys;
      if position.Some? {
        ByteOrder(b, position.value, x);
      }
      if k.Some? {
        ByteOrder(b, x, k.value);
      }
      if (position.None? || LexLess(position.value, x)) && (k.None? || LexLess(x, k.value)) {
        k := Some(x);
      }
      rest := rest - {x};
    }
  }

  /** Last (no position) and Prev: the greatest key, byte by byte, before the position. */
  method Prev(b: Bucket, position: Option<Bytes>) returns (k: Option<Bytes>)
    requires Keyed(b) && (position.Some? ==> position.value in b)
    ensures GreatestBelow(b, if position.Some? then FromBigEndian(position.value) else TWO64, k)
  {
    hide LexLess, FromBigEndian;
    ghost var hi := if position.Some? then FromBigEndian(position.value) as int else TWO64;
    k := None;
    var rest := b;
    while rest.Keys != {}
      invariant rest.Keys <= b.Keys
      invariant k.Some? ==> k.value in b && FromBigEndian(k.value) < hi
      invariant forall y :: y in b && y !in rest && FromBigEndian(y) < hi ==>
                  k.Some? && FromBigEndian(y) <= FromBigEndian(k.value)
      decreases |rest|
    {
      var x :| x in rest.Keys;
      WordOf(b, x);
      if position.Some? {
        ByteOrder(b, x, position.value);
      }
      if k.Some? {
        ByteOrder(b, k.value, x);
      }
      if (position.None? || LexLess(x, position.value)) && (k.None? || LexLess(k.value, x)) {
        k := Some(x);
      }
      rest := rest - {x};
    }
  }

  // ---------------------------------------------------------------- where the cursor stands

  /** The words of a bucket in order, which is what a cursor walks. */
  ghost function Walk(b: Bucket): (ws: seq<int>)
    requires Keyed(b)
    ensures Increasing(ws) && Lists(ws, Words(b), 0, TWO64)
  {
    InOrder(Contents(b))
  }

  lemma WalkMembers(b: Bucket, k: Bytes)
    requires Keyed(b) && k in b
    ensures FromBigEndian(k) in Walk(b)
  {
    WordOf(b, k);
  }

  lemma StepForward(b: Bucket, i: int, k: Option<Bytes>)
    requires Keyed(b) && -1 <= i < |Walk(b)|
    requires LeastAbove(b, if i < 0 then -1 else Walk(b)[i], k)
    ensures if i + 1 < |Walk(b)| then k.Some? && FromBigEndian(k.value) == Walk(b)[i + 1] else k.None?
  {
    hide FromBigEndian, Walk;
    var ws := Walk(b);
    if i + 1 < |ws| {
      assert ws[i + 1] in ws;
      WordsAreKeys(b, ws[i + 1]);
      KeyRoundTrip(ws[i + 1]);
    }
    if k.Some? {
      WalkMembers(b, k.value);
    }
  }

  lemma StepBackward(b: Bucket, i: int, k: Option<Bytes>)
    requires Keyed(b) && 0 <= i <= |Walk(b)|
    requires GreatestBelow(b, if i == |Walk(b)| then TWO64 else Walk(b)[i], k)
    ensures if i > 0 then k.Some? && FromBigEndian(k.value) == Walk(b)[i - 1] else k.None?
  {
    hide FromBigEndian, Walk;
    var ws := Walk(b);
    if i > 0 {
      assert ws[i - 1] in ws;
      WordsAreKeys(b, ws[i - 1]);
      KeyRoundTrip(ws[i - 1]);
    }
    if k.Some? {
      WalkMembers(b, k.value);
    }
  }

  /** The record the loops build from the key and value under the cursor. */
  function RecordAt(b: Bucket, k: Bytes): Record
    requires k in b
  {
    var w := FromBigEndian(k);
    Record(if w < TWO64 then Signed(w) else 0, b[k])
  }

  lemma RecordAtWalk(b: Bucket, k: Bytes, i: nat)
    requires Keyed(b) && WordKeyed(Contents(b)) && k in b && i < |Walk(b)| && FromBigEndian(k) == Walk(b)[i]
    ensures |Listed(Contents(b))| == |Walk(b)| && Listed(Contents(b))[i] == RecordAt(b, k)
  {
    WordOf(b, k);
  }

  /** `Load`: walks the bucket from its first key to its last. */
  method ScanAll(b: Bucket) returns (h: seq<Record>)
    requires Keyed(b)
    ensures WordKeyed(Contents(b)) && h == Listed(Contents(b))
  {
    hide FromBigEndian, Walk, Listed, Contents, RecordAt, InOrder;
    ContentsWordKeyed(b);
    ghost var i := 0;
    h := [];
    var k := Next(b, None);
    StepForward(b, -1, k);
    while k.Some?
      invariant 0 <= i <= |Walk(b)| && |h| == i
      invariant k.Some? ==> k.value in b && i < |Walk(b)| && FromBigEndian(k.value) == Walk(b)[i]
      invariant k.None? ==> i == |Walk(b)|
      invariant forall j :: 0 <= j < i ==> j < |Listed(Contents(b))| && h[j] == Listed(Contents(b))[j]
      decreases |Walk(b)| - i
    {
      RecordAtWalk(b, k.value, i);
      h := h + [RecordAt(b, k.value)];
      k := Next(b, k);
      StepForward(b, i, k);
      i := i + 1;
    }
    WalkLength(b);
  }

  lemma WalkLength(b: Bucket)
    requires Keyed(b)
    ensures WordKeyed(Contents(b)) && |Listed(Contents(b))| == |Walk(b)|
  {
    ContentsWordKeyed(b);
  }

  lemma ContentsWordKeyed(b: Bucket)
    requires Keyed(b)
    ensures WordKeyed(Contents(b))
  {
    forall w | w in Words(b) ensures 0 <= w < TWO64 {
      WordsAreKeys(b, w);
    }
  }

  /** `LoadTail`: walks backwards until n records are collected, then reverses in place. */
  method ScanTail(b: Bucket, n: int) returns (h: seq<Record>)
    requires Keyed(b)
    ensures WordKeyed(Contents(b)) && h == if n <= 0 then [] else Tail(Listed(Contents(b)), n)
  {
    hide FromBigEndian, Walk, Listed, Contents, RecordAt, Reversed, InOrder;
    WalkLength(b);
    ghost var all := Listed(Contents(b));
    var collected := 0;
    h := [];
    var k := Prev(b, None);
    StepBackward(b, |all|, k);
    while k.Some? && collected < n
      invariant 0 <= collected <= |all| && collected == |h| && (collected <= n || collected == 0)
      invariant k.Some? ==> k.value in b && collected < |all|
      invariant k.Some? ==> FromBigEndian(k.value) == Walk(b)[|all| - 1 - collected]
      invariant k.None? ==> collected == |all|
      invariant h == Reversed(all)[..collected]
      decreases |all| - collected
    {
      RecordAtWalk(b, k.value, |all| - 1 - collected);
      h := h + [RecordAt(b, k.value)];
      k := Prev(b, k);
      StepBackward(b, |all| - 1 - collected, k);
      collected := collected + 1;
    }
    ReversedNewest(all, collected);
    h := ReverseSeq(h);
  }

  // ---------------------------------------------------------------- version order

  /** Where the entry of word `w` is in the listing. */
  lemma EntryListed(m: map<int, Bytes>, w: int) returns (i: nat)
    requires WordKeyed(m) && w in m
    ensures i < |Listed(m)| && InOrder(m)[i] == w && Listed(m)[i] == Record(Signed(w), m[w])
  {
    hide InOrder;
    var ws := InOrder(m);
    assert w in ws;
    i :| 0 <= i < |ws| && ws[i] == w;
  }

  lemma ListedEntry(m: map<int, Bytes>, i: nat) returns (w: int)
    requires WordKeyed(m) && i < |Listed(m)|
    ensures w in m && InOrder(m)[i] == w && Listed(m)[i] == Record(Signed(w), m[w])
  {
    hide InOrder;
    w := InOrder(m)[i];
  }

  /** The listing holds each entry and nothing else. */
  lemma ListedIsExact(m: map<int, Bytes>, r: Record)
    requires WordKeyed(m)
    ensures r in Listed(m) <==> exists w :: w in m && r == Record(Signed(w), m[w])
  {
    hide Listed, InOrder;
    if r in Listed(m) {
      var i :| 0 <= i < |Listed(m)| && Listed(m)[i] == r;
      var _ := ListedEntry(m, i);
    }
    if w :| w in m && r == Record(Signed(w), m[w]) {
      var _ := EntryListed(m, w);
    }
  }

  ghost predicate OneSign(m: map<int, Bytes>) {
    (forall w :: w in m ==> w < TWO63) || (forall w :: w in m ==> w >= TWO63)
  }

  lemma OneSignVersioned(m: map<int, Bytes>)
    requires WordKeyed(m) && OneSign(m)
    ensures Versioned(Listed(m))
  {
    hide Listed, InOrder;
    forall i, j | 0 <= i < j < |Listed(m)| ensures Listed(m)[i].version < Listed(m)[j].version {
      var x := ListedEntry(m, i);
      var y := ListedEntry(m, j);
      assert x < y;
    }
  }

  lemma MixedNotVersioned(m: map<int, Bytes>, x: int, y: int)
    requires WordKeyed(m) && x in m && y in m && x < TWO63 <= y
    ensures !Versioned(Listed(m))
  {
    hide Listed, InOrder;
    var i := EntryListed(m, x);
    var j := EntryListed(m, y);
    assert i < j;
  }

  /**
   A listing is in ascending version order exactly when it does not mix negative and other
   versions. Versions of events are positive.
   */
  lemma ListedInVersionOrder(m: map<int, Bytes>)
    requires WordKeyed(m)
    ensures Versioned(Listed(m)) <==> OneSign(m)
  {
    hide Listed, Versioned, InOrder;
    if OneSign(m) {
      OneSignVersioned(m);
    } else {
      var x :| x in m && x < TWO63;
      var y :| y in m && y >= TWO63;
      MixedNotVersioned(m, x, y);
    }
  }
}
