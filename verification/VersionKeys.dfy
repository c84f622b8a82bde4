/** Versions as the Bolt store keys them: eight bytes, big-endian, ordered byte by byte. */
module VersionKeys {
  import opened Machine

  function Power256(w: nat): (p: nat)
    ensures p > 0
  {
    if w == 0 then 1 else 256 * Power256(w - 1)
  }

  function BigEndian(x: nat, w: nat): (key: Bytes)
    ensures |key| == w
  {
    if w == 0 then [] else BigEndian(x / 256, w - 1) + [x % 256]
  }

  function FromBigEndian(key: Bytes): nat {
    if key == [] then 0 else 256 * FromBigEndian(key[..|key| - 1]) + key[|key| - 1]
  }

  lemma Powers()
    ensures Power256(0) == 1 && Power256(1) == 0x100 && Power256(2) == 0x1_0000 && Power256(3) == 0x100_0000
    ensures Power256(4) == 0x1_0000_0000 && Power256(5) == 0x100_0000_0000
    ensures Power256(6) == 0x1_0000_0000_0000 && Power256(7) == 0x100_0000_0000_0000
  {
  }

  lemma {:induction false} BigEndianRoundTrip(x: nat, w: nat)
    requires x < Power256(w)
    ensures FromBigEndian(BigEndian(x, w)) == x
  {
    if w > 0 {
      BigEndianRoundTrip(x / 256, w - 1);
    }
  }

  lemma {:induction false} FromBigEndianRoundTrip(key: Bytes)
    ensures FromBigEndian(key) < Power256(|key|)
    ensures BigEndian(FromBigEndian(key), |key|) == key
  {
    if key != [] {
      var m := |key| - 1;
      FromBigEndianRoundTrip(key[..m]);
      var x := FromBigEndian(key);
      assert x / 256 == FromBigEndian(key[..m]) && x % 256 == key[m];
    }
  }

  /** bytes.Compare(a, b) < 0, the order of every bbolt cursor. */
  predicate LexLess(a: Bytes, b: Bytes) {
    if b == [] then false
    else if a == [] then true
    else if a[0] != b[0] then a[0] < b[0]
    else LexLess(a[1..], b[1..])
  }

  lemma {:induction false} LexLessSnoc(a: Bytes, b: Bytes, p: byte, q: byte)
    requires |a| == |b|
    ensures LexLess(a + [p], b + [q]) <==> LexLess(a, b) || (a == b && p < q)
  {
    if a == [] {
      assert a + [p] == [p] && b + [q] == [q];
    } else {
      assert (a + [p])[1..] == a[1..] + [p] && (b + [q])[1..] == b[1..] + [q];
      LexLessSnoc(a[1..], b[1..], p, q);
      assert a == [a[0]] + a[1..] && b == [b[0]] + b[1..];
    }
  }

  /** Byte order of keys of one width is the order of the numbers. */
  lemma {:induction false} LexOrderIsNumeric(x: nat, y: nat, w: nat)
    requires x < Power256(w) && y < Power256(w)
    ensures LexLess(BigEndian(x, w), BigEndian(y, w)) <==> x < y
  {
    if w > 0 {
      LexOrderIsNumeric(x / 256, y / 256, w - 1);
      LexLessSnoc(BigEndian(x / 256, w - 1), BigEndian(y / 256, w - 1), x % 256, y % 256);
      BigEndianRoundTrip(x / 256, w - 1);
      BigEndianRoundTrip(y / 256, w - 1);
    }
  }

  // ---------------------------------------------------------------- int64 versions

  predicate IsInt64(v: int) {
    -TWO63 <= v < TWO63
  }

  /** uint64(v) */
  function Word(v: int): (w: nat)
    requires IsInt64(v)
    ensures w < TWO64
  {
    if v < 0 then v + TWO64 else v
  }

  /** int64(w) */
  function Signed(w: nat): (v: int)
    requires w < TWO64
    ensures IsInt64(v) && Word(v) == w
  {
    if w >= TWO63 then w - TWO64 else w
  }

  function Key(w: nat): (key: Bytes)
    requires w < TWO64
    ensures |key| == 8
  {
    BigEndian(w, 8)
  }

  lemma Power256Of8()
    ensures Power256(8) == TWO64
  {
  }

  lemma KeyRoundTrip(w: nat)
    requires w < TWO64
    ensures FromBigEndian(Key(w)) == w
  {
    Power256Of8();
    BigEndianRoundTrip(w, 8);
  }

  lemma KeyOrder(x: nat, y: nat)
    requires x < TWO64 && y < TWO64
    ensures LexLess(Key(x), Key(y)) <==> x < y
    ensures Key(x) == Key(y) <==> x == y
  {
    Power256Of8();
    LexOrderIsNumeric(x, y, 8);
    KeyRoundTrip(x);
    KeyRoundTrip(y);
  }

  /**
   The key of any int64 version reads back as that version, and two versions are in key
   order exactly when they are in numeric order, unless just one of them is negative.
   */
  lemma VersionKeyOrder(a: int, b: int)
    requires IsInt64(a) && IsInt64(b)
    ensures FromBigEndian(Key(Word(a))) == Word(a) && Signed(Word(a)) == a
    ensures a != b ==> ((LexLess(Key(Word(a)), Key(Word(b))) <==> a < b) <==> (a < 0 <==> b < 0))
  {
    KeyRoundTrip(Word(a));
    KeyOrder(Word(a), Word(b));
  }
}
