/** The event stream format: each payload behind its length, eight bytes, little-endian. */
module Framing {
  import opened Machine
  import opened Listing
  import VersionKeys

  const HEADER: nat := 8

  function LittleEndian(x: nat, w: nat): (b: Bytes)
    ensures |b| == w
  {
    if w == 0 then [] else [x % 256] + LittleEndian(x / 256, w - 1)
  }

  function FromLittleEndian(b: Bytes): nat {
    if b == [] then 0 else b[0] + 256 * FromLittleEndian(b[1..])
  }

  lemma {:induction false} LittleEndianRoundTrip(x: nat, w: nat)
    requires x < VersionKeys.Power256(w)
    ensures FromLittleEndian(LittleEndian(x, w)) == x
  {
    if w > 0 {
      LittleEndianRoundTrip(x / 256, w - 1);
    }
  }

  /** The least significant byte comes first. */
  lemma {:induction false} LittleEndianAt(x: nat, w: nat, i: nat)
    requires i < w
    ensures LittleEndian(x, w)[i] == x / VersionKeys.Power256(i) % 256
  {
    if i > 0 {
      LittleEndianAt(x / 256, w - 1, i - 1);
      DivTwice(x, VersionKeys.Power256(i - 1));
    }
  }

  /** Dividing by 256 and then by p is dividing by both. */
  lemma DivTwice(x: nat, p: nat)
    requires p > 0
    ensures x / 256 / p == x / (256 * p)
  {
    var y, r := x / 256, x % 256;
    var q, t := y / p, y % p;
    assert x == 256 * (q * p + t) + r == (256 * p) * q + (256 * t + r);
    assert 256 * t + r < 256 * p;
    DivModUnique(x, 256 * p, q, 256 * t + r);
  }

  function Frame(payload: Bytes): Bytes {
    LittleEndian(|payload|, HEADER) + payload
  }

  /** A frame on the wire: eight length bytes, least significant first, then the payload. */
  lemma FrameIs(payload: Bytes)
    ensures |Frame(payload)| == 8 + |payload| && Frame(payload)[8..] == payload
    ensures forall i :: 0 <= i < 8 ==> Frame(payload)[i] == |payload| / VersionKeys.Power256(i) % 256
  {
    forall i | 0 <= i < 8 ensures Frame(payload)[i] == |payload| / VersionKeys.Power256(i) % 256 {
      LittleEndianAt(|payload|, 8, i);
    }
  }

  function Frames(payloads: seq<Bytes>): Bytes {
    if payloads == [] then [] else Frames(payloads[..|payloads| - 1]) + Frame(payloads[|payloads| - 1])
  }

  /** One decoding step: the payload of the first frame and what follows it, if it is all there. */
  function Unframe(stream: Bytes): Option<(Bytes, Bytes)> {
    if |stream| < HEADER then None
    else
      var length := FromLittleEndian(stream[..HEADER]);
      if |stream| - HEADER < length then None
      else Some((stream[HEADER..HEADER + length], stream[HEADER + length..]))
  }

  /** A Go slice's length is an int, so it fits the header. */
  ghost predicate Sized(payloads: seq<Bytes>) {
    forall i :: 0 <= i < |payloads| ==> |payloads[i]| < TWO63
  }

  // ---------------------------------------------------------------- truncation

  /**
   Exactly the first `j` frames are complete in the first `k` bytes. (The stream ends inside,
   or just before, frame j.)
   */
  ghost predicate CompleteIn(payloads: seq<Bytes>, k: nat, j: nat) {
    && j <= |payloads|
    && |Frames(payloads[..j])| <= k
    && (j < |payloads| ==> k < |Frames(payloads[..j + 1])|)
  }

  lemma FrameAt(payloads: seq<Bytes>, j: nat)
    requires j < |payloads|
    ensures Frames(payloads[..j + 1]) == Frames(payloads[..j]) + Frame(payloads[j])
  {
    assert payloads[..j + 1][..j] == payloads[..j];
  }

  lemma {:induction false} FramesPrefix(payloads: seq<Bytes>, j: nat)
    requires j <= |payloads|
    ensures |Frames(payloads[..j])| <= |Frames(payloads)|
    ensures Frames(payloads)[..|Frames(payloads[..j])|] == Frames(payloads[..j])
    decreases |payloads|
  {
    if j == |payloads| {
      assert payloads[..j] == payloads;
    } else {
      var front := payloads[..|payloads| - 1];
      assert front[..j] == payloads[..j];
      FramesPrefix(front, j);
    }
  }

  /** Decoding a stream that starts with a frame, whole or cut. */
  lemma UnframeFrame(payload: Bytes, stream: Bytes, rest: Bytes)
    requires |payload| < TWO63
    requires stream == Frame(payload) + rest
    ensures Unframe(stream) == Some((payload, rest))
  {
    var header := LittleEndian(|payload|, HEADER);
    assert stream[..HEADER] == header;
    VersionKeys.Power256Of8();
    LittleEndianRoundTrip(|payload|, HEADER);
    assert stream[HEADER..HEADER + |payload|] == payload;
    assert stream[HEADER + |payload|..] == rest;
  }

  lemma UnframeCut(payload: Bytes, k: nat)
    requires |payload| < TWO63 && k < |Frame(payload)|
    ensures Unframe(Frame(payload)[..k]) == None
  {
    if k >= HEADER {
      assert Frame(payload)[..k][..HEADER] == LittleEndian(|payload|, HEADER);
      VersionKeys.Power256Of8();
      LittleEndianRoundTrip(|payload|, HEADER);
    }
  }

  /** What is left of a cut stream behind its first `i` frames. */
  ghost function Behind(payloads: seq<Bytes>, k: nat, i: nat): Bytes
    requires i <= |payloads| && |Frames(payloads[..i])| <= k <= |Frames(payloads)|
  {
    Frames(payloads)[|Frames(payloads[..i])|..k]
  }

  /**
   Every decoding step on a stream cut after `k` bytes, of which the first `i` frames were read:
   the next payload while its frame is complete, and an error on what is left behind the last.
   */
  lemma NextOfCut(payloads: seq<Bytes>, k: nat, j: nat, i: nat)
    requires Sized(payloads) && k <= |Frames(payloads)| && CompleteIn(payloads, k, j) && i <= j
    ensures |Frames(payloads[..i])| <= k
    ensures i < j ==>
              && |Frames(payloads[..i + 1])| <= k
              && Unframe(Behind(payloads, k, i)) == Some((payloads[i], Behind(payloads, k, i + 1)))
    ensures i == j ==> Unframe(Behind(payloads, k, i)) == None
  {
    hide Frame, Unframe, Frames;
    CompleteMonotone(payloads, i, j);
    var at := |Frames(payloads[..i])|;
    var all := Frames(payloads);
    if i < |payloads| {
      FrameAt(payloads, i);
      FramesPrefix(payloads, i + 1);
      var next := |Frames(payloads[..i + 1])|;
      assert all[..next] == Frames(payloads[..i]) + Frame(payloads[i]);
      assert all[at..next] == Frame(payloads[i]);
      if i < j {
        CompleteMonotone(payloads, i + 1, j);
        assert all[at..k] == Frame(payloads[i]) + all[next..k];
        UnframeFrame(payloads[i], all[at..k], all[next..k]);
      } else {
        assert all[at..k] == all[at..next][..k - at];
        UnframeCut(payloads[i], k - at);
      }
    } else {
      assert payloads[..i] == payloads;
      assert Behind(payloads, k, i) == [];
      UnframeNothing();
    }
  }

  lemma UnframeNothing()
    ensures Unframe([]) == None
  {
  }

  lemma CompleteMonotone(payloads: seq<Bytes>, i: nat, j: nat)
    requires i <= j <= |payloads|
    ensures |Frames(payloads[..i])| <= |Frames(payloads[..j])|
  {
    FramesPrefix(payloads[..j], i);
    assert payloads[..j][..i] == payloads[..i];
  }

  // ---------------------------------------------------------------- encoder and decoder

  datatype Serializer<!E> = Serializer(marshal: E -> Option<Bytes>, unmarshal: Bytes -> Option<E>)

  /** An io.Writer that fails once it has taken `room` more bytes. */
  class Sink {
    var bytes: Bytes
    var room: nat

    constructor (room: nat)
      ensures bytes == [] && this.room == room
    {
      bytes := [];
      this.room := room;
    }

    method Write(p: Bytes) returns (n: nat, ok: bool)
      modifies this
      ensures n == Min(|p|, old(room)) && ok == (n == |p|)
      ensures bytes == old(bytes) + p[..n] && room == old(room) - n
    {
      n := Min(|p|, room);
      bytes := bytes + p[..n];
      room := room - n;
      ok := n == |p|;
    }
  }

  class Encoder<!E> {
    const w: Sink
    const s: Serializer<E>

    constructor (w: Sink, s: Serializer<E>)
      ensures this.w == w && this.s == s
    {
      this.w := w;
      this.s := s;
    }

    /** Appends one frame, or as much of it as the writer takes. */
    method WriteEvent(event: E) returns (n: nat, ok: bool)
      requires s.marshal(event).Some? ==> |s.marshal(event).value| < TWO63
      modifies w
      ensures s.marshal(event).None? ==> !ok && n == 0 && w.bytes == old(w.bytes) && w.room == old(w.room)
      ensures s.marshal(event).Some? ==>
                var frame := Frame(s.marshal(event).value);
                && ok == (|frame| <= old(w.room)) && n == (if ok then |frame| else 0)
                && w.bytes == old(w.bytes) + frame[..Min(|frame|, old(w.room))]
                && w.room == old(w.room) - Min(|frame|, old(w.room))
    {
      hide LittleEndian;
      n, ok := 0, false;
      var data := s.marshal(event);
      if data.Some? {
        var header := LittleEndian(|data.value|, HEADER);
        var m;
        m, ok := w.Write(header);
        if ok {
          m, ok := w.Write(data.value);
          n := if ok then m + HEADER else 0;
        }
      }
    }
  }

  datatype ReadResult<+E> = Read(event: E) | EndOfInput | Malformed

  class Decoder<!E> {
    /** What the reader has not delivered yet. */
    var rest: Bytes
    /** Reused by every read. */
    var scratch: Bytes
    const s: Serializer<E>

    constructor (stream: Bytes, s: Serializer<E>)
      ensures rest == stream && this.s == s
    {
      rest, scratch := stream, [];
      this.s := s;
    }

    /** Reads n bytes one at a time, or all there are when there are fewer. */
    method ReadN(n: nat) returns (ok: bool)
      modifies this
      ensures ok == (n <= |old(rest)|)
      ensures scratch == old(rest)[..Min(n, |old(rest)|)] && rest == old(rest)[Min(n, |old(rest)|)..]
    {
      scratch := [];
      ok := true;
      var i := 0;
      while i < n && ok
        invariant 0 <= i <= n && i <= |old(rest)|
        invariant scratch == old(rest)[..i] && rest == old(rest)[i..]
        invariant !ok ==> i == |old(rest)| < n
        decreases n - i, ok
      {
        if rest == [] {
          ok := false;
        } else {
          scratch := scratch + [rest[0]];
          rest := rest[1..];
          i := i + 1;
        }
      }
    }

    /** Takes one frame off the stream; an incomplete one is consumed and gives no event. */
    method ReadEvent() returns (r: ReadResult<E>)
      modifies this
      ensures match Unframe(old(rest))
              case None => r == EndOfInput && rest == []
              case Some((payload, behind)) =>
                && rest == behind
                && r == if s.unmarshal(payload).Some? then Read(s.unmarshal(payload).value) else Malformed
    {
      hide FromLittleEndian;
      r := EndOfInput;
      var ok := ReadN(HEADER);
      if ok {
        var length := FromLittleEndian(scratch);
        ok := ReadN(length);
        if ok {
          assert scratch == old(rest)[HEADER..HEADER + length];
          var event := s.unmarshal(scratch);
          r := if event.Some? then Read(event.value) else Malformed;
        }
      }
    }
  }

  // ---------------------------------------------------------------- whole streams

  /** What marshals, unmarshals to the same event. */
  ghost predicate Faithful<E(!new)>(s: Serializer<E>) {
    forall e: E :: s.marshal(e).Some? ==> s.unmarshal(s.marshal(e).value) == Some(e)
  }

  ghost predicate Marshals<E>(s: Serializer<E>, events: seq<E>, payloads: seq<Bytes>) {
    |payloads| == |events| && forall i :: 0 <= i < |events| ==> s.marshal(events[i]) == Some(payloads[i])
  }

  /** Reads events up to the first error. */
  method ReadAll<E(!new)>(d: Decoder<E>, ghost events: seq<E>, ghost payloads: seq<Bytes>, ghost k: nat, ghost j: nat)
    returns (read: seq<E>, end: ReadResult<E>)
    requires Faithful(d.s) && Marshals(d.s, events, payloads) && Sized(payloads)
    requires k <= |Frames(payloads)| && CompleteIn(payloads, k, j) && d.rest == Frames(payloads)[..k]
    modifies d
    ensures read == events[..j] && end == EndOfInput && d.rest == []
  {
    hide Frames, Unframe, Sized, Behind;
    read := [];
    NextOfCut(payloads, k, j, 0);
    BehindNothing(payloads, k);
    end := d.ReadEvent();
    while end.Read?
      invariant |read| <= j && j <= |events| && read == events[..|read|]
      invariant |Frames(payloads[..|read|])| <= k
      invariant |read| < j ==> |Frames(payloads[..|read| + 1])| <= k && end == Read(events[|read|])
      invariant |read| < j ==> d.rest == Behind(payloads, k, |read| + 1)
      invariant |read| == j ==> end == EndOfInput && d.rest == []
      decreases j - |read|
    {
      read := read + [end.event];
      NextOfCut(payloads, k, j, |read|);
      end := d.ReadEvent();
    }
  }

  lemma BehindNothing(payloads: seq<Bytes>, k: nat)
    requires k <= |Frames(payloads)|
    ensures |Frames(payloads[..0])| <= k && Behind(payloads, k, 0) == Frames(payloads)[..k]
  {
  }

  lemma FramesOfNothing(payloads: seq<Bytes>)
    ensures Frames(payloads[..0]) == []
  {
  }

  /** Writes events up to the first error. */
  method WriteAll<E>(e: Encoder<E>, events: seq<E>, ghost payloads: seq<Bytes>) returns (ok: bool)
    requires Marshals(e.s, events, payloads) && Sized(payloads) && e.w.bytes == []
    modifies e.w
    ensures ok == (|Frames(payloads)| <= old(e.w.room))
    ensures e.w.bytes == Frames(payloads)[..Min(|Frames(payloads)|, old(e.w.room))]
  {
    hide Frame, Frames;
    ok := true;
    var i := 0;
    FramesOfNothing(payloads);
    while i < |events| && ok
      invariant 0 <= i <= |events|
      invariant ok ==> e.w.bytes == Frames(payloads[..i]) && |Frames(payloads[..i])| == old(e.w.room) - e.w.room
      invariant !ok ==> old(e.w.room) < |Frames(payloads[..i])| && e.w.bytes == Frames(payloads[..i])[..old(e.w.room)]
    {
      var n;
      n, ok := e.WriteEvent(events[i]);
      FrameAt(payloads, i);
      i := i + 1;
    }
    FramesPrefix(payloads, i);
    assert i == |events| ==> payloads[..i] == payloads;
  }

  /** Any cut of a stream has a number of complete frames. */
  lemma {:induction false} SomeAreComplete(payloads: seq<Bytes>, k: nat) returns (j: nat)
    requires k <= |Frames(payloads)|
    ensures CompleteIn(payloads, k, j)
  {
    if k == |Frames(payloads)| {
      j := |payloads|;
      assert payloads[..j] == payloads;
    } else {
      var front := payloads[..|payloads| - 1];
      if k < |Frames(front)| {
        j := SomeAreComplete(front, k);
        assert front[..j] == payloads[..j] && (j < |front| ==> front[..j + 1] == payloads[..j + 1]);
        assert front[..|front|] == front;
      } else {
        j := |front|;
        assert payloads[..j + 1] == payloads;
      }
    }
  }

  /**
   Framing round trip: writing events to a writer that fails anywhere, or never, and reading
   back what it took yields exactly the events whose frames are complete, then the end error.
   */
  method WriteThenRead<E(!new)>(s: Serializer<E>, events: seq<E>, room: nat, ghost payloads: seq<Bytes>)
    returns (read: seq<E>, end: ReadResult<E>)
    requires Faithful(s) && Marshals(s, events, payloads) && Sized(payloads)
    ensures |read| <= |events| && read == events[..|read|] && end == EndOfInput
    ensures CompleteIn(payloads, Min(|Frames(payloads)|, room), |read|)
    ensures room >= |Frames(payloads)| ==> read == events
  {
    hide Frames, Faithful, Marshals, Sized, CompleteIn;
    var sink := new Sink(room);
    var encoder := new Encoder(sink, s);
    var _ := WriteAll(encoder, events, payloads);
    var decoder := new Decoder(sink.bytes, s);
    ghost var k := Min(|Frames(payloads)|, room);
    ghost var j := SomeAreComplete(payloads, k);
    SizesAgree(s, events, payloads, k, j);
    read, end := ReadAll(decoder, events, payloads, k, j);
  }

  lemma SizesAgree<E>(s: Serializer<E>, events: seq<E>, payloads: seq<Bytes>, k: nat, j: nat)
    requires Marshals(s, events, payloads) && CompleteIn(payloads, k, j)
    ensures j <= |events| == |payloads|
    ensures k >= |Frames(payloads)| ==> j == |payloads|
  {
    if j < |payloads| {
      FramesPrefix(payloads, j + 1);
    }
  }
}
