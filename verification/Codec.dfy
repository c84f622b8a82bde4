/** How the repository turns events into stored bytes and back. */
module Codecs {
  import opened Machine
  import opened Compression
  import opened OrderModel

  /** The serializer is a parameter like the gzip library; marshalling may fail. */
  datatype Codec = Codec(
    gzip: Gzip, threshold: int,
    marshal: Event -> Option<Bytes>, unmarshal: Bytes -> Option<Event>)

  /**
   What the repository relies on: what marshals unmarshals to the same event, and no
   marshalled event starts with the gzip magic. (The binary serializer wraps every event in
   an Any message, whose first byte is the tag of its first field.)
   */
  ghost predicate Sound(c: Codec) {
    && Lawful(c.gzip)
    && forall e: Event :: c.marshal(e).Some? ==>
         !IsGzipped(c.marshal(e).value) && c.unmarshal(c.marshal(e).value) == Some(e)
  }

  function Encode(c: Codec, e: Event): Option<Bytes> {
    var p := c.marshal(e);
    if p.None? then None else Some(MaybeCompress(c.gzip, p.value, c.threshold))
  }

  function Decode(c: Codec, data: Bytes): Option<Event> {
    var p := MaybeDecompress(c.gzip, data);
    if p.None? then None else c.unmarshal(p.value)
  }

  /** Stored bytes that decode to `e`, and still do after they were decompressed in place. */
  ghost predicate Carries(c: Codec, data: Bytes, e: Event) {
    var p := MaybeDecompress(c.gzip, data);
    p.Some? && !IsGzipped(p.value) && c.unmarshal(p.value) == Some(e)
  }

  /**
   What is stored carries the event, in gzip form exactly when its marshalled bytes reach a positive
   threshold and bare otherwise; an event that does not marshal is not encoded.
   */
  lemma EncodedCarries(c: Codec, e: Event)
    requires Sound(c)
    ensures Encode(c, e).Some? <==> c.marshal(e).Some?
    ensures Encode(c, e).Some? ==>
              && Carries(c, Encode(c, e).value, e)
              && (IsGzipped(Encode(c, e).value) <==> c.threshold > 0 && |c.marshal(e).value| >= c.threshold)
              && (!IsGzipped(Encode(c, e).value) ==> Encode(c, e) == c.marshal(e))
  {
  }

  lemma CarriesDecodes(c: Codec, data: Bytes, e: Event)
    requires Carries(c, data, e)
    ensures Decode(c, data) == Some(e)
    ensures Carries(c, MaybeDecompress(c.gzip, data).value, e)
  {
  }
}
