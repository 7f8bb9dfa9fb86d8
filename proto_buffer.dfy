/**
 * The part of proto.Buffer that the oneof functions of ProfileDTO.pb.go call: a byte
 * slice with a read position, EncodeVarint and EncodeMessage that append to it, and
 * DecodeMessage that reads a length-delimited nested message at the read position.
 * The nested message itself is encoded and decoded by the struct-tag codec of
 * ScalarCodec.
 */
module ProtoBuffer {
  import opened Wrappers
  import opened Wire
  import opened ScalarCodec

  /** What DecodeMessage leaves behind: the message decoded, the new read position, the error if any. */
  datatype Decoded = Decoded(msg: Message, next: nat, err: Option<Error>)

  /** Where DecodeRawBytes found the payload (or why it did not), and the read position it leaves. */
  datatype Raw = Raw(span: Result<Span, Error>, next: nat)

  /**
   * DecodeRawBytes at position index of buf: a varint length, then that many bytes.
   * A length that does not read leaves the position where it was; a length that is
   * negative as a Go int, or runs past the end, leaves it just after the length;
   * otherwise the position moves past the payload.
   */
  function DecodeRawBytes(buf: seq<byte>, index: nat): (r: Raw)
    requires index <= |buf|
    ensures index <= r.next <= |buf|
    ensures r.span.Success? ==> index < r.span.value.start <= r.span.value.end == r.next
    ensures DecodeVarint(buf[index..]).Failure? <==> r.span.Failure? && r.next == index
  {
    match DecodeVarint(buf[index..])
    case Failure(e) => Raw(Failure(e), index)
    case Success(n) =>
      if TwoTo63 <= n.value then Raw(Failure(BadByteLength), index + n.len)
      else if |buf| < index + n.len + n.value then Raw(Failure(UnexpectedEOF), index + n.len)
      else Raw(Success(Span(index + n.len, index + n.len + n.value)), index + n.len + n.value)
  }

  /**
   * DecodeMessage at position index of buf: the raw bytes decoded into a fresh
   * message. When the raw bytes cannot be read the message stays empty; when they
   * can, the position moves past them whether or not they decode.
   */
  function DecodeMessageAt(tags: seq<StructTag>, buf: seq<byte>, index: nat): (r: Decoded)
    requires ScalarTags(tags) && index <= |buf|
    ensures r.next == DecodeRawBytes(buf, index).next
    ensures Conforms(tags, r.msg)
    ensures r.err.None? ==> RequiredPresent(tags, r.msg) && index < r.next
    ensures DecodeRawBytes(buf, index).span.Failure? ==> r.msg == Empty(tags) && r.err.Some?
    ensures UnknownOnly(tags, r.msg.unrecognized)
  {
    var raw := DecodeRawBytes(buf, index);
    match raw.span
    case Failure(e) => Decoded(Empty(tags), raw.next, Some(e))
    case Success(sp) =>
      var u := Unmarshal(tags, buf[sp.start..sp.end]);
      UnmarshalKeepsUnknownOnly(tags, buf[sp.start..sp.end]);
      Decoded(u.0, sp.end, u.1)
  }

  /** A length that reads and fits: the payload that follows it, and the position after it. */
  lemma RawBytesOfLength(buf: seq<byte>, index: nat, n: Varint)
    requires index <= |buf|
    requires DecodeVarint(buf[index..]) == Success(n)
    requires n.value < TwoTo63 && index + n.len + n.value <= |buf|
    ensures DecodeRawBytes(buf, index) == Raw(Success(Span(index + n.len, index + n.len + n.value)), index + n.len + n.value)
  {
  }

  /**
   * DecodeRawBytes reads the same length-prefixed payload as Wire.ReadDelimited, the
   * read used to skip a field, at an offset into the buffer. It is kept apart because
   * it also says where the read position stops when the read fails, which
   * ReadDelimited does not.
   */
  lemma RawBytesIsReadDelimited(buf: seq<byte>, index: nat)
    requires index <= |buf|
    ensures match ReadDelimited(buf[index..])
            case Failure(e) => DecodeRawBytes(buf, index).span == Failure(e)
            case Success(sp) => DecodeRawBytes(buf, index).span == Success(Span(index + sp.start, index + sp.end))
  {
  }

  /** A length-prefixed encoded message, followed by anything, decodes back to the message. */
  lemma DecodeEncodedMessage(tags: seq<StructTag>, m: Message, pre: seq<byte>, rest: seq<byte>)
    requires ScalarTags(tags) && Conforms(tags, m) && RequiredPresent(tags, m)
    requires UnknownOnly(tags, m.unrecognized) && Size(m) < TwoTo63
    ensures var bytes := EncodeVarint(Size(m)) + Marshal(m);
            DecodeMessageAt(tags, pre + bytes + rest, |pre|) == Decoded(m, |pre| + |bytes|, None)
  {
    var body := Marshal(m);
    var len := EncodeVarint(Size(m));
    var buf := pre + (len + body) + rest;
    assert pre + (len + body) + rest == pre + len + body + rest;
    SizeIsLength(m);
    VarintSize(Size(m));
    assert buf[|pre|..] == len + (body + rest);
    DecodeEncodeVarint(Size(m), body + rest);
    assert buf[|pre| + |len|..|pre| + |len| + |body|] == body;
    RawBytesOfLength(buf, |pre|, Varint(Size(m), |len|));
    RoundTrip(tags, m);
  }

  class Buffer {
    /** The bytes written so far, or the bytes being read. */
    var buf: seq<byte>
    /** The read position within buf. */
    var index: nat

    ghost predicate Valid()
      reads this
    {
      index <= |buf|
    }

    /** proto.NewBuffer: reads from b, starting at its first byte. */
    constructor(b: seq<byte>)
      ensures buf == b && index == 0 && Valid()
    {
      buf := b;
      index := 0;
    }

    /** Appends x as a varint, seven bits at a time, low group first. */
    method EncodeVarint(x: nat)
      requires x < TwoTo64
      modifies this`buf
      ensures buf == old(buf) + Wire.EncodeVarint(x)
    {
      var v := x;
      while 0x80 <= v
        invariant buf + Wire.EncodeVarint(v) == old(buf) + Wire.EncodeVarint(x)
        decreases v
      {
        var b := (v % 0x80 + 0x80) as byte;
        assert Wire.EncodeVarint(v) == [b] + Wire.EncodeVarint(v / 0x80);
        assert buf + Wire.EncodeVarint(v) == (buf + [b]) + Wire.EncodeVarint(v / 0x80);
        buf := buf + [b];
        v := v / 0x80;
      }
      buf := buf + [v as byte];
    }

    /**
     * Appends m as a length-delimited message: its size as a varint, then its
     * encoding. The size is a Go int, so it stays below 2^63.
     */
    method EncodeMessage(m: Message)
      requires Size(m) < TwoTo63
      modifies this`buf
      ensures buf == old(buf) + Wire.EncodeVarint(Size(m)) + Marshal(m)
    {
      EncodeVarint(Size(m));
      buf := buf + Marshal(m);
    }

    /** Reads a length-delimited message at the read position and moves the position as DecodeMessageAt says. */
    method DecodeMessage(tags: seq<StructTag>) returns (m: Message, err: Option<Error>)
      requires Valid() && ScalarTags(tags)
      modifies this`index
      ensures Valid()
      ensures Decoded(m, index, err) == DecodeMessageAt(tags, buf, old(index))
    {
      var r := DecodeMessageAt(tags, buf, index);
      m, err := r.msg, r.err;
      index := r.next;
    }
  }
}
