/**
 nanopb's streams: pb_ostream_t writing to a buffer or only counting, pb_istream_t reading from a
 buffer with a limit, the scalar readers and writers on them, and length-limited substreams.
 */
module PbStream {
  import opened Wrappers
  import opened Bits
  import opened Bytes
  import opened PbWire

  // ---- Writing --------------------------------------------------------------------------------

  datatype WriteError = NoError | StreamFull | InvalidField | ArrayTooLong | BytesTooLong | SubmsgSizeChanged

  /** A stream and its buffer at one moment; a sizing stream has no buffer. */
  datatype Out = Out(sizing: bool, mem: seq<byte>, state: nat, maxSize: nat, written: nat, error: WriteError) {
    /** What the limit still allows lies inside the buffer. */
    predicate Valid() {
      !sizing ==> written <= maxSize && state + maxSize - written <= |mem|
    }

    predicate Fits(e: Option<seq<byte>>) {
      e.Some? && (sizing || written + |e.value| <= maxSize)
    }

    /** The buffer with e at the write position. */
    function Put(e: seq<byte>): seq<byte>
      requires state + |e| <= |mem|
    {
      mem[..state] + e + mem[state + |e|..]
    }
  }

  /**
   From before to after, a writer whose whole output would be e (None: it reports an error of its
   own) has returned ok: it succeeds exactly when the output exists and fits, it has then written
   exactly e and nothing else, and if it fails it has kept within the limit.
   */
  ghost predicate Wrote(before: Out, after: Out, ok: bool, e: Option<seq<byte>>) {
    && before.Valid() && after.Valid()
    && after.sizing == before.sizing && after.maxSize == before.maxSize && |after.mem| == |before.mem|
    && (after.error == SubmsgSizeChanged ==> before.error == SubmsgSizeChanged)
    && (ok <==> before.Fits(e))
    && (ok ==> after.written == before.written + |e.value|)
    && (before.sizing ==> after.mem == before.mem && after.state == before.state)
    && (!before.sizing ==>
          && before.state <= after.state && after.state - before.state == after.written - before.written
          && (ok ==> after.mem == before.Put(e.value))
          && (forall k | 0 <= k < |before.mem| :: (k < before.state || k >= before.state + before.maxSize - before.written)
                ==> after.mem[k] == before.mem[k]))
  }

  /** One output followed by another. */
  function Then(a: Option<seq<byte>>, b: Option<seq<byte>>): Option<seq<byte>> {
    if a.Some? && b.Some? then Some(a.value + b.value) else None
  }

  lemma WroteNothing(o: Out)
    requires o.Valid()
    ensures Wrote(o, o, true, Some([]))
  {
    if !o.sizing { assert o.Put([]) == o.mem; }
  }

  /** A writer that stops after its first part failed. */
  lemma WroteStops(before: Out, after: Out, a: Option<seq<byte>>, b: Option<seq<byte>>)
    requires Wrote(before, after, false, a)
    ensures Wrote(before, after, false, Then(a, b))
  {
  }

  /** A writer that goes on to a second part. */
  lemma WroteThen(before: Out, middle: Out, after: Out, ok: bool, a: Option<seq<byte>>, b: Option<seq<byte>>)
    requires Wrote(before, middle, true, a) && Wrote(middle, after, ok, b)
    ensures Wrote(before, after, ok, Then(a, b))
  {
    if ok && !before.sizing {
      var x, y := a.value, b.value;
      assert before.Put(x)[..before.state + |x|] == before.mem[..before.state] + x;
      assert before.Put(x)[before.state + |x| + |y|..] == before.mem[before.state + |x| + |y|..];
      assert middle.Put(y) == before.Put(x + y);
    }
  }

  /** The loop of pb_encode_varint: every group gets a continuation bit, and the last one loses it again. */
  method VarintOctets(v: nat) returns (buffer: array<byte>, i: nat)
    requires 0x80 <= v < U64
    ensures fresh(buffer) && i <= buffer.Length && buffer[..i] == Varint(v)
  {
    hide Varint;
    buffer := new byte[10];
    i := 0;
    var value := v;
    VarintFitsBuffer(v);
    while value > 0
      invariant i <= 10 && (i == 0 ==> value == v)
      invariant if value > 0 then Varint(v) == buffer[..i] + Varint(value)
                else i >= 1 && buffer[i - 1] >= 128 && Varint(v) == buffer[..i - 1] + [buffer[i - 1] - 128]
      decreases value
    {
      VarintGroup(value);
      ghost var done := buffer[..i];
      buffer[i] := value % 128 + 128;
      assert buffer[..i + 1] == done + [value % 128 + 128];
      value := value / 128;
      i := i + 1;
    }
    ghost var front := buffer[..i - 1];
    buffer[i - 1] := buffer[i - 1] - 128;
    assert buffer[..i] == front + [buffer[i - 1]];
  }

  lemma VarintGroup(v: nat)
    ensures Varint(v) == if v < 128 then [v] else [v % 128 + 128] + Varint(v / 128)
  {
  }

  /** The octets of a fixed-width integer, lowest first. */
  method FixedOctets(v: nat, len: nat) returns (bytes: array<byte>)
    ensures fresh(bytes) && bytes[..] == Le(v, len)
  {
    bytes := new byte[len];
    var value := v;
    for i := 0 to len
      invariant Le(v, len) == bytes[..i] + Le(value, len - i)
    {
      ghost var done := bytes[..i];
      bytes[i] := value % 256;
      assert bytes[..i + 1] == done + [value % 256];
      value := value / 256;
    }
  }

  class OStream {
    const buf: array?<byte>
    var state: nat
    const maxSize: nat
    var bytesWritten: nat
    var error: WriteError

    ghost function Abs(): Out
      reads this, buf
    {
      Out(buf == null, if buf == null then [] else buf[..], state, maxSize, bytesWritten, error)
    }

    ghost predicate Valid()
      reads this, buf
    {
      Abs().Valid()
    }

    /** PB_OSTREAM_SIZING. */
    constructor Sizing()
      ensures Valid() && buf == null && bytesWritten == 0 && error == NoError
    {
      buf, state, maxSize, bytesWritten, error := null, 0, 0, 0, NoError;
    }

    /** pb_ostream_from_buffer, and the substream of pb_encode_submessage. */
    constructor OnBuffer(buf: array<byte>, state: nat, maxSize: nat)
      requires state + maxSize <= buf.Length
      ensures Valid() && this.buf == buf && this.state == state && this.maxSize == maxSize
      ensures bytesWritten == 0 && error == NoError
    {
      this.buf, this.state, this.maxSize, bytesWritten, error := buf, state, maxSize, 0, NoError;
    }

    method Fail(e: WriteError)
      requires Valid() && e != SubmsgSizeChanged
      modifies this`error
      ensures Wrote(old(Abs()), Abs(), false, None)
    {
      error := e;
    }

    /** pb_write. */
    method Write(src: seq<byte>) returns (ok: bool)
      requires Valid()
      modifies this, buf
      ensures Wrote(old(Abs()), Abs(), ok, Some(src))
    {
      if buf != null {
        if bytesWritten + |src| > maxSize {
          error := StreamFull;
          return false;
        }
        CopyInto(buf, state, src);
        assert buf[..] == old(Abs()).Put(src);
        state := state + |src|;
      }
      bytesWritten := bytesWritten + |src|;
      return true;
    }

    /** pb_write with no source, on a sizing stream. */
    method WriteSize(count: nat, ghost src: seq<byte>) returns (ok: bool)
      requires Valid() && buf == null && |src| == count
      modifies this
      ensures Wrote(old(Abs()), Abs(), ok, Some(src))
    {
      bytesWritten := bytesWritten + count;
      return true;
    }

    /** pb_encode_varint. */
    method EncodeVarint(v: nat) returns (ok: bool)
      requires Valid() && v < U64
      modifies this, buf
      ensures Wrote(old(Abs()), Abs(), ok, Some(Varint(v)))
    {
      hide Varint;
      if v <= 0x7f {
        VarintFront(v, []);
        assert Varint(v) == [v];
        ok := Write([v]);
        return;
      }
      var buffer, i := VarintOctets(v);
      ok := Write(buffer[..i]);
    }

    /** pb_encode_svarint. */
    method EncodeSvarint(v: int) returns (ok: bool)
      requires Valid() && -I64 <= v < I64
      modifies this, buf
      ensures Wrote(old(Abs()), Abs(), ok, Some(Varint(ZigZag(v))))
    {
      var zigzagged;
      if v < 0 {
        zigzagged := Not64(ToU64(v) * 2 % U64);
      } else {
        zigzagged := v * 2 % U64;
      }
      ok := EncodeVarint(zigzagged);
    }

    /** pb_encode_fixed32 and pb_encode_fixed64. */
    method EncodeFixed(v: nat, len: nat) returns (ok: bool)
      requires Valid()
      modifies this, buf
      ensures Wrote(old(Abs()), Abs(), ok, Some(Le(v, len)))
    {
      var bytes := FixedOctets(v, len);
      ok := Write(bytes[..]);
    }

    /** pb_encode_string. */
    method EncodeString(s: seq<byte>) returns (ok: bool)
      requires Valid()
      modifies this, buf
      ensures Wrote(old(Abs()), Abs(), ok, Some(Varint(|s| % U64) + s))
    {
      ok := EncodeVarint(|s| % U64);
      if !ok {
        WroteStops(old(Abs()), Abs(), Some(Varint(|s| % U64)), Some(s));
        return;
      }
      ghost var middle := Abs();
      ok := Write(s);
      WroteThen(old(Abs()), middle, Abs(), ok, Some(Varint(|s| % U64)), Some(s));
    }
  }

  // ---- Reading --------------------------------------------------------------------------------

  class IStream {
    const buf: array<byte>
    var state: nat
    var bytesLeft: nat

    ghost predicate Valid()
      reads this
    {
      state + bytesLeft <= buf.Length
    }

    /** The octets that may still be read. */
    ghost function Rest(): seq<byte>
      requires Valid()
      reads this, buf
    {
      buf[state..state + bytesLeft]
    }

    /** pb_istream_from_buffer, and the substream of pb_make_string_substream. */
    constructor (buf: array<byte>, state: nat, bytesLeft: nat)
      requires state + bytesLeft <= buf.Length
      ensures Valid() && this.buf == buf && this.state == state && this.bytesLeft == bytesLeft
    {
      this.buf, this.state, this.bytesLeft := buf, state, bytesLeft;
    }

    /** pb_readbyte. */
    method ReadByte() returns (ok: bool, b: byte)
      requires Valid()
      modifies this
      ensures Valid() && ok == (old(Rest()) != [])
      ensures if ok then b == old(Rest())[0] && Rest() == old(Rest())[1..] && state == old(state) + 1
              else state == old(state) && bytesLeft == old(bytesLeft)
    {
      if bytesLeft == 0 {
        return false, 0;
      }
      b := buf[state];
      state := state + 1;
      bytesLeft := bytesLeft - 1;
      return true, b;
    }

    /** pb_read into a destination of count octets. */
    method Read(count: nat) returns (ok: bool, data: seq<byte>)
      requires Valid()
      modifies this
      ensures Valid() && ok == (count <= |old(Rest())|)
      ensures if ok then data == old(Rest())[..count] && Rest() == old(Rest())[count..] && state == old(state) + count
              else state == old(state) && bytesLeft == old(bytesLeft)
    {
      if bytesLeft < count {
        return false, [];
      }
      data := buf[state..state + count];
      assert data == Rest()[..count];
      state := state + count;
      bytesLeft := bytesLeft - count;
      return true, data;
    }

    /**
     What a successful reader has done: the value and the position are those of the specification,
     and the position has advanced by exactly the drop in bytes_left.
     */
    twostate predicate Did<T>(ok: bool, v: T, spec: Read<T>)
      reads this, buf
    {
      && old(Valid()) && Valid() && ok == spec.Some?
      && (ok ==> v == spec.value.0 && Rest() == spec.value.1 && state + bytesLeft == old(state + bytesLeft))
    }

    /** pb_decode_varint. */
    method DecodeVarint() returns (ok: bool, v: nat)
      requires Valid()
      modifies this
      ensures Did(ok, v, ReadVarint(old(Rest())))
      ensures ok ==> v < U64
    {
      Pow2Words();
      var bitpos: nat, result: nat := 0, 0;
      while true
        invariant Valid() && state + bytesLeft == old(state + bytesLeft) && result < Pow2(64)
        invariant ReadVarint(old(Rest())) == VarintFrom(Rest(), bitpos, result)
        decreases bytesLeft
      {
        if bitpos >= 64 {
          return false, 0;
        }
        var more, b := ReadByte();
        if !more {
          return false, 0;
        }
        ShlBound(64, b % 128, bitpos);
        OrBound(result, Shl(64, b % 128, bitpos), 64);
        result := Or(result, Shl(64, b % 128, bitpos));
        bitpos := bitpos + 7;
        if b < 128 {
          return true, result;
        }
      }
    }

    /** pb_decode_varint32_eof; eof reports that nothing was left to read. */
    method DecodeVarint32() returns (ok: bool, v: nat, eof: bool)
      requires Valid()
      modifies this
      ensures Did(ok, v, ReadVarint32(old(Rest())))
      ensures eof == (old(Rest()) == [])
    {
      var more, b := ReadByte();
      if !more {
        return false, 0, true;
      }
      var result: nat := b;
      if b >= 128 {
        var bitpos: nat := 7;
        result := b % 128;
        while true
          invariant Valid() && state + bytesLeft == old(state + bytesLeft)
          invariant ReadVarint32(old(Rest())) == Varint32From(Rest(), bitpos, result)
          decreases bytesLeft
        {
          more, b := ReadByte();
          if !more {
            return false, 0, false;
          }
          if bitpos >= 32 {
            var signExtension: byte := if bitpos < 63 then 0xff else 0x01;
            if b % 128 != 0 && (result < 0x8000_0000 || b != signExtension) {
              return false, 0, false;
            }
          } else {
            result := Or(result, Shl(32, b % 128, bitpos));
          }
          bitpos := (bitpos + 7) % 256;
          if b < 128 {
            break;
          }
        }
        if bitpos == 35 && b / 16 % 8 != 0 {
          return false, 0, false;
        }
      }
      return true, result, false;
    }

    /** pb_decode_fixed32 and pb_decode_fixed64. */
    method DecodeFixed(len: nat) returns (ok: bool, v: nat)
      requires Valid()
      modifies this
      ensures Did(ok, v, ReadFixed(old(Rest()), len))
    {
      var data;
      ok, data := Read(len);
      return ok, if ok then FromLe(data) else 0;
    }

    /** pb_decode_svarint. */
    method DecodeSvarint() returns (ok: bool, v: int)
      requires Valid()
      modifies this
      ensures Did(ok, v, ReadSvarint(old(Rest())))
    {
      var u;
      ok, u := DecodeVarint();
      if !ok {
        return false, 0;
      }
      return true, if u % 2 == 1 then ToS64(Not64(u / 2)) else ToS64(u / 2);
    }

    /** pb_make_string_substream: the parent gives up the octets, its position is fixed up on closing. */
    method MakeSubstream() returns (ok: bool, sub: IStream)
      requires Valid()
      modifies this
      ensures Valid() && ok == ReadString(old(Rest())).Some?
      ensures ok ==> fresh(sub) && sub.Valid() && sub.buf == buf
      ensures ok ==> sub.Rest() == ReadString(old(Rest())).value.0
      ensures ok ==> sub.state + sub.bytesLeft + bytesLeft == old(state + bytesLeft)
      ensures ok ==> buf[sub.state + sub.bytesLeft..sub.state + sub.bytesLeft + bytesLeft] == ReadString(old(Rest())).value.1
      ensures ok ==> sub.bytesLeft + bytesLeft < old(bytesLeft)
    {
      hide ReadVarint32;
      sub := this;
      var size, eof;
      ok, size, eof := DecodeVarint32();
      if !ok {
        return;
      }
      if bytesLeft < size {
        return false, this;
      }
      ghost var rest := Rest();
      assert rest == ReadVarint32(old(Rest())).value.1;
      sub := new IStream(buf, state, size);
      assert sub.Rest() == rest[..size];
      assert rest[size..] == buf[state + size..state + bytesLeft];
      bytesLeft := bytesLeft - size;
    }

    /**
     pb_close_string_substream: whatever the reader of the substream left is skipped, so the parent
     resumes just past the region the length prefix announced.
     */
    method CloseSubstream(sub: IStream, ghost end: nat)
      requires Valid() && sub != this && sub.Valid() && sub.buf == buf
      requires sub.state + sub.bytesLeft == end && end + bytesLeft <= buf.Length
      modifies this, sub
      ensures Valid() && state == end && bytesLeft == old(bytesLeft)
      ensures Rest() == buf[end..end + bytesLeft]
    {
      if sub.bytesLeft > 0 {
        var _, _ := sub.Read(sub.bytesLeft);
      }
      state := sub.state;
    }
  }

  lemma ShlBound(width: nat, x: nat, k: nat)
    ensures Shl(width, x, k) < Pow2(width)
  {
    BitShl(width, x, k, 0);
  }

  function ReadSvarint(s: seq<byte>): (r: Read<int>)
    ensures r.Some? ==> |r.value.1| < |s|
  {
    match ReadVarint(s)
    case None => None
    case Some((u, rest)) => VarintBound(s); Some((UnZigZag(u), rest))
  }

  /** A length-prefixed string. */
  function ReadString(s: seq<byte>): (r: Read<seq<byte>>)
    ensures r.Some? ==> |r.value.0| + |r.value.1| < |s|
  {
    match ReadVarint32(s)
    case None => None
    case Some((n, rest)) => if |rest| < n then None else Some((rest[..n], rest[n..]))
  }

  lemma {:induction false} VarintFromBound(s: seq<byte>, bitpos: nat, acc: nat)
    requires acc < Pow2(64) && VarintFrom(s, bitpos, acc).Some?
    ensures VarintFrom(s, bitpos, acc).value.0 < Pow2(64)
    decreases |s|
  {
    hide Pow2;
    hide Or;
    hide Shl;
    ShlBound(64, s[0] % 128, bitpos);
    OrBound(acc, Shl(64, s[0] % 128, bitpos), 64);
    if s[0] >= 128 {
      VarintFromBound(s[1..], bitpos + 7, Or(acc, Shl(64, s[0] % 128, bitpos)));
    }
  }

  lemma VarintBound(s: seq<byte>)
    requires ReadVarint(s).Some?
    ensures ReadVarint(s).value.0 < U64
  {
    Pow2Words();
    VarintFromBound(s, 0, 0);
  }

  lemma ReadOfString(s: seq<byte>, rest: seq<byte>)
    requires |s| < U32
    ensures ReadString(Varint(|s|) + s + rest) == Some((s, rest))
  {
    hide ReadVarint32;
    hide Varint;
    assert Varint(|s|) + s + rest == Varint(|s|) + (s + rest);
    Varint32Ranges(|s|, s + rest);
  }
}
