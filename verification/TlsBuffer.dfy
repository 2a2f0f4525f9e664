/** SSLBuffer: a growable buffer whose contents are appended at the end and consumed from the front. */
module TlsBuffer {
  import opened Bytes

  const ALIGN: nat := 8
  const MAX_CAP: nat := 0xffff

  /** Where to start in memory at an address so that what follows a header is aligned. */
  function AlignOffset(address: nat, headerLen: nat): (offset: nat)
    ensures offset < ALIGN && (address + offset + headerLen) % ALIGN == 0
  {
    var misaligned := (address + headerLen) % ALIGN;
    if misaligned == 0 then 0 else ALIGN - misaligned
  }

  /** Capacities that the 16-bit offset can run through without wrapping, wherever the memory lies. */
  predicate CapOk(newCap: nat) {
    newCap + ALIGN - 1 <= MAX_CAP || newCap > MAX_CAP
  }

  class SSLBuffer {
    var buf: array?<byte>
    var offset: nat
    var size: nat
    var cap: nat

    ghost predicate Valid()
      reads this, buf
    {
      && size <= cap <= MAX_CAP && offset <= MAX_CAP
      && if buf == null then offset == size == cap == 0 else offset + cap <= buf.Length
    }

    ghost function Contents(): (s: seq<byte>)
      requires Valid()
      reads this, buf
      ensures |s| == size
    {
      if buf == null then [] else buf[offset..offset + size]
    }

    constructor ()
      ensures Valid() && NoWrap() && buf == null && Contents() == []
    {
      buf, offset, size, cap := null, 0, 0, 0;
    }

    /** The offset stays in 16 bits however much of the room is consumed. */
    predicate NoWrap()
      reads this
    {
      offset + cap <= MAX_CAP
    }

    method Clear()
      modifies this
      ensures Valid() && NoWrap() && Contents() == [] && cap == 0 && buf == null
    {
      buf, offset, size, cap := null, 0, 0, 0;
    }

    /** EnsureCap, where malloc returns memory at the given address. */
    method EnsureCap(headerLen: nat, newCap: nat, address: nat) returns (ok: bool)
      requires Valid()
      modifies this
      ensures Valid() && ok == (newCap <= MAX_CAP)
      ensures Contents() == old(Contents())
      ensures old(NoWrap()) && CapOk(newCap) ==> NoWrap()
      ensures ok ==> cap >= newCap && (buf != null || newCap == 0)
      ensures buf == old(buf) || (fresh(buf) && buf != null)
      ensures old(buf) == null && buf != null ==> (address + offset + headerLen) % ALIGN == 0
    {
      if newCap > MAX_CAP {
        return false;
      }
      if cap >= newCap {
        return true;
      }
      var newBuf := new byte[newCap + ALIGN - 1];
      var newOffset := AlignOffset(address, headerLen);
      if buf != null {
        CopyInto(newBuf, newOffset, buf[offset..offset + size]);
        assert newBuf[newOffset..newOffset + size] == buf[offset..offset + size];
      }
      buf, offset, cap := newBuf, newOffset, newCap;
      return true;
    }

    /** Write into remaining() and report it with DidWrite, which never has to abort. */
    method Append(src: seq<byte>)
      requires Valid() && size + |src| <= cap
      modifies this`size, buf
      ensures Valid() && buf == old(buf) && Contents() == old(Contents()) + src
    {
      if buf != null {
        CopyInto(buf, offset + size, src);
        size := size + |src|;
        assert buf[offset..offset + size] == old(buf[offset..offset + size]) + src;
      }
    }

    /** Past 16 bits the offset wraps, and what is left of the contents would be read from elsewhere in the memory. */
    method Consume(len: nat)
      requires Valid() && len <= size
      modifies this
      ensures Valid() && buf == old(buf)
      ensures len == old(size) || old(offset) + len <= MAX_CAP ==> Contents() == old(Contents())[len..]
      ensures old(NoWrap()) ==> NoWrap()
      ensures old(offset) + len > MAX_CAP ==>
                buf != null && Contents() == buf[old(offset) + len - MAX_CAP - 1..old(offset + size) - MAX_CAP - 1]
    {
      ghost var s := Contents();
      offset := if offset + len > MAX_CAP then offset + len - (MAX_CAP + 1) else offset + len;
      size := size - len;
      cap := cap - len;
      if buf != null && offset == old(offset) + len {
        assert buf[offset..offset + size] == s[len..];
      }
    }

    method DiscardConsumed()
      requires Valid()
      modifies this
      ensures Valid() && Contents() == old(Contents()) && (size == 0 ==> buf == null)
      ensures buf == old(buf) || buf == null
    {
      if size == 0 {
        Clear();
      }
    }
  }
}
