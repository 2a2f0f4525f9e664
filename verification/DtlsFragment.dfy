/**
 DTLS handshake fragments on the wire (section 4.2.2 of RFC 6347): a twelve-octet header holding
 the message type, the whole message's length, its sequence number, and the offset and length of
 the part that follows.
 */
module DtlsFragment {
  import opened Wrappers
  import opened Bytes

  const HM_HEADER_LENGTH: nat := 12
  const U16: nat := 0x1_0000
  const U24: nat := 0x100_0000

  datatype Header = Header(typ: byte, msgLen: nat, seqNum: nat, fragOff: nat, fragLen: nat) {
    /** The fields fit the widths the header gives them. */
    predicate Fits() {
      msgLen < U24 && seqNum < U16 && fragOff < U24 && fragLen < U24
    }

    function Write(): (s: seq<byte>)
      ensures |s| == HM_HEADER_LENGTH
    {
      [typ] + Be(msgLen, 3) + Be(seqNum, 2) + Be(fragOff, 3) + Be(fragLen, 3)
    }
  }

  datatype Parsed = Parsed(hdr: Header, body: seq<byte>, rest: seq<byte>)

  /** dtls1_parse_fragment: reads one fragment off the front of a record, or fails. */
  function ParseFragment(s: seq<byte>): (p: Option<Parsed>)
    ensures p.Some? ==> p.value.hdr.Fits() && |p.value.body| == p.value.hdr.fragLen && |p.value.rest| < |s|
  {
    if |s| < HM_HEADER_LENGTH then
      None
    else
      var hdr := Header(s[0], FromBe(s[1..4]), FromBe(s[4..6]), FromBe(s[6..9]), FromBe(s[9..12]));
      assert Pow256(3) == U24 && Pow256(2) == U16;
      var after := s[HM_HEADER_LENGTH..];
      if |after| < hdr.fragLen then None
      else Some(Parsed(hdr, after[..hdr.fragLen], after[hdr.fragLen..]))
  }

  /** Parsing undoes writing, whatever follows the fragment. */
  lemma ParseOfWrite(hdr: Header, body: seq<byte>, rest: seq<byte>)
    requires hdr.Fits() && |body| == hdr.fragLen
    ensures ParseFragment(hdr.Write() + body + rest) == Some(Parsed(hdr, body, rest))
  {
    assert Pow256(3) == U24 && Pow256(2) == U16;
    FromBeOfBe(hdr.msgLen, 3);
    FromBeOfBe(hdr.seqNum, 2);
    FromBeOfBe(hdr.fragOff, 3);
    FromBeOfBe(hdr.fragLen, 3);
    WriteFields(hdr);
    var w, t := hdr.Write(), body + rest;
    assert w + body + rest == w + t;
    SubOfPrefix(w, t, 1, 4);
    SubOfPrefix(w, t, 4, 6);
    SubOfPrefix(w, t, 6, 9);
    SubOfPrefix(w, t, 9, 12);
    assert (w + t)[HM_HEADER_LENGTH..] == t;
    assert t[..hdr.fragLen] == body && t[hdr.fragLen..] == rest;
  }

  lemma WriteFields(hdr: Header)
    ensures var w := hdr.Write();
            && w[0] == hdr.typ && w[1..4] == Be(hdr.msgLen, 3) && w[4..6] == Be(hdr.seqNum, 2)
            && w[6..9] == Be(hdr.fragOff, 3) && w[9..12] == Be(hdr.fragLen, 3)
  {
  }

  lemma SubOfPrefix(w: seq<byte>, t: seq<byte>, i: nat, j: nat)
    requires i <= j <= |w|
    ensures (w + t)[i..j] == w[i..j]
  {
  }

  /** Whatever parses is the writing of what it parsed to, so a fragment has one wire form. */
  lemma WriteOfParse(s: seq<byte>)
    requires ParseFragment(s).Some?
    ensures var p := ParseFragment(s).value; s == p.hdr.Write() + p.body + p.rest
  {
    var p := ParseFragment(s).value;
    BeOfFromBe(s[1..4]);
    BeOfFromBe(s[4..6]);
    BeOfFromBe(s[6..9]);
    BeOfFromBe(s[9..12]);
    assert s[..12] == [s[0]] + s[1..4] + s[4..6] + s[6..9] + s[9..12];
    assert p.body + p.rest == s[12..];
    assert s == s[..12] + s[12..];
  }
}
