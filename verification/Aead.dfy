/**
 SSLAEADContext: how a record's nonce and additional data are laid out around an AEAD.  The AEAD
 itself is a pair of functions; Ideal states the assumption made about it.
 */
module Aead {
  import opened Wrappers
  import opened Bits
  import opened Bytes

  const TLS1_3_VERSION: nat := 0x0304
  const SSL3_VERSION: nat := 0x0300
  const DTLS1_VERSION: nat := 0xfeff

  /** The cipher properties Create looks at; a "stateful" cipher is one with a separate MAC key. */
  datatype CipherKind = ChaCha20Poly1305 | AesGcm | OtherAead | Stateful

  /** The lengths and flags that Create settles. */
  datatype NonceLayout = NonceLayout(
    fixedNonce: seq<byte>,
    variableLen: nat,
    inRecord: bool,
    random: bool,
    xorFixed: bool,
    omitLengthInAd: bool,
    omitVersionInAd: bool,
    omitAd: bool
  ) {
    predicate Valid() {
      && (xorFixed ==> variableLen <= |fixedNonce| && !inRecord)
      && (random ==> inRecord)
      && (!random ==> variableLen == 8)
    }
  }

  /**
   The layout chosen by Create for a cipher whose AEAD takes nonces of aeadNonceLen octets.  None
   stands for a null result or one of the function's assertions.
   */
  function Create(kind: CipherKind, protocolVersion: nat, fixedIv: seq<byte>, aeadNonceLen: nat): (r: Option<NonceLayout>)
    ensures r.Some? ==> r.value.Valid()
    ensures r.Some? && kind.AesGcm? && protocolVersion < TLS1_3_VERSION ==>
              !r.value.random && r.value.inRecord && |fixedIv| + 8 == aeadNonceLen
    ensures r.Some? && kind.ChaCha20Poly1305? ==> !r.value.random && !r.value.inRecord
  {
    var tls13 := protocolVersion >= TLS1_3_VERSION;
    if kind.Stateful? then
      if tls13 then None
      else Some(NonceLayout([], aeadNonceLen, true, true, false, true, protocolVersion == SSL3_VERSION, false))
    else if |fixedIv| > 12 then None
    else if tls13 || kind.ChaCha20Poly1305? then
      if |fixedIv| < 8 then None
      else Some(NonceLayout(fixedIv, 8, false, false, true, false, false, tls13))
    else if aeadNonceLen != |fixedIv| + 8 then None
    else Some(NonceLayout(fixedIv, 8, kind.AesGcm?, false, false, false, false, false))
  }

  /** One call of Seal, with the octets drawn for a random nonce. */
  datatype SealCall = SealCall(typ: byte, version: nat, seqNum: seq<byte>, plaintext: seq<byte>, entropy: seq<byte>)

  /** What one call of the AEAD itself is given. */
  datatype Use = Use(nonce: seq<byte>, ad: seq<byte>, plaintext: seq<byte>)

  datatype Aead = Aead(
    isNull: bool,
    recordVersion: nat,
    layout: NonceLayout,
    maxOverhead: nat,
    tagLen: nat -> nat,
    seal: (seq<byte>, seq<byte>, seq<byte>) -> seq<byte>,
    open: (seq<byte>, seq<byte>, seq<byte>) -> Option<seq<byte>>
  ) {

    function ExplicitNonceLen(): nat {
      if layout.inRecord then layout.variableLen else 0
    }

    function MaxOverhead(): nat {
      ExplicitNonceLen() + if isNull then 0 else maxOverhead
    }

    function SuffixLen(inLen: nat): nat {
      if isNull then 0 else tagLen(inLen)
    }

    /** GetAdditionalData. */
    function AdditionalData(typ: byte, version: nat, seqNum: seq<byte>, plaintextLen: nat): seq<byte> {
      if layout.omitAd then []
      else seqNum + [typ]
           + (if layout.omitVersionInAd then [] else Be(version, 2))
           + (if layout.omitLengthInAd then [] else Be(plaintextLen, 2))
    }

    /** The nonce for a variable part: prefixed by the fixed part, or zero-padded and xor-ed with it. */
    function Nonce(variable: seq<byte>): (n: seq<byte>)
      requires layout.Valid() && |variable| == layout.variableLen
    {
      if layout.xorFixed then
        XorBytes(seq(|layout.fixedNonce| - layout.variableLen, _ => 0) + variable, layout.fixedNonce)
      else
        layout.fixedNonce + variable
    }

    /** Seal, with entropy standing for what RAND_bytes returns when the variable nonce is random. */
    function Seal(typ: byte, version: nat, seqNum: seq<byte>, plaintext: seq<byte>, entropy: seq<byte>,
                  maxOut: nat): (r: Option<seq<byte>>)
      requires !isNull ==> layout.Valid() && |seqNum| == 8 && |entropy| == layout.variableLen
    {
      if |plaintext| + ExplicitNonceLen() + SuffixLen(|plaintext|) > maxOut then None
      else if isNull then Some(plaintext)
      else
        var variable := if layout.random then entropy else seqNum;
        Some((if layout.inRecord then variable else [])
             + seal(Nonce(variable), AdditionalData(typ, version, seqNum, |plaintext|), plaintext))
    }

    function Open(typ: byte, version: nat, seqNum: seq<byte>, ciphertext: seq<byte>): (r: Option<seq<byte>>)
      requires !isNull ==> layout.Valid() && |seqNum| == 8
    {
      if isNull then Some(ciphertext)
      else if !layout.omitLengthInAd && |ciphertext| < MaxOverhead() then None
      else if layout.inRecord && |ciphertext| < layout.variableLen then None
      else
        var plaintextLen := if layout.omitLengthInAd then 0 else |ciphertext| - MaxOverhead();
        var ad := AdditionalData(typ, version, seqNum, plaintextLen);
        if layout.inRecord then
          open(Nonce(ciphertext[..layout.variableLen]), ad, ciphertext[layout.variableLen..])
        else
          open(Nonce(seqNum), ad, ciphertext)
    }

    /**
     The AEAD assumption: opening what was sealed under the same nonce and additional data gives the
     plaintext back, the tag has the announced length, and ciphers that authenticate the length have
     a fixed overhead.
     */
    ghost predicate Ideal() {
      && (forall n, ad, p :: open(n, ad, seal(n, ad, p)) == Some(p) && |seal(n, ad, p)| == |p| + tagLen(|p|))
      && (forall k :: tagLen(k) <= maxOverhead && (!layout.omitLengthInAd ==> tagLen(k) == maxOverhead))
    }

    /** Open rebuilds the nonce and additional data Seal used, so it returns the sealed plaintext. */
    lemma OpenOfSeal(typ: byte, version: nat, seqNum: seq<byte>, plaintext: seq<byte>, entropy: seq<byte>, maxOut: nat)
      requires !isNull ==> Ideal() && layout.Valid() && |seqNum| == 8 && |entropy| == layout.variableLen
      requires Seal(typ, version, seqNum, plaintext, entropy, maxOut).Some?
      ensures Open(typ, version, seqNum, Seal(typ, version, seqNum, plaintext, entropy, maxOut).value) == Some(plaintext)
    {
      if !isNull {
        var variable := if layout.random then entropy else seqNum;
        var n, ad := Nonce(variable), AdditionalData(typ, version, seqNum, |plaintext|);
        var ct := Seal(typ, version, seqNum, plaintext, entropy, maxOut).value;
        assert open(n, ad, seal(n, ad, plaintext)) == Some(plaintext);
        if layout.inRecord {
          assert ct[..layout.variableLen] == variable && ct[layout.variableLen..] == seal(n, ad, plaintext);
        } else {
          assert ct == seal(n, ad, plaintext);
        }
        if layout.omitLengthInAd {
          assert AdditionalData(typ, version, seqNum, 0) == ad;
        }
      }
    }

    /** Sealing writes the length the record layer planned for, and the plan has room for it. */
    lemma SealLength(typ: byte, version: nat, seqNum: seq<byte>, plaintext: seq<byte>, entropy: seq<byte>, maxOut: nat)
      requires !isNull ==> Ideal() && layout.Valid() && |seqNum| == 8 && |entropy| == layout.variableLen
      ensures var r := Seal(typ, version, seqNum, plaintext, entropy, maxOut);
              r.Some? ==> |r.value| == (if isNull then 0 else ExplicitNonceLen()) + |plaintext| + SuffixLen(|plaintext|)
                          && |r.value| <= maxOut
      ensures |plaintext| + MaxOverhead() <= maxOut ==> Seal(typ, version, seqNum, plaintext, entropy, maxOut).Some?
    {
      if !isNull {
        var variable := if layout.random then entropy else seqNum;
        var n, ad := Nonce(variable), AdditionalData(typ, version, seqNum, |plaintext|);
        assert |seal(n, ad, plaintext)| == |plaintext| + tagLen(|plaintext|);
      }
      assert isNull || tagLen(|plaintext|) <= maxOverhead;
    }

    /** Where each part of the additional data stands. */
    lemma AdditionalDataOctets(typ: byte, version: nat, seqNum: seq<byte>, plaintextLen: nat)
      requires |seqNum| == 8
      ensures var ad := AdditionalData(typ, version, seqNum, plaintextLen);
              if layout.omitAd then ad == []
              else
                var v := if layout.omitVersionInAd then 9 else 11;
                && |ad| == v + (if layout.omitLengthInAd then 0 else 2)
                && ad[..8] == seqNum && ad[8] == typ
                && (v == 11 ==> ad[9] == version / 256 % 256 && ad[10] == version % 256)
                && (|ad| == v + 2 ==> ad[v] == plaintextLen / 256 % 256 && ad[v + 1] == plaintextLen % 256)
    {
      TwoOctets(version);
      TwoOctets(plaintextLen);
      if !layout.omitAd {
        assert AdditionalData(typ, version, seqNum, plaintextLen)[..8] == seqNum;
      }
    }

    /** So equal data means equal parts. */
    lemma AdditionalDataInjective(c: SealCall, d: SealCall, m: nat, n: nat)
      requires !layout.omitAd && |c.seqNum| == |d.seqNum| == 8
      requires AdditionalData(c.typ, c.version, c.seqNum, m) == AdditionalData(d.typ, d.version, d.seqNum, n)
      ensures c.typ == d.typ && c.seqNum == d.seqNum
      ensures !layout.omitVersionInAd && c.version < 0x1_0000 && d.version < 0x1_0000 ==> c.version == d.version
      ensures !layout.omitLengthInAd && m < 0x1_0000 && n < 0x1_0000 ==> m == n
    {
      AdditionalDataOctets(c.typ, c.version, c.seqNum, m);
      AdditionalDataOctets(d.typ, d.version, d.seqNum, n);
      hide AdditionalData;
    }

    /** A call can be made with this key. */
    predicate Callable(c: SealCall) {
      layout.Valid() && |c.seqNum| == 8 && |c.entropy| == layout.variableLen && c.version < 0x1_0000
    }

    function Variable(c: SealCall): seq<byte> {
      if layout.random then c.entropy else c.seqNum
    }

    function UseOf(c: SealCall): Use
      requires Callable(c)
    {
      Use(Nonce(Variable(c)), AdditionalData(c.typ, c.version, c.seqNum, |c.plaintext|), c.plaintext)
    }

    /** Authenticity: the AEAD opens only what one of these calls made it seal under that nonce and data. */
    ghost predicate OpensOnly(calls: set<SealCall>)
      requires forall c | c in calls :: Callable(c)
    {
      forall n, ad, ct {:trigger open(n, ad, ct)} | open(n, ad, ct).Some? ::
        exists c | c in calls :: Made(c, n, ad, ct) && open(n, ad, ct) == Some(c.plaintext)
    }

    /** Ciphertext ct under nonce n and data ad is the work of call c. */
    predicate Made(c: SealCall, n: seq<byte>, ad: seq<byte>, ct: seq<byte>)
      requires Callable(c)
    {
      UseOf(c) == Use(n, ad, c.plaintext) && ct == seal(n, ad, c.plaintext)
    }

    /** What a call's Seal returns when there is room. */
    function SealedBy(c: SealCall): Option<seq<byte>>
      requires Callable(c)
    {
      Seal(c.typ, c.version, c.seqNum, c.plaintext, c.entropy,
           |c.plaintext| + ExplicitNonceLen() + SuffixLen(|c.plaintext|))
    }

    lemma SealMakes(c: SealCall)
      requires !isNull && Callable(c)
      ensures SealedBy(c) == Some((if layout.inRecord then Variable(c) else [])
                                  + seal(UseOf(c).nonce, UseOf(c).ad, c.plaintext))
    {
      hide Nonce, AdditionalData;
    }

    /** The same nonce and data come of the same sequence number, type and version. */
    lemma SameUse(c: SealCall, typ: byte, version: nat, seqNum: seq<byte>, variable: seq<byte>, len: nat)
      requires Callable(c) && |seqNum| == 8 && version < 0x1_0000 && |variable| == layout.variableLen
      requires layout.omitAd ==> !layout.inRecord
      requires !layout.inRecord ==> variable == seqNum
      requires UseOf(c) == Use(Nonce(variable), AdditionalData(typ, version, seqNum, len), c.plaintext)
      ensures Variable(c) == variable && c.seqNum == seqNum
      ensures !layout.omitAd ==> c.typ == typ
      ensures !layout.omitAd && !layout.omitVersionInAd ==> c.version == version
    {
      NonceInjective(Variable(c), variable);
      if !layout.omitAd {
        AdditionalDataInjective(c, SealCall(typ, version, seqNum, [], []), |c.plaintext|, len);
      }
    }

    /**
     A record opens only if it is, octet for octet, what Seal made for the same sequence number, type and
     version, and then to what was sealed.  A stateful SSL 3.0 cipher leaves the version out of this, and
     TLS 1.3 everything but the number, which is in its nonce.
     */
    lemma OpensOnlySealed(calls: set<SealCall>, typ: byte, version: nat, seqNum: seq<byte>, ct: seq<byte>)
        returns (c: SealCall)
      requires !isNull && layout.Valid() && |seqNum| == 8 && version < 0x1_0000
      requires layout.omitAd ==> !layout.inRecord
      requires (forall d | d in calls :: Callable(d)) && OpensOnly(calls)
      requires Open(typ, version, seqNum, ct).Some?
      ensures c in calls && c.seqNum == seqNum && Open(typ, version, seqNum, ct) == Some(c.plaintext)
      ensures !layout.omitAd ==> c.typ == typ
      ensures !layout.omitAd && !layout.omitVersionInAd ==> c.version == version
      ensures SealedBy(c) == Some(ct)
    {
      hide Nonce, AdditionalData;
      var len := if layout.omitLengthInAd then 0 else |ct| - MaxOverhead();
      var variable := if layout.inRecord then ct[..layout.variableLen] else seqNum;
      var body := if layout.inRecord then ct[layout.variableLen..] else ct;
      var n, ad := Nonce(variable), AdditionalData(typ, version, seqNum, len);
      assert Open(typ, version, seqNum, ct) == open(n, ad, body);
      c :| c in calls && Made(c, n, ad, body) && open(n, ad, body) == Some(c.plaintext);
      SameUse(c, typ, version, seqNum, variable, len);
      SealMakes(c);
      assert ct == (if layout.inRecord then variable else []) + body;
    }

    /** Distinct variable parts give distinct nonces under one key. */
    lemma NonceInjective(v: seq<byte>, w: seq<byte>)
      requires layout.Valid() && |v| == |w| == layout.variableLen && Nonce(v) == Nonce(w)
      ensures v == w
    {
      if layout.xorFixed {
        var pad := seq(|layout.fixedNonce| - layout.variableLen, _ => 0);
        XorBytesInjective(pad + v, pad + w, layout.fixedNonce);
        assert (pad + v)[|pad|..] == v && (pad + w)[|pad|..] == w;
      } else {
        assert Nonce(v)[|layout.fixedNonce|..] == v && Nonce(w)[|layout.fixedNonce|..] == w;
      }
    }
  }

  lemma TwoOctets(n: nat)
    ensures Be(n, 2) == [n / 256 % 256, n % 256]
  {
    assert Be(n / 256, 1) == Be(n / 256 / 256, 0) + [n / 256 % 256];
  }

  /** The additional data each kind of cipher gets, as RFC 5246, section 6.2.3.3, and RFC 8446 have it. */
  lemma CreatedData(a: Aead, kind: CipherKind, protocolVersion: nat, fixedIv: seq<byte>, aeadNonceLen: nat,
                    typ: byte, version: nat, seqNum: seq<byte>, len: nat)
    requires |seqNum| == 8 && Create(kind, protocolVersion, fixedIv, aeadNonceLen) == Some(a.layout)
    ensures a.layout.omitAd ==> !a.layout.inRecord && !a.layout.random
    ensures a.AdditionalData(typ, version, seqNum, len) ==
              if protocolVersion >= TLS1_3_VERSION then []
              else if !kind.Stateful? then
                seqNum + [typ, version / 256 % 256, version % 256, len / 256 % 256, len % 256]
              else if protocolVersion == SSL3_VERSION then seqNum + [typ]
              else seqNum + [typ, version / 256 % 256, version % 256]
  {
    TwoOctets(version);
    TwoOctets(len);
  }

  function XorByte(a: byte, b: byte): byte {
    assert Pow2(8) == 256;
    XorBound(a, b, 8);
    Xor(a, b)
  }

  function XorBytes(s: seq<byte>, mask: seq<byte>): (r: seq<byte>)
    requires |s| == |mask|
    ensures |r| == |s|
  {
    seq(|s|, i requires 0 <= i < |s| => XorByte(s[i], mask[i]))
  }

  lemma XorBytesInjective(s: seq<byte>, t: seq<byte>, mask: seq<byte>)
    requires |s| == |t| == |mask| && XorBytes(s, mask) == XorBytes(t, mask)
    ensures s == t
  {
    forall i | 0 <= i < |s| ensures s[i] == t[i] {
      assert XorBytes(s, mask)[i] == XorBytes(t, mask)[i];
      XorInvolutive(s[i], mask[i]);
      XorInvolutive(t[i], mask[i]);
    }
  }

  /** The xor loop of Open and SealScatter. */
  method XorInPlace(nonce: array<byte>, mask: seq<byte>)
    requires nonce.Length == |mask|
    modifies nonce
    ensures nonce[..] == XorBytes(old(nonce[..]), mask)
  {
    for i := 0 to |mask|
      invariant forall k | 0 <= k < |mask| ::
                  nonce[k] == if k < i then XorByte(old(nonce[k]), mask[k]) else old(nonce[k])
    {
      nonce[i] := XorByte(nonce[i], mask[i]);
    }
  }

  /** The nonce buffer as Open and SealScatter fill it: fixed part or zeros, variable part, then the xor. */
  method AssembleNonce(a: Aead, variable: seq<byte>) returns (nonce: array<byte>)
    requires a.layout.Valid() && |variable| == a.layout.variableLen
    ensures fresh(nonce) && nonce[..] == a.Nonce(variable)
  {
    var fixed := a.layout.fixedNonce;
    var prefix := if a.layout.xorFixed then |fixed| - a.layout.variableLen else |fixed|;
    nonce := new byte[prefix + a.layout.variableLen](_ => 0);
    if !a.layout.xorFixed {
      CopyInto(nonce, 0, fixed);
    }
    CopyInto(nonce, prefix, variable);
    if a.layout.xorFixed {
      assert nonce[..] == seq(prefix, _ => 0) + variable;
      XorInPlace(nonce, fixed);
    } else {
      assert nonce[..] == fixed + variable;
    }
  }

  /** Seal with SealScatter: choose the variable nonce, assemble the nonce, emit the explicit part. */
  method SealRecordBody(a: Aead, typ: byte, version: nat, seqNum: seq<byte>, plaintext: seq<byte>,
                        entropy: seq<byte>, maxOut: nat) returns (out: Option<seq<byte>>)
    requires !a.isNull ==> a.layout.Valid() && |seqNum| == 8 && |entropy| == a.layout.variableLen
    ensures out == a.Seal(typ, version, seqNum, plaintext, entropy, maxOut)
  {
    var prefixLen := a.ExplicitNonceLen();
    var suffixLen := a.SuffixLen(|plaintext|);
    if |plaintext| + prefixLen + suffixLen > maxOut {
      return None;
    }
    if a.isNull {
      return Some(plaintext);
    }
    var ad := a.AdditionalData(typ, version, seqNum, |plaintext|);
    var variable := if a.layout.random then entropy else seqNum;
    var nonce := AssembleNonce(a, variable);
    var prefix := [];
    if a.layout.inRecord {
      prefix := nonce[|a.layout.fixedNonce|..];
      assert prefix == variable;
    }
    return Some(prefix + a.seal(nonce[..], ad, plaintext));
  }

  /** Open: recover the variable nonce from the record or the sequence number, rebuild nonce and data. */
  method OpenRecordBody(a: Aead, typ: byte, version: nat, seqNum: seq<byte>, input: seq<byte>)
      returns (out: Option<seq<byte>>)
    requires !a.isNull ==> a.layout.Valid() && |seqNum| == 8
    ensures out == a.Open(typ, version, seqNum, input)
  {
    if a.isNull {
      return Some(input);
    }
    var plaintextLen := 0;
    if !a.layout.omitLengthInAd {
      var overhead := a.MaxOverhead();
      if |input| < overhead {
        return None;
      }
      plaintextLen := |input| - overhead;
    }
    var ad := a.AdditionalData(typ, version, seqNum, plaintextLen);
    var body, variable := input, seqNum;
    if a.layout.inRecord {
      if |input| < a.layout.variableLen {
        return None;
      }
      variable := input[..a.layout.variableLen];
      body := input[a.layout.variableLen..];
    }
    var nonce := AssembleNonce(a, variable);
    return a.open(nonce[..], ad, body);
  }
}
