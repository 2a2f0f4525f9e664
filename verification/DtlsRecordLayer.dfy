/**
 The code of the DTLS record layer, on the state it keeps: the sequence numbers as byte arrays, the
 epochs, the keys and the replay bitmap.  Each method acts as the specification in DtlsRecord says.
 */
module DtlsRecordLayer {
  import opened Wrappers
  import opened Bits
  import opened Bytes
  import opened Aead
  import opened DtlsReplay
  import DtlsRecord

  type WriteState = DtlsRecord.WriteState
  type ReadState = DtlsRecord.ReadState

  // ---- ssl_record_sequence_update ---------------------------------------------------------

  lemma {:induction false} ZerosValue(k: nat)
    ensures FromBe(seq(k, _ => 0)) == 0
  {
    if k > 0 {
      ZerosValue(k - 1);
      assert seq(k, _ => 0 as byte)[..k - 1] == seq(k - 1, _ => 0);
    }
  }

  lemma {:induction false} MaxedValue(k: nat)
    ensures FromBe(seq(k, _ => 255)) + 1 == Pow256(k)
  {
    if k > 0 {
      MaxedValue(k - 1);
      assert seq(k, _ => 255 as byte)[..k - 1] == seq(k - 1, _ => 255);
    }
  }

  lemma {:induction false} LastOctet(s: seq<byte>, b: byte)
    ensures FromBe(s + [b]) == FromBe(s) * 256 + b
  {
    assert (s + [b])[..|s|] == s;
  }

  /** The value of a number whose low k octets all hold b. */
  lemma RunValue(s: seq<byte>, head: seq<byte>, b: byte, k: nat)
    requires s == head + seq(k, _ => b)
    ensures b == 0 ==> FromBe(s) == FromBe(head) * Pow256(k)
    ensures b == 255 ==> FromBe(s) + 1 == FromBe(head) * Pow256(k) + Pow256(k)
  {
    FromBeConcat(head, seq(k, _ => b));
    ZerosValue(k);
    MaxedValue(k);
  }

  /** A carry that stops at octet j adds one. */
  lemma CarryStops(before: seq<byte>, after: seq<byte>, j: nat)
    requires |before| == |after| && j < |before| && before[..j] == after[..j]
    requires before[j] as int + 1 == after[j]
    requires forall k | j < k < |before| :: before[k] == 255 && after[k] == 0
    ensures FromBe(after) == FromBe(before) + 1
    ensures (FromBe(before) + 1) % Pow256(|before|) == FromBe(after)
  {
    hide FromBe;
    hide Pow256;
    var k := |before| - j - 1;
    var b, a := before[..j] + [before[j]], before[..j] + [after[j]];
    RunValue(before, b, 255, k);
    RunValue(after, a, 0, k);
    LastOctet(before[..j], before[j]);
    LastOctet(before[..j], after[j]);
    Distribute(FromBe(b), Pow256(k));
    ModUnique(FromBe(after), Pow256(|before|), 0, FromBe(after));
  }

  /** A carry through every octet wraps to zero. */
  lemma CarryWraps(before: seq<byte>, after: seq<byte>)
    requires |before| == |after| && forall k | 0 <= k < |before| :: before[k] == 255 && after[k] == 0
    ensures FromBe(after) == 0 && FromBe(before) + 1 == Pow256(|before|)
    ensures (FromBe(before) + 1) % Pow256(|before|) == FromBe(after)
  {
    assert before == seq(|before|, _ => 255) && after == seq(|before|, _ => 0);
    MaxedValue(|before|);
    ZerosValue(|before|);
    ModUnique(Pow256(|before|), Pow256(|before|), 1, 0);
  }

  lemma Distribute(x: nat, p: nat)
    ensures (x + 1) * p == x * p + p
  {
  }

  /**
   Step the big-endian number in s[from..], reporting failure exactly when it wraps to zero.
   */
  method SequenceUpdate(s: array<byte>, from: nat) returns (ok: bool)
    requires from <= s.Length
    modifies s
    ensures s[..from] == old(s[..from])
    ensures FromBe(s[from..]) == (FromBe(old(s[from..])) + 1) % Pow256(s.Length - from)
    ensures ok <==> FromBe(old(s[from..])) + 1 < Pow256(s.Length - from)
  {
    ghost var before := s[from..];
    var i := s.Length;
    while i > from
      invariant from <= i <= s.Length
      invariant forall k | 0 <= k < i :: s[k] == old(s[k])
      invariant forall k | i <= k < s.Length :: s[k] == 0 && old(s[k]) == 255
    {
      i := i - 1;
      s[i] := if s[i] == 255 then 0 else s[i] + 1;
      if s[i] != 0 {
        CarryStops(before, s[from..], i - from);
        return true;
      }
    }
    CarryWraps(before, s[from..]);
    return false;
  }

  // ---- Writing ----------------------------------------------------------------------------

  class Writer {
    var epoch: nat
    var aead: Aead
    var lastAead: Option<Aead>
    const writeSequence: array<byte>
    const lastWriteSequence: array<byte>
    const entropy: (nat, nat) -> byte
    var drawn: nat

    ghost predicate Valid()
      reads this, writeSequence, lastWriteSequence
    {
      && writeSequence != lastWriteSequence
      && writeSequence.Length == lastWriteSequence.Length == 8
      && DtlsRecord.WriteInv(Abs())
    }

    ghost function Abs(): WriteState
      requires writeSequence.Length == lastWriteSequence.Length == 8
      reads this, writeSequence, lastWriteSequence
    {
      DtlsRecord.WriteState(
        epoch,
        DtlsRecord.Epoch(aead, FromBe(writeSequence[2..])),
        if lastAead.None? then None else Some(DtlsRecord.Epoch(lastAead.value, FromBe(lastWriteSequence[2..]))),
        entropy, drawn)
    }

    constructor (nullCipher: Aead, entropy: (nat, nat) -> byte)
      requires nullCipher.isNull && nullCipher.recordVersion < 0x1_0000
      ensures Valid() && fresh(writeSequence) && fresh(lastWriteSequence)
      ensures Abs() == DtlsRecord.WriteState(0, DtlsRecord.Epoch(nullCipher, 0), None, entropy, 0)
    {
      epoch, aead, lastAead, drawn := 0, nullCipher, None, 0;
      this.entropy := entropy;
      writeSequence := new byte[8](_ => 0);
      lastWriteSequence := new byte[8](_ => 0);
      new;
      ZerosValue(6);
      assert writeSequence[2..] == seq(6, _ => 0);
    }

    /** Step the chosen key's sequence number, once its record is sealed. */
    method Step(usePrevious: bool) returns (ok: bool)
      requires Valid() && DtlsRecord.Usable(Abs(), usePrevious)
      modifies this`drawn, writeSequence, lastWriteSequence
      ensures Valid() && (Abs(), ok) == DtlsRecord.Bump(old(Abs()), usePrevious)
    {
      assert Pow256(6) == DtlsRecord.SEQ_LIMIT;
      drawn := drawn + 1;
      ok := SequenceUpdate(if usePrevious then lastWriteSequence else writeSequence, 2);
    }

    /** dtls_seal_record. */
    method Seal(usePrevious: bool, typ: byte, payload: seq<byte>, maxOut: nat) returns (result: DtlsRecord.SealResult)
      requires Valid() && DtlsRecord.Usable(Abs(), usePrevious)
      modifies this`drawn, writeSequence, lastWriteSequence
      ensures Valid()
      ensures (Abs(), result) == DtlsRecord.SealRecord(old(Abs()), usePrevious, typ, payload, maxOut)
    {
      ghost var ws := Abs();
      var recordEpoch, key, s := epoch, aead, writeSequence;
      if usePrevious {
        recordEpoch, key, s := epoch - 1, lastAead.value, lastWriteSequence;
      }
      if maxOut < DtlsRecord.RT_HEADER_LENGTH {
        return DtlsRecord.Failed;
      }
      var version := aead.recordVersion;
      var wireSeq := Be(recordEpoch, 2) + s[2..];
      BeOfFromBe(s[2..]);
      assert wireSeq == DtlsRecord.WireSeq(ws, usePrevious);
      var random := DtlsRecord.Draw(entropy, drawn, key.layout.variableLen);
      var ct := SealRecordBody(key, typ, version, wireSeq, payload, random, maxOut - DtlsRecord.RT_HEADER_LENGTH);
      if ct.None? {
        return DtlsRecord.Failed;
      }
      var ok := Step(usePrevious);
      if !ok || |ct.value| >= 0x1_0000 {
        return DtlsRecord.Failed;
      }
      return DtlsRecord.Sealed(DtlsRecord.RecordBytes(typ, version, wireSeq, ct.value));
    }

    /** dtls1_set_write_state. */
    method ChangeKey(newAead: Aead)
      requires Valid() && DtlsRecord.KeyOk(newAead) && newAead.recordVersion < 0x1_0000
      modifies this, writeSequence, lastWriteSequence
      ensures Valid() && Abs() == DtlsRecord.SetWriteState(old(Abs()), newAead)
    {
      epoch := (epoch + 1) % DtlsRecord.EPOCH_LIMIT;
      CopyInto(lastWriteSequence, 0, writeSequence[..]);
      CopyInto(writeSequence, 0, seq(8, _ => 0));
      assert lastWriteSequence[2..] == old(writeSequence[2..]);
      assert writeSequence[2..] == seq(6, _ => 0);
      ZerosValue(6);
      lastAead := Some(aead);
      aead := newAead;
    }
  }

  // ---- Reading ----------------------------------------------------------------------------

  class Reader {
    var epoch: nat
    const bitmap: Bitmap
    var aead: Aead
    var closed: bool

    ghost predicate Valid()
      reads this
    {
      DtlsRecord.ReadInv(DtlsRecord.ReadState(epoch, EMPTY_WINDOW, aead, closed))
    }

    ghost function Abs(): ReadState
      reads this, bitmap
    {
      DtlsRecord.ReadState(epoch, bitmap.Abs(), aead, closed)
    }

    constructor (nullCipher: Aead)
      requires nullCipher.isNull
      ensures Valid() && fresh(bitmap) && Abs() == DtlsRecord.ReadState(0, EMPTY_WINDOW, nullCipher, false)
    {
      epoch, aead, closed := 0, nullCipher, false;
      bitmap := new Bitmap();
    }

    /** dtls_open_record. */
    method Open(input: seq<byte>) returns (result: DtlsRecord.OpenRecordResult)
      requires Valid()
      modifies bitmap
      ensures Valid() && (Abs(), result) == DtlsRecord.OpenRecord(old(Abs()), input)
    {
      if closed {
        return DtlsRecord.CloseNotify;
      }
      if input == [] {
        return DtlsRecord.NeedMore;
      }
      var parsed := DtlsRecord.ParseRecord(input);
      if parsed.None? {
        return DtlsRecord.Dropped(|input|);
      }
      var raw := parsed.value;
      var versionOk := if aead.isNull then raw.version / 256 == DtlsRecord.VERSION_MAJOR
                       else raw.version == aead.recordVersion;
      if !versionOk {
        return DtlsRecord.Dropped(|input|);
      }
      var consumed := DtlsRecord.RT_HEADER_LENGTH + |raw.body|;
      var recordEpoch := FromBe(raw.wireSeq[..2]);
      var discard := bitmap.Discards(raw.wireSeq);
      if recordEpoch != epoch || discard {
        return DtlsRecord.Dropped(consumed);
      }
      var out := OpenRecordBody(aead, raw.typ, raw.version, raw.wireSeq, raw.body);
      if out.None? {
        return DtlsRecord.Dropped(consumed);
      }
      if |out.value| > DtlsRecord.MAX_PLAIN_LENGTH {
        return DtlsRecord.RecordOverflow(consumed);
      }
      bitmap.Accept(raw.wireSeq);
      if raw.typ == DtlsRecord.RT_ALERT {
        return DtlsRecord.AlertRecord(out.value, consumed);
      }
      return DtlsRecord.Opened(raw.typ, out.value, consumed);
    }

    /** dtls1_set_read_state, once handshake data has been found processed. */
    method ChangeKey(newAead: Aead)
      requires Valid() && (!newAead.isNull ==> newAead.layout.Valid())
      modifies this, bitmap
      ensures Valid() && Abs() == DtlsRecord.SetReadState(old(Abs()), newAead)
    {
      epoch := (epoch + 1) % DtlsRecord.EPOCH_LIMIT;
      bitmap.Reset();
      aead := newAead;
    }
  }
}
