/** Blob fetches: the slot that names a record, the physical record number, the three-unit reply. */
module Blob {
  import opened Wrappers
  import opened Bytes
  import opened Wire
  import Msg

  datatype BlobError = SlotTooSmall | TooShort | MissingUnit | BadUnit | Malformed

  const PACK_STREAM_OFFSET: nat := 7
  const MD5_LEN: nat := 16

  // ----- slots -----

  function SlotLength(pk: Buffer): nat {
    9 + MD5_LEN + 1 + |pk| + 9
  }

  /** Header with the record number twice, row MD5, PK block, trailer with the number twice, zero tail. */
  function Slot(phys: nat, md5: Buffer, pk: Buffer, length: nat): Result<Buffer, BlobError> {
    if SlotLength(pk) > length then Err(SlotTooSmall)
    else
      Ok([0] + LeBytes(phys, 4) + LeBytes(phys, 4) + md5 + [1] + pk
         + [1] + LeBytes(phys, 4) + LeBytes(phys, 4) + Zeros(length - SlotLength(pk)))
  }

  /** Write bytes right behind what has been written so far; the rest of the buffer is still zero. */
  method PutBytes(a: array<Byte>, at: nat, bytes: Buffer, ghost done: Buffer)
    requires |done| == at && at + |bytes| <= a.Length
    requires a[..] == done + Zeros(a.Length - at)
    modifies a
    ensures a[..] == done + bytes + Zeros(a.Length - at - |bytes|)
  {
    for i := 0 to |bytes|
      invariant a[..] == done + bytes[..i] + Zeros(a.Length - at - i)
    {
      a[at + i] := bytes[i];
    }
  }

  /** build_slot: the fields are written into a zeroed buffer. */
  method BuildSlot(phys: nat, md5: Buffer, pk: Buffer, length: nat) returns (r: Result<Buffer, BlobError>)
    requires |md5| == MD5_LEN
    ensures r == Slot(phys, md5, pk, length)
  {
    hide LeBytes;
    var used := SlotLength(pk);
    if used > length { return Err(SlotTooSmall); }
    var slot := new Byte[length](_ => 0);
    assert slot[..] == [] + Zeros(length);
    var n := LeBytes(phys, 4);
    PutBytes(slot, 0, [0], []);
    PutBytes(slot, 1, n, [] + [0]);
    PutBytes(slot, 5, n, [] + [0] + n);
    PutBytes(slot, 9, md5, [] + [0] + n + n);
    ghost var head := [] + [0] + n + n + md5;
    PutBytes(slot, 25, [1], head);
    PutBytes(slot, 26, pk, head + [1]);
    var t := 26 + |pk|;
    PutBytes(slot, t, [1], head + [1] + pk);
    PutBytes(slot, t + 1, n, head + [1] + pk + [1]);
    PutBytes(slot, t + 5, n, head + [1] + pk + [1] + n);
    assert head == [0] + n + n + md5;
    return Ok(slot[..]);
  }

  /** A slot names its record: number, MD5 and key can all be read off it, so no two records share one. */
  lemma SlotNamesRecord(phys: nat, md5: Buffer, pk: Buffer, length: nat)
    requires phys < U32_LIMIT && |md5| == MD5_LEN && SlotLength(pk) <= length
    ensures var s := Slot(phys, md5, pk, length).value;
            && |s| == length
            && LeValue(s[1..5]) == phys && LeValue(s[5..9]) == phys
            && s[9..25] == md5 && s[26..26 + |pk|] == pk
            && s[0] == 0 && s[25] == s[26 + |pk|] == 1
            && LeValue(s[27 + |pk|..31 + |pk|]) == phys && LeValue(s[31 + |pk|..35 + |pk|]) == phys
            && forall i :: 35 + |pk| <= i < length ==> s[i] == 0
  {
    hide LeBytes, LeValue;
    var s := Slot(phys, md5, pk, length).value;
    var n := LeBytes(phys, 4);
    var head := [0] + n + n + md5 + [1] + pk;
    var t := [1] + n + n + Zeros(length - SlotLength(pk));
    assert s == head + t && |head| == 26 + |pk|;
    assert head[1..5] == n && head[5..9] == n && head[9..25] == md5 && head[26..26 + |pk|] == pk;
    assert t[1..5] == n && t[5..9] == n;
    SlotParts(s, head, t);
    LeRoundTrip32(phys);
  }

  lemma SlotParts(s: Buffer, a: Buffer, b: Buffer)
    requires s == a + b
    ensures forall i, j :: 0 <= i <= j <= |a| ==> s[i..j] == a[i..j]
    ensures forall i, j :: 0 <= i <= j <= |b| ==> s[|a| + i..|a| + j] == b[i..j]
  {
    forall i, j | 0 <= i <= j <= |a|
      ensures s[i..j] == a[i..j]
    {
    }
    forall i, j | 0 <= i <= j <= |b|
      ensures s[|a| + i..|a| + j] == b[i..j]
    {
    }
  }

  // ----- bookmarks -----

  /** The last four bytes, big-endian, without the top bit; 0 for anything shorter. */
  function PhysicalRecordNumber(bookmark: Buffer): (n: nat)
    ensures n < 0x8000_0000 && (|bookmark| < 4 ==> n == 0)
  {
    if |bookmark| < 4 then 0
    else
      var off := |bookmark| - 4;
      var (b0: int, b1: int, b2: int, b3: int) := (bookmark[off] % 0x80, bookmark[off + 1], bookmark[off + 2], bookmark[off + 3]);
      b0 * 0x100_0000 + b1 * 0x1_0000 + b2 * 0x100 + b3
  }

  /** How the server stores the number: three bytes and seven bits big-endian, the top bit set. */
  function PhysBytes(n: nat): Buffer
    requires n < 0x8000_0000
  {
    [0x80 + n / 0x100_0000, (n / 0x1_0000) % 0x100, (n / 0x100) % 0x100, n % 0x100]
  }

  /** Whatever precedes it in the bookmark, the stored number is recovered. */
  lemma PhysRoundTrip(pre: Buffer, n: nat)
    requires n < 0x8000_0000
    ensures PhysicalRecordNumber(pre + PhysBytes(n)) == n
  {
    var b := pre + PhysBytes(n);
    var off := |pre|;
    assert b[off..] == PhysBytes(n);
    Split256(n);
    Split256(n / 0x100);
    Split256(n / 0x1_0000);
    assert b[off] == PhysBytes(n)[0] && b[off + 1] == PhysBytes(n)[1] && b[off + 2] == PhysBytes(n)[2] && b[off + 3] == PhysBytes(n)[3];
  }

  lemma Split256(n: nat)
    ensures n == n / 0x100 * 0x100 + n % 0x100 && n / 0x100 / 0x100 == n / 0x1_0000 && n / 0x1_0000 / 0x100 == n / 0x100_0000
  {
  }

  // ----- replies -----

  datatype Outcome = Outcome(payload: Buffer, slotEcho: Buffer)

  function RequireUnit(body: Buffer, pos: nat): (r: Result<(Buffer, nat), BlobError>)
    ensures r.Ok? ==> pos + 4 <= r.value.1 <= |body|
  {
    match UnitAt(body, pos)
    case Err(_) => Err(Malformed)
    case Ok(None) => Err(MissingUnit)
    case Ok(Some(unit)) => Ok(unit)
  }

  /** The slot the server echoes, a four-byte size, and a payload of exactly that size. */
  function ParseReply(body: Buffer): Result<Outcome, BlobError> {
    if |body| < PACK_STREAM_OFFSET then Err(TooShort)
    else
      var echo :- RequireUnit(body, PACK_STREAM_OFFSET);
      var size :- RequireUnit(body, echo.1);
      if |size.0| != 4 then Err(BadUnit)
      else
        var payload :- RequireUnit(body, size.1);
        if |payload.0| != LeValue(size.0) then Err(BadUnit) else Ok(Outcome(payload.0, echo.0))
  }

  method NextRequired(w: Walker) returns (r: Result<Buffer, BlobError>)
    modifies w
    ensures match RequireUnit(w.buf, old(w.pos))
            case Err(e) => r == Err(e)
            case Ok((payload, next)) => r == Ok(payload) && w.pos == next
  {
    var unit := w.NextUnit();
    if unit.Err? { return Err(Malformed); }
    if unit.value.None? { return Err(MissingUnit); }
    return Ok(unit.value.value);
  }

  method ParseOpenBlobResponse(body: Buffer) returns (r: Result<Outcome, BlobError>)
    ensures r == ParseReply(body)
  {
    if |body| < PACK_STREAM_OFFSET { return Err(TooShort); }
    var w := new Walker(body, PACK_STREAM_OFFSET);
    var echo :- NextRequired(w);
    var size :- NextRequired(w);
    if |size| != 4 { return Err(BadUnit); }
    var payload :- NextRequired(w);
    if |payload| != LeValue(size) { return Err(BadUnit); }
    return Ok(Outcome(payload, echo));
  }

  /** Of any three units a reply is made of exactly if the second has four bytes and says how long the third is. */
  lemma RepliesAreExact(reqcode: nat, echo: Buffer, size: Buffer, payload: Buffer)
    requires |echo| < U32_LIMIT && |size| < U32_LIMIT && |payload| < U32_LIMIT
    ensures ParseReply(Msg.Message(reqcode, PackAll([echo, size, payload])))
         == if |size| == 4 && LeValue(size) == |payload| then Ok(Outcome(payload, echo)) else Err(BadUnit)
  {
    hide ParseReply, PackAll, LeValue, Pack;
    UnitsInBody(Msg.Message(reqcode, PackAll([echo, size, payload])), echo, size, payload);
  }

  lemma UnitsInBody(body: Buffer, echo: Buffer, size: Buffer, payload: Buffer)
    requires |echo| < U32_LIMIT && |size| < U32_LIMIT && |payload| < U32_LIMIT
    requires |body| >= PACK_STREAM_OFFSET && body[PACK_STREAM_OFFSET..] == PackAll([echo, size, payload])
    ensures ParseReply(body) == if |size| == 4 && LeValue(size) == |payload| then Ok(Outcome(payload, echo)) else Err(BadUnit)
  {
    hide ParseReply, RequireUnit, PackAll, LeValue, Pack;
    var p, q, r := UnitEnds(body, echo, size, payload);
    FromUnits(body, echo, size, payload, p, q, r);
  }

  lemma UnitEnds(body: Buffer, echo: Buffer, size: Buffer, payload: Buffer) returns (p: nat, q: nat, r: nat)
    requires |echo| < U32_LIMIT && |size| < U32_LIMIT && |payload| < U32_LIMIT
    requires |body| >= PACK_STREAM_OFFSET && body[PACK_STREAM_OFFSET..] == PackAll([echo, size, payload])
    ensures RequireUnit(body, PACK_STREAM_OFFSET) == Ok((echo, p)) && RequireUnit(body, p) == Ok((size, q))
    ensures RequireUnit(body, q) == Ok((payload, r))
  {
    hide ParseReply, RequireUnit, PackAll, LeValue, Pack;
    ThreeUnits(body, PACK_STREAM_OFFSET, echo, size, payload);
    p, q, r := PACK_STREAM_OFFSET + 4 + |echo|, PACK_STREAM_OFFSET + 8 + |echo| + |size|, PACK_STREAM_OFFSET + 12 + |echo| + |size| + |payload|;
  }

  lemma FromUnits(body: Buffer, echo: Buffer, size: Buffer, payload: Buffer, p: nat, q: nat, r: nat)
    requires |body| >= PACK_STREAM_OFFSET
    requires RequireUnit(body, PACK_STREAM_OFFSET) == Ok((echo, p)) && RequireUnit(body, p) == Ok((size, q))
    requires RequireUnit(body, q) == Ok((payload, r))
    ensures ParseReply(body) == if |size| == 4 && LeValue(size) == |payload| then Ok(Outcome(payload, echo)) else Err(BadUnit)
  {
    hide RequireUnit, LeValue;
  }

  /** With a unit less it is none. */
  lemma TwoUnitsAreMissingOne(reqcode: nat, echo: Buffer, size: Buffer)
    requires |echo| < U32_LIMIT && |size| < U32_LIMIT
    ensures ParseReply(Msg.Message(reqcode, PackAll([echo, size]))) == Err(if |size| == 4 then MissingUnit else BadUnit)
    ensures ParseReply(Msg.Message(reqcode, PackAll([echo]))) == Err(MissingUnit)
    ensures ParseReply(Msg.Message(reqcode, PackAll([]))) == Err(MissingUnit)
    ensures forall body: Buffer :: |body| < 7 ==> ParseReply(body) == Err(TooShort)
  {
    hide Pack;
    assert [echo, size][1..] == [size] && [echo][1..] == [] && [size][1..] == [];
    var two, one, none := Msg.Message(reqcode, PackAll([echo, size])), Msg.Message(reqcode, PackAll([echo])), Msg.Message(reqcode, PackAll([]));
    UnitRoundTrip(two, PACK_STREAM_OFFSET, echo, PackAll([size]));
    UnitRoundTrip(two, PACK_STREAM_OFFSET + 4 + |echo|, size, []);
    UnitRoundTrip(one, PACK_STREAM_OFFSET, echo, []);
    UnitAtEnd(two, |two|);
    UnitAtEnd(one, |one|);
    UnitAtEnd(none, |none|);
  }

  /** A reply packed by the server is read back: payload and echoed slot, of any lengths. */
  lemma ReplyRoundTrip(reqcode: nat, echo: Buffer, payload: Buffer)
    requires |echo| < U32_LIMIT && |payload| < U32_LIMIT
    ensures ParseReply(Msg.Message(reqcode, PackAll([echo, LeBytes(|payload|, 4), payload]))) == Ok(Outcome(payload, echo))
  {
    var size := LeBytes(|payload|, 4);
    var body := Msg.Message(reqcode, PackAll([echo, size, payload]));
    ThreeUnits(body, PACK_STREAM_OFFSET, echo, size, payload);
    LeRoundTrip32(|payload|);
  }

  lemma ThreeUnits(body: Buffer, pos: nat, a: Buffer, b: Buffer, c: Buffer)
    requires |a| < U32_LIMIT && |b| < U32_LIMIT && |c| < U32_LIMIT
    requires pos <= |body| && body[pos..] == PackAll([a, b, c])
    ensures RequireUnit(body, pos) == Ok((a, pos + 4 + |a|))
    ensures RequireUnit(body, pos + 4 + |a|) == Ok((b, pos + 8 + |a| + |b|))
    ensures RequireUnit(body, pos + 8 + |a| + |b|) == Ok((c, pos + 12 + |a| + |b| + |c|))
  {
    hide Pack, UnitAt;
    assert [a, b, c][1..] == [b, c] && [b, c][1..] == [c];
    PackOne(c);
    UnitRoundTrip(body, pos, a, PackAll([b, c]));
    UnitRoundTrip(body, pos + 4 + |a|, b, PackAll([c]));
    assert PackAll([c]) + [] == PackAll([c]);
    UnitRoundTrip(body, pos + 8 + |a| + |b|, c, []);
  }
}
