/** Request bodies: a 7-byte header with the inner length patched in last, then Pack units. */
module Msg {
  import opened Wrappers
  import opened Bytes
  import opened Wire

  const CONNECT: nat := 0x0000
  const OPEN_BLOB: nat := 0x0280

  const HEADER_LEN: nat := 7

  /** A finished body: flag 0, the request code, the inner length, the inner section. */
  function Message(reqcode: nat, inner: Buffer): (m: Buffer)
    ensures |m| == HEADER_LEN + |inner| && m[HEADER_LEN..] == inner
  {
    [0] + LeBytes(reqcode, 2) + LeBytes(|inner| % U32_LIMIT, 4) + inner
  }

  class MsgBuilder {
    const reqcode: nat
    var body: Buffer
    ghost var units: seq<Buffer> // what has been packed so far

    ghost predicate Valid()
      reads this
    {
      && |body| >= HEADER_LEN
      && body[..3] == [0] + LeBytes(reqcode, 2)
      && body[HEADER_LEN..] == PackAll(units)
    }

    constructor (reqcode: nat)
      ensures Valid() && units == [] && this.reqcode == reqcode
    {
      this.reqcode := reqcode;
      body := [0] + LeBytes(reqcode, 2) + LeBytes(0, 4);
      units := [];
    }

    method Pack(payload: Buffer)
      requires Valid()
      modifies this
      ensures Valid() && units == old(units) + [payload]
    {
      hide LeBytes, PackAll;
      ghost var before := body;
      body := body + LeBytes(|payload| % U32_LIMIT, 4);
      body := body + payload;
      assert body == before + Wire.Pack(payload);
      assert body[HEADER_LEN..] == before[HEADER_LEN..] + Wire.Pack(payload) && body[..3] == before[..3];
      PackAllConcat(units, [payload]);
      PackOne(payload);
      units := units + [payload];
    }

    method PackU8(v: Byte)
      requires Valid()
      modifies this
      ensures Valid() && units == old(units) + [[v]]
    {
      Pack([v]);
    }

    method PackU16(v: nat)
      requires Valid()
      modifies this
      ensures Valid() && units == old(units) + [LeBytes(v, 2)]
    {
      Pack(LeBytes(v, 2));
    }

    method PackU32(v: nat)
      requires Valid()
      modifies this
      ensures Valid() && units == old(units) + [LeBytes(v, 4)]
    {
      Pack(LeBytes(v, 4));
    }

    method PackU64(v: nat)
      requires Valid()
      modifies this
      ensures Valid() && units == old(units) + [LeBytes(v, 8)]
    {
      Pack(LeBytes(v, 8));
    }

    /** Patch the inner length in place and hand the body over. */
    method Finish() returns (r: Buffer)
      requires Valid()
      modifies this
      ensures r == Message(reqcode, PackAll(old(units)))
    {
      var innerLen := |body| - HEADER_LEN;
      var len := LeBytes(innerLen % U32_LIMIT, 4);
      ghost var was := body;
      body := body[3 := len[0]][4 := len[1]][5 := len[2]][6 := len[3]];
      r := body;
      assert r == was[..3] + len + was[HEADER_LEN..];
    }
  }

  // ----- builders -----

  /** An OpenBlob request; the last byte is vestigial. */
  method BuildOpenBlob(cursor: nat, ordinal: nat, slot: Buffer) returns (r: Buffer)
    ensures r == Message(0x0280, PackAll([LeBytes(cursor, 4), LeBytes(ordinal, 2), slot, [0], [0], [0]]))
  {
    var m := new MsgBuilder(OPEN_BLOB);
    m.PackU32(cursor);
    m.PackU16(ordinal);
    m.Pack(slot);
    m.PackU8(0);
    m.PackU8(0);
    m.PackU8(0);
    assert m.units == [LeBytes(cursor, 4), LeBytes(ordinal, 2), slot, [0], [0], [0]];
    r := m.Finish();
  }

  /** build_read_first_record_block and build_read_next_record_block differ only in the request code, 050A and 04F6. */
  method BuildReadRecordBlock(reqcode: nat, cursor: nat, maxRecords: nat) returns (r: Buffer)
    requires reqcode == 0x050A || reqcode == 0x04F6
    ensures r == Message(reqcode, PackAll([LeBytes(cursor, 4), LeBytes(maxRecords, 4)]))
  {
    var m := new MsgBuilder(reqcode);
    m.PackU32(cursor);
    m.PackU32(maxRecords);
    assert m.units == [LeBytes(cursor, 4), LeBytes(maxRecords, 4)];
    r := m.Finish();
  }

  /** The Connect body: version, a zero byte, the host name and a nonce, then four bytes of padding. */
  function ConnectUnits(hostname: Buffer, nonce: nat): seq<Buffer> {
    [LeBytes(0xAB7C, 8), [0], hostname, LeBytes(nonce, 4)]
  }

  method BuildConnect(hostname: Buffer, nonce: nat) returns (r: Buffer)
    ensures r == Message(0x0000, PackAll(ConnectUnits(hostname, nonce))) + Zeros(4)
  {
    var m := new MsgBuilder(CONNECT);
    m.PackU64(0xAB7C);
    m.PackU8(0);
    m.Pack(hostname);
    m.PackU32(nonce);
    assert m.units == ConnectUnits(hostname, nonce);
    r := m.Finish();
    r := r + Zeros(4);
  }

  lemma {:induction false} PackAllLength(payloads: seq<Buffer>)
    requires payloads != []
    ensures |PackAll(payloads)| == 4 + |payloads[0]| + |PackAll(payloads[1..])|
  {
  }

  /** The inner section of a Connect body is never short: at least 33 bytes. */
  lemma ConnectInnerLength(hostname: Buffer, nonce: nat)
    ensures |PackAll(ConnectUnits(hostname, nonce)) + Zeros(4)| == 33 + |hostname|
  {
    var u := ConnectUnits(hostname, nonce);
    PackAllLength(u);
    PackAllLength(u[1..]);
    PackAllLength(u[2..]);
    PackAllLength(u[3..]);
    assert u[1..][1..] == u[2..] && u[2..][1..] == u[3..] && |PackAll(u[3..][1..])| == 0;
  }

  lemma MessageHeader(reqcode: nat, inner: Buffer)
    ensures Message(reqcode, inner)[0] == 0
    ensures Message(reqcode, inner)[1..3] == LeBytes(reqcode, 2)
    ensures Message(reqcode, inner)[3..7] == LeBytes(|inner| % U32_LIMIT, 4)
  {
    hide LeBytes;
    var a, b := LeBytes(reqcode, 2), LeBytes(|inner| % U32_LIMIT, 4);
    assert |a| == 2 && |b| == 4;
  }

  /** The peer reads a body's request code and inner length... */
  lemma HeaderRoundTrip(reqcode: nat, inner: Buffer)
    requires reqcode < U16_LIMIT && |inner| < U32_LIMIT
    ensures LeValue(Message(reqcode, inner)[1..3]) == reqcode
    ensures LeValue(Message(reqcode, inner)[3..7]) == |inner|
  {
    hide LeBytes, LeValue, Message;
    MessageHeader(reqcode, inner);
    LeRoundTrip16(reqcode);
    LeRoundTrip32(|inner|);
  }

  /** ...and exactly the units that were packed. */
  lemma MessageRoundTrip(reqcode: nat, payloads: seq<Buffer>)
    requires forall i :: 0 <= i < |payloads| ==> |payloads[i]| < U32_LIMIT
    ensures AllUnits(Message(reqcode, PackAll(payloads)), HEADER_LEN) == Ok(payloads)
  {
    PackAllRoundTrip(Message(reqcode, PackAll(payloads)), HEADER_LEN, payloads);
  }
}
