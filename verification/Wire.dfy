/** The universal framing rule of the protocol: a u32 length and then that many bytes. */
module Wire {
  import opened Wrappers
  import opened Bytes

  datatype WireError = NoLength | Overrun | Missing | WrongLength

  /** One unit on the wire; a length is truncated to 32 bits as the C++ cast does. */
  function Pack(payload: Buffer): Buffer {
    LeBytes(|payload| % U32_LIMIT, 4) + payload
  }

  function PackAll(payloads: seq<Buffer>): Buffer {
    if payloads == [] then [] else Pack(payloads[0]) + PackAll(payloads[1..])
  }

  /** The unit at a position and the position after it; nothing at the end of the buffer. */
  function UnitAt(buf: Buffer, pos: nat): (r: Result<Option<(Buffer, nat)>, WireError>)
    ensures r.Ok? && r.value.Some? ==> pos + 4 <= r.value.value.1 <= |buf|
    ensures r.Ok? && r.value.None? ==> pos >= |buf|
  {
    if pos >= |buf| then Ok(None)
    else if pos + 4 > |buf| then Err(NoLength)
    else
      var len := LeValue(buf[pos..pos + 4]);
      if pos + 4 + len > |buf| then Err(Overrun)
      else Ok(Some((buf[pos + 4..pos + 4 + len], pos + 4 + len)))
  }

  /** A packed payload is read back, wherever it stands in a buffer, and leaves what follows it. */
  lemma UnitRoundTrip(buf: Buffer, pos: nat, payload: Buffer, rest: Buffer)
    requires |payload| < U32_LIMIT
    requires pos <= |buf| && buf[pos..] == Pack(payload) + rest
    ensures UnitAt(buf, pos) == Ok(Some((payload, pos + 4 + |payload|)))
    ensures pos + 4 + |payload| <= |buf| && buf[pos + 4 + |payload|..] == rest
  {
    hide LeBytes, LeValue;
    LeRoundTrip32(|payload|);
    var s := buf[pos..];
    assert buf[pos..pos + 4] == s[..4] == LeBytes(|payload|, 4);
    assert buf[pos + 4..pos + 4 + |payload|] == s[4..4 + |payload|] == payload;
    assert buf[pos + 4 + |payload|..] == s[4 + |payload|..];
  }

  /** Where nothing is left, there is no unit. */
  lemma UnitAtEnd(buf: Buffer, pos: nat)
    requires pos <= |buf| && buf[pos..] == []
    ensures UnitAt(buf, pos) == Ok(None)
  {
    assert |buf[pos..]| == |buf| - pos;
  }

  /** Every unit from a position to the end of the buffer. */
  function AllUnits(buf: Buffer, pos: nat): Result<seq<Buffer>, WireError>
    decreases |buf| - pos
  {
    var unit :- UnitAt(buf, pos);
    if unit.None? then Ok([])
    else
      var rest :- AllUnits(buf, unit.value.1);
      Ok([unit.value.0] + rest)
  }

  /** Whatever list of payloads is packed, walking the bytes gives back exactly that list. */
  lemma {:induction false} PackAllRoundTrip(buf: Buffer, pos: nat, payloads: seq<Buffer>)
    requires forall i :: 0 <= i < |payloads| ==> |payloads[i]| < U32_LIMIT
    requires pos <= |buf| && buf[pos..] == PackAll(payloads)
    ensures AllUnits(buf, pos) == Ok(payloads)
    decreases |payloads|
  {
    if payloads == [] {
      UnitAtEnd(buf, pos);
    } else {
      UnitRoundTrip(buf, pos, payloads[0], PackAll(payloads[1..]));
      PackAllRoundTrip(buf, pos + 4 + |payloads[0]|, payloads[1..]);
      assert payloads == [payloads[0]] + payloads[1..];
    }
  }

  lemma {:induction false} PackAllConcat(a: seq<Buffer>, b: seq<Buffer>)
    ensures PackAll(a + b) == PackAll(a) + PackAll(b)
  {
    hide Pack;
    if a == [] {
      assert a + b == b;
    } else {
      PackAllConcat(a[1..], b);
      assert (a + b)[1..] == a[1..] + b;
    }
  }

  lemma PackOne(p: Buffer)
    ensures PackAll([p]) == Pack(p)
  {
    assert [p][1..] == [];
  }

  /** A cursor over a buffer: `buf_` and `pos_`. */
  class Walker {
    const buf: Buffer
    var pos: nat

    constructor (buf: Buffer, start: nat)
      ensures this.buf == buf && pos == start
    {
      this.buf := buf;
      pos := start;
    }

    method Seek(p: nat)
      modifies this
      ensures pos == p
    {
      pos := p;
    }

    /** The next unit; the position moves only when there was one. */
    method NextUnit() returns (r: Result<Option<Buffer>, WireError>)
      modifies this
      ensures match UnitAt(buf, old(pos))
              case Err(e) => r == Err(e) && pos == old(pos)
              case Ok(None) => r == Ok(None) && pos == old(pos)
              case Ok(Some((payload, after))) => r == Ok(Some(payload)) && pos == after
    {
      if pos >= |buf| { return Ok(None); }
      if pos + 4 > |buf| { return Err(NoLength); }
      var length := LeValue(buf[pos..pos + 4]);
      var start := pos + 4;
      var end := start + length;
      if end > |buf| { return Err(Overrun); }
      pos := end;
      return Ok(Some(buf[start..end]));
    }
  }
}
