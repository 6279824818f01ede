/** The ten units the server writes inside every batch. */
module CursorInfos {
  import opened Wrappers
  import opened Bytes
  import opened Wire

  datatype CursorInfo = CursorInfo(
    recordNumber: nat,
    physicalRecordNumber: nat,
    recordCount: nat,
    physicalRecordsUsed: nat,
    lastAutoIncId: nat,
    lastUpdated: Buffer,
    totalRecordCount: nat,
    bookmark: Buffer,
    flag60E: Byte,
    flag60D: Byte)
  {
    /** The ranges the C++ field types impose. */
    predicate Fits() {
      && recordNumber < U32_LIMIT && physicalRecordNumber < U32_LIMIT && recordCount < U32_LIMIT
      && physicalRecordsUsed < U32_LIMIT && lastAutoIncId < U32_LIMIT && totalRecordCount < U32_LIMIT
      && |lastUpdated| == 8 && |bookmark| < U32_LIMIT
    }
  }

  function CountUnits(ci: CursorInfo): seq<Buffer> {
    [LeBytes(ci.recordNumber, 4), LeBytes(ci.physicalRecordNumber, 4), LeBytes(ci.recordCount, 4),
     LeBytes(ci.physicalRecordsUsed, 4), LeBytes(ci.lastAutoIncId, 4)]
  }

  function StateUnits(ci: CursorInfo): seq<Buffer> {
    [ci.lastUpdated, LeBytes(ci.totalRecordCount, 4), ci.bookmark, [ci.flag60E], [ci.flag60D]]
  }

  /** The ten payloads of a cursor info, in the server's order. */
  function InfoUnits(ci: CursorInfo): (u: seq<Buffer>)
    ensures |u| == 10
  {
    CountUnits(ci) + StateUnits(ci)
  }

  /** expect_bytes: the next unit must be there. */
  function Expect(buf: Buffer, pos: nat): (r: Result<(Buffer, nat), WireError>)
    ensures r.Ok? ==> pos + 4 <= r.value.1 <= |buf|
  {
    var unit :- UnitAt(buf, pos);
    if unit.None? then Err(Missing) else Ok(unit.value)
  }

  /** expect_u32, expect_8 and expect_byte: the next unit must have this length. */
  function ExpectLength(buf: Buffer, pos: nat, n: nat): (r: Result<(Buffer, nat), WireError>)
    ensures r.Ok? ==> |r.value.0| == n && pos + 4 <= r.value.1 <= |buf|
  {
    var unit :- Expect(buf, pos);
    if |unit.0| != n then Err(WrongLength) else Ok(unit)
  }

  function ReadInfo(buf: Buffer, pos: nat): (r: Result<(CursorInfo, nat), WireError>)
    ensures r.Ok? ==> pos < r.value.1 <= |buf|
  {
    var a :- ExpectLength(buf, pos, 4);
    var b :- ExpectLength(buf, a.1, 4);
    var c :- ExpectLength(buf, b.1, 4);
    var d :- ExpectLength(buf, c.1, 4);
    var e :- ExpectLength(buf, d.1, 4);
    var f :- ExpectLength(buf, e.1, 8);
    var g :- ExpectLength(buf, f.1, 4);
    var h :- Expect(buf, g.1);
    var i :- ExpectLength(buf, h.1, 1);
    var j :- ExpectLength(buf, i.1, 1);
    Ok((CursorInfo(LeValue(a.0), LeValue(b.0), LeValue(c.0), LeValue(d.0), LeValue(e.0), f.0,
                   LeValue(g.0), h.0, i.0[0], j.0[0]), j.1))
  }

  method ExpectBytes(w: Walker) returns (r: Result<Buffer, WireError>)
    modifies w
    ensures match Expect(w.buf, old(w.pos))
            case Ok(u) => r == Ok(u.0) && w.pos == u.1
            case Err(e) => r == Err(e)
  {
    var unit := w.NextUnit();
    if unit.Err? { return Err(unit.error); }
    if unit.value.None? { return Err(Missing); }
    return Ok(unit.value.value);
  }

  method ExpectExactly(w: Walker, n: nat) returns (r: Result<Buffer, WireError>)
    modifies w
    ensures match ExpectLength(w.buf, old(w.pos), n)
            case Ok(u) => r == Ok(u.0) && w.pos == u.1
            case Err(e) => r == Err(e)
  {
    var unit := ExpectBytes(w);
    if unit.Err? { return Err(unit.error); }
    if |unit.value| != n { return Err(WrongLength); }
    return unit;
  }

  /** CursorInfo::read: ten expectations in order, each advancing the shared walker. */
  method Read(w: Walker) returns (r: Result<CursorInfo, WireError>)
    modifies w
    ensures match ReadInfo(w.buf, old(w.pos))
            case Ok(u) => r == Ok(u.0) && w.pos == u.1
            case Err(e) => r == Err(e)
  {
    var a :- ExpectExactly(w, 4);
    var b :- ExpectExactly(w, 4);
    var c :- ExpectExactly(w, 4);
    var d :- ExpectExactly(w, 4);
    var e :- ExpectExactly(w, 4);
    var f :- ExpectExactly(w, 8);
    var g :- ExpectExactly(w, 4);
    var h :- ExpectBytes(w);
    var i :- ExpectExactly(w, 1);
    var j :- ExpectExactly(w, 1);
    return Ok(CursorInfo(LeValue(a), LeValue(b), LeValue(c), LeValue(d), LeValue(e), f,
                         LeValue(g), h, i[0], j[0]));
  }

  // ----- round trip -----

  lemma ExpectRoundTrip(buf: Buffer, pos: nat, payload: Buffer, rest: Buffer)
    requires |payload| < U32_LIMIT
    requires pos <= |buf| && buf[pos..] == Pack(payload) + rest
    ensures var next := pos + 4 + |payload|;
            && Expect(buf, pos) == ExpectLength(buf, pos, |payload|) == Ok((payload, next))
            && next <= |buf| && buf[next..] == rest
  {
    UnitRoundTrip(buf, pos, payload, rest);
  }

  lemma PackFive(u: seq<Buffer>, rest: Buffer)
    requires |u| == 5
    ensures PackAll(u) + rest == Pack(u[0]) + (Pack(u[1]) + (Pack(u[2]) + (Pack(u[3]) + (Pack(u[4]) + rest))))
  {
    hide Pack;
    PackRest(u, 0, rest);
    PackRest(u, 1, rest);
    PackRest(u, 2, rest);
    PackRest(u, 3, rest);
    PackOne(u[4]);
    assert u[4..] == [u[4]] && u[0..] == u;
  }

  lemma PackRest(u: seq<Buffer>, i: nat, rest: Buffer)
    requires i < |u|
    ensures PackAll(u[i..]) + rest == Pack(u[i]) + (PackAll(u[i + 1..]) + rest)
  {
    hide Pack;
    assert u[i..][1..] == u[i + 1..];
    Regroup(Pack(u[i]), PackAll(u[i + 1..]), rest);
  }

  lemma Regroup(a: Buffer, b: Buffer, c: Buffer)
    ensures a + b + c == a + (b + c)
  {
  }

  lemma FirstFive(buf: Buffer, pos: nat, u: seq<Buffer>, rest: Buffer)
    requires |u| == 5 && |u[0]| == |u[1]| == |u[2]| == |u[3]| == |u[4]| == 4
    requires pos <= |buf| && buf[pos..] == PackAll(u) + rest
    ensures ExpectLength(buf, pos, 4) == Ok((u[0], pos + 8))
    ensures ExpectLength(buf, pos + 8, 4) == Ok((u[1], pos + 16))
    ensures ExpectLength(buf, pos + 16, 4) == Ok((u[2], pos + 24))
    ensures ExpectLength(buf, pos + 24, 4) == Ok((u[3], pos + 32))
    ensures ExpectLength(buf, pos + 32, 4) == Ok((u[4], pos + 40))
    ensures pos + 40 <= |buf| && buf[pos + 40..] == rest
  {
    hide Pack, PackAll, UnitAt, Expect, ExpectLength;
    PackFive(u, rest);
    ExpectRoundTrip(buf, pos, u[0], Pack(u[1]) + (Pack(u[2]) + (Pack(u[3]) + (Pack(u[4]) + rest))));
    ExpectRoundTrip(buf, pos + 8, u[1], Pack(u[2]) + (Pack(u[3]) + (Pack(u[4]) + rest)));
    ExpectRoundTrip(buf, pos + 16, u[2], Pack(u[3]) + (Pack(u[4]) + rest));
    ExpectRoundTrip(buf, pos + 24, u[3], Pack(u[4]) + rest);
    ExpectRoundTrip(buf, pos + 32, u[4], rest);
  }

  lemma LastFive(buf: Buffer, pos: nat, u: seq<Buffer>, rest: Buffer)
    requires |u| == 5 && |u[0]| == 8 && |u[1]| == 4 && |u[2]| < U32_LIMIT && |u[3]| == |u[4]| == 1
    requires pos <= |buf| && buf[pos..] == PackAll(u) + rest
    ensures ExpectLength(buf, pos, 8) == Ok((u[0], pos + 12))
    ensures ExpectLength(buf, pos + 12, 4) == Ok((u[1], pos + 20))
    ensures Expect(buf, pos + 20) == Ok((u[2], pos + 24 + |u[2]|))
    ensures ExpectLength(buf, pos + 24 + |u[2]|, 1) == Ok((u[3], pos + 29 + |u[2]|))
    ensures ExpectLength(buf, pos + 29 + |u[2]|, 1) == Ok((u[4], pos + 34 + |u[2]|))
    ensures pos + 34 + |u[2]| <= |buf| && buf[pos + 34 + |u[2]|..] == rest
  {
    hide Pack, PackAll, UnitAt, Expect, ExpectLength;
    PackFive(u, rest);
    ExpectRoundTrip(buf, pos, u[0], Pack(u[1]) + (Pack(u[2]) + (Pack(u[3]) + (Pack(u[4]) + rest))));
    ExpectRoundTrip(buf, pos + 12, u[1], Pack(u[2]) + (Pack(u[3]) + (Pack(u[4]) + rest)));
    ExpectRoundTrip(buf, pos + 20, u[2], Pack(u[3]) + (Pack(u[4]) + rest));
    ExpectRoundTrip(buf, pos + 24 + |u[2]|, u[3], Pack(u[4]) + rest);
    ExpectRoundTrip(buf, pos + 29 + |u[2]|, u[4], rest);
  }

  /** How ten expectations that are met add up to a cursor info. */
  lemma ReadInfoFrom(buf: Buffer, p: nat, u: seq<Buffer>, v: seq<Buffer>)
    requires |u| == |v| == 5 && |v[3]| == |v[4]| == 1
    requires ExpectLength(buf, p, 4) == Ok((u[0], p + 8))
    requires ExpectLength(buf, p + 8, 4) == Ok((u[1], p + 16))
    requires ExpectLength(buf, p + 16, 4) == Ok((u[2], p + 24))
    requires ExpectLength(buf, p + 24, 4) == Ok((u[3], p + 32))
    requires ExpectLength(buf, p + 32, 4) == Ok((u[4], p + 40))
    requires ExpectLength(buf, p + 40, 8) == Ok((v[0], p + 52))
    requires ExpectLength(buf, p + 52, 4) == Ok((v[1], p + 60))
    requires Expect(buf, p + 60) == Ok((v[2], p + 64 + |v[2]|))
    requires ExpectLength(buf, p + 64 + |v[2]|, 1) == Ok((v[3], p + 69 + |v[2]|))
    requires ExpectLength(buf, p + 69 + |v[2]|, 1) == Ok((v[4], p + 74 + |v[2]|))
    ensures ReadInfo(buf, p) == Ok((CursorInfo(LeValue(u[0]), LeValue(u[1]), LeValue(u[2]), LeValue(u[3]), LeValue(u[4]),
                                               v[0], LeValue(v[1]), v[2], v[3][0], v[4][0]), p + 74 + |v[2]|))
  {
    hide ExpectLength, Expect, LeValue;
  }

  lemma TenUnits(buf: Buffer, pos: nat, u: seq<Buffer>, v: seq<Buffer>, rest: Buffer)
    requires |u| == 5 && |u[0]| == |u[1]| == |u[2]| == |u[3]| == |u[4]| == 4
    requires |v| == 5 && |v[0]| == 8 && |v[1]| == 4 && |v[2]| < U32_LIMIT && |v[3]| == |v[4]| == 1
    requires pos <= |buf| && buf[pos..] == PackAll(u + v) + rest
    ensures ReadInfo(buf, pos) == Ok((CursorInfo(LeValue(u[0]), LeValue(u[1]), LeValue(u[2]), LeValue(u[3]), LeValue(u[4]),
                                                 v[0], LeValue(v[1]), v[2], v[3][0], v[4][0]), |buf| - |rest|))
    ensures |rest| <= |buf| && buf[|buf| - |rest|..] == rest
  {
    hide ReadInfo, Expect, ExpectLength, LeValue, LeBytes;
    var tail := PackAll(v) + rest;
    assert buf[pos..] == PackAll(u) + tail by {
      PackAllConcat(u, v);
    }
    FirstFive(buf, pos, u, tail);
    LastFive(buf, pos + 40, v, rest);
    assert |buf[pos + 74 + |v[2]|..]| == |rest|;
    ReadInfoFrom(buf, pos, u, v);
  }

  /** Ten packed fields read back as the same cursor info, leaving exactly what follows them. */
  lemma InfoRoundTrip(buf: Buffer, pos: nat, ci: CursorInfo, rest: Buffer)
    requires ci.Fits() && pos <= |buf| && buf[pos..] == PackAll(InfoUnits(ci)) + rest
    ensures ReadInfo(buf, pos) == Ok((ci, |buf| - |rest|))
    ensures |rest| <= |buf| && buf[|buf| - |rest|..] == rest
  {
    TenUnits(buf, pos, CountUnits(ci), StateUnits(ci), rest);
    LeRoundTrip32(ci.recordNumber);
    LeRoundTrip32(ci.physicalRecordNumber);
    LeRoundTrip32(ci.recordCount);
    LeRoundTrip32(ci.physicalRecordsUsed);
    LeRoundTrip32(ci.lastAutoIncId);
    LeRoundTrip32(ci.totalRecordCount);
  }
}
