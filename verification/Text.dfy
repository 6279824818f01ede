/** Windows-1252 to UTF-8 transcoding, and how far its notion of valid UTF-8 is from RFC 3629. */
module Text {
  import opened Wrappers
  import opened Bytes

  // ----- the guard -----

  /** Continuation bytes the lead byte announces; none for a byte that cannot lead. */
  function Need(b: Byte): Option<nat> {
    if b < 0x80 then Some(0)
    else if 0xC0 <= b < 0xE0 && b >= 0xC2 then Some(1)
    else if 0xE0 <= b < 0xF0 then Some(2)
    else if 0xF0 <= b < 0xF8 && b <= 0xF4 then Some(3)
    else None
  }

  predicate IsTail(b: Byte) {
    0x80 <= b < 0xC0
  }

  /** The loop of is_valid_utf8: every lead byte is followed by as many tails as it announces. */
  predicate LooksUtf8(s: Buffer) {
    s == []
    || (Need(s[0]).Some? && Need(s[0]).value < |s|
        && (forall k :: 1 <= k <= Need(s[0]).value ==> IsTail(s[k]))
        && LooksUtf8(s[1 + Need(s[0]).value..]))
  }

  /** One character further on, by positions in the whole buffer. */
  lemma SuffixStep(data: Buffer, i: nat)
    requires i < |data|
    ensures LooksUtf8(data[i..]) <==>
              && Need(data[i]).Some? && i + Need(data[i]).value < |data|
              && (forall j :: i < j <= i + Need(data[i]).value ==> IsTail(data[j]))
              && LooksUtf8(data[i + 1 + Need(data[i]).value..])
  {
    var s := data[i..];
    assert forall j :: i < j < |data| ==> data[j] == s[j - i];
    if Need(data[i]).Some? && i + Need(data[i]).value < |data| {
      assert s[1 + Need(s[0]).value..] == data[i + 1 + Need(data[i]).value..];
    }
  }

  method IsValidUtf8(data: Buffer) returns (r: bool)
    ensures r == LooksUtf8(data)
  {
    hide LooksUtf8;
    var i := 0;
    assert data[0..] == data;
    while i < |data|
      invariant 0 <= i <= |data|
      invariant LooksUtf8(data) == LooksUtf8(data[i..])
    {
      SuffixStep(data, i);
      var b := data[i];
      var need: nat;
      if b < 0x80 {
        need := 0;
      } else if 0xC0 <= b < 0xE0 && b >= 0xC2 {
        need := 1;
      } else if 0xE0 <= b < 0xF0 {
        need := 2;
      } else if 0xF0 <= b < 0xF8 && b <= 0xF4 {
        need := 3;
      } else {
        return false;
      }
      if i + need >= |data| { return false; }
      for k := 1 to need + 1
        invariant forall j :: i < j < i + k ==> IsTail(data[j])
      {
        if !(0x80 <= data[i + k] < 0xC0) { return false; }
      }
      i := i + 1 + need;
    }
    NothingLooksUtf8();
    assert data[i..] == [];
    return true;
  }

  lemma NothingLooksUtf8()
    ensures LooksUtf8([])
  {
  }

  /** A lead byte from C2 to F4, or an ASCII byte, and the one to three tails it announces. */
  predicate IsChunk(c: Buffer) {
    || (|c| == 1 && c[0] <= 0x7F)
    || (|c| == 2 && 0xC2 <= c[0] <= 0xDF && 0x80 <= c[1] <= 0xBF)
    || (|c| == 3 && 0xE0 <= c[0] <= 0xEF && 0x80 <= c[1] <= 0xBF && 0x80 <= c[2] <= 0xBF)
    || (|c| == 4 && 0xF0 <= c[0] <= 0xF4 && 0x80 <= c[1] <= 0xBF && 0x80 <= c[2] <= 0xBF && 0x80 <= c[3] <= 0xBF)
  }

  function Glued(chunks: seq<Buffer>): Buffer {
    if chunks == [] then [] else chunks[0] + Glued(chunks[1..])
  }

  /** What passes the guard is made of such characters, */
  lemma {:induction false} GuardedIsChunks(s: Buffer) returns (chunks: seq<Buffer>)
    requires LooksUtf8(s)
    ensures s == Glued(chunks) && forall i :: 0 <= i < |chunks| ==> IsChunk(chunks[i])
    decreases |s|
  {
    hide IsChunk, LooksUtf8, Glued;
    if s == [] {
      GluedFirst([], []);
      return [];
    }
    var n := FirstChunk(s);
    var rest := GuardedIsChunks(s[n..]);
    chunks := [s[..n]] + rest;
    GluedFirst(s[..n], rest);
    assert s == s[..n] + s[n..];
  }

  lemma GluedFirst(c: Buffer, rest: seq<Buffer>)
    ensures Glued([c] + rest) == c + Glued(rest) && Glued([]) == []
  {
    assert ([c] + rest)[1..] == rest;
  }

  lemma FirstChunk(s: Buffer) returns (n: nat)
    requires s != [] && LooksUtf8(s)
    ensures 0 < n <= |s| && IsChunk(s[..n]) && LooksUtf8(s[n..])
  {
    hide LooksUtf8;
    Unfolded(s);
    n := 1 + Need(s[0]).value;
  }

  lemma Unfolded(s: Buffer)
    requires s != [] && LooksUtf8(s)
    ensures Need(s[0]).Some? && Need(s[0]).value < |s|
    ensures (forall k :: 1 <= k <= Need(s[0]).value ==> IsTail(s[k])) && LooksUtf8(s[1 + Need(s[0]).value..])
  {
  }

  /** and whatever is made of them passes it. */
  lemma {:induction false} ChunksAreGuarded(chunks: seq<Buffer>)
    requires forall i :: 0 <= i < |chunks| ==> IsChunk(chunks[i])
    ensures LooksUtf8(Glued(chunks))
  {
    if chunks != [] {
      ChunksAreGuarded(chunks[1..]);
      var (c, rest) := (chunks[0], Glued(chunks[1..]));
      assert IsChunk(c);
      assert Glued(chunks) == c + rest && (c + rest)[|c|..] == rest;
      assert Need(c[0]) == Some(|c| - 1);
    }
  }

  // ----- the transcoder -----

  /** The code point of a Windows-1252 byte; undefined positions keep their own value. */
  function Codepoint(b: Byte): nat {
    match b
    case 0x80 => 0x20AC
    case 0x82 => 0x201A
    case 0x83 => 0x0192
    case 0x84 => 0x201E
    case 0x85 => 0x2026
    case 0x86 => 0x2020
    case 0x87 => 0x2021
    case 0x88 => 0x02C6
    case 0x89 => 0x2030
    case 0x8A => 0x0160
    case 0x8B => 0x2039
    case 0x8C => 0x0152
    case 0x8E => 0x017D
    case 0x91 => 0x2018
    case 0x92 => 0x2019
    case 0x93 => 0x201C
    case 0x94 => 0x201D
    case 0x95 => 0x2022
    case 0x96 => 0x2013
    case 0x97 => 0x2014
    case 0x98 => 0x02DC
    case 0x99 => 0x2122
    case 0x9A => 0x0161
    case 0x9B => 0x203A
    case 0x9C => 0x0153
    case 0x9E => 0x017E
    case 0x9F => 0x0178
    case _ => b
  }

  /** The upper control range of Windows-1252; its five undefined positions stay control codes. */
  const UPPER_CONTROLS: seq<nat> := [
    0x20AC, 0x0081, 0x201A, 0x0192, 0x201E, 0x2026, 0x2020, 0x2021, 0x02C6, 0x2030, 0x0160, 0x2039, 0x0152, 0x008D, 0x017D, 0x008F,
    0x0090, 0x2018, 0x2019, 0x201C, 0x201D, 0x2022, 0x2013, 0x2014, 0x02DC, 0x2122, 0x0161, 0x203A, 0x0153, 0x009D, 0x017E, 0x0178]

  /** Windows-1252 is Latin-1 outside that range. */
  lemma CodepointsByRow(b: Byte)
    ensures Codepoint(b) == if 0x80 <= b < 0xA0 then UPPER_CONTROLS[b - 0x80] else b
  {
  }

  /** append_utf8, its shifts and masks written as division and remainder. */
  function EncodeUtf8(cp: nat): Buffer
    requires cp < 0x10000
  {
    if cp < 0x80 then [cp]
    else if cp < 0x800 then [0xC0 + cp / 0x40, 0x80 + cp % 0x40]
    else [0xE0 + cp / 0x1000, 0x80 + (cp / 0x40) % 0x40, 0x80 + cp % 0x40]
  }

  lemma CodepointRange(b: Byte)
    ensures Codepoint(b) < 0x10000
    ensures Codepoint(b) < 0x80 <==> b < 0x80
    ensures b < 0x80 ==> Codepoint(b) == b
    ensures Codepoint(b) >= 0x800 ==> 0x2000 <= Codepoint(b) < 0x2200
  {
  }

  function EncodeByte(b: Byte): Buffer {
    CodepointRange(b);
    EncodeUtf8(Codepoint(b))
  }

  /** One code point for every byte. */
  function PerByte(s: Buffer): Buffer {
    if s == [] then [] else EncodeByte(s[0]) + PerByte(s[1..])
  }

  function Decode(s: Buffer): Buffer {
    if LooksUtf8(s) then s else PerByte(s)
  }

  lemma {:induction false} PerByteSnoc(s: Buffer, b: Byte)
    ensures PerByte(s + [b]) == PerByte(s) + EncodeByte(b)
  {
    if s == [] {
      assert [b][1..] == [];
    } else {
      PerByteSnoc(s[1..], b);
      assert (s + [b])[1..] == s[1..] + [b];
    }
  }

  method DecodeDbisamText(data: Buffer) returns (out: Buffer)
    ensures out == Decode(data)
  {
    var valid := IsValidUtf8(data);
    if valid { return data; }
    out := [];
    for i := 0 to |data|
      invariant out == PerByte(data[..i])
    {
      assert data[..i + 1] == data[..i] + [data[i]];
      PerByteSnoc(data[..i], data[i]);
      out := out + EncodeByte(data[i]);
    }
    assert data[..|data|] == data;
  }

  // ----- RFC 3629, section 4 -----

  /** The first code point of a well-formed UTF-8 string and the bytes it takes. */
  function FirstChar(s: Buffer): (r: Option<(nat, nat)>)
    ensures r.Some? ==> 0 < r.value.1 <= |s|
  {
    if s == [] then None
    else if s[0] < 0x80 then Some((s[0], 1))
    else if 0xC2 <= s[0] <= 0xDF && |s| >= 2 && IsTail(s[1]) then
      Some(((s[0] as int - 0xC0) * 0x40 + (s[1] as int - 0x80), 2))
    else if 0xE0 <= s[0] <= 0xEF && |s| >= 3 && IsTail(s[1]) && IsTail(s[2])
            && (s[0] == 0xE0 ==> s[1] >= 0xA0) && (s[0] == 0xED ==> s[1] <= 0x9F) then
      Some(((s[0] as int - 0xE0) * 0x1000 + (s[1] as int - 0x80) * 0x40 + (s[2] as int - 0x80), 3))
    else if 0xF0 <= s[0] <= 0xF4 && |s| >= 4 && IsTail(s[1]) && IsTail(s[2]) && IsTail(s[3])
            && (s[0] == 0xF0 ==> s[1] >= 0x90) && (s[0] == 0xF4 ==> s[1] <= 0x8F) then
      Some(((s[0] as int - 0xF0) * 0x40000 + (s[1] as int - 0x80) * 0x1000 + (s[2] as int - 0x80) * 0x40 + (s[3] as int - 0x80), 4))
    else None
  }

  /** The code points of a string; none if it is not well-formed. */
  function Codepoints(s: Buffer): Option<seq<nat>> {
    if s == [] then Some([])
    else
      var (cp, n) :- FirstChar(s);
      var rest :- Codepoints(s[n..]);
      Some([cp] + rest)
  }

  predicate WellFormed(s: Buffer) {
    Codepoints(s).Some?
  }

  function CodepointsOf(s: Buffer): (r: seq<nat>)
    ensures |r| == |s|
  {
    if s == [] then [] else [Codepoint(s[0])] + CodepointsOf(s[1..])
  }

  lemma OneByteFirst(cp: nat, rest: Buffer)
    requires cp < 0x80
    ensures FirstChar(EncodeUtf8(cp) + rest) == Some((cp, |EncodeUtf8(cp)|))
  {
    assert (EncodeUtf8(cp) + rest)[0] == cp;
  }

  lemma TwoBytesFirst(cp: nat, rest: Buffer)
    requires 0x80 <= cp < 0x800
    ensures FirstChar(EncodeUtf8(cp) + rest) == Some((cp, |EncodeUtf8(cp)|))
  {
    var s := EncodeUtf8(cp) + rest;
    assert s[0] == 0xC0 + cp / 0x40 && s[1] == 0x80 + cp % 0x40;
  }

  lemma ThreeBytesFirst(cp: nat, rest: Buffer)
    requires 0x2000 <= cp < 0x2200
    ensures FirstChar(EncodeUtf8(cp) + rest) == Some((cp, |EncodeUtf8(cp)|))
  {
    var s := EncodeUtf8(cp) + rest;
    assert cp / 0x1000 == 2 && s[0] == 0xE2;
    assert s[1] == 0x80 + (cp / 0x40) % 0x40 && s[2] == 0x80 + cp % 0x40;
    assert cp == 2 * 0x1000 + ((cp / 0x40) % 0x40) * 0x40 + cp % 0x40;
  }

  lemma FirstEncoded(b: Byte, rest: Buffer)
    ensures FirstChar(EncodeByte(b) + rest) == Some((Codepoint(b), |EncodeByte(b)|))
    ensures (EncodeByte(b) + rest)[|EncodeByte(b)|..] == rest
  {
    hide FirstChar, EncodeUtf8, Codepoint;
    CodepointRange(b);
    var cp := Codepoint(b);
    if cp >= 0x800 {
      ThreeBytesFirst(cp, rest);
    } else if cp >= 0x80 {
      TwoBytesFirst(cp, rest);
    } else {
      OneByteFirst(cp, rest);
    }
  }

  /** The per-byte branch is well-formed UTF-8 and has exactly one code point per input byte, that byte's. */
  lemma {:induction false} PerByteCodepoints(s: Buffer)
    ensures Codepoints(PerByte(s)) == Some(CodepointsOf(s))
  {
    if s != [] {
      FirstEncoded(s[0], PerByte(s[1..]));
      PerByteCodepoints(s[1..]);
    }
  }

  /** Well-formed text always passes the guard; the guard is the weaker of the two. */
  lemma {:induction false} WellFormedLooksUtf8(s: Buffer)
    requires WellFormed(s)
    ensures LooksUtf8(s)
  {
    if s != [] {
      var n := FirstChar(s).value.1;
      WellFormedLooksUtf8(s[n..]);
      assert Need(s[0]) == Some(n - 1);
    }
  }

  /** Whatever the bytes, the result passes the guard, so decoding twice is decoding once. */
  lemma DecodeIsIdempotent(s: Buffer)
    ensures LooksUtf8(Decode(s))
    ensures Decode(Decode(s)) == Decode(s)
  {
    if !LooksUtf8(s) {
      PerByteCodepoints(s);
      WellFormedLooksUtf8(PerByte(s));
    }
  }

  /**
   * When the result really is UTF-8: exactly when the input is well-formed already or fails the
   * guard. Overlong forms, surrogates and values past 10FFFF pass the guard and go through unchanged.
   */
  lemma WellFormedOutput(s: Buffer)
    ensures WellFormed(Decode(s)) <==> WellFormed(s) || !LooksUtf8(s)
  {
    if WellFormed(s) {
      WellFormedLooksUtf8(s);
    }
    PerByteCodepoints(s);
  }

  lemma GuardIsWeaker()
    ensures LooksUtf8([0xE0, 0x80, 0x80]) && !WellFormed([0xE0, 0x80, 0x80])
    ensures LooksUtf8([0xED, 0xA0, 0x80]) && !WellFormed([0xED, 0xA0, 0x80])
    ensures LooksUtf8([0xF4, 0x90, 0x80, 0x80]) && !WellFormed([0xF4, 0x90, 0x80, 0x80])
  {
    assert LooksUtf8([0xE0, 0x80, 0x80][3..]);
    assert LooksUtf8([0xED, 0xA0, 0x80][3..]);
    assert LooksUtf8([0xF4, 0x90, 0x80, 0x80][4..]);
    assert FirstChar([0xE0, 0x80, 0x80]).None?;
    assert FirstChar([0xED, 0xA0, 0x80]).None?;
    assert FirstChar([0xF4, 0x90, 0x80, 0x80]).None?;
  }

  // ----- injectivity -----

  /** The byte a code point came from: the inverse of the Windows-1252 table. */
  function ByteOf(cp: nat): Byte {
    match cp
    case 0x20AC => 0x80
    case 0x201A => 0x82
    case 0x0192 => 0x83
    case 0x201E => 0x84
    case 0x2026 => 0x85
    case 0x2020 => 0x86
    case 0x2021 => 0x87
    case 0x02C6 => 0x88
    case 0x2030 => 0x89
    case 0x0160 => 0x8A
    case 0x2039 => 0x8B
    case 0x0152 => 0x8C
    case 0x017D => 0x8E
    case 0x2018 => 0x91
    case 0x2019 => 0x92
    case 0x201C => 0x93
    case 0x201D => 0x94
    case 0x2022 => 0x95
    case 0x2013 => 0x96
    case 0x2014 => 0x97
    case 0x02DC => 0x98
    case 0x2122 => 0x99
    case 0x0161 => 0x9A
    case 0x203A => 0x9B
    case 0x0153 => 0x9C
    case 0x017E => 0x9E
    case 0x0178 => 0x9F
    case _ => cp % 256
  }

  lemma TableIsInjective(b: Byte)
    ensures ByteOf(Codepoint(b)) == b
  {
  }

  lemma {:induction false} CodepointsOfInjective(a: Buffer, b: Buffer)
    requires CodepointsOf(a) == CodepointsOf(b)
    ensures a == b
  {
    assert |a| == |b|;
    if a != [] {
      TableIsInjective(a[0]);
      TableIsInjective(b[0]);
      assert CodepointsOf(a)[1..] == CodepointsOf(a[1..]);
      assert CodepointsOf(b)[1..] == CodepointsOf(b[1..]);
      CodepointsOfInjective(a[1..], b[1..]);
      assert a == [a[0]] + a[1..] && b == [b[0]] + b[1..];
    }
  }

  /** Two texts that are not UTF-8 decode to the same string only if they are the same bytes. */
  lemma DecodeIsInjective(a: Buffer, b: Buffer)
    requires !LooksUtf8(a) && !LooksUtf8(b) && Decode(a) == Decode(b)
    ensures a == b
  {
    PerByteCodepoints(a);
    PerByteCodepoints(b);
    CodepointsOfInjective(a, b);
  }

  // ----- LEFT -----

  /** The first n characters of a well-formed text. */
  function TakeChars(u: Buffer, n: nat): Buffer {
    if n == 0 || FirstChar(u).None? then []
    else
      var len := FirstChar(u).value.1;
      u[..len] + TakeChars(u[len..], n - 1)
  }

  lemma {:induction false} TakeCharsPerByte(s: Buffer, n: nat)
    requires n <= |s|
    ensures TakeChars(PerByte(s), n) == PerByte(s[..n])
  {
    hide EncodeByte, FirstChar;
    if n > 0 {
      FirstEncoded(s[0], PerByte(s[1..]));
      TakeCharsPerByte(s[1..], n - 1);
      assert s[..n][1..] == s[1..][..n - 1];
    }
  }

  /** How many bytes begin a character: those that are no continuation bytes. */
  function Leads(s: Buffer): (n: nat)
    ensures n <= |s|
  {
    if s == [] then 0 else (if IsTail(s[0]) then 0 else 1) + Leads(s[1..])
  }

  /** The text before the byte that begins character n. */
  function TakeLeads(s: Buffer, n: nat): (r: Buffer)
    ensures r <= s
  {
    if s == [] || (!IsTail(s[0]) && n == 0) then []
    else [s[0]] + TakeLeads(s[1..], if IsTail(s[0]) then n else n - 1)
  }

  lemma {:induction false} LeadsConcat(a: Buffer, b: Buffer)
    ensures Leads(a + b) == Leads(a) + Leads(b)
  {
    if a == [] {
      assert a + b == b;
    } else {
      LeadsConcat(a[1..], b);
      assert (a + b)[1..] == a[1..] + b;
    }
  }

  lemma LeadsStep(x: Byte, s: Buffer, n: nat)
    ensures Leads([x] + s) == (if IsTail(x) then 0 else 1) + Leads(s)
    ensures TakeLeads([x] + s, n)
         == if !IsTail(x) && n == 0 then [] else [x] + TakeLeads(s, if IsTail(x) then n else n - 1)
  {
    assert ([x] + s)[1..] == s;
  }

  lemma ConcatAssociates(a: Buffer, b: Buffer, c: Buffer)
    ensures a + (b + c) == (a + b) + c
  {
  }

  lemma {:induction false} TakeLeadsConcat(a: Buffer, b: Buffer, n: nat)
    requires Leads(a) <= n
    ensures TakeLeads(a + b, n) == a + TakeLeads(b, n - Leads(a))
    decreases |a|, 1
  {
    if a == [] {
      assert a + b == b;
    } else {
      TakeLeadsCons(a[0], a[1..], b, n);
      assert [a[0]] + a[1..] == a;
    }
  }

  lemma {:induction false} TakeLeadsCons(x: Byte, s: Buffer, b: Buffer, n: nat)
    requires Leads([x] + s) <= n
    ensures TakeLeads(([x] + s) + b, n) == ([x] + s) + TakeLeads(b, n - Leads([x] + s))
    decreases |s| + 1, 0
  {
    hide TakeLeads, Leads;
    LeadsStep(x, s, n);
    LeadsStep(x, s + b, n);
    var m := if IsTail(x) then n else n - 1;
    TakeLeadsConcat(s, b, m);
    ConcatAssociates([x], s, b);
    ConcatAssociates([x], s, TakeLeads(b, m - Leads(s)));
  }

  /** Taking n characters keeps everything exactly if there are no more than n. */
  lemma {:induction false} TakeLeadsAll(s: Buffer, n: nat)
    ensures TakeLeads(s, n) == s <==> Leads(s) <= n
    ensures Leads(TakeLeads(s, n)) == if n < Leads(s) then n else Leads(s)
  {
    if s != [] && !(!IsTail(s[0]) && n == 0) {
      var m := if IsTail(s[0]) then n else n - 1;
      TakeLeadsAll(s[1..], m);
      assert TakeLeads(s, n)[1..] == TakeLeads(s[1..], m);
      assert s == [s[0]] + s[1..];
    }
  }

  lemma {:induction false} TakeLeadsTwice(s: Buffer, n: nat, m: nat)
    ensures TakeLeads(TakeLeads(s, n), m) == TakeLeads(s, if n < m then n else m)
  {
    if s != [] {
      if IsTail(s[0]) {
        TakeLeadsTwice(s[1..], n, m);
        assert TakeLeads(s, n)[1..] == TakeLeads(s[1..], n);
      } else if n > 0 && m > 0 {
        TakeLeadsTwice(s[1..], n - 1, m - 1);
        assert TakeLeads(s, n)[1..] == TakeLeads(s[1..], n - 1);
      }
    }
  }

  /** On well-formed text those are its first n characters. */
  lemma {:induction false} TakeLeadsIsTakeChars(s: Buffer, n: nat)
    requires WellFormed(s)
    ensures TakeLeads(s, n) == TakeChars(s, n)
    decreases |s|
  {
    hide TakeLeads, Leads, WellFormed, FirstChar;
    if s == [] || n == 0 {
      NothingTaken(s, n);
    } else {
      var len := FirstLead(s);
      TakeLeadsIsTakeChars(s[len..], n - 1);
      TakeLeadsConcat(s[..len], s[len..], n);
      assert s == s[..len] + s[len..];
    }
  }

  lemma NothingTaken(s: Buffer, n: nat)
    requires WellFormed(s) && (s == [] || n == 0)
    ensures TakeLeads(s, n) == [] == TakeChars(s, n)
  {
    if s != [] {
      var len := FirstLead(s);
    }
  }

  /** The first character of a well-formed text is a lead byte and its continuation bytes. */
  lemma FirstLead(s: Buffer) returns (len: nat)
    requires WellFormed(s) && s != []
    ensures FirstChar(s).Some? && len == FirstChar(s).value.1 && 0 < len <= |s|
    ensures !IsTail(s[0]) && Leads(s[..len]) == 1 && WellFormed(s[len..])
  {
    len := FirstChar(s).value.1;
    OneLead(s, len);
  }

  lemma OneLead(s: Buffer, len: nat)
    requires 0 < len <= |s| && len <= 4 && !IsTail(s[0]) && forall k :: 1 <= k < len ==> IsTail(s[k])
    ensures Leads(s[..len]) == 1
  {
    var c := s[..len];
    NoLeads(c[1..]);
  }

  lemma {:induction false} NoLeads(s: Buffer)
    requires forall k :: 0 <= k < |s| ==> IsTail(s[k])
    ensures Leads(s) == 0
  {
    if s != [] {
      NoLeads(s[1..]);
    }
  }

  predicate AllAscii(s: Buffer) {
    forall i :: 0 <= i < |s| ==> s[i] < 0x80
  }

  lemma {:induction false} PerByteGrows(s: Buffer)
    ensures |PerByte(s)| >= |s|
    ensures |PerByte(s)| == |s| <==> AllAscii(s)
    ensures AllAscii(s) ==> PerByte(s) == s
  {
    if s != [] {
      CodepointRange(s[0]);
      PerByteGrows(s[1..]);
      assert AllAscii(s) <==> s[0] < 0x80 && AllAscii(s[1..]) by {
        if s[0] < 0x80 && AllAscii(s[1..]) {
          forall i | 0 <= i < |s|
            ensures s[i] < 0x80
          {
            if i > 0 {
              assert s[i] == s[1..][i - 1];
            }
          }
        }
      }
      assert s == [s[0]] + s[1..];
    }
  }

  /**
   * LEFT counts bytes on the server and characters in DuckDB. On text that is not UTF-8 the two
   * give the same string if and only if the byte prefix is not UTF-8 either, or is plain ASCII.
   */
  lemma LeftCommutes(s: Buffer, n: nat)
    requires !LooksUtf8(s) && n <= |s|
    ensures Decode(s[..n]) == TakeChars(Decode(s), n) <==> !LooksUtf8(s[..n]) || AllAscii(s[..n])
  {
    TakeCharsPerByte(s, n);
    PerByteGrows(s[..n]);
  }
}
