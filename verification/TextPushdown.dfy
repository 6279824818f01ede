/**
 * Comparing text on both sides of the wire. The server compares the bytes it stores with the UTF-8
 * bytes of a literal; DuckDB compares what those bytes decode to. For every literal, operator and
 * LEFT width, exactly when the two agree on all stored bytes.
 */
module TextPushdown {
  import opened Wrappers
  import opened Bytes
  import opened Text
  import opened FilterAst
  import opened DbisamSql

  // ----- what is compared -----

  /** The first n bytes, or all of them. */
  function CutBytes(b: Buffer, width: Option<nat>): Buffer {
    if width.None? then b else LeftBytes(b, width.value)
  }

  /** The first n characters, or all of them. */
  function CutChars(s: Buffer, width: Option<nat>): Buffer {
    if width.None? then s else TakeLeads(s, width.value)
  }

  /** One comparison of a possibly cut column with a literal, by the server and by DuckDB. */
  predicate ServerSays(op: CmpOp, b: Buffer, width: Option<nat>, u: Buffer) {
    Compare(op, FilterAst.Text(CutBytes(b, width)), FilterAst.Text(u))
  }

  predicate DuckSays(op: CmpOp, b: Buffer, width: Option<nat>, u: Buffer) {
    Compare(op, FilterAst.Text(CutChars(Decode(b), width)), FilterAst.Text(u))
  }

  // ----- the condition on a literal -----

  /** The literal is what some bytes transcode to, and those bytes are not UTF-8 themselves. */
  predicate Recoded(u: Buffer) {
    var cps := Codepoints(u);
    cps.Some? &&
    var b := OldBytes(cps.value);
    PerByte(b) == u && !LooksUtf8(b)
  }

  function OldBytes(cps: seq<nat>): Buffer {
    seq(|cps|, i requires 0 <= i < |cps| => ByteOf(cps[i]))
  }

  predicate IsEquality(op: CmpOp) {
    op.Eq? || op.Ne? || op.DistinctFrom? || op.NotDistinctFrom?
  }

  /**
   * What can be read off a literal. An order is safe on the part of it that can be reached if that is
   * ASCII. An equality is safe too if the literal has more characters than LEFT leaves, or if it is
   * shorter in bytes than the cut and no old encoding of it exists.
   */
  predicate SafeLiteral(op: CmpOp, u: Buffer, width: Option<nat>) {
    if IsEquality(op) then
      AllAscii(u)
      || (width.Some? && Leads(u) > width.value)
      || ((width.Some? ==> |u| < width.value) && !Recoded(u))
    else AllAscii(CutBytes(u, width))
  }

  // ----- where bytes and their decoding part -----

  lemma PerByteStep(x: Byte, s: Buffer)
    ensures PerByte([x] + s) == EncodeByte(x) + PerByte(s)
  {
    assert ([x] + s)[1..] == s;
  }

  lemma {:induction false} PerByteConcat(a: Buffer, b: Buffer)
    ensures PerByte(a + b) == PerByte(a) + PerByte(b)
  {
    if a == [] {
      assert a + b == b;
    } else {
      PerByteConcat(a[1..], b);
      PerByteCons(a[0], a[1..], b);
      assert [a[0]] + a[1..] == a;
    }
  }

  lemma PerByteCons(x: Byte, s: Buffer, b: Buffer)
    requires PerByte(s + b) == PerByte(s) + PerByte(b)
    ensures PerByte(([x] + s) + b) == PerByte([x] + s) + PerByte(b)
  {
    hide EncodeByte, PerByte;
    PerByteStep(x, s);
    PerByteStep(x, s + b);
    ConcatAssociates([x], s, b);
    ConcatAssociates(EncodeByte(x), PerByte(s), PerByte(b));
  }

  lemma DropConcat(a: Buffer, b: Buffer, n: nat)
    requires n <= |a|
    ensures (a + b)[n..] == a[n..] + b && forall k :: 0 <= k < n ==> (a + b)[k] == a[k]
  {
  }

  lemma {:induction false} LooksUtf8Concat(a: Buffer, b: Buffer)
    requires LooksUtf8(a)
    ensures LooksUtf8(a + b) <==> LooksUtf8(b)
    decreases |a|
  {
    if a == [] {
      assert a + b == b;
    } else {
      var n := 1 + Need(a[0]).value;
      LooksUtf8Concat(a[n..], b);
      DropConcat(a, b, n);
    }
  }

  lemma {:induction false} AsciiLooksUtf8(a: Buffer)
    requires AllAscii(a)
    ensures LooksUtf8(a) && PerByte(a) == a && Decode(a) == a && Leads(a) == |a|
  {
    if a != [] {
      AsciiLooksUtf8(a[1..]);
      CodepointRange(a[0]);
    }
  }

  lemma EncodedHigh(x: Byte)
    requires x >= 0x80
    ensures EncodeByte(x) != [] && EncodeByte(x)[0] >= 0xC2 && Leads(EncodeByte(x)) == 1
  {
    CodepointRange(x);
    var e := EncodeByte(x);
    assert e[1..] == [e[1]] || (|e| == 3 && e[1..] == [e[1], e[2]] && e[2..] == [e[2]]);
    NoLeads(e[1..]);
  }

  function AsciiPrefix(b: Buffer): (j: nat)
    ensures j <= |b| && AllAscii(b[..j]) && (j < |b| ==> b[j] >= 0x80)
  {
    if b == [] || b[0] >= 0x80 then 0
    else
      assert forall k :: 0 <= k <= |b| - 1 ==> b[..k + 1] == [b[0]] + b[1..][..k];
      1 + AsciiPrefix(b[1..])
  }

  /** Behind the ASCII prefix of something that looks like UTF-8 stands a lead byte and a continuation byte. */
  lemma HighStart(u: Buffer)
    requires LooksUtf8(u) && AsciiPrefix(u) < |u|
    ensures var c := u[AsciiPrefix(u)..];
            |c| >= 2 && 0xC2 <= c[0] <= 0xF4 && IsTail(c[1])
  {
    hide AsciiPrefix;
    var j := AsciiPrefix(u);
    var a, c := u[..j], u[j..];
    assert u == a + c;
    AsciiLooksUtf8(a);
    LooksUtf8Concat(a, c);
    assert c[0] == u[j];
    HighLead(c);
  }

  lemma HighLead(c: Buffer)
    requires LooksUtf8(c) && c != [] && c[0] >= 0x80
    ensures |c| >= 2 && 0xC2 <= c[0] <= 0xF4 && IsTail(c[1])
  {
  }

  lemma HighInside(u: Buffer)
    requires !AllAscii(u)
    ensures AsciiPrefix(u) < |u|
  {
    assert u[..|u|] == u;
  }

  /** Up to the first byte that is not ASCII both are the same; there both are not ASCII, the decoded one a lead byte. */
  lemma PartAtFirstHigh(b: Buffer)
    requires !AllAscii(b)
    ensures var j, d := AsciiPrefix(b), Decode(b);
            j < |b| && j < |d| && d[..j] == b[..j] && d[j] >= 0xC2
  {
    hide AsciiPrefix, LooksUtf8, PerByte, EncodeByte, AllAscii;
    HighInside(b);
    if LooksUtf8(b) {
      HighStart(b);
    } else {
      var j := AsciiPrefix(b);
      var a, c := b[..j], b[j..];
      assert b == a + c;
      AsciiLooksUtf8(a);
      PerByteConcat(a, c);
      FirstTranscoded(c);
      assert (a + PerByte(c))[j] == PerByte(c)[0];
    }
  }

  lemma FirstTranscoded(c: Buffer)
    requires c != [] && c[0] >= 0x80
    ensures PerByte(c) != [] && PerByte(c)[0] >= 0xC2
  {
    EncodedHigh(c[0]);
  }

  /** A cut inside an ASCII prefix takes as many bytes. */
  lemma AsciiCut(a: Buffer, c: Buffer, n: nat)
    requires AllAscii(a) && (c == [] || !IsTail(c[0])) && n <= |a|
    ensures TakeLeads(a + c, n) == a[..n]
  {
    hide TakeLeads;
    var x, y := a[..n], a[n..] + c;
    assert a + c == x + y;
    if n < |a| {
      assert y[0] == a[n];
    } else {
      assert y == c;
    }
    CutAtLead(x, y);
  }

  lemma CutAtLead(x: Buffer, y: Buffer)
    requires AllAscii(x) && (y == [] || !IsTail(y[0]))
    ensures TakeLeads(x + y, |x|) == x
  {
    hide LooksUtf8, PerByte, Decode, Leads;
    AsciiLooksUtf8(x);
    TakeLeadsConcat(x, y, |x|);
    StopsAtLead(y);
    assert x + [] == x;
  }

  lemma StopsAtLead(y: Buffer)
    requires y == [] || !IsTail(y[0])
    ensures TakeLeads(y, 0) == []
  {
  }

  /** A cut behind it reaches the byte that follows. */
  lemma AsciiCutBehind(a: Buffer, c: Buffer, n: nat)
    requires AllAscii(a) && c != [] && !IsTail(c[0]) && n > |a|
    ensures var t := TakeLeads(a + c, n); |t| > |a| && t[..|a|] == a && t[|a|] == c[0]
  {
    hide LooksUtf8, PerByte, Decode;
    AsciiLooksUtf8(a);
    TakeLeadsConcat(a, c, n);
    assert TakeLeads(c, n - |a|)[0] == c[0];
  }

  /** Two texts that share an ASCII prefix and are not ASCII behind it stand alike to any text that is ASCII that far. */
  lemma {:induction false} SameOrder(x: Buffer, y: Buffer, u: Buffer, j: nat)
    requires j < |x| && j < |y| && x[..j] == y[..j] && x[j] >= 0x80 && y[j] >= 0x80
    requires forall i :: 0 <= i <= j && i < |u| ==> u[i] < 0x80
    ensures TextBelow(x, u) == TextBelow(y, u) && TextBelow(u, x) == TextBelow(u, y) && x != u && y != u
    decreases j
  {
    if j < |u| {
      assert x[j] != u[j] && y[j] != u[j];
    }
    if j > 0 {
      assert x[0] == x[..j][0] == y[..j][0] == y[0];
      assert x[1..][..j - 1] == x[..j][1..] == y[1..][..j - 1];
      if u != [] {
        SameOrder(x[1..], y[1..], u[1..], j - 1);
      }
    }
  }

  // ----- ASCII -----

  /** ASCII bytes are shown and cut alike. */
  lemma AsciiIsShown(b: Buffer, width: Option<nat>)
    requires AllAscii(b)
    ensures CutChars(Decode(b), width) == CutBytes(b, width)
  {
    AsciiLooksUtf8(b);
    if width.Some? && width.value <= |b| {
      AsciiCut(b, [], width.value);
      assert b + [] == b && b[..|b|] == b;
    } else if width.Some? {
      TakeLeadsAll(b, width.value);
    }
  }

  /** A literal that is ASCII as far as the cut reaches is compared alike with every stored text, under every operator. */
  lemma AsciiLiteral(op: CmpOp, b: Buffer, width: Option<nat>, u: Buffer)
    requires AllAscii(CutBytes(u, width))
    ensures ServerSays(op, b, width, u) == DuckSays(op, b, width, u)
    ensures TextBelow(u, CutBytes(b, width)) == TextBelow(u, CutChars(Decode(b), width))
  {
    hide Decode, TextBelow, TakeLeads, AsciiPrefix;
    if AllAscii(b) {
      AsciiIsShown(b, width);
    } else {
      var j := AsciiPrefix(b);
      PartAtFirstHigh(b);
      if width.Some? && width.value <= j {
        CutBeforeHigh(b, width.value);
      } else {
        CutBehindHigh(b, width);
        assert forall i :: 0 <= i <= j && i < |u| ==> u[i] == CutBytes(u, width)[i];
        SameOrder(CutBytes(b, width), CutChars(Decode(b), width), u, j);
      }
    }
  }

  lemma CutBeforeHigh(b: Buffer, n: nat)
    requires !AllAscii(b) && n <= AsciiPrefix(b)
    ensures TakeLeads(Decode(b), n) == LeftBytes(b, n)
  {
    hide Decode, TakeLeads;
    PartAtFirstHigh(b);
    var j, d := AsciiPrefix(b), Decode(b);
    assert d == d[..j] + d[j..];
    AsciiCut(d[..j], d[j..], n);
    assert d[..j][..n] == b[..j][..n] == b[..n];
  }

  lemma CutBehindHigh(b: Buffer, width: Option<nat>)
    requires !AllAscii(b) && (width.Some? ==> width.value > AsciiPrefix(b))
    ensures var j, x, y := AsciiPrefix(b), CutBytes(b, width), CutChars(Decode(b), width);
            j < |x| && j < |y| && x[..j] == y[..j] && x[j] >= 0x80 && y[j] >= 0x80
  {
    hide Decode, TakeLeads;
    PartAtFirstHigh(b);
    var j, d := AsciiPrefix(b), Decode(b);
    if width.Some? {
      assert d == d[..j] + d[j..];
      AsciiCutBehind(d[..j], d[j..], width.value);
    }
  }

  // ----- equality -----

  lemma {:induction false} OldBytesOf(b: Buffer)
    ensures OldBytes(CodepointsOf(b)) == b
  {
    if b != [] {
      OldBytesOf(b[1..]);
      TableIsInjective(b[0]);
      var r := OldBytes(CodepointsOf(b));
      assert r[1..] == OldBytes(CodepointsOf(b[1..]));
      assert r == [r[0]] + r[1..];
    }
  }

  lemma ShownIsRecoded(b: Buffer, u: Buffer)
    requires !LooksUtf8(b) && PerByte(b) == u
    ensures Recoded(u)
  {
    PerByteCodepoints(b);
    OldBytesOf(b);
  }

  /** Recoded is about the literal alone, and says that some stored bytes that are not UTF-8 are shown as it. */
  lemma RecodedIsShown(u: Buffer)
    ensures Recoded(u) <==> exists b :: !LooksUtf8(b) && PerByte(b) == u
  {
    forall b | !LooksUtf8(b) && PerByte(b) == u
      ensures Recoded(u)
    {
      ShownIsRecoded(b, u);
    }
    if Recoded(u) {
      var b := OldBytes(Codepoints(u).value);
      assert !LooksUtf8(b) && PerByte(b) == u;
    }
  }

  lemma CutSmaller(b: Buffer, u: Buffer, n: nat)
    requires |u| < n && LooksUtf8(u)
    ensures LeftBytes(b, n) == u <==> b == u
    ensures TakeLeads(Decode(b), n) == u <==> Decode(b) == u
  {
    TakeLeadsAll(Decode(b), n);
    TakeLeadsAll(u, n);
  }

  /** A literal that nothing is recoded to is equal to the same stored texts on both sides. */
  lemma UnrecodedLiteral(b: Buffer, width: Option<nat>, u: Buffer)
    requires LooksUtf8(u) && !Recoded(u) && (width.Some? ==> |u| < width.value)
    ensures CutBytes(b, width) == u <==> CutChars(Decode(b), width) == u
  {
    if !LooksUtf8(b) && PerByte(b) == u {
      ShownIsRecoded(b, u);
    }
    assert b == u <==> Decode(b) == u;
    hide Decode, Recoded, PerByte, TakeLeads, Leads;
    if width.Some? {
      CutSmaller(b, u, width.value);
    }
  }

  /** A literal with more characters than LEFT leaves is equal to nothing on either side. */
  lemma LongLiteral(b: Buffer, n: nat, u: Buffer)
    requires Leads(u) > n
    ensures LeftBytes(b, n) != u && TakeLeads(Decode(b), n) != u
  {
    TakeLeadsAll(Decode(b), n);
  }

  lemma EqualitySays(op: CmpOp, b: Buffer, width: Option<nat>, u: Buffer)
    requires IsEquality(op) && (CutBytes(b, width) == u <==> CutChars(Decode(b), width) == u)
    ensures ServerSays(op, b, width, u) == DuckSays(op, b, width, u)
  {
    hide Decode, CutBytes, CutChars;
  }

  lemma SafeLiteralAgrees(op: CmpOp, b: Buffer, width: Option<nat>, u: Buffer)
    requires WellFormed(u) && SafeLiteral(op, u, width)
    ensures ServerSays(op, b, width, u) == DuckSays(op, b, width, u)
    ensures !IsEquality(op) ==> TextBelow(u, CutBytes(b, width)) == TextBelow(u, CutChars(Decode(b), width))
  {
    hide Decode, TextBelow, ServerSays, DuckSays, Recoded, WellFormed, LooksUtf8, TakeLeads, Leads;
    if AllAscii(CutBytes(u, width)) {
      AsciiLiteral(op, b, width, u);
    } else if width.Some? && Leads(u) > width.value {
      LongLiteral(b, width.value, u);
      EqualitySays(op, b, width, u);
    } else {
      WellFormedLooksUtf8(u);
      UnrecodedLiteral(b, width, u);
      EqualitySays(op, b, width, u);
    }
  }

  // ----- the condition is exact -----

  lemma TailCounts(c: Buffer)
    requires |c| >= 2 && IsTail(c[1])
    ensures Leads(c) < |c|
  {
    assert c[1..][0] == c[1];
  }

  lemma WellFormedHasTail(u: Buffer)
    requires WellFormed(u) && !AllAscii(u)
    ensures Leads(u) < |u|
  {
    hide WellFormed, LooksUtf8, Leads, AsciiPrefix;
    WellFormedLooksUtf8(u);
    HighInside(u);
    HighStart(u);
    var j := AsciiPrefix(u);
    TailCounts(u[j..]);
    LeadsConcat(u[..j], u[j..]);
    assert u == u[..j] + u[j..];
  }

  /** Stored bytes on which an unsafe equality goes wrong. */
  function EqualityWitness(u: Buffer, width: Option<nat>): Buffer {
    if width.Some? && |u| > width.value then u
    else if width.Some? && |u| == width.value then u + [0x41]
    else if Codepoints(u).Some? then OldBytes(Codepoints(u).value)
    else u
  }

  lemma CutLiteral(u: Buffer, n: nat)
    requires WellFormed(u) && !AllAscii(u) && Leads(u) <= n < |u|
    ensures LeftBytes(u, n) != u && TakeLeads(Decode(u), n) == u
  {
    WellFormedLooksUtf8(u);
    TakeLeadsAll(u, n);
  }

  lemma OneMoreChar(u: Buffer, n: nat)
    requires WellFormed(u) && !AllAscii(u) && |u| == n
    ensures LeftBytes(u + [0x41], n) == u && TakeLeads(Decode(u + [0x41]), n) != u
  {
    WellFormedLooksUtf8(u);
    WellFormedHasTail(u);
    LooksUtf8Concat(u, [0x41]);
    assert [0x41 as Byte][1..] == [];
    assert LooksUtf8([0x41]);
    TakeLeadsConcat(u, [0x41], n);
    assert TakeLeads([0x41], n - Leads(u)) == [0x41];
  }

  lemma RecodedLiteral(u: Buffer, width: Option<nat>)
    requires WellFormed(u) && Recoded(u) && (width.Some? ==> |u| < width.value)
    ensures var b := OldBytes(Codepoints(u).value);
            CutBytes(b, width) != u && CutChars(Decode(b), width) == u
  {
    var b := OldBytes(Codepoints(u).value);
    PerByteGrows(b);
    if AllAscii(b) {
      AsciiLooksUtf8(b);
    }
    TakeLeadsAll(u, if width.Some? then width.value else |u|);
  }

  lemma UnsafeEquality(op: CmpOp, u: Buffer, width: Option<nat>)
    requires WellFormed(u) && IsEquality(op) && !SafeLiteral(op, u, width)
    ensures ServerSays(op, EqualityWitness(u, width), width, u) != DuckSays(op, EqualityWitness(u, width), width, u)
  {
    if width.Some? && |u| > width.value {
      CutLiteral(u, width.value);
    } else if width.Some? && |u| == width.value {
      OneMoreChar(u, width.value);
    } else {
      RecodedLiteral(u, width);
    }
  }

  /** Stored bytes on which an unsafe order goes wrong: the ASCII prefix and one byte on the wrong side. */
  function OrderWitness(u: Buffer): Buffer {
    var j := AsciiPrefix(u);
    if j < |u| && u[j] <= 0xC3 then u[..j] + [0x80] else u[..j] + [0xFF]
  }

  lemma {:induction false} FirstDifference(x: Buffer, y: Buffer, j: nat)
    requires j < |x| && j < |y| && x[..j] == y[..j] && x[j] < y[j]
    ensures TextBelow(x, y) && !TextBelow(y, x)
    decreases j
  {
    if j > 0 {
      assert x[0] == x[..j][0] == y[..j][0] == y[0];
      assert x[1..][..j - 1] == x[..j][1..] == y[1..][..j - 1];
      FirstDifference(x[1..], y[1..], j - 1);
    }
  }

  /** An ASCII prefix and one byte that is not UTF-8. */
  lemma OneHighByte(a: Buffer, x: Byte)
    requires AllAscii(a) && (x == 0x80 || x == 0xFF)
    ensures Decode(a + [x]) == a + EncodeByte(x) && Leads(a + EncodeByte(x)) == |a| + 1
    ensures EncodeByte(0x80)[0] == 0xE2 && EncodeByte(0xFF)[0] == 0xC3
  {
    TwoEncodings();
    hide EncodeByte, LooksUtf8, PerByte, Leads;
    AsciiLooksUtf8(a);
    LooksUtf8Concat(a, [x]);
    LoneByte(x);
    PerByteConcat(a, [x]);
    EncodedHigh(x);
    LeadsConcat(a, EncodeByte(x));
  }

  lemma TwoEncodings()
    ensures EncodeByte(0x80) == [0xE2, 0x82, 0xAC] && EncodeByte(0xFF) == [0xC3, 0xBF]
  {
  }

  lemma LoneByte(x: Byte)
    requires x == 0x80 || x == 0xFF
    ensures !LooksUtf8([x]) && PerByte([x]) == EncodeByte(x)
  {
    hide EncodeByte;
    assert [x][1..] == [] && PerByte([]) == [];
    assert EncodeByte(x) + [] == EncodeByte(x);
  }

  lemma UnsafeOrder(op: CmpOp, u: Buffer, width: Option<nat>)
    requires WellFormed(u) && !IsEquality(op) && !SafeLiteral(op, u, width)
    ensures ServerSays(op, OrderWitness(u), width, u) != DuckSays(op, OrderWitness(u), width, u)
  {
    hide Decode, LooksUtf8, TextBelow, TakeLeads, OrderWitness, WellFormed;
    AsciiAsFar(u, width);
    HighWitness(u, width);
  }

  lemma AsciiAsFar(u: Buffer, width: Option<nat>)
    ensures AllAscii(CutBytes(u, width)) || (AsciiPrefix(u) < |u| && (width.Some? ==> AsciiPrefix(u) < width.value))
  {
    var j, c := AsciiPrefix(u), CutBytes(u, width);
    if |c| <= j {
      assert forall i :: 0 <= i < |c| ==> c[i] == u[..j][i];
    }
  }

  lemma HighWitness(u: Buffer, width: Option<nat>)
    requires WellFormed(u) && AsciiPrefix(u) < |u| && (width.Some? ==> AsciiPrefix(u) < width.value)
    ensures var b := OrderWitness(u);
            var x, y := CutBytes(b, width), CutChars(Decode(b), width);
            if TextBelow(x, u) then !TextBelow(u, x) && !TextBelow(y, u) && TextBelow(u, y)
            else TextBelow(u, x) && TextBelow(y, u) && !TextBelow(u, y)
  {
    hide Decode, LooksUtf8, EncodeByte, TextBelow, TakeLeads;
    var j := AsciiPrefix(u);
    var x: Byte := if u[j] <= 0xC3 then 0x80 else 0xFF;
    var b := u[..j] + [x];
    LeadByte(u);
    OneHighByte(u[..j], x);
    EncodedHigh(x);
    var d := u[..j] + EncodeByte(x);
    if width.Some? {
      TakeLeadsAll(d, width.value);
    }
    assert CutBytes(b, width) == b && CutChars(Decode(b), width) == d;
    assert d[j] == EncodeByte(x)[0] && b[..j] == u[..j] == d[..j];
    if x == 0x80 {
      FirstDifference(b, u, j);
      FirstDifference(u, d, j);
    } else {
      FirstDifference(u, b, j);
      FirstDifference(d, u, j);
    }
  }

  lemma LeadByte(u: Buffer)
    requires WellFormed(u) && AsciiPrefix(u) < |u|
    ensures 0xC2 <= u[AsciiPrefix(u)] <= 0xF4
  {
    hide WellFormed, LooksUtf8, AsciiPrefix;
    WellFormedLooksUtf8(u);
    HighStart(u);
  }

  /**
   * The exact condition, for every literal DuckDB can hold: the server and DuckDB agree on all stored
   * text if and only if the literal is safe under the operator and the LEFT width.
   */
  lemma LiteralIsExact(op: CmpOp, u: Buffer, width: Option<nat>)
    requires WellFormed(u)
    ensures (forall b: Buffer :: ServerSays(op, b, width, u) == DuckSays(op, b, width, u)) <==> SafeLiteral(op, u, width)
  {
    if SafeLiteral(op, u, width) {
      forall b: Buffer
        ensures ServerSays(op, b, width, u) == DuckSays(op, b, width, u)
      {
        SafeLiteralAgrees(op, b, width, u);
      }
    } else if IsEquality(op) {
      UnsafeEquality(op, u, width);
    } else {
      UnsafeOrder(op, u, width);
    }
  }

  /** The letter e with an acute accent: stored as one byte, shown and sent as two. Its row is lost to `=` and let in by `<>`. */
  lemma AccentIsLost()
    ensures var b, u: Buffer := [0xE9], [0xC3, 0xA9];
            && WellFormed(u) && Decode(b) == u
            && DuckSays(Eq, b, None, u) && !ServerSays(Eq, b, None, u)
            && !DuckSays(Ne, b, None, u) && ServerSays(Ne, b, None, u)
            && !SafeLiteral(Eq, u, None) && !SafeLiteral(Ne, u, None)
  {
    var b, u: Buffer := [0xE9], [0xC3, 0xA9];
    assert b[1..] == [] && PerByte([]) == [] && EncodeByte(0xE9) == u;
    assert u[2..] == [] && FirstChar(u) == Some((0xE9, 2)) && Codepoints([]) == Some([]);
    assert [0xE9 as nat] + [] == [0xE9];
    assert Codepoints(u) == Some([0xE9]);
    SafeLiteralUnlessShown(b, u);
  }

  lemma SafeLiteralUnlessShown(b: Buffer, u: Buffer)
    requires WellFormed(u) && Decode(b) == u && b != u
    ensures !SafeLiteral(Eq, u, None) && !SafeLiteral(Ne, u, None)
  {
    if SafeLiteral(Eq, u, None) {
      SafeLiteralAgrees(Eq, b, None, u);
    }
    if SafeLiteral(Ne, u, None) {
      SafeLiteralAgrees(Ne, b, None, u);
    }
  }

  // ----- two cuts of the same column -----

  function Narrower(a: Option<nat>, b: Option<nat>): bool {
    a.Some? && (b.None? || a.value < b.value)
  }

  /** Two cuts of one column are compared alike: the same cut, an empty one, or an outcome that a longer side cannot change. */
  predicate SafeCuts(op: CmpOp, a: Option<nat>, b: Option<nat>) {
    || a == b || a == Some(0) || b == Some(0)
    || (Narrower(a, b) && (op.Le? || op.Gt?))
    || (Narrower(b, a) && (op.Ge? || op.Lt?))
  }

  predicate ServerCuts(op: CmpOp, s: Buffer, a: Option<nat>, b: Option<nat>) {
    Compare(op, FilterAst.Text(CutBytes(s, a)), FilterAst.Text(CutBytes(s, b)))
  }

  predicate DuckCuts(op: CmpOp, s: Buffer, a: Option<nat>, b: Option<nat>) {
    Compare(op, FilterAst.Text(CutChars(Decode(s), a)), FilterAst.Text(CutChars(Decode(s), b)))
  }

  lemma {:induction false} PrefixOrder(x: Buffer, y: Buffer)
    requires x <= y
    ensures !TextBelow(y, x) && (TextBelow(x, y) <==> x != y)
  {
    if x != [] {
      assert x[1..] <= y[1..];
      PrefixOrder(x[1..], y[1..]);
      assert x == [x[0]] + x[1..] && y == [y[0]] + y[1..];
    }
  }

  /** The narrower cut is a prefix of the wider, and the same if there is no more to cut. */
  lemma CutsArePrefixes(s: Buffer, a: Option<nat>, b: Option<nat>)
    requires Narrower(a, b)
    ensures CutBytes(s, a) <= CutBytes(s, b) && (CutBytes(s, a) == CutBytes(s, b) <==> |s| <= a.value)
    ensures CutChars(s, a) <= CutChars(s, b) && (CutChars(s, a) == CutChars(s, b) <==> Leads(s) <= a.value)
  {
    hide TakeLeads, Leads;
    TakeLeadsAll(s, a.value);
    if b.Some? {
      ByteCuts(s, a.value, b.value);
      TakeLeadsTwice(s, b.value, a.value);
      TakeLeadsAll(s, b.value);
      TakeLeadsAll(TakeLeads(s, b.value), a.value);
      assert TakeLeads(TakeLeads(s, b.value), a.value) <= TakeLeads(s, b.value);
    }
  }

  lemma ByteCuts(s: Buffer, a: nat, b: nat)
    requires a < b
    ensures LeftBytes(s, a) <= LeftBytes(s, b) && (LeftBytes(s, a) == LeftBytes(s, b) <==> |s| <= a)
  {
  }

  lemma DecodedStarts(s: Buffer)
    ensures Decode(s) == [] <==> s == []
    ensures Leads(Decode(s)) == 0 <==> s == []
  {
    if s != [] {
      if AllAscii(s) {
        AsciiLooksUtf8(s);
      } else {
        PartAtFirstHigh(s);
        var d, j := Decode(s), AsciiPrefix(s);
        LeadsConcat(d[..j], d[j..]);
        assert d == d[..j] + d[j..];
      }
    }
  }

  lemma SafeCutsAgree(op: CmpOp, s: Buffer, a: Option<nat>, b: Option<nat>)
    requires SafeCuts(op, a, b)
    ensures ServerCuts(op, s, a, b) == DuckCuts(op, s, a, b)
  {
    CutsDecide(op, s, a, b);
    CutsDecide(op, s, b, a);
    DecodedStarts(s);
  }

  lemma CutsDecide(op: CmpOp, s: Buffer, a: Option<nat>, b: Option<nat>)
    requires Narrower(a, b) || Narrower(b, a) || a == b
    ensures Narrower(a, b) ==>
              && ServerCuts(op, s, a, b) == Outcome(op, |s| <= a.value, true)
              && DuckCuts(op, s, a, b) == Outcome(op, Leads(Decode(s)) <= a.value, true)
    ensures Narrower(b, a) ==>
              && ServerCuts(op, s, a, b) == Outcome(op, |s| <= b.value, false)
              && DuckCuts(op, s, a, b) == Outcome(op, Leads(Decode(s)) <= b.value, false)
    ensures a == b ==> ServerCuts(op, s, a, b) == DuckCuts(op, s, a, b) == Outcome(op, true, true)
  {
    hide CutBytes, CutChars, Decode, TextBelow, Leads;
    if Narrower(a, b) {
      CutsArePrefixes(s, a, b);
      CutsArePrefixes(Decode(s), a, b);
      PrefixOrder(CutBytes(s, a), CutBytes(s, b));
      PrefixOrder(CutChars(Decode(s), a), CutChars(Decode(s), b));
    } else if Narrower(b, a) {
      CutsArePrefixes(s, b, a);
      CutsArePrefixes(Decode(s), b, a);
      PrefixOrder(CutBytes(s, b), CutBytes(s, a));
      PrefixOrder(CutChars(Decode(s), b), CutChars(Decode(s), a));
    } else {
      PrefixOrder(CutBytes(s, a), CutBytes(s, a));
      PrefixOrder(CutChars(Decode(s), a), CutChars(Decode(s), a));
    }
  }

  /** Comparing a text with itself, or with a proper prefix of it on one side. */
  predicate Outcome(op: CmpOp, same: bool, leftIsShorter: bool) {
    match op
    case Eq => same
    case NotDistinctFrom => same
    case Ne => !same
    case DistinctFrom => !same
    case Lt => !same && leftIsShorter
    case Gt => !same && !leftIsShorter
    case Le => same || leftIsShorter
    case Ge => same || !leftIsShorter
  }

  /** As many characters as the narrower cut takes, the last of two bytes. */
  function CutWitness(n: nat): Buffer
    requires n > 0
  {
    seq(n - 1, _ => 0x41) + [0xC3, 0xA9]
  }

  lemma CutWitnessCounts(n: nat)
    requires n > 0
    ensures |CutWitness(n)| == n + 1 && Leads(Decode(CutWitness(n))) == n
  {
    var a: Buffer, c: Buffer := seq(n - 1, _ => 0x41), [0xC3, 0xA9];
    TwoByteLetter();
    hide LooksUtf8, Leads, PerByte;
    AsciiLooksUtf8(a);
    LooksUtf8Concat(a, c);
    LeadsConcat(a, c);
  }

  lemma TwoByteLetter()
    ensures LooksUtf8([0xC3, 0xA9]) && Leads([0xC3, 0xA9]) == 1
  {
    var c: Buffer := [0xC3, 0xA9];
    assert c[2..] == [] && c[1..] == [0xA9] && c[1..][1..] == [];
  }

  /** The condition on two cuts is exact as well. */
  lemma CutsAreExact(op: CmpOp, a: Option<nat>, b: Option<nat>)
    ensures (forall s: Buffer :: ServerCuts(op, s, a, b) == DuckCuts(op, s, a, b)) <==> SafeCuts(op, a, b)
  {
    if SafeCuts(op, a, b) {
      forall s: Buffer
        ensures ServerCuts(op, s, a, b) == DuckCuts(op, s, a, b)
      {
        SafeCutsAgree(op, s, a, b);
      }
    } else {
      var n := if Narrower(a, b) then a.value else b.value;
      var s := CutWitness(n);
      CutWitnessCounts(n);
      CutsDecide(op, s, a, b);
    }
  }
}
