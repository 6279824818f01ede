/**
 * LEFT of a column in a list of texts. The server looks up the first n stored bytes, DuckDB the first n
 * characters of what is shown; the lists on which the two always agree are those of safe texts only.
 */
module CutLists {
  import opened Wrappers
  import opened Bytes
  import opened Text
  import opened FilterAst
  import opened TextPushdown

  predicate Differs(us: seq<Buffer>, b: Buffer, width: Option<nat>) {
    (CutBytes(b, width) in us) != (CutChars(Decode(b), width) in us)
  }

  // ----- transcoded text -----

  lemma {:induction false} LeadsPerByte(s: Buffer)
    ensures Leads(PerByte(s)) == |s|
  {
    hide EncodeByte;
    if s != [] {
      LeadsPerByte(s[1..]);
      LeadsConcat(EncodeByte(s[0]), PerByte(s[1..]));
      OneCharacter(s[0]);
    }
  }

  lemma OneCharacter(x: Byte)
    ensures Leads(EncodeByte(x)) == 1
  {
    if x < 0x80 {
      CodepointRange(x);
      assert EncodeByte(x)[1..] == [];
    } else {
      EncodedHigh(x);
    }
  }

  /** A well-formed prefix of transcoded text ends where a character ends. */
  lemma {:induction false} PrefixOfPerByte(s: Buffer, k: nat) returns (m: nat)
    requires k <= |PerByte(s)| && WellFormed(PerByte(s)[..k])
    ensures m <= |s| && PerByte(s)[..k] == PerByte(s[..m])
  {
    if k == 0 {
      m := 0;
    } else {
      var e, rest := EncodeByte(s[0]), PerByte(s[1..]);
      assert PerByte(s) == e + rest;
      EncodedWhole(s[0], PerByte(s)[..k], rest);
      assert PerByte(s)[..k] == e + rest[..k - |e|];
      assert PerByte(s)[..k][|e|..] == rest[..k - |e|];
      var m' := PrefixOfPerByte(s[1..], k - |e|);
      m := m' + 1;
      assert s[..m][1..] == s[1..][..m'];
    }
  }

  /** A non-empty well-formed prefix holds all of the first character and goes on well formed. */
  lemma EncodedWhole(x: Byte, p: Buffer, rest: Buffer)
    requires p != [] && p <= EncodeByte(x) + rest && WellFormed(p)
    ensures |EncodeByte(x)| <= |p| && WellFormed(p[|EncodeByte(x)|..])
  {
    CodepointRange(x);
    assert p[0] == EncodeByte(x)[0];
    assert FirstChar(p).Some?;
    assert FirstChar(p).value.1 == |EncodeByte(x)|;
  }

  lemma {:induction false} InvalidByte(s: Buffer)
    requires 0xFF in s
    ensures !LooksUtf8(s)
  {
    if LooksUtf8(s) {
      var n := 1 + Need(s[0]).value;
      assert s == s[..n] + s[n..];
      assert 0xFF in s[n..];
      InvalidByte(s[n..]);
    }
  }

  lemma TranscodedIsShown(s: Buffer)
    ensures WellFormed(PerByte(s)) && LooksUtf8(PerByte(s)) && Decode(PerByte(s)) == PerByte(s)
  {
    PerByteCodepoints(s);
    WellFormedLooksUtf8(PerByte(s));
  }

  // ----- one unsafe text gives a row that differs -----

  /** A text with at most n characters but at least n bytes, not all ASCII, is not ASCII within its first n bytes. */
  lemma CutNotAscii(u: Buffer, n: nat)
    requires WellFormed(u) && !AllAscii(u) && Leads(u) <= n <= |u|
    ensures !AllAscii(u[..n])
  {
    hide Leads, WellFormed;
    if AllAscii(u[..n]) {
      var rest := u[n..];
      assert u == u[..n] + rest;
      WellFormedLooksUtf8(u);
      AsciiLooksUtf8(u[..n]);
      LooksUtf8Concat(u[..n], rest);
      LeadsConcat(u[..n], rest);
      if rest != [] {
        LeadFirst(rest);
      }
    }
  }

  lemma LeadFirst(s: Buffer)
    requires LooksUtf8(s) && s != []
    ensures Leads(s) > 0
  {
  }

  /** What is recoded to a listed text is itself in no list of well-formed texts. */
  lemma RecodedDiffers(us: seq<Buffer>, u: Buffer, width: Option<nat>) returns (b: Buffer)
    requires (forall w :: w in us ==> WellFormed(w)) && u in us && Recoded(u) && (width.Some? ==> |u| < width.value)
    ensures Differs(us, b, width)
  {
    b := OldBytes(Codepoints(u).value);
    RecodedLiteral(u, width);
    PerByteGrows(b);
    if b in us {
      WellFormedLooksUtf8(b);
    }
  }

  /** A listed text of exactly n bytes, not ASCII, in front of a byte that spoils it: only the server finds it. */
  lemma SpoiltDiffers(us: seq<Buffer>, p: Buffer)
    requires p in us && WellFormed(p)
    ensures PerByte(p) in us || Differs(us, p + [0xFF], Some(|p|))
  {
    hide LooksUtf8, PerByte, Leads, TakeLeads, WellFormed, EncodeByte;
    var b := p + [0xFF];
    WellFormedLooksUtf8(p);
    LooksUtf8Concat(p, [0xFF]);
    LoneByte(0xFF);
    PerByteConcat(p, [0xFF]);
    LeadsPerByte(p);
    TakeLeadsConcat(PerByte(p), EncodeByte(0xFF), |p|);
    LastStops();
    assert PerByte(p) + [] == PerByte(p);
    assert b[..|p|] == p;
  }

  lemma LastStops()
    ensures TakeLeads(EncodeByte(0xFF), 0) == []
  {
    TwoEncodings();
  }

  /** A well-formed text of at most n characters: DuckDB sees all of it. */
  lemma WholeShown(us: seq<Buffer>, u: Buffer, n: nat)
    requires WellFormed(u) && Leads(u) <= n <= |u|
    ensures Differs(us, u, Some(n)) <==> (u[..n] in us) != (u in us)
  {
    WellFormedLooksUtf8(u);
    TakeLeadsAll(u, n);
    assert LeftOf(u, n);
  }

  predicate LeftOf(u: Buffer, n: nat)
    requires n <= |u|
  {
    CutBytes(u, Some(n)) == u[..n]
  }

  /** A listed transcoded text of exactly n bytes from fewer: fill it up to n characters with a byte that is never UTF-8. */
  lemma FilledDiffers(us: seq<Buffer>, x: Buffer, n: nat) returns (b: Buffer)
    requires (forall w :: w in us ==> WellFormed(w)) && PerByte(x) in us && |x| < n == |PerByte(x)|
    ensures Differs(us, b, Some(n))
  {
    hide LooksUtf8, PerByte, Leads, WellFormed, Differs;
    var f: Buffer := seq(n - |x|, _ => 0xFF);
    var z := x + f;
    var r := PerByte(z);
    PerByteConcat(x, f);
    LeadsPerByte(z);
    TranscodedIsShown(z);
    if r !in us {
      b := r;
      assert r[..n] == PerByte(x);
      WholeShown(us, r, n);
    } else {
      b := z;
      assert f[0] in z;
      InvalidByte(z);
      InvalidOnce(us, z, n);
    }
  }

  lemma InvalidOnce(us: seq<Buffer>, z: Buffer, n: nat)
    requires (forall w :: w in us ==> WellFormed(w)) && !LooksUtf8(z) && PerByte(z) in us && |z| == n
    ensures Differs(us, z, Some(n))
  {
    hide LooksUtf8, PerByte, Leads, WellFormed;
    LeadsPerByte(z);
    TakeLeadsAll(PerByte(z), n);
    assert z[..n] == z;
    if z in us {
      WellFormedLooksUtf8(z);
    }
  }

  lemma LongDiffers(us: seq<Buffer>, u: Buffer, n: nat) returns (b: Buffer)
    requires (forall w :: w in us ==> WellFormed(w)) && u in us && !AllAscii(u) && Leads(u) <= n <= |u|
    ensures Differs(us, b, Some(n))
  {
    hide LooksUtf8, PerByte, Leads, WellFormed, Differs, AllAscii;
    var p := u[..n];
    if p !in us {
      WholeShown(us, u, n);
      return u;
    }
    CutNotAscii(u, n);
    var q := PerByte(p);
    if q !in us {
      SpoiltDiffers(us, p);
      return p + [0xFF];
    }
    PerByteGrows(p);
    LeadsPerByte(p);
    if q[..n] !in us {
      WholeShown(us, q, n);
      return q;
    }
    var m := PrefixOfPerByte(p, n);
    assert p[..n] == p;
    b := FilledDiffers(us, p[..m], n);
  }

  /**
   * The exact condition: looking up LEFT of a column in a list of texts comes out alike on all stored
   * bytes if and only if every text of the list is safe by itself.
   */
  lemma CutListIsExact(us: seq<Buffer>, width: Option<nat>)
    requires forall i :: 0 <= i < |us| ==> WellFormed(us[i])
    ensures (forall b: Buffer :: CutBytes(b, width) in us <==> CutChars(Decode(b), width) in us)
            <==> forall i :: 0 <= i < |us| ==> SafeLiteral(Eq, us[i], width)
  {
    hide Decode, CutBytes, CutChars, WellFormed, Recoded;
    if k :| 0 <= k < |us| && !SafeLiteral(Eq, us[k], width) {
      var u := us[k];
      var b: Buffer;
      if width.Some? && |u| >= width.value {
        b := LongDiffers(us, u, width.value);
      } else {
        b := RecodedDiffers(us, u, width);
      }
      assert Differs(us, b, width);
    } else {
      forall b: Buffer
        ensures CutBytes(b, width) in us <==> CutChars(Decode(b), width) in us
      {
        forall i | 0 <= i < |us|
          ensures CutBytes(b, width) == us[i] <==> CutChars(Decode(b), width) == us[i]
        {
          SafeLiteralAgrees(Eq, b, width, us[i]);
        }
      }
    }
  }
}
