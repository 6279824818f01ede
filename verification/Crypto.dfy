/** Login encryption: length-prefixed credentials, zero padding, CBC in place over a block cipher. */
module Crypto {
  import opened Wrappers
  import opened Bytes

  type Block = b: Buffer | |b| == 8 witness [0, 0, 0, 0, 0, 0, 0, 0]

  /** Exclusive or of two numbers, bit by bit. */
  function Xor(a: nat, b: nat): nat
    decreases a + b
  {
    if a == 0 && b == 0 then 0 else (a % 2 + b % 2) % 2 + 2 * Xor(a / 2, b / 2)
  }

  lemma {:induction false} XorBound(a: nat, b: nat, k: nat)
    requires a < Pow2(k) && b < Pow2(k)
    ensures Xor(a, b) < Pow2(k)
    decreases k
  {
    if k > 0 && a + b > 0 {
      XorBound(a / 2, b / 2, k - 1);
    }
  }

  function Pow2(k: nat): nat {
    if k == 0 then 1 else 2 * Pow2(k - 1)
  }

  /** Applying the same mask twice undoes it. */
  lemma {:induction false} XorUndoes(a: nat, b: nat)
    ensures Xor(Xor(a, b), b) == a
    decreases a + b
  {
    var x := Xor(a, b);
    if a + b > 0 {
      XorUndoes(a / 2, b / 2);
      XorStep(a, b);
      XorStep(x, b);
      BitTwice(a % 2, b % 2);
    }
  }

  lemma XorStep(a: nat, b: nat)
    ensures Xor(a, b) % 2 == (a % 2 + b % 2) % 2 && Xor(a, b) / 2 == Xor(a / 2, b / 2)
  {
  }

  lemma BitTwice(p: nat, q: nat)
    requires p < 2 && q < 2
    ensures ((p + q) % 2 + q) % 2 == p
  {
  }

  function XorByte(a: Byte, b: Byte): Byte {
    assert Pow2(8) == 256 by {
      assert Pow2(4) == 16;
    }
    XorBound(a, b, 8);
    Xor(a, b)
  }

  function XorBlock(a: Block, b: Block): Block {
    seq(8, i requires 0 <= i < 8 => XorByte(a[i], b[i]))
  }

  lemma XorBlockUndoes(a: Block, b: Block)
    ensures XorBlock(XorBlock(a, b), b) == a
  {
    forall i | 0 <= i < 8
      ensures XorBlock(XorBlock(a, b), b)[i] == a[i]
    {
      XorUndoes(a[i], b[i]);
    }
  }

  // ----- CBC -----

  /** Cipher block chaining: each block is masked with the ciphertext before it, then enciphered. */
  function Cbc(encipher: Block -> Block, prev: Block, pt: Buffer): (ct: Buffer)
    requires |pt| % 8 == 0
    ensures |ct| == |pt|
    decreases |pt|
  {
    if pt == [] then []
    else
      var c := encipher(XorBlock(pt[..8], prev));
      c + Cbc(encipher, c, pt[8..])
  }

  /** Decryption as section 6.2 of NIST SP 800-38A defines it. */
  function CbcInverse(decipher: Block -> Block, prev: Block, ct: Buffer): (pt: Buffer)
    requires |ct| % 8 == 0
    ensures |pt| == |ct|
    decreases |ct|
  {
    if ct == [] then []
    else XorBlock(decipher(ct[..8]), prev) + CbcInverse(decipher, ct[..8], ct[8..])
  }

  lemma {:induction false} CbcRoundTrip(encipher: Block -> Block, decipher: Block -> Block, prev: Block, pt: Buffer)
    requires |pt| % 8 == 0
    requires forall b: Block :: decipher(encipher(b)) == b
    ensures CbcInverse(decipher, prev, Cbc(encipher, prev, pt)) == pt
    decreases |pt|
  {
    if pt != [] {
      var c := encipher(XorBlock(pt[..8], prev));
      var ct := Cbc(encipher, prev, pt);
      assert ct[..8] == c && ct[8..] == Cbc(encipher, c, pt[8..]);
      XorBlockUndoes(pt[..8], prev);
      CbcRoundTrip(encipher, decipher, c, pt[8..]);
      assert pt == pt[..8] + pt[8..];
    }
  }

  // ----- the login plaintext -----

  datatype LoginError = TooLong

  const ZERO_IV: Block := [0, 0, 0, 0, 0, 0, 0, 0]

  function Padding(n: nat): nat {
    (8 - n % 8) % 8
  }

  function Plaintext(user: Buffer, password: Buffer): (pt: Buffer)
    requires |user| <= 255 && |password| <= 255
    ensures |pt| % 8 == 0 && 2 + |user| + |password| <= |pt| < 10 + |user| + |password|
  {
    [|user|] + user + [|password|] + password + Zeros(Padding(2 + |user| + |password|))
  }

  function Ciphertext(encipher: Block -> Block, user: Buffer, password: Buffer): Buffer
    requires |user| <= 255 && |password| <= 255
  {
    Cbc(encipher, ZERO_IV, Plaintext(user, password))
  }

  /** encrypt_login: build the padded plaintext, then replace each block of it in place. */
  method EncryptLogin(user: Buffer, password: Buffer, encipher: Block -> Block) returns (r: Result<Buffer, LoginError>)
    ensures r.Err? <==> |user| > 255 || |password| > 255
    ensures r.Ok? ==> r.value == Ciphertext(encipher, user, password)
  {
    if |user| > 255 || |password| > 255 {
      return Err(TooLong);
    }
    var plain := [|user|] + user;
    plain := plain + [|password|] + password;
    var pad := (8 - |plain| % 8) % 8;
    plain := plain + Zeros(pad);
    assert plain == Plaintext(user, password);

    var pt := new Byte[|plain|](i requires 0 <= i < |plain| => plain[i]);
    assert pt[..] == plain;
    CbcInPlace(pt, encipher);
    return Ok(pt[..]);
  }

  /** The CBC loop, over the plaintext buffer itself. */
  method CbcInPlace(pt: array<Byte>, encipher: Block -> Block)
    requires pt.Length % 8 == 0
    modifies pt
    ensures pt[..] == Cbc(encipher, ZERO_IV, old(pt[..]))
  {
    hide Cbc, XorBlock;
    ghost var plain, left := pt[..], pt[..];
    var prev: Block := ZERO_IV;
    var off := 0;
    assert pt[..0] + Cbc(encipher, prev, left) == Cbc(encipher, prev, left);
    while off < pt.Length
      invariant off <= pt.Length && off % 8 == 0
      invariant pt[off..] == left && |left| == pt.Length - off
      invariant Cbc(encipher, ZERO_IV, plain) == pt[..off] + Cbc(encipher, prev, left)
      decreases pt.Length - off
    {
      ghost var done := pt[..off];
      assert pt[off..off + 8] == pt[off..][..8];
      assert pt[off + 8..] == pt[off..][8..];
      var block: Block := encipher(XorBlock(pt[off..off + 8], prev));
      CbcStep(encipher, prev, left, done);
      StoreBlock(pt, off, block);
      assert pt[..off + 8] == pt[..off] + pt[off..off + 8];
      left := left[8..];
      prev := block;
      off := off + 8;
    }
    CbcOfNothing(encipher, prev, left);
    assert pt[..off] == pt[..];
  }

  lemma CbcOfNothing(encipher: Block -> Block, prev: Block, left: Buffer)
    requires left == []
    ensures Cbc(encipher, prev, left) == []
  {
  }

  lemma CbcStep(encipher: Block -> Block, prev: Block, left: Buffer, done: Buffer)
    requires |left| >= 8 && |left| % 8 == 0
    ensures var block := encipher(XorBlock(left[..8], prev));
            done + Cbc(encipher, prev, left) == (done + block) + Cbc(encipher, block, left[8..])
  {
    hide XorBlock;
    var block := encipher(XorBlock(left[..8], prev));
    assert done + (block + Cbc(encipher, block, left[8..])) == (done + block) + Cbc(encipher, block, left[8..]);
  }

  method StoreBlock(pt: array<Byte>, off: nat, block: Block)
    requires off + 8 <= pt.Length
    modifies pt
    ensures pt[..off] == old(pt[..off]) && pt[off..off + 8] == block && pt[off + 8..] == old(pt[off + 8..])
  {
    for i := 0 to 8
      invariant forall k :: 0 <= k < pt.Length && !(off <= k < off + i) ==> pt[k] == old(pt[k])
      invariant forall k :: 0 <= k < i ==> pt[off + k] == block[k]
    {
      pt[off + i] := block[i];
    }
  }

  // ----- recovery -----

  /** The server's reading of a plaintext: two length-prefixed strings. */
  function ReadCredentials(pt: Buffer): Option<(Buffer, Buffer)> {
    if |pt| < 1 then None
    else
      var ulen: int := pt[0];
      if |pt| < 2 + ulen then None
      else
        var plen: int := pt[1 + ulen];
        if |pt| < 2 + ulen + plen then None
        else Some((pt[1..1 + ulen], pt[2 + ulen..2 + ulen + plen]))
  }

  lemma ReadPlaintext(user: Buffer, password: Buffer)
    requires |user| <= 255 && |password| <= 255
    ensures ReadCredentials(Plaintext(user, password)) == Some((user, password))
  {
    var pt := Plaintext(user, password);
    assert pt[0] == |user| && pt[1 + |user|] == |password|;
    assert pt[1..1 + |user|] == user;
    assert pt[2 + |user|..2 + |user| + |password|] == password;
  }

  /**
   * Login encryption is invertible: for any block permutation, CBC decryption and the two length
   * prefixes give both strings back, and the ciphertext has the least multiple of 8 bytes they fit in.
   */
  lemma LoginIsInvertible(encipher: Block -> Block, decipher: Block -> Block, user: Buffer, password: Buffer)
    requires |user| <= 255 && |password| <= 255
    requires forall b: Block :: decipher(encipher(b)) == b
    ensures var ct := Ciphertext(encipher, user, password);
            && |ct| % 8 == 0 && 2 + |user| + |password| <= |ct| < 10 + |user| + |password|
            && ReadCredentials(CbcInverse(decipher, ZERO_IV, ct)) == Some((user, password))
  {
    CbcRoundTrip(encipher, decipher, ZERO_IV, Plaintext(user, password));
    ReadPlaintext(user, password);
  }

  /** Distinct credentials give distinct ciphertexts. */
  lemma LoginIsInjective(encipher: Block -> Block, decipher: Block -> Block,
                         user: Buffer, password: Buffer, user': Buffer, password': Buffer)
    requires |user| <= 255 && |password| <= 255 && |user'| <= 255 && |password'| <= 255
    requires forall b: Block :: decipher(encipher(b)) == b
    requires Ciphertext(encipher, user, password) == Ciphertext(encipher, user', password')
    ensures user == user' && password == password'
  {
    LoginIsInvertible(encipher, decipher, user, password);
    LoginIsInvertible(encipher, decipher, user', password');
  }
}
