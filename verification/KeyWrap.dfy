/** Key wrap and unwrap in place (crysprFallback_AES_WrapKey and UnwrapKey), as in sections 2.2.1 and 2.2.2 of RFC 3394,
    over any permutation of 16-byte blocks. */
module KeyWrap {
  import opened Packets

  type Bytes = seq<Byte>

  type Block16 = b: Bytes | |b| == 16 witness seq(16, _ => 0)

  /** The block cipher under some key. */
  datatype Cipher = Cipher(enc: Block16 -> Block16, dec: Block16 -> Block16)

  ghost predicate Permutation(c: Cipher) {
    forall b: Block16 :: c.dec(c.enc(b)) == b && c.enc(c.dec(b)) == b
  }

  const IV: Bytes := [0xA6, 0xA6, 0xA6, 0xA6, 0xA6, 0xA6, 0xA6, 0xA6]

  /** Exclusive or of the lowest `k` bits. */
  function BitXor(x: nat, y: nat, k: nat): nat {
    if k == 0 then 0 else 2 * BitXor(x / 2, y / 2, k - 1) + (x % 2 + y % 2) % 2
  }

  function Power2(k: nat): nat {
    if k == 0 then 1 else 2 * Power2(k - 1)
  }

  lemma {:induction false} BitXorBound(x: nat, y: nat, k: nat)
    ensures BitXor(x, y, k) < Power2(k)
  {
    if k > 0 {
      BitXorBound(x / 2, y / 2, k - 1);
    }
  }

  lemma Halves(h: nat, b: nat)
    requires b < 2
    ensures (2 * h + b) / 2 == h && (2 * h + b) % 2 == b
  {
  }

  lemma ParityTwice(x: nat, y: nat)
    ensures ((x % 2 + y % 2) % 2 + y % 2) % 2 == x % 2 && x == 2 * (x / 2) + x % 2
  {
  }

  lemma {:induction false} BitXorTwice(x: nat, y: nat, k: nat)
    requires x < Power2(k)
    ensures BitXor(BitXor(x, y, k), y, k) == x
  {
    if k > 0 {
      BitXorTwice(x / 2, y / 2, k - 1);
      Halves(BitXor(x / 2, y / 2, k - 1), (x % 2 + y % 2) % 2);
      ParityTwice(x, y);
    }
  }

  lemma {:induction false} BitXorZero(x: nat, k: nat)
    requires x < Power2(k)
    ensures BitXor(x, 0, k) == x
  {
    if k > 0 {
      BitXorZero(x / 2, k - 1);
    }
  }

  lemma {:induction false} BitXorOfZero(y: nat, k: nat)
    requires y < Power2(k)
    ensures BitXor(0, y, k) == y
  {
    if k > 0 {
      BitXorOfZero(y / 2, k - 1);
    }
  }

  lemma PowerOfByte()
    ensures Power2(8) == 0x100
  {
  }

  function XorByte(x: Byte, y: Byte): Byte {
    PowerOfByte();
    BitXorBound(x, y, 8);
    BitXor(x, y, 8)
  }

  lemma XorTwice(x: Byte, y: Byte)
    ensures XorByte(XorByte(x, y), y) == x
  {
    PowerOfByte();
    BitXorTwice(x, y, 8);
  }

  lemma XorZero(x: Byte)
    ensures XorByte(x, 0) == x
  {
    PowerOfByte();
    BitXorZero(x, 8);
  }


  lemma ZeroXor(y: Byte)
    ensures XorByte(0, y) == y
  {
    PowerOfByte();
    BitXorOfZero(y, 8);
  }

  function Xor8(a: Bytes, b: Bytes): (r: Bytes)
    requires |a| == 8 && |b| == 8
    ensures |r| == 8 && forall i :: 0 <= i < 8 ==> r[i] == XorByte(a[i], b[i])
  {
    seq(8, i requires 0 <= i < 8 => XorByte(a[i], b[i]))
  }

  /** The cast of an unsigned integer to a byte. */
  function Low8(n: nat): Byte {
    n % 0x100
  }

  /** The last four bytes are the step counter. */
  function CounterBytes(t: nat): (m: Bytes)
    ensures |m| == 8
  {
    [0, 0, 0, 0, Low8(t / 0x100_0000), Low8(t / 0x1_0000), Low8(t / 0x100), Low8(t)]
  }

  /** What the step counter is xored with: its upper three bytes are left out while it fits into one. */
  function Mask(t: nat): (m: Bytes)
    ensures |m| == 8
  {
    if t > 0xFF then CounterBytes(t) else [0, 0, 0, 0, 0, 0, 0, Low8(t)]
  }

  /** Leaving them out changes nothing: they are 0 then. */
  lemma MaskIsCounter(t: nat)
    ensures Mask(t) == CounterBytes(t)
  {
    if t <= 0xFF {
      assert t / 0x100 == 0 && t / 0x1_0000 == 0 && t / 0x100_0000 == 0;
    }
  }

  lemma Xor8Twice(a: Bytes, b: Bytes)
    requires |a| == 8 && |b| == 8
    ensures Xor8(Xor8(a, b), b) == a
  {
    forall i | 0 <= i < 8 ensures Xor8(Xor8(a, b), b)[i] == a[i] {
      XorTwice(a[i], b[i]);
    }
  }

  /** The integrity register and the registers that hold the key, eight bytes each. */
  datatype Regs = Regs(a: Bytes, r: Bytes)

  /** Register `k` is there. */
  predicate Has(s: Regs, k: nat) {
    |s.a| == 8 && 8 * k + 8 <= |s.r|
  }

  function Splice(r: Bytes, k: nat, x: Bytes): (r': Bytes)
    requires 8 * k + 8 <= |r| && |x| == 8
    ensures |r'| == |r|
  {
    r[..8 * k] + x + r[8 * k + 8..]
  }

  /** Step `t` of wrapping, on register `k`. */
  function WrapStep(c: Cipher, s: Regs, k: nat, t: nat): (s': Regs)
    ensures |s'.a| == |s.a| && |s'.r| == |s.r|
  {
    if !Has(s, k) then s
    else
      var b: Bytes := c.enc(s.a + s.r[8 * k..8 * k + 8]);
      Regs(Xor8(b[..8], Mask(t)), Splice(s.r, k, b[8..]))
  }

  /** Step `t` of unwrapping, on register `k`. */
  function UnwrapStep(c: Cipher, s: Regs, k: nat, t: nat): (s': Regs)
    ensures |s'.a| == |s.a| && |s'.r| == |s.r|
  {
    if !Has(s, k) then s
    else
      var b: Bytes := c.dec(Xor8(s.a, Mask(t)) + s.r[8 * k..8 * k + 8]);
      Regs(b[..8], Splice(s.r, k, b[8..]))
  }

  lemma SpliceTwice(r: Bytes, k: nat, x: Bytes)
    requires 8 * k + 8 <= |r| && |x| == 8
    ensures Splice(r, k, x)[8 * k..8 * k + 8] == x
    ensures Splice(Splice(r, k, x), k, r[8 * k..8 * k + 8]) == r
  {
  }

  lemma WrapThenUnwrap(c: Cipher, s: Regs, k: nat, t: nat)
    requires Permutation(c)
    ensures UnwrapStep(c, WrapStep(c, s, k, t), k, t) == s
  {
    if Has(s, k) {
      var x := s.r[8 * k..8 * k + 8];
      var b: Block16 := c.enc(s.a + x);
      SpliceTwice(s.r, k, b[8..]);
      Xor8Twice(b[..8], Mask(t));
      assert b[..8] + b[8..] == b;
      assert (s.a + x)[..8] == s.a && (s.a + x)[8..] == x;
    }
  }

  lemma UnwrapThenWrap(c: Cipher, s: Regs, k: nat, t: nat)
    requires Permutation(c)
    ensures WrapStep(c, UnwrapStep(c, s, k, t), k, t) == s
  {
    if Has(s, k) {
      var x, y := s.r[8 * k..8 * k + 8], Xor8(s.a, Mask(t));
      var d: Block16 := c.dec(y + x);
      SpliceTwice(s.r, k, d[8..]);
      Xor8Twice(s.a, Mask(t));
      assert d[..8] + d[8..] == d;
      assert (y + x)[..8] == y && (y + x)[8..] == x;
    }
  }

  // ----- two nested loops and their mirror image, for any steps that undo each other

  /** The first `k` steps of a pass; `t` steps came before it. */
  function Pass<S>(f: (S, nat, nat) -> S, s: S, t: nat, k: nat): S {
    if k == 0 then s else f(Pass(f, s, t, k - 1), k - 1, t + k)
  }

  /** The steps back of a pass of `n` steps, down to step `k`. */
  function PassBack<S>(g: (S, nat, nat) -> S, s: S, t: nat, n: nat, k: nat): S
    requires k <= n
    decreases n - k
  {
    if k == n then s else g(PassBack(g, s, t, n, k + 1), k, t + k + 1)
  }

  /** The steps of `j` passes of `n` steps. */
  function Steps(j: nat, n: nat): nat {
    if j == 0 then 0 else Steps(j - 1, n) + n
  }

  lemma {:induction false} StepsIs(j: nat, n: nat)
    ensures Steps(j, n) == j * n
  {
    if j > 0 {
      StepsIs(j - 1, n);
    }
  }

  function Passes<S>(f: (S, nat, nat) -> S, s: S, n: nat, j: nat): S {
    if j == 0 then s else Pass(f, Passes(f, s, n, j - 1), Steps(j - 1, n), n)
  }

  function PassesBack<S>(g: (S, nat, nat) -> S, s: S, n: nat, j: nat): S
    decreases j
  {
    if j == 0 then s else PassesBack(g, PassBack(g, s, Steps(j - 1, n), n, 0), n, j - 1)
  }

  ghost predicate Undoes<S(!new)>(g: (S, nat, nat) -> S, f: (S, nat, nat) -> S) {
    forall s: S, k: nat, t: nat :: g(f(s, k, t), k, t) == s
  }

  lemma {:induction false} PassUndone<S(!new)>(f: (S, nat, nat) -> S, g: (S, nat, nat) -> S, s: S, t: nat, n: nat,
                                               k: nat)
    requires Undoes(g, f) && k <= n
    ensures PassBack(g, Pass(f, s, t, n), t, n, k) == Pass(f, s, t, k)
    decreases n - k
  {
    if k < n {
      PassUndone(f, g, s, t, n, k + 1);
    }
  }

  lemma {:induction false} PassRedone<S(!new)>(f: (S, nat, nat) -> S, g: (S, nat, nat) -> S, s: S, t: nat, n: nat,
                                               k: nat)
    requires Undoes(f, g) && k <= n
    ensures Pass(f, PassBack(g, s, t, n, 0), t, k) == PassBack(g, s, t, n, k)
    decreases k
  {
    if k > 0 {
      PassRedone(f, g, s, t, n, k - 1);
    }
  }

  lemma {:induction false} PassesUndone<S(!new)>(f: (S, nat, nat) -> S, g: (S, nat, nat) -> S, s: S, n: nat, j: nat)
    requires Undoes(g, f)
    ensures PassesBack(g, Passes(f, s, n, j), n, j) == s
  {
    if j > 0 {
      PassUndone(f, g, Passes(f, s, n, j - 1), Steps(j - 1, n), n, 0);
      PassesUndone(f, g, s, n, j - 1);
    }
  }

  lemma {:induction false} PassesRedone<S(!new)>(f: (S, nat, nat) -> S, g: (S, nat, nat) -> S, s: S, n: nat, j: nat)
    requires Undoes(f, g)
    ensures Passes(f, PassesBack(g, s, n, j), n, j) == s
    decreases j
  {
    if j > 0 {
      var s1 := PassBack(g, s, Steps(j - 1, n), n, 0);
      PassesRedone(f, g, s1, n, j - 1);
      PassRedone(f, g, s, Steps(j - 1, n), n, n);
    }
  }

  // ----- wrap and unwrap

  function Wrapping(c: Cipher): (Regs, nat, nat) -> Regs {
    (s: Regs, k: nat, t: nat) => WrapStep(c, s, k, t)
  }

  function Unwrapping(c: Cipher): (Regs, nat, nat) -> Regs {
    (s: Regs, k: nat, t: nat) => UnwrapStep(c, s, k, t)
  }

  /** How many passes there are. */
  const ROUNDS := 6

  /** The registers after `n` registers were wrapped, and after they were unwrapped. */
  function Wrapped(c: Cipher, s: Regs, n: nat, rounds: nat): Regs {
    Passes(Wrapping(c), s, n, rounds)
  }

  function Unwrapped(c: Cipher, s: Regs, n: nat, rounds: nat): Regs {
    PassesBack(Unwrapping(c), s, n, rounds)
  }

  lemma WrapUndone(c: Cipher, s: Regs, n: nat, rounds: nat)
    requires Permutation(c)
    ensures Unwrapped(c, Wrapped(c, s, n, rounds), n, rounds) == s
  {
    forall x: Regs, k: nat, t: nat ensures Unwrapping(c)(Wrapping(c)(x, k, t), k, t) == x {
      WrapThenUnwrap(c, x, k, t);
    }
    PassesUndone(Wrapping(c), Unwrapping(c), s, n, rounds);
  }

  lemma UnwrapUndone(c: Cipher, s: Regs, n: nat, rounds: nat)
    requires Permutation(c)
    ensures Wrapped(c, Unwrapped(c, s, n, rounds), n, rounds) == s
  {
    forall x: Regs, k: nat, t: nat ensures Wrapping(c)(Unwrapping(c)(x, k, t), k, t) == x {
      UnwrapThenWrap(c, x, k, t);
    }
    PassesRedone(Wrapping(c), Unwrapping(c), s, n, rounds);
  }

  /** Steps that keep a property keep it over all passes. */
  lemma {:induction false} PassKeeps<S(!new)>(f: (S, nat, nat) -> S, p: S -> bool, s: S, t: nat, k: nat)
    requires forall x: S, i: nat, u: nat :: p(x) ==> p(f(x, i, u))
    requires p(s)
    ensures p(Pass(f, s, t, k))
  {
    if k > 0 {
      PassKeeps(f, p, s, t, k - 1);
    }
  }

  lemma {:induction false} PassesKeep<S(!new)>(f: (S, nat, nat) -> S, p: S -> bool, s: S, n: nat, j: nat)
    requires forall x: S, i: nat, u: nat :: p(x) ==> p(f(x, i, u))
    requires p(s)
    ensures p(Passes(f, s, n, j))
  {
    if j > 0 {
      PassesKeep(f, p, s, n, j - 1);
      PassKeeps(f, p, Passes(f, s, n, j - 1), Steps(j - 1, n), n);
    }
  }

  lemma WrappedLength(c: Cipher, s: Regs, n: nat, rounds: nat)
    ensures |Wrapped(c, s, n, rounds).a| == |s.a| && |Wrapped(c, s, n, rounds).r| == |s.r|
  {
    PassesKeep(Wrapping(c), (x: Regs) => |x.a| == |s.a| && |x.r| == |s.r|, s, n, rounds);
  }

  lemma {:induction false} PassBackKeeps<S(!new)>(g: (S, nat, nat) -> S, p: S -> bool, s: S, t: nat, n: nat, k: nat)
    requires forall x: S, i: nat, u: nat :: p(x) ==> p(g(x, i, u))
    requires p(s) && k <= n
    ensures p(PassBack(g, s, t, n, k))
    decreases n - k
  {
    if k < n {
      PassBackKeeps(g, p, s, t, n, k + 1);
    }
  }

  lemma {:induction false} PassesBackKeep<S(!new)>(g: (S, nat, nat) -> S, p: S -> bool, s: S, n: nat, j: nat)
    requires forall x: S, i: nat, u: nat :: p(x) ==> p(g(x, i, u))
    requires p(s)
    ensures p(PassesBack(g, s, n, j))
    decreases j
  {
    if j > 0 {
      PassBackKeeps(g, p, s, Steps(j - 1, n), n, 0);
      PassesBackKeep(g, p, PassBack(g, s, Steps(j - 1, n), n, 0), n, j - 1);
    }
  }

  /** A key that is accepted is eight bytes shorter than what it was wrapped in, under any cipher. */
  lemma UnwrapLength(c: Cipher, w: Bytes)
    requires |w| >= 8 && |w| % 8 == 0 && Unwrap(c, w).Some?
    ensures |Unwrap(c, w).value| == |w| - 8
  {
    var s := Regs(w[..8], w[8..]);
    PassesBackKeep(Unwrapping(c), (x: Regs) => |x.a| == |s.a| && |x.r| == |s.r|, s, |w[8..]| / 8, ROUNDS);
  }

  function Wrap(c: Cipher, key: Bytes): (w: Bytes)
    requires |key| % 8 == 0
  {
    var s := Wrapped(c, Regs(IV, key), |key| / 8, ROUNDS);
    s.a + s.r
  }

  function Unwrap(c: Cipher, w: Bytes): Option<Bytes>
    requires |w| >= 8 && |w| % 8 == 0
  {
    var s := Unwrapped(c, Regs(w[..8], w[8..]), |w[8..]| / 8, ROUNDS);
    if s.a == IV then Some(s.r) else None
  }

  /** Unwrapping undoes wrapping. */
  lemma UnwrapWrap(c: Cipher, key: Bytes)
    requires Permutation(c) && |key| % 8 == 0
    ensures |Wrap(c, key)| == |key| + 8
    ensures Unwrap(c, Wrap(c, key)) == Some(key)
  {
    var s := Wrapped(c, Regs(IV, key), |key| / 8, ROUNDS);
    WrappedLength(c, Regs(IV, key), |key| / 8, ROUNDS);
    assert (s.a + s.r)[..8] == s.a && (s.a + s.r)[8..] == s.r;
    WrapUndone(c, Regs(IV, key), |key| / 8, ROUNDS);
  }

  /** Different keys are wrapped differently. */
  lemma WrapInjective(c: Cipher, key: Bytes, key': Bytes)
    requires Permutation(c) && |key| % 8 == 0 && |key'| % 8 == 0 && Wrap(c, key) == Wrap(c, key')
    ensures key == key'
  {
    UnwrapWrap(c, key);
    UnwrapWrap(c, key');
  }

  /** What is accepted is what its key wraps to, so nothing else is accepted. */
  lemma WrapUnwrap(c: Cipher, w: Bytes)
    requires Permutation(c) && |w| >= 8 && |w| % 8 == 0 && Unwrap(c, w).Some?
    ensures var key := Unwrap(c, w).value;
            |key| == |w| - 8 && Wrap(c, key) == w
  {
    var s0 := Regs(w[..8], w[8..]);
    var n := |w[8..]| / 8;
    var s := Unwrapped(c, s0, n, ROUNDS);
    UnwrapUndone(c, s0, n, ROUNDS);
    WrappedLength(c, s, n, ROUNDS);
    assert w[..8] + w[8..] == w;
  }

  // ----- in place

  /** The registers as they lie in memory: A is the first half of `b`, the others are part of `out`. */
  ghost predicate Lies(b: array<Byte>, out: array<Byte>, s: Regs, pre: Bytes, post: Bytes)
    reads b, out
  {
    b != out && b.Length == 16 && b[..8] == s.a && out[..] == pre + s.r + post
  }

  method EcbCipher(encrypt: bool, c: Cipher, b: array<Byte>)
    requires b.Length == 16
    modifies b
    ensures b[..] == if encrypt then c.enc(old(b[..])) else c.dec(old(b[..]))
  {
    var r: Bytes := if encrypt then c.enc(b[..]) else c.dec(b[..]);
    forall i | 0 <= i < 16 {
      b[i] := r[i];
    }
    assert b[..] == r;
  }

  function XorLowerBytes(b: Bytes, m: Bytes): (r: Bytes)
    requires |b| == 16 && |m| == 8
  {
    b[..7] + [XorByte(b[7], m[7])] + b[8..]
  }

  function XorUpperBytes(b: Bytes, m: Bytes): (r: Bytes)
    requires |b| == 16 && |m| == 8
  {
    b[..4] + [XorByte(b[4], m[4]), XorByte(b[5], m[5]), XorByte(b[6], m[6])] + b[7..]
  }

  /** The four bytes that are xored. */
  ghost predicate Xored(b: Bytes, m: Bytes, x: Bytes) {
    && |b| == 16 && |m| == 8 && |x| == 4
    && x[0] == XorByte(b[4], m[4]) && x[1] == XorByte(b[5], m[5]) && x[2] == XorByte(b[6], m[6]) &&
        x[3] == XorByte(b[7], m[7])
  }

  lemma XorLowerUpper(b: Bytes, m: Bytes, x: Bytes)
    requires Xored(b, m, x)
    ensures XorUpperBytes(XorLowerBytes(b, m), m) == b[..4] + x + b[8..]
  {
  }

  lemma Xor8Tail(b: Bytes, m: Bytes, x: Bytes)
    requires Xored(b, m, x) && m[0] == m[1] == m[2] == m[3] == 0
    ensures Xor8(b[..8], m) == b[..4] + x
  {
    XorZero(b[0]);
    XorZero(b[1]);
    XorZero(b[2]);
    XorZero(b[3]);
  }

  /** Xoring the last byte and the three before it is all there is to do when the others of the mask are 0. */
  lemma XorInPlace(b: Bytes, m: Bytes, x: Bytes)
    requires Xored(b, m, x) && m[0] == m[1] == m[2] == m[3] == 0
    ensures XorUpperBytes(XorLowerBytes(b, m), m) == Xor8(b[..8], m) + b[8..]
  {
    XorLowerUpper(b, m, x);
    Xor8Tail(b, m, x);
  }

  /** Xoring the last byte is enough if those three are 0 too. */
  lemma XorUpperZero(b: Bytes, m: Bytes)
    requires |b| == 16 && |m| == 8 && m[4] == m[5] == m[6] == 0
    ensures XorUpperBytes(b, m) == b
  {
    XorZero(b[4]);
    XorZero(b[5]);
    XorZero(b[6]);
    assert b == b[..4] + [b[4], b[5], b[6]] + b[7..];
  }

  /** A is xored with the counter. */
  method XorCounter(b: array<Byte>, t: nat)
    requires b.Length == 16
    modifies b
    ensures b[..] == Xor8(old(b[..8]), Mask(t)) + old(b[8..])
  {
    ghost var m := Mask(t);
    XorInPlace(b[..], m, [XorByte(b[4], m[4]), XorByte(b[5], m[5]), XorByte(b[6], m[6]), XorByte(b[7], m[7])]);
    XorLower(b, t, Mask(t));
    if t > 0xFF {
      XorUpper(b, t);
    } else {
      XorUpperZero(b[..], Mask(t));
    }
  }

  method XorLower(b: array<Byte>, t: nat, ghost m: Bytes)
    requires b.Length == 16 && |m| == 8 && m[7] == Low8(t)
    modifies b
    ensures b[..] == XorLowerBytes(old(b[..]), m)
  {
    b[7] := XorByte(b[7], Low8(t));
  }

  method XorUpper(b: array<Byte>, t: nat)
    requires b.Length == 16 && t > 0xFF
    modifies b
    ensures b[..] == XorUpperBytes(old(b[..]), Mask(t))
  {
    b[6] := XorByte(b[6], Low8(t / 0x100));
    b[5] := XorByte(b[5], Low8(t / 0x1_0000));
    b[4] := XorByte(b[4], Low8(t / 0x100_0000));
  }

  method Copy(dst: array<Byte>, at: nat, src: Bytes)
    requires at + |src| <= dst.Length
    modifies dst
    ensures dst[..] == old(dst[..at]) + src + old(dst[at + |src|..])
  {
    ghost var was := dst[..];
    forall i | 0 <= i < |src| {
      dst[at + i] := src[i];
    }
    assert forall i :: 0 <= i < |was| ==> dst[i] == (was[..at] + src + was[at + |src|..])[i];
  }

  /** What eight copied bytes do to the registers. */
  lemma CopyIsSplice(pre: Bytes, r: Bytes, post: Bytes, k: nat, x: Bytes)
    requires 8 * k + 8 <= |r| && |x| == 8
    ensures var was := pre + r + post;
            was[..|pre| + 8 * k] + x + was[|pre| + 8 * k + 8..] == pre + Splice(r, k, x) + post
  {
  }

  lemma RegisterBytes(pre: Bytes, r: Bytes, post: Bytes, k: nat)
    requires 8 * k + 8 <= |r|
    ensures (pre + r + post)[|pre| + 8 * k..|pre| + 8 * k + 8] == r[8 * k..8 * k + 8]
  {
  }

  /** A register is put behind A. */
  method LoadRegister(b: array<Byte>, out: array<Byte>, at: nat)
    requires b != out && b.Length == 16 && at + 8 <= out.Length
    modifies b
    ensures b[..] == old(b[..8]) + out[at..at + 8]
  {
    Copy(b, 8, out[at..at + 8]);
    assert old(b[16..]) == [];
  }

  /** The body of the inner loop of WrapKey. */
  method WrapInPlace(c: Cipher, b: array<Byte>, out: array<Byte>, at: nat, t: nat,
                     ghost s: Regs, ghost pre: Bytes, ghost post: Bytes, ghost k: nat)
    requires Lies(b, out, s, pre, post) && Has(s, k) && at == |pre| + 8 * k
    modifies b, out
    ensures Lies(b, out, Wrapping(c)(s, k, t), pre, post)
  {
    RegisterBytes(pre, s.r, post, k);
    LoadRegister(b, out, at);
    EcbCipher(true, c, b);
    XorCounter(b, t);
    CopyIsSplice(pre, s.r, post, k, b[8..]);
    Copy(out, at, b[8..]);
  }

  /** The body of the inner loop of UnwrapKey. */
  method UnwrapInPlace(c: Cipher, b: array<Byte>, out: array<Byte>, at: nat, t: nat,
                       ghost s: Regs, ghost pre: Bytes, ghost post: Bytes, ghost k: nat)
    requires Lies(b, out, s, pre, post) && Has(s, k) && at == |pre| + 8 * k
    modifies b, out
    ensures Lies(b, out, Unwrapping(c)(s, k, t), pre, post)
  {
    RegisterBytes(pre, s.r, post, k);
    XorCounter(b, t);
    LoadRegister(b, out, at);
    EcbCipher(false, c, b);
    CopyIsSplice(pre, s.r, post, k, b[8..]);
    Copy(out, at, b[8..]);
  }

  lemma PassStep<S>(f: (S, nat, nat) -> S, s: S, t: nat, k: nat)
    ensures Pass(f, s, t, k + 1) == f(Pass(f, s, t, k), k, t + k + 1)
  {
  }

  lemma PassBackStep<S>(g: (S, nat, nat) -> S, s: S, t: nat, n: nat, k: nat)
    requires k < n
    ensures PassBack(g, s, t, n, k) == g(PassBack(g, s, t, n, k + 1), k, t + k + 1)
  {
  }

  /** The buffers are as after `k` steps of a pass over `n` registers. */
  ghost predicate Underway(c: Cipher, b: array<Byte>, out: array<Byte>, s0: Regs, t0: nat, n: nat, k: nat, pre: Bytes,
                           post: Bytes)
    reads b, out
  {
    var s := Pass(Wrapping(c), s0, t0, k);
    |s.a| == 8 && |s.r| == 8 * n && Lies(b, out, s, pre, post)
  }

  /** One round of the inner loop of WrapKey. */
  method WrapNext(c: Cipher, b: array<Byte>, out: array<Byte>, at: nat, t: nat,
                  ghost s0: Regs, ghost pre: Bytes, ghost post: Bytes, ghost t0: nat, ghost n: nat, ghost k: nat)
    requires |pre| == 8 && at == 8 + 8 * k && t == t0 + k + 1 && k < n && Underway(c, b, out, s0, t0, n, k, pre, post)
    modifies b, out
    ensures Underway(c, b, out, s0, t0, n, k + 1, pre, post)
  {
    PassStep(Wrapping(c), s0, t0, k);
    WrapInPlace(c, b, out, at, t, Pass(Wrapping(c), s0, t0, k), pre, post, k);
  }

  /** The inner loop of WrapKey: one pass over the registers. */
  method WrapPass(c: Cipher, b: array<Byte>, out: array<Byte>, len: nat, t0: nat,
                  ghost s0: Regs, ghost post: Bytes, ghost n: nat) returns (t: nat)
    requires |s0.a| == 8 && len == |s0.r| == 8 * n && out.Length >= 8 && t0 >= 1
    requires Lies(b, out, s0, out[..8], post)
    modifies b, out
    ensures Lies(b, out, Pass(Wrapping(c), s0, t0 - 1, n), old(out[..8]), post)
    ensures t == t0 + n
  {
    ghost var pre := out[..8];
    t := t0;
    var i: nat := 0;
    ghost var k: nat := 0;
    while i < len
      invariant i == 8 * k && k <= n && t == t0 + k
      invariant Underway(c, b, out, s0, t0 - 1, n, k, pre, post)
      decreases n - k
    {
      WrapNext(c, b, out, 8 + i, t, s0, pre, post, t0 - 1, n, k);
      i, t, k := i + 8, t + 1, k + 1;
    }
    assert k == n;
  }

  /** The buffers are as after a pass of `n` registers back to step `k`. */
  ghost predicate UnderwayBack(c: Cipher, b: array<Byte>, out: array<Byte>, s0: Regs, t0: nat, n: nat, k: nat,
                               post: Bytes)
    requires k <= n
    reads b, out
  {
    var s := PassBack(Unwrapping(c), s0, t0, n, k);
    |s.a| == 8 && |s.r| == 8 * n && Lies(b, out, s, [], post)
  }

  /** One round of the inner loop of UnwrapKey. */
  method UnwrapNext(c: Cipher, b: array<Byte>, out: array<Byte>, at: nat, t: nat,
                    ghost s0: Regs, ghost post: Bytes, ghost t0: nat, ghost n: nat, ghost k: nat)
    requires at == 8 * k && t == t0 + k + 1 && k < n && UnderwayBack(c, b, out, s0, t0, n, k + 1, post)
    modifies b, out
    ensures UnderwayBack(c, b, out, s0, t0, n, k, post)
  {
    PassBackStep(Unwrapping(c), s0, t0, n, k);
    UnwrapInPlace(c, b, out, at, t, PassBack(Unwrapping(c), s0, t0, n, k + 1), [], post, k);
  }

  /** The inner loop of UnwrapKey, from the last register to the first. */
  method UnwrapPass(c: Cipher, b: array<Byte>, out: array<Byte>, len: nat, t0: nat,
                    ghost s0: Regs, ghost post: Bytes, ghost n: nat) returns (t: nat)
    requires |s0.a| == 8 && len == |s0.r| == 8 * n && t0 >= n
    requires Lies(b, out, s0, [], post)
    modifies b, out
    ensures Lies(b, out, PassBack(Unwrapping(c), s0, t0 - n, n, 0), [], post)
    ensures t == t0 - n
  {
    t := t0;
    var i: nat := 0;
    ghost var k: nat := n;
    while i < len
      invariant i == 8 * (n - k) && k <= n && t == t0 - n + k
      invariant UnderwayBack(c, b, out, s0, t0 - n, n, k, post)
      decreases k
    {
      k := k - 1;
      UnwrapNext(c, b, out, len - 8 - i, t, s0, post, t0 - n, n, k);
      i, t := i + 8, t - 1;
    }
    assert k == 0;
  }

  lemma PassLength(c: Cipher, s: Regs, t: nat, n: nat)
    ensures |Pass(Wrapping(c), s, t, n).a| == |s.a| && |Pass(Wrapping(c), s, t, n).r| == |s.r|
  {
    PassKeeps(Wrapping(c), (x: Regs) => |x.a| == |s.a| && |x.r| == |s.r|, s, t, n);
  }

  lemma PassBackLength(c: Cipher, s: Regs, t: nat, n: nat)
    ensures var s' := PassBack(Unwrapping(c), s, t, n, 0); |s'.a| == |s.a| && |s'.r| == |s.r|
  {
    PassBackKeeps(Unwrapping(c), (x: Regs) => |x.a| == |s.a| && |x.r| == |s.r|, s, t, n, 0);
  }

  /** The outer loop of WrapKey. */
  method WrapPasses(c: Cipher, b: array<Byte>, out: array<Byte>, len: nat,
                    ghost s0: Regs, ghost post: Bytes, ghost n: nat)
    requires |s0.a| == 8 && len == |s0.r| == 8 * n && out.Length >= 8
    requires Lies(b, out, s0, out[..8], post)
    modifies b, out
    ensures Lies(b, out, Wrapped(c, s0, n, ROUNDS), old(out[..8]), post)
  {
    ghost var s := s0;
    var t: nat := 1;
    for j := 0 to ROUNDS
      invariant s == Passes(Wrapping(c), s0, n, j) && |s.a| == 8 && |s.r| == 8 * n
      invariant t == Steps(j, n) + 1
      invariant Lies(b, out, s, old(out[..8]), post)
    {
      assert out[..8] == old(out[..8]);
      PassLength(c, s, Steps(j, n), n);
      t := WrapPass(c, b, out, len, t, s, post, n);
      s := Pass(Wrapping(c), s, Steps(j, n), n);
    }
  }

  lemma PassesBackStep<S>(g: (S, nat, nat) -> S, s: S, n: nat, j: nat)
    requires j > 0
    ensures PassesBack(g, s, n, j) == PassesBack(g, PassBack(g, s, Steps(j - 1, n), n, 0), n, j - 1)
  {
  }

  /** The outer loop of UnwrapKey. */
  method UnwrapPasses(c: Cipher, b: array<Byte>, out: array<Byte>, len: nat, t0: nat,
                      ghost s0: Regs, ghost post: Bytes, ghost n: nat)
    requires |s0.a| == 8 && len == |s0.r| == 8 * n && t0 == Steps(ROUNDS, n)
    requires Lies(b, out, s0, [], post)
    modifies b, out
    ensures Lies(b, out, Unwrapped(c, s0, n, ROUNDS), [], post)
  {
    ghost var g, s := Unwrapping(c), s0;
    var t: nat := t0;
    ghost var left: nat := ROUNDS;
    for j := 0 to ROUNDS
      invariant left == ROUNDS - j && t == Steps(left, n)
      invariant PassesBack(g, s, n, left) == PassesBack(g, s0, n, ROUNDS) && |s.a| == 8 && |s.r| == 8 * n
      invariant Lies(b, out, s, [], post)
    {
      PassesBackStep(g, s, n, left);
      PassBackLength(c, s, Steps(left - 1, n), n);
      t := UnwrapPass(c, b, out, len, t, s, post, n);
      left := left - 1;
      s := PassBack(g, s, Steps(left, n), n, 0);
    }
  }

  /** The key goes behind the place of the integrity register, which gets the initial value. */
  method LoadKey(b: array<Byte>, out: array<Byte>, key: Bytes)
    requires b != out && b.Length == 16 && |key| + 8 <= out.Length
    modifies b, out
    ensures out.Length >= 8 && Lies(b, out, Regs(IV, key), out[..8], old(out[|key| + 8..]))
  {
    Copy(out, 8, key);
    Copy(b, 0, IV);
  }

  /** The integrity register is stored in front. */
  method StoreIntegrity(b: array<Byte>, out: array<Byte>, ghost s: Regs, ghost pre: Bytes, ghost post: Bytes)
    requires |pre| == 8 && |s.a| == 8 && Lies(b, out, s, pre, post)
    modifies out
    ensures out[..] == s.a + s.r + post
  {
    assert out[8..] == s.r + post;
    Copy(out, 0, b[..8]);
  }

  /** The part of WrapKey after the checks. */
  method WrapChecked(c: Cipher, out: array<Byte>, key: Bytes, ghost n: nat)
    requires |key| == 8 * n && |key| + 8 <= out.Length
    modifies out
    ensures |key| / 8 == n && out[..] == Wrap(c, key) + old(out[|key| + 8..])
  {
    ghost var post, s0 := out[|key| + 8..], Regs(IV, key);
    var b := new Byte[16];
    LoadKey(b, out, key);
    ghost var pre := out[..8];
    assert |key| / 8 == n;
    WrapPasses(c, b, out, |key|, s0, post, n);
    WrappedLength(c, s0, n, ROUNDS);
    StoreIntegrity(b, out, Wrapped(c, s0, n, ROUNDS), pre, post);
  }

  /** Wrap `key` into `out`. Keys that are no multiple of eight bytes, or empty, are refused. */
  method WrapKey(c: Cipher, out: array<Byte>, key: Bytes) returns (ok: bool)
    requires |key| + 8 <= out.Length
    modifies out
    ensures ok <==> |key| % 8 == 0 && |key| >= 8
    ensures !ok ==> out[..] == old(out[..])
    ensures ok ==> out[..] == Wrap(c, key) + old(out[|key| + 8..])
  {
    if |key| % 8 != 0 || |key| < 8 {
      return false;
    }
    WrapChecked(c, out, key, |key| / 8);
    ok := true;
  }

  /** The part of UnwrapKey after the checks. */
  method UnwrapChecked(c: Cipher, out: array<Byte>, w: Bytes, ghost n: nat) returns (ok: bool)
    requires |w| == 8 * n + 8 && |w| <= out.Length + 8
    modifies out
    ensures ok <==> Unwrap(c, w).Some?
    ensures out[8 * n..] == old(out[8 * n..])
    ensures out[..8 * n] == if ok then Unwrap(c, w).value else Zeros(8 * n)
  {
    var len := |w| - 8;
    ghost var post, s0 := out[len..], Regs(w[..8], w[8..]);
    var b := new Byte[16];
    Copy(b, 0, w[..8]);
    Copy(out, 0, w[8..]);
    assert len / 8 == n;
    assert out[..] == [] + w[8..] + post;
    StepsIs(6, n);
    UnwrapPasses(c, b, out, len, 6 * (len / 8), s0, post, n);
    PassesBackKeep(Unwrapping(c), (x: Regs) => |x.a| == 8 && |x.r| == 8 * n, s0, n, ROUNDS);
    ok := b[..8] == IV;
    if !ok {
      Copy(out, 0, Zeros(len));
    }
  }

  /** Unwrap `w` into `out`. What is not a wrapped key is refused, and `out` is cleared then. The length is an unsigned
      32-bit number from which 8 is taken before it is checked, so 0 must not be passed. */
  method UnwrapKey(c: Cipher, out: array<Byte>, w: Bytes) returns (ok: bool)
    requires 0 < |w| < 0x1_0000_0000 && |w| <= out.Length + 8
    modifies out
    ensures |w| % 8 != 0 || |w| < 16 ==> !ok && out[..] == old(out[..])
    ensures |w| % 8 == 0 && |w| >= 16 ==>
              && (ok <==> Unwrap(c, w).Some?)
              && out[|w| - 8..] == old(out[|w| - 8..])
              && out[..|w| - 8] == if ok then Unwrap(c, w).value else Zeros(|w| - 8)
  {
    var len := if |w| >= 8 then |w| - 8 else |w| - 8 + 0x1_0000_0000;
    if len % 8 != 0 {
      return false;
    }
    if len < 8 {
      return false;
    }
    ok := UnwrapChecked(c, out, w, len / 8);
  }

  function Zeros(n: nat): (z: Bytes)
    ensures |z| == n && forall i :: 0 <= i < n ==> z[i] == 0
  {
    seq(n, _ => 0)
  }
}
