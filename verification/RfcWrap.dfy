/** The key wrap as section 2.2.1 of RFC 3394 defines it, with registers that shift, and that the loops over indexed
    registers compute it. */
module RfcWrap {
  import opened Packets
  import opened KeyWrap
  import opened CtrStream

  /** The initial value of section 2.2.3.1. */
  function InitialValue(): (iv: Bytes)
    ensures |iv| == 8
  {
    seq(8, _ => 0xA6)
  }

  /** Step `t`: the first register is encrypted behind the integrity register; the left half, xored with the step
      counter, becomes the integrity register, all registers shift, and the right half becomes the last one. */
  function ShiftStep(c: Cipher, s: Regs, t: nat): (s': Regs)
    requires |s.a| == 8 && |s.r| >= 8
    ensures |s'.a| == 8 && |s'.r| == |s.r|
  {
    var b: Bytes := c.enc(s.a + s.r[..8]);
    Regs(Xor8(b[..8], BigEndian(t, 8)), s.r[8..] + b[8..])
  }

  /** Steps `t + 1` to `t + k`. */
  function ShiftSteps(c: Cipher, s: Regs, t: nat, k: nat): (s': Regs)
    requires |s.a| == 8 && |s.r| >= 8
    ensures |s'.a| == 8 && |s'.r| == |s.r|
  {
    if k == 0 then s else ShiftStep(c, ShiftSteps(c, s, t, k - 1), t + k)
  }

  /** Six steps for each register. */
  function RfcWrapped(c: Cipher, key: Bytes): Bytes
    requires |key| >= 8
  {
    var s := ShiftSteps(c, Regs(InitialValue(), key), 0, 6 * (|key| / 8));
    s.a + s.r
  }

  // ----- the same registers, turned

  function Turned(r: Bytes, k: nat): Bytes
    requires 8 * k <= |r|
  {
    r[8 * k..] + r[..8 * k]
  }

  lemma TurnedFirst(r: Bytes, k: nat)
    requires 8 * k + 8 <= |r|
    ensures Turned(r, k)[..8] == r[8 * k..8 * k + 8]
  {
  }

  /** Writing register `k` is shifting and writing the last one. */
  lemma TurnedSplice(r: Bytes, k: nat, x: Bytes)
    requires 8 * k + 8 <= |r| && |x| == 8
    ensures Turned(Splice(r, k, x), k + 1) == Turned(r, k)[8..] + x
  {
    var r' := Splice(r, k, x);
    assert r'[8 * (k + 1)..] == r[8 * k + 8..];
    assert r'[..8 * (k + 1)] == r[..8 * k] + x;
    assert Turned(r, k)[8..] == r[8 * k + 8..] + r[..8 * k];
  }

  /** The counter in eight bytes. */
  lemma EightBytes(t: nat)
    requires t < 0x1_0000_0000
    ensures BigEndian(t, 8) == CounterBytes(t)
  {
    FourBytes(t);
    var q := t / 0x100 / 0x100 / 0x100 / 0x100;
    assert q == 0;
    assert BigEndian(q, 4) == [0, 0, 0, 0];
    LowFour(t, q);
    assert BigEndian(t, 8) == BigEndian(q, 4) + BigEndian(t, 4);
  }

  /** The last four of eight bytes, and the four before them. */
  lemma LowFour(t: nat, q: nat)
    requires q == t / 0x100 / 0x100 / 0x100 / 0x100
    ensures BigEndian(t, 8) == BigEndian(q, 4) + BigEndian(t, 4)
  {
    var a, b, c := t / 0x100, t / 0x100 / 0x100, t / 0x100 / 0x100 / 0x100;
    assert BigEndian(c, 1) == [c % 0x100] && BigEndian(c, 5) == BigEndian(q, 4) + [c % 0x100];
    assert BigEndian(b, 2) == [c % 0x100, b % 0x100] && BigEndian(b, 6) == BigEndian(q, 4) + [c % 0x100, b % 0x100];
    assert BigEndian(a, 3) == [c % 0x100, b % 0x100, a % 0x100];
    assert BigEndian(a, 7) == BigEndian(q, 4) + [c % 0x100, b % 0x100, a % 0x100];
    assert BigEndian(t, 4) == [c % 0x100, b % 0x100, a % 0x100, t % 0x100];
  }

  lemma StepShifts(c: Cipher, p: Regs, k: nat, t: nat)
    requires |p.a| == 8 && 8 * k + 8 <= |p.r| && t < 0x1_0000_0000
    ensures var p' := WrapStep(c, p, k, t);
            ShiftStep(c, Regs(p.a, Turned(p.r, k)), t) == Regs(p'.a, Turned(p'.r, k + 1))
  {
    TurnedFirst(p.r, k);
    var b: Bytes := c.enc(p.a + p.r[8 * k..8 * k + 8]);
    TurnedSplice(p.r, k, b[8..]);
    MaskIsCounter(t);
    EightBytes(t);
  }

  lemma {:induction false} PassShifts(c: Cipher, s: Regs, t: nat, n: nat, k: nat)
    requires |s.a| == 8 && |s.r| == 8 * n && k <= n && n >= 1 && t + n < 0x1_0000_0000
    ensures var p := Pass(Wrapping(c), s, t, k);
            && |p.a| == 8 && |p.r| == 8 * n
            && ShiftSteps(c, s, t, k) == Regs(p.a, Turned(p.r, k))
  {
    if k == 0 {
      assert Turned(s.r, 0) == s.r;
    } else {
      PassShifts(c, s, t, n, k - 1);
      StepShifts(c, Pass(Wrapping(c), s, t, k - 1), k - 1, t + k);
    }
  }

  lemma {:induction false} ShiftsAdd(c: Cipher, s: Regs, t: nat, j: nat, k: nat)
    requires |s.a| == 8 && |s.r| >= 8
    ensures ShiftSteps(c, s, t, j + k) == ShiftSteps(c, ShiftSteps(c, s, t, j), t + j, k)
  {
    if k > 0 {
      ShiftsAdd(c, s, t, j, k - 1);
      assert t + (j + k) == t + j + k;
    }
  }

  /** After a whole pass the registers are where they were. */
  lemma WholePass(c: Cipher, s: Regs, t: nat, n: nat)
    requires |s.a| == 8 && |s.r| == 8 * n && n >= 1 && t + n < 0x1_0000_0000
    ensures var p := Pass(Wrapping(c), s, t, n);
            |p.a| == 8 && |p.r| == 8 * n && ShiftSteps(c, s, t, n) == p
  {
    PassShifts(c, s, t, n, n);
    var p := Pass(Wrapping(c), s, t, n);
    assert Turned(p.r, n) == p.r;
  }

  lemma {:induction false} PassesShift(c: Cipher, s: Regs, n: nat, j: nat)
    requires |s.a| == 8 && |s.r| == 8 * n && n >= 1 && Steps(j, n) < 0x1_0000_0000
    ensures var p := Passes(Wrapping(c), s, n, j);
            |p.a| == 8 && |p.r| == 8 * n && ShiftSteps(c, s, 0, Steps(j, n)) == p
  {
    if j > 0 {
      var p := Passes(Wrapping(c), s, n, j - 1);
      PassesShift(c, s, n, j - 1);
      WholePass(c, p, Steps(j - 1, n), n);
      ShiftsAdd(c, s, 0, Steps(j - 1, n), n);
    }
  }

  /** Wrapping is what the standard says, for every block cipher and every key whose steps are counted in 32 bits. */
  lemma WrapIsStandard(c: Cipher, key: Bytes)
    requires |key| >= 8 && |key| % 8 == 0 && 6 * (|key| / 8) < 0x1_0000_0000
    ensures Wrap(c, key) == RfcWrapped(c, key)
  {
    var n := |key| / 8;
    StepsIs(6, n);
    assert IV == InitialValue();
    PassesShift(c, Regs(IV, key), n, ROUNDS);
  }
}
