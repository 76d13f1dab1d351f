/** Compact difficulty targets (primitives/src/compact.rs): a size byte and a 23-bit mantissa. */
module CompactTarget {
  import opened Primitives
  import opened LittleEndian

  type U256 = H256

  const MODULUS: nat := 0x1_0000000000000000_0000000000000000_0000000000000000_0000000000000000

  // ---------------------------------------------------------------------------------------------
  // Products and quotients.

  lemma {:induction false} MulMonotone(a: nat, b: nat, c: nat)
    requires a <= b
    ensures a * c <= b * c
  {
  }

  lemma {:induction false} NextMultiple(g: nat, d: nat, e: nat)
    ensures e < d ==> g * e + g <= g * d
  {
    if e < d {
      MulMonotone(e + 1, d, g);
      assert g * (e + 1) == g * e + g;
    }
  }

  lemma {:induction false} Threshold(word: nat, bound: nat, p: nat)
    requires p > 0
    ensures word * p >= bound * p <==> word >= bound
  {
  }

  lemma {:induction false} PowerOf256()
    ensures Pow256(32) == MODULUS && Pow256(3) == 0x100_0000 && Pow256(2) == 0x1_0000 && Pow256(1) == 0x100
  {
    assert Pow256(4) == 0x1_0000_0000;
    PowSum(4, 4);
    PowSum(8, 8);
    PowSum(16, 16);
  }

  // ---------------------------------------------------------------------------------------------
  // Decoding.

  function SizeOf(c: u32): nat {
    c / 0x100_0000
  }

  function WordOf(c: u32): nat {
    c % 0x80_0000
  }

  predicate SignOf(c: u32) {
    (c / 0x80_0000) % 2 == 1
  }

  function Scaled(word: nat, k: nat): nat {
    word * Pow256(k)
  }

  /** A shift right by `k` bytes. */
  function Shifted(word: nat, k: nat): nat {
    if k == 0 then word else Shifted(word / 256, k - 1)
  }

  lemma {:induction false} ShiftedBounds(word: nat, k: nat)
    ensures var q := Shifted(word, k); Pow256(k) * q <= word < Pow256(k) * q + Pow256(k)
    decreases k
  {
    if k > 0 {
      ShiftedBounds(word / 256, k - 1);
      MulAssoc(256, Pow256(k - 1), Shifted(word, k));
    }
  }

  /** The number a compact spells: its mantissa moved to the top of `size` bytes. */
  function Target(c: u32): nat {
    if SizeOf(c) <= 3 then Shifted(WordOf(c), 3 - SizeOf(c)) else Scaled(WordOf(c), SizeOf(c) - 3)
  }

  predicate IsNegative(c: u32) {
    SignOf(c) && Target(c) != 0
  }

  predicate IsOverflow(c: u32) {
    Target(c) >= MODULUS
  }

  /** The three size tests are the test for a number of more than 256 bits. */
  lemma {:induction false} OverflowTests(word: nat, size: nat)
    requires size > 3 && word < 0x80_0000
    ensures (word != 0 && size > 34) || (word > 0xff && size > 33) || (word > 0xffff && size > 32) <==> Scaled(word, size - 3) >= MODULUS
  {
    hide Pow256;
    PowerOf256();
    var p := Pow256(size - 3);
    if size <= 32 {
      PowMonotone(size - 3, 29);
      PowSum(3, 29);
      Threshold(word, Pow256(3), Pow256(29));
      MulMonotone(p, Pow256(29), word);
      assert p * word == word * p && Pow256(29) * word == word * Pow256(29);
    } else if size == 33 {
      PowSum(2, 30);
      Threshold(word, 0x1_0000, p);
    } else if size == 34 {
      PowSum(1, 31);
      Threshold(word, 0x100, p);
    } else {
      PowMonotone(32, size - 3);
      if word >= 1 {
        MulMonotone(1, word, p);
      }
    }
  }

  lemma {:induction false} SmallTarget(c: u32)
    requires SizeOf(c) <= 3
    ensures Target(c) <= WordOf(c)
  {
    var k := 3 - SizeOf(c);
    ShiftedBounds(WordOf(c), k);
    MulMonotone(1, Pow256(k), Shifted(WordOf(c), k));
  }

  lemma {:induction false} ScaledZero(word: nat, k: nat)
    ensures Scaled(word, k) == 0 <==> word == 0
  {
  }

  /** `to_u256`: the target if it is a non-negative 256-bit number, and otherwise its low 256 bits as an error. */
  method ToU256(c: u32) returns (r: Result<U256, U256>)
    ensures r == if IsNegative(c) || IsOverflow(c) then Err(Target(c) % MODULUS) else Ok(Target(c))
  {
    hide Pow256, Scaled, Shifted;
    var size, word := SizeOf(c), WordOf(c);
    var result: U256;
    if size <= 3 {
      SmallTarget(c);
      word := Shifted(word, 3 - size);
      result := word;
    } else {
      OverflowTests(word, size);
      ScaledZero(word, size - 3);
      result := Scaled(word, size - 3) % MODULUS;
    }
    var negative := word != 0 && SignOf(c);
    var overflow := (word != 0 && size > 34) || (word > 0xff && size > 33) || (word > 0xffff && size > 32);
    r := if negative || overflow then Err(result) else Ok(result);
  }

  // ---------------------------------------------------------------------------------------------
  // Encoding.

  /** The bytes needed to write `v` with a clear top bit. */
  function SignedSize(v: nat): (s: nat)
    ensures v == 0 <==> s == 0
    ensures s > 0 ==> v < 128 * Pow256(s - 1)
    ensures s > 1 ==> v >= 128 * Pow256(s - 2)
  {
    if v == 0 then 0 else if v < 0x80 then 1 else if v < 0x8000 then 2
    else
      var t := SignedSize(v / 256);
      assert t >= 2;
      t + 1
  }

  /** The top three of those bytes. */
  function Mantissa(v: nat, s: nat): nat {
    if s <= 3 then Scaled(v, 3 - s) else Shifted(v, s - 3)
  }

  function Encoded(v: nat): nat {
    Mantissa(v, SignedSize(v)) + 0x100_0000 * SignedSize(v)
  }

  /** The number of bytes of `v`, which is `(bits + 7) / 8`. */
  function ByteSize(v: nat): (s: nat)
    ensures v == 0 <==> s == 0
    ensures v < Pow256(s)
    ensures s > 0 ==> v >= Pow256(s - 1)
  {
    if v == 0 then 0 else 1 + ByteSize(v / 256)
  }

  /** The bounds pin the size down. */
  lemma {:induction false} SignedSizeIs(v: nat, s: nat)
    requires s > 0 && v < 128 * Pow256(s - 1) && (if s == 1 then v > 0 else v >= 128 * Pow256(s - 2))
    ensures SignedSize(v) == s
  {
    var t := SignedSize(v);
    PowersOrdered(s, t);
    PowersOrdered(t, s);
  }

  lemma {:induction false} PowersOrdered(s: nat, t: nat)
    ensures 0 < s < t ==> Pow256(s - 1) <= Pow256(t - 2)
  {
    if 0 < s < t {
      PowMonotone(s - 1, t - 2);
    }
  }

  lemma {:induction false} ShiftOnce(v: nat, k: nat)
    ensures Shifted(v, k + 1) == Shifted(v, k) / 256
    decreases k
  {
    if k > 0 {
      ShiftOnce(v / 256, k - 1);
    }
  }

  lemma {:induction false} ShiftScaled(v: nat, k: nat)
    ensures Shifted(Scaled(v, k), k) == v
    decreases k
  {
    if k > 0 {
      MulAssoc(v, 256, Pow256(k - 1));
      assert v * Pow256(k) == 256 * Scaled(v, k - 1) by {
        MulAssoc(256, v, Pow256(k - 1));
      }
      ShiftScaled(v, k - 1);
    }
  }

  /** Where the top three of `s` bytes lie, given where the number lies. */
  lemma {:induction false} MantissaBounds(v: nat, s: nat, low: nat, high: nat)
    requires 0 < s && low * Pow256(s - 1) <= v < high * Pow256(s - 1)
    ensures low * 0x1_0000 <= Mantissa(v, s) < high * 0x1_0000
  {
    hide Pow256, Shifted;
    PowerOf256();
    if s <= 3 {
      var p, q := Pow256(s - 1), Pow256(3 - s);
      PowSum(s - 1, 3 - s);
      MulMonotone(low * p, v, q);
      MulAssoc(low, p, q);
      NextMultiple(q, high * p, v);
      MulAssoc(high, p, q);
      assert Pow256(2) == p * q && q * v == v * q && q * (high * p) == high * p * q && q > 0;
    } else {
      var g, m := Pow256(s - 3), Shifted(v, s - 3);
      PowSum(2, s - 3);
      ShiftedBounds(v, s - 3);
      MulAssoc(low, Pow256(2), g);
      MulAssoc(high, Pow256(2), g);
      NextMultiple(g, low * 0x1_0000, m);
      if m >= high * 0x1_0000 {
        MulMonotone(high * 0x1_0000, m, g);
      }
      assert g * m == m * g && g * (low * 0x1_0000) == low * 0x1_0000 * g;
    }
  }

  /** Taking one more byte drops the lowest of the mantissa, if there is room for it. */
  lemma {:induction false} MantissaShift(v: nat, s: nat)
    requires s > 0
    ensures Mantissa(v, s + 1) == Mantissa(v, s) / 256
  {
    if s >= 3 {
      ShiftOnce(v, s - 3);
    } else {
      MulAssoc(v, 256, Pow256(2 - s));
      MulAssoc(256, v, Pow256(2 - s));
      assert Scaled(v, 3 - s) == 256 * Scaled(v, 2 - s);
    }
  }

  /** The byte size, moved up when the top bit of the mantissa is taken, is the signed size. */
  lemma {:induction false} SizeAdjusted(v: nat)
    requires v > 0
    ensures var s := ByteSize(v);
            var m := Mantissa(v, s);
            m < 0x100_0000 && SignedSize(v) == (if m >= 0x80_0000 then s + 1 else s)
  {
    hide Mantissa;
    var s := ByteSize(v);
    assert Pow256(s) == 256 * Pow256(s - 1);
    assert s > 1 ==> Pow256(s - 1) == 256 * Pow256(s - 2);
    hide Pow256;
    MantissaBounds(v, s, 1, 256);
    if v < 128 * Pow256(s - 1) {
      MantissaBounds(v, s, 1, 128);
      SignedSizeIs(v, s);
    } else {
      MantissaBounds(v, s, 128, 256);
      SignedSizeIs(v, s + 1);
    }
  }

  /** `from_u256`; neither of its assertions can fail. */
  method FromU256(val: U256) returns (c: u32)
    ensures c == Encoded(val)
  {
    hide Pow256, Scaled, Shifted;
    var size := ByteSize(val);
    var compact := if size <= 3 then Scaled(val, 3 - size) else Shifted(val, size - 3);
    FinalForm(val);
    if HasTopBit(compact) {
      compact := compact / 256;
      size := size + 1;
    }
    assert compact < 0x80_0000;
    assert size < 256;
    c := compact + 0x100_0000 * size;
  }

  predicate HasTopBit(compact: nat) {
    (compact / 0x80_0000) % 2 == 1
  }

  lemma {:induction false} FinalForm(v: U256)
    ensures var s := ByteSize(v);
            var m := Mantissa(v, s);
            if HasTopBit(m) then SignedSize(v) == s + 1 <= 33 && Mantissa(v, s + 1) == m / 256 < 0x80_0000
            else SignedSize(v) == s <= 33 && m < 0x80_0000
  {
    hide Pow256, Mantissa;
    SizeBound(v);
    if v > 0 {
      SizeAdjusted(v);
      MantissaShift(v, ByteSize(v));
    } else {
      ZeroMantissa();
    }
  }

  lemma {:induction false} ZeroMantissa()
    ensures Mantissa(0, 0) == 0
  {
  }

  lemma {:induction false} SizeBound(v: U256)
    ensures ByteSize(v) <= 32
  {
    PowerOf256();
    if ByteSize(v) > 32 {
      PowMonotone(32, ByteSize(v) - 1);
    }
  }

  // ---------------------------------------------------------------------------------------------
  // Rounding.

  /** What is left of `v` after encoding. */
  function Rounded(v: nat): nat {
    var s := SignedSize(v);
    if s <= 3 then v else Scaled(Shifted(v, s - 3), s - 3)
  }

  lemma {:induction false} RoundedBounds(v: nat)
    ensures Rounded(v) <= v && SignedSize(Rounded(v)) == SignedSize(v)
    ensures v > 0 ==> (v - Rounded(v)) * 0x8000 < v
    ensures var s := SignedSize(v); s > 3 ==> Rounded(v) >= 128 * Pow256(s - 2)
  {
    var s := SignedSize(v);
    if s > 3 {
      var g, m := Pow256(s - 3), Shifted(v, s - 3);
      ShiftedBounds(v, s - 3);
      assert Pow256(s - 2) == 256 * g && 0x8000 * g <= v;
      NextMultiple(g, 0x8000, m);
      MulMonotone(0x8000, if m >= 0x8000 then m else 0x8000, g);
      assert g * m == Scaled(m, s - 3) && g * 0x8000 == 0x8000 * g;
      SignedSizeIs(Rounded(v), s);
    }
  }

  lemma {:induction false} EncodedParts(v: U256)
    ensures Encoded(v) < 0x1_0000_0000
    ensures SizeOf(Encoded(v)) == SignedSize(v) && WordOf(Encoded(v)) == Mantissa(v, SignedSize(v)) && !SignOf(Encoded(v))
  {
    hide Pow256, Mantissa;
    EncodedBounds(v);
    Packed(Mantissa(v, SignedSize(v)), SignedSize(v));
  }

  lemma {:induction false} EncodedBounds(v: U256)
    ensures SignedSize(v) <= 33 && Mantissa(v, SignedSize(v)) < 0x80_0000
  {
    hide Pow256, Mantissa;
    FinalForm(v);
  }

  lemma {:induction false} Packed(m: nat, s: nat)
    requires m < 0x80_0000 && s < 256
    ensures var c := m + 0x100_0000 * s;
            c < 0x1_0000_0000 && c / 0x100_0000 == s && c % 0x80_0000 == m && (c / 0x80_0000) % 2 == 0
  {
  }

  /** Decoding what was encoded never fails, never exceeds the original, and misses it by less than one
      part in 2^15. */
  lemma {:induction false} RoundTrip(v: U256)
    ensures Encoded(v) < 0x1_0000_0000
    ensures var c := Encoded(v);
            !IsNegative(c) && !IsOverflow(c) && Target(c) <= v && (v > 0 ==> (v - Target(c)) * 0x8000 < v)
    ensures Target(Encoded(v)) == Rounded(v)
  {
    hide Pow256, Scaled, Shifted, Encoded;
    EncodedParts(v);
    RoundedBounds(v);
    var s := SignedSize(v);
    if s <= 3 {
      ShiftScaled(v, 3 - s);
    }
  }

  /** Rounding keeps the order. */
  lemma {:induction false} Monotone(v: U256, w: U256)
    requires v <= w
    ensures Encoded(v) < 0x1_0000_0000 && Encoded(w) < 0x1_0000_0000
    ensures Target(Encoded(v)) <= Target(Encoded(w))
  {
    hide Pow256, Scaled, Shifted, Encoded, Target;
    RoundTrip(v);
    RoundTrip(w);
    RoundedBounds(v);
    RoundedBounds(w);
    var s, t := SignedSize(v), SignedSize(w);
    PowersOrdered(t, s);
    if 0 < s < t && t > 3 {
      PowMonotone(s - 1, t - 2);
    } else if s == t > 3 {
      SameSize(v, w, s - 3);
    }
  }

  lemma {:induction false} SameSize(v: nat, w: nat, k: nat)
    requires v <= w
    ensures Scaled(Shifted(v, k), k) <= Scaled(Shifted(w, k), k)
  {
    var g := Pow256(k);
    ShiftedBounds(v, k);
    ShiftedBounds(w, k);
    NextMultiple(g, Shifted(v, k), Shifted(w, k));
    if Shifted(v, k) <= Shifted(w, k) {
      MulMonotone(Shifted(v, k), Shifted(w, k), g);
    }
  }

  /** Every encoding is the encoding of its own target. */
  lemma {:induction false} FixedPoint(v: U256)
    ensures Encoded(v) < 0x1_0000_0000 && Encoded(Target(Encoded(v))) == Encoded(v)
  {
    hide Pow256, Scaled, Target;
    RoundTrip(v);
    RoundedBounds(v);
    var s := SignedSize(v);
    if s > 3 {
      ShiftScaled(Shifted(v, s - 3), s - 3);
    }
  }
}
