/** Script numbers: sign-magnitude byte strings (script/src/num.rs). */
module ScriptNum {
  import opened Primitives
  import opened LittleEndian
  import opened Script

  // ---------------------------------------------------------------------------------------------
  // The meaning of a byte string.

  function Last(s: seq<byte>): byte
    requires s != []
  {
    s[|s| - 1]
  }

  /** The magnitude is the string without the top bit, which is the sign. */
  function Magnitude(s: seq<byte>): nat {
    if s == [] then 0 else Value(s[..|s| - 1]) + Pow256(|s| - 1) * (Last(s) % 128)
  }

  function Meaning(s: seq<byte>): int {
    if s != [] && Last(s) >= 128 then 0 - Magnitude(s) else Magnitude(s)
  }

  /** The top byte carries something besides the sign, or has to be there to carry it. */
  predicate Minimal(s: seq<byte>) {
    s != [] ==> Last(s) % 128 != 0 || (|s| > 1 && s[|s| - 2] >= 128)
  }

  /** The bytes of a magnitude, without leading zeros. */
  function MagnitudeBytes(n: nat): (s: seq<byte>)
    ensures n > 0 ==> s != [] && Last(s) != 0
    ensures n == 0 ==> s == []
    ensures Value(s) == n
  {
    if n == 0 then [] else
      var rest := MagnitudeBytes(n / 256);
      assert ([n % 256] + rest)[1..] == rest;
      [n % 256] + rest
  }

  function Encode(v: int): seq<byte> {
    if v == 0 then [] else
      WithSign(MagnitudeBytes(if v < 0 then -v else v), v < 0)
  }

  /** Puts the sign into the top bit, in a byte of its own if that bit is taken. */
  function WithSign(m: seq<byte>, negative: bool): seq<byte>
    requires m != []
  {
    if Last(m) >= 128 then m + [if negative then 0x80 else 0]
    else if negative then m[|m| - 1 := Last(m) + 0x80] else m
  }

  function Decode(s: seq<byte>, requireMinimal: bool, maxSize: nat): Result<int, ScriptError> {
    if |s| > maxSize then Err(NumberOverflow)
    else if requireMinimal && !Minimal(s) then Err(NumberNotMinimallyEncoded)
    else Ok(Meaning(s))
  }

  // ---------------------------------------------------------------------------------------------
  // Round trips.

  lemma {:induction false} ValueSplit(s: seq<byte>)
    requires s != []
    ensures Value(s) == Value(s[..|s| - 1]) + Pow256(|s| - 1) * Last(s)
  {
    var n := |s| - 1;
    assert s == s[..n] + [s[n]];
    ValueConcat(s[..n], [s[n]]);
    assert Value([s[n]]) == s[n] + 256 * Value([]) by {
      assert [s[n]][1..] == [];
    }
  }

  /** Adding the sign keeps the magnitude and yields a minimal string. */
  lemma {:induction false} WithSignMeaning(m: seq<byte>, negative: bool)
    requires m != [] && Last(m) != 0
    ensures Meaning(WithSign(m, negative)) == (if negative then 0 - Value(m) else Value(m))
    ensures Minimal(WithSign(m, negative))
    ensures |WithSign(m, negative)| == |m| + if Last(m) >= 128 then 1 else 0
  {
    hide Value, Pow256;
    var s, n := WithSign(m, negative), |m| - 1;
    ValueSplit(m);
    if Last(m) >= 128 {
      assert s[..|s| - 1] == m;
      assert Pow256(|m|) * 0 == 0;
    } else {
      assert s[..n] == m[..n];
    }
  }

  lemma {:induction false} EncodeMeaning(v: int)
    ensures Meaning(Encode(v)) == v && Minimal(Encode(v))
  {
    if v != 0 {
      WithSignMeaning(MagnitudeBytes(if v < 0 then -v else v), v < 0);
    }
  }

  /** A minimal magnitude string is determined by its value. */
  lemma {:induction false} MagnitudeBytesUnique(m: seq<byte>)
    requires m != [] ==> Last(m) != 0
    ensures MagnitudeBytes(Value(m)) == m
    decreases |m|
  {
    if m != [] {
      var n := Value(m);
      assert n % 256 == m[0] && n / 256 == Value(m[1..]);
      if |m| > 1 {
        assert Last(m[1..]) == Last(m);
      }
      MagnitudeBytesUnique(m[1..]);
      NonZeroValue(m);
      assert m == [m[0]] + m[1..];
    }
  }

  lemma {:induction false} NonZeroValue(m: seq<byte>)
    requires m != [] && Last(m) != 0
    ensures Value(m) > 0
  {
    ValueSplit(m);
    assert Pow256(|m| - 1) * Last(m) > 0;
  }

  /** The magnitude bytes a minimal string was made from. */
  function StripSign(s: seq<byte>): seq<byte>
    requires s != []
  {
    var n := |s| - 1;
    if Last(s) % 128 == 0 then s[..n] else s[n := Last(s) % 128]
  }

  lemma {:induction false} StripSignValue(s: seq<byte>)
    requires s != [] && Minimal(s)
    ensures var m := StripSign(s); m != [] && Last(m) != 0 && Value(m) == Magnitude(s)
  {
    var n, m := |s| - 1, StripSign(s);
    if Last(s) % 128 != 0 {
      ValueSplit(m);
      assert m[..n] == s[..n];
    } else {
      assert Pow256(n) * 0 == 0;
    }
  }

  lemma {:induction false} RestoreSign(s: seq<byte>)
    requires s != [] && Minimal(s)
    ensures var m := StripSign(s); m != [] && WithSign(m, Last(s) >= 128) == s
  {
  }

  /** Every minimal string is the encoding of its meaning. */
  lemma {:induction false} EncodeOfMeaning(s: seq<byte>)
    requires Minimal(s)
    ensures Encode(Meaning(s)) == s
  {
    if s != [] {
      StripSignValue(s);
      RestoreSign(s);
      NonZeroValue(StripSign(s));
      MagnitudeBytesUnique(StripSign(s));
    }
  }

  /** Encoding and minimal decoding are mutually inverse, between integers and minimal strings. */
  lemma {:induction false} RoundTrip(v: int, s: seq<byte>, maxSize: nat)
    ensures |Encode(v)| <= maxSize ==> Decode(Encode(v), true, maxSize) == Ok(v)
    ensures Decode(s, true, maxSize) == Ok(v) <==> |s| <= maxSize && s == Encode(v)
  {
    EncodeMeaning(v);
    if Minimal(s) {
      EncodeOfMeaning(s);
    }
  }

  /** Numbers of absolute value below 2^(8n - 1) are exactly those that take at most `n` bytes. */
  lemma {:induction false} EncodedSize(v: int, n: nat)
    requires n > 0
    ensures |Encode(v)| <= n <==> -(Pow256(n - 1) * 128) < v < Pow256(n - 1) * 128
  {
    if v != 0 {
      var a := if v < 0 then -v else v;
      var m := MagnitudeBytes(a);
      WithSignMeaning(m, v < 0);
      SizeOfMagnitude(m, n);
    } else {
      assert Pow256(n - 1) * 128 > 0;
    }
  }

  lemma {:induction false} SizeOfMagnitude(m: seq<byte>, n: nat)
    requires n > 0 && m != [] && Last(m) != 0
    ensures |m| + (if Last(m) >= 128 then 1 else 0) <= n <==> Value(m) < Pow256(n - 1) * 128
  {
    var k := |m| - 1;
    ValueSplit(m);
    ValueBound(m[..k]);
    var p, top := Pow256(k), Last(m);
    TopByte(Value(m[..k]), p, top);
    if |m| < n {
      PowMonotone(|m|, n - 1);
    } else if |m| > n {
      PowMonotone(n, k);
    }
  }

  lemma {:induction false} TopByte(low: nat, p: nat, top: byte)
    requires low < p && top > 0
    ensures low + p * top < p * 128 <==> top < 128
    ensures low + p * top < p * 256
    ensures low + p * top >= p
  {
  }

  // ---------------------------------------------------------------------------------------------
  // The loops of the source.

  /** `from_slice`: reads the bytes as one number and then moves the sign bit out. Sizes up to eight
      bytes fit the 64-bit accumulator. */
  method FromSlice(data: seq<byte>, requireMinimal: bool, maxSize: nat) returns (r: Result<int, ScriptError>)
    requires maxSize <= 8
    ensures r == Decode(data, requireMinimal, maxSize)
  {
    if |data| > maxSize {
      return Err(NumberOverflow);
    }
    if data == [] {
      return Ok(0);
    }
    if requireMinimal && Last(data) % 128 == 0 && (|data| <= 1 || data[|data| - 2] < 128) {
      return Err(NumberNotMinimallyEncoded);
    }
    var result := Accumulate(data);
    SignBit(data);
    r := Ok(if Last(data) >= 128 then 0 - (result - Pow256(|data| - 1) * 128) else result);
  }

  method Accumulate(data: seq<byte>) returns (result: nat)
    ensures result == Value(data)
  {
    result := 0;
    var shift: nat := 1;
    for i := 0 to |data|
      invariant result == Value(data[..i]) && shift == Pow256(i)
    {
      assert data[..i + 1][..i] == data[..i];
      ValueSplit(data[..i + 1]);
      result := result + shift * data[i];
      shift := 256 * shift;
    }
    assert data[..|data|] == data;
  }

  /** Clearing the sign bit leaves the magnitude. */
  lemma {:induction false} SignBit(s: seq<byte>)
    requires s != []
    ensures Magnitude(s) == Value(s) - (if Last(s) >= 128 then Pow256(|s| - 1) * 128 else 0)
  {
    ValueSplit(s);
    if Last(s) >= 128 {
      Distribute(Pow256(|s| - 1), Last(s) - 128, 128);
    }
  }

  lemma {:induction false} Distribute(p: int, a: int, b: int)
    ensures p * (a + b) == p * a + p * b
  {
  }

  /** `to_bytes`: peels bytes off the magnitude and then places the sign. */
  method ToBytes(value: int) returns (result: seq<byte>)
    requires -0x8000_0000_0000_0000 < value < 0x8000_0000_0000_0000
    ensures result == Encode(value) && |result| <= 8
  {
    if value == 0 {
      return [];
    }
    FitsEightBytes(value);
    var negative := value < 0;
    result := Peel(if negative then -value else value);
    if Last(result) >= 128 {
      result := result + [if negative then 0x80 else 0];
    } else if negative {
      result := result[|result| - 1 := Last(result) + 0x80];
    }
  }

  method Peel(value: nat) returns (result: seq<byte>)
    ensures result == MagnitudeBytes(value)
  {
    hide Value;
    var absvalue: nat := value;
    result := [];
    while absvalue > 0
      invariant result + MagnitudeBytes(absvalue) == MagnitudeBytes(value)
    {
      PeelOne(result, absvalue);
      hide MagnitudeBytes;
      result := result + [absvalue % 256];
      absvalue := absvalue / 256;
    }
  }

  lemma {:induction false} PeelOne(result: seq<byte>, n: nat)
    requires n > 0
    ensures result + MagnitudeBytes(n) == result + [n % 256] + MagnitudeBytes(n / 256)
  {
    hide Value;
  }

  lemma {:induction false} FitsEightBytes(v: int)
    requires -0x8000_0000_0000_0000 < v < 0x8000_0000_0000_0000
    ensures |Encode(v)| <= 8
  {
    EncodedSize(v, 8);
    assert Pow256(3) == 0x100_0000;
    assert Pow256(5) == 0x100_0000_0000;
    assert Pow256(7) == 0x100_0000_0000_0000;
  }

  /** `minimally_encode`: trims zeros below the sign byte until the string is minimal, then decodes it. */
  method MinimallyEncode(data: seq<byte>, maxSize: nat) returns (r: Result<int, ScriptError>)
    requires maxSize <= 8
    ensures r == if |Encode(Meaning(data))| <= maxSize then Ok(Meaning(data)) else Err(NumberOverflow)
  {
    hide Value, Pow256, MagnitudeBytes, Encode, Meaning, Magnitude;
    EmptyMeaning();
    var trimmed: seq<byte> := data;
    if data != [] && Last(data) % 128 == 0 {
      if |data| == 1 {
        trimmed := [];
        ZeroMeaning(data);
      } else if data[|data| - 2] < 128 {
        var last := Last(data);
        trimmed := TrimZeros(data[..|data| - 1]);
        TrimmedMeaning(data, trimmed);
        if trimmed != [] {
          ghost var signed := WithSign(trimmed, last >= 128);
          trimmed := if Last(trimmed) >= 128 then trimmed + [last] else trimmed[|trimmed| - 1 := OrSign(Last(trimmed), last)];
          assert trimmed == signed;
        }
      }
    }
    EncodeOfMeaning(trimmed);
    r := FromSlice(trimmed, true, maxSize);
  }

  method TrimZeros(s: seq<byte>) returns (t: seq<byte>)
    ensures Value(t) == Value(s) && (t != [] ==> Last(t) != 0)
  {
    t := s;
    while t != [] && Last(t) == 0
      invariant Value(t) == Value(s)
    {
      DropZero(t);
      t := t[..|t| - 1];
    }
  }

  /** Putting the sign back on the trimmed magnitude gives a minimal string of the same meaning. */
  lemma {:induction false} TrimmedMeaning(data: seq<byte>, trimmed: seq<byte>)
    requires data != [] && Last(data) % 128 == 0 && Value(trimmed) == Value(data[..|data| - 1])
    requires trimmed != [] ==> Last(trimmed) != 0
    ensures trimmed == [] ==> Meaning(data) == 0
    ensures trimmed != [] ==>
              Meaning(WithSign(trimmed, Last(data) >= 128)) == Meaning(data) && Minimal(WithSign(trimmed, Last(data) >= 128))
  {
    assert Pow256(|data| - 1) * 0 == 0;
    if trimmed != [] {
      WithSignMeaning(trimmed, Last(data) >= 128);
    }
  }

  /** `byte | sign` for a byte without and a sign with only the top bit. */
  function OrSign(b: byte, sign: byte): byte
    requires b < 128 && sign % 128 == 0
  {
    b + sign
  }

  lemma {:induction false} EmptyMeaning()
    ensures Meaning([]) == 0
  {
  }

  lemma {:induction false} ZeroMeaning(s: seq<byte>)
    requires |s| == 1 && Last(s) % 128 == 0
    ensures Meaning(s) == 0
  {
  }

  lemma {:induction false} DropZero(s: seq<byte>)
    requires s != [] && Last(s) == 0
    ensures Value(s) == Value(s[..|s| - 1])
  {
    ValueSplit(s);
    assert Pow256(|s| - 1) * 0 == 0;
  }

  // ---------------------------------------------------------------------------------------------
  // Fixed-width numbers (NUM2BIN and BIN2NUM).

  function Zeros(n: nat): (s: seq<byte>)
    ensures |s| == n
  {
    seq(n, _ => 0)
  }

  /** Moves the sign of a number out to the last of `size` bytes. */
  function Widen(num: seq<byte>, size: nat): (s: seq<byte>)
    requires |num| <= size
    ensures |s| == size
  {
    if |num| == size then num
    else if num == [] then Zeros(size - 1) + [0]
    else num[|num| - 1 := Last(num) % 128] + Zeros(size - 1 - |num|) + [if Last(num) >= 128 then 0x80 else 0]
  }

  lemma {:induction false} ZerosValue(n: nat)
    ensures Value(Zeros(n)) == 0
  {
    if n > 0 {
      assert Zeros(n)[1..] == Zeros(n - 1);
      ZerosValue(n - 1);
    }
  }

  /** Widening keeps the meaning. */
  lemma {:induction false} WidenMeaning(num: seq<byte>, size: nat)
    requires |num| <= size
    ensures Meaning(Widen(num, size)) == Meaning(num)
  {
    if |num| < size {
      var s, zeros := Widen(num, size), Zeros(size - 1 - |num|);
      assert Pow256(size - 1) * 0 == 0;
      ZerosValue(size - 1 - |num|);
      if num == [] {
        assert s[..size - 1] == zeros;
      } else {
        var m := num[|num| - 1 := Last(num) % 128];
        assert s[..size - 1] == m + zeros;
        ValueConcat(m, zeros);
        ValueSplit(m);
        assert m[..|num| - 1] == num[..|num| - 1];
        assert Pow256(|m|) * 0 == 0;
      }
    }
  }

  /** A number widened to any permitted width and brought back is the same number. */
  lemma {:induction false} WidenRoundTrip(v: int, size: nat)
    requires |Encode(v)| <= size
    ensures Meaning(Widen(Encode(v), size)) == v
    ensures Encode(Meaning(Widen(Encode(v), size))) == Encode(v)
  {
    EncodeMeaning(v);
    WidenMeaning(Encode(v), size);
  }
}
