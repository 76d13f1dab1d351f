/** What the opcodes mean for numbers, byte strings and stacks, in the order a script writes its operands. */
module OpcodeMeaning {
  import opened Primitives
  import opened Script
  import opened LittleEndian
  import opened ScriptNum
  import opened ScriptStack
  import opened Signatures
  import opened Operations

  // ---------------------------------------------------------------------------------------------
  // Truth.

  lemma {:induction false} ZeroValue(s: seq<byte>)
    ensures Value(s) == 0 <==> forall i :: 0 <= i < |s| ==> s[i] == 0
    decreases |s|
  {
    if s != [] {
      var rest := s[1..];
      ZeroValue(rest);
      assert forall i :: 0 <= i < |rest| ==> rest[i] == s[i + 1];
      if Value(s) == 0 {
        forall i | 0 <= i < |s|
          ensures s[i] == 0
        {
          if i > 0 {
            assert rest[i - 1] == 0;
          }
        }
      }
    }
  }

  /** The bytes that count as false are exactly the spellings of zero, negative zero included. */
  lemma {:induction false} TruthIsNonZero(e: Element)
    ensures CastToBool(e) <==> Meaning(e) != 0
  {
    if e != [] {
      var low, p, top := e[..|e| - 1], Pow256(|e| - 1), Last(e) % 128;
      ZeroValue(low);
      assert top != 0 ==> p * top > 0;
      assert p * 0 == 0;
      assert forall i :: 0 <= i < |low| ==> low[i] == e[i];
      if i :| 0 <= i < |e| - 1 && e[i] != 0 {
        assert low[i] != 0;
      }
    }
  }

  // ---------------------------------------------------------------------------------------------
  // Numbers.

  /** Truncated division: the remainder is smaller than the divisor and has the sign of the dividend. */
  lemma {:induction false} TruncatedDivision(a: int, b: int)
    requires b != 0
    ensures a == Quotient(a, b) * b + Remainder(a, b)
    ensures Abs(Remainder(a, b)) < Abs(b) && (Remainder(a, b) == 0 || (Remainder(a, b) < 0) == (a < 0))
  {
  }

  predicate IsOperand(v: int) {
    |Encode(v)| <= 4
  }

  lemma {:induction false} OperandRange(v: int)
    ensures IsOperand(v) <==> -0x8000_0000 < v < 0x8000_0000
  {
    EncodedSize(v, 4);
    assert Pow256(3) == 0x100_0000;
  }

  lemma {:induction false} PopOperand(env: Env, rest: seq<Element>, v: int)
    requires IsOperand(v)
    ensures PopNum(env, rest + [Encode(v)]) == Ok((v, rest))
  {
    EncodeMeaning(v);
    assert (rest + [Encode(v)])[..|rest|] == rest;
  }

  /** `x y OP` for every two-operand opcode. Division takes its operands the other way round: `x y DIV`
      is `y` over `x`. */
  function Written(op: byte, x: int, y: int): int
    requires op == 0x96 || op == 0x97 ==> x != 0
  {
    match op
    case 0x93 => x + y
    case 0x94 => x - y
    case 0x96 => Quotient(y, x)
    case 0x97 => Remainder(y, x)
    case 0x9a => if x != 0 && y != 0 then 1 else 0
    case 0x9b => if x != 0 || y != 0 then 1 else 0
    case 0x9c => if x == y then 1 else 0
    case 0x9e => if x != y then 1 else 0
    case 0x9f => if x < y then 1 else 0
    case 0xa0 => if x > y then 1 else 0
    case 0xa1 => if x <= y then 1 else 0
    case 0xa2 => if x >= y then 1 else 0
    case 0xa3 => if x < y then x else y
    case _ => if x > y then x else y
  }

  predicate IsBinary(op: byte) {
    0x93 <= op <= 0xa4 && op != 0x95 && op != 0x98 && op != 0x99 && op != 0x9d
  }

  lemma {:induction false} BinaryInOrder(env: Env, m: Machine, rest: seq<Element>, x: int, y: int, op: byte)
    requires IsOperand(x) && IsOperand(y) && IsBinary(op) && m.stack == rest + [Encode(x), Encode(y)]
    ensures ExecNumeric(env, m, op) ==
            if (op == 0x96 || op == 0x97) && x == 0 then Err(DivisionByZero)
            else Ok(m.(stack := rest + [Encode(Written(op, x, y))]))
  {
    hide Encode, Quotient, Remainder;
    PopOperand(env, rest + [Encode(x)], y);
    PopOperand(env, rest, x);
    assert m.stack == rest + [Encode(x)] + [Encode(y)];
  }

  lemma {:induction false} WithinInOrder(env: Env, m: Machine, rest: seq<Element>, x: int, low: int, high: int)
    requires IsOperand(x) && IsOperand(low) && IsOperand(high) && m.stack == rest + [Encode(x), Encode(low), Encode(high)]
    ensures ExecNumeric(env, m, 0xa5) == Ok(m.(stack := rest + [BoolElement(low <= x < high)]))
  {
    hide Encode;
    PopOperand(env, rest + [Encode(x)] + [Encode(low)], high);
    PopOperand(env, rest + [Encode(x)], low);
    PopOperand(env, rest, x);
    assert m.stack == rest + [Encode(x)] + [Encode(low)] + [Encode(high)];
  }

  // ---------------------------------------------------------------------------------------------
  // Byte strings.

  /** `SPLIT` and `CAT` undo each other. */
  lemma {:induction false} SplitThenCat(env: Env, m: Machine, rest: seq<Element>, value: Element, n: int)
    requires IsOperand(n) && m.stack == rest + [value, Encode(n)]
    ensures ExecSplit(env, m).Ok? <==> 0 <= n <= |value|
    ensures 0 <= n <= |value| <= MAX_SCRIPT_ELEMENT_SIZE ==> ExecCat(ExecSplit(env, m).value) == Ok(m.(stack := rest + [value]))
  {
    hide Encode;
    PopOperand(env, rest + [value], n);
    assert m.stack == rest + [value] + [Encode(n)];
    if 0 <= n <= |value| <= MAX_SCRIPT_ELEMENT_SIZE {
      var split := ExecSplit(env, m).value;
      assert split.stack == rest + [value[..n]] + [value[n..]];
      assert split.stack[..|split.stack| - 1] == rest + [value[..n]];
      assert value[..n] + value[n..] == value;
      assert (rest + [value[..n]])[|rest| := value] == rest + [value];
    }
  }

  lemma {:induction false} CatThenSplit(env: Env, m: Machine, rest: seq<Element>, a: Element, b: Element)
    requires m.stack == rest + [a, b] && |a| + |b| <= MAX_SCRIPT_ELEMENT_SIZE
    ensures var cat := ExecCat(m);
            cat.Ok? && ExecSplit(env, cat.value.(stack := cat.value.stack + [Encode(|a|)])) == Ok(m)
  {
    hide Encode;
    OperandRange(|a|);
    assert m.stack[..|m.stack| - 1] == rest + [a];
    var cat := ExecCat(m).value;
    assert cat.stack == rest + [a + b];
    PopOperand(env, cat.stack, |a|);
    assert (a + b)[..|a|] == a && (a + b)[|a|..] == b;
    assert (rest + [a + b])[|rest| := a] + [b] == m.stack;
  }

  /** `NUM2BIN` takes any spelling of a four-byte number, succeeds exactly for the widths the number fits
      in, and `BIN2NUM` brings it back in its shortest spelling. */
  lemma {:induction false} NumBinRoundTrip(env: Env, m: Machine, rest: seq<Element>, e: Element, w: Element, size: int)
    requires m.stack == rest + [e, w] && Decode(w, env.flags.verifyMinimaldata, 4) == Ok(size)
    ensures var v := Meaning(e);
            var r := ExecNum2Bin(env, m);
            (r.Ok? <==> IsOperand(v) && |Encode(v)| <= size <= MAX_SCRIPT_ELEMENT_SIZE) &&
            (r.Ok? ==> |r.value.stack| == |rest| + 1 && |r.value.stack[|rest|]| == size &&
                       ExecBin2Num(r.value) == Ok(m.(stack := rest + [Encode(v)])))
  {
    hide Encode, Widen, Meaning, Decode;
    var v := Meaning(e);
    assert m.stack[..|rest| + 1] == rest + [e] && (rest + [e])[..|rest|] == rest;
    if |Encode(v)| <= size {
      WidenRoundTrip(v, size);
      assert (rest + [Widen(Encode(v), size)])[..|rest|] == rest;
    }
  }

  /** A string pushed by the builder is pushed minimally, unless it is a number with its own opcode. */
  lemma {:induction false} BuilderIsMinimal(data: Element)
    requires |data| < 0x1_0000_0000
    ensures CheckMinimalPush(data, PushData(data)[0]) <==> !(|data| == 1 && (1 <= data[0] <= 16 || data[0] == 0x81))
  {
  }

  // ---------------------------------------------------------------------------------------------
  // The stack, pictured from the bottom: `rest` and then the elements an opcode looks at.

  predicate Rearranges(env: Env, m: Machine, op: byte, after: seq<Element>) {
    ExecStack(env, m, op) == Ok(m.(stack := after))
  }

  lemma {:induction false} OneElement(env: Env, m: Machine, rest: seq<Element>, a: Element)
    requires m.stack == rest + [a]
    ensures Rearranges(env, m, 0x75, rest) // DROP
    ensures Rearranges(env, m, 0x76, rest + [a, a]) // DUP
    ensures Rearranges(env, m, 0x73, if Meaning(a) != 0 then rest + [a, a] else rest + [a]) // IFDUP
    ensures ExecStack(env, m, 0x6b) == Ok(m.(stack := rest, alt := m.alt + [a])) // TOALTSTACK
    ensures ExecStack(env, ExecStack(env, m, 0x6b).value, 0x6c) == Ok(m) // FROMALTSTACK
  {
    hide Encode, CastToBool, Meaning, ExecPickRoll;
    TruthIsNonZero(a);
    assert Duplicated(m.stack, 1) == rest + [a, a] && Dropped(m.stack, 1) == rest;
    assert (m.alt + [a])[..|m.alt|] == m.alt;
  }

  lemma {:induction false} TwoElements(env: Env, m: Machine, rest: seq<Element>, a: Element, b: Element)
    requires m.stack == rest + [a, b]
    ensures Rearranges(env, m, 0x6d, rest) // 2DROP
    ensures Rearranges(env, m, 0x6e, rest + [a, b, a, b]) // 2DUP
    ensures Rearranges(env, m, 0x77, rest + [b]) // NIP
    ensures Rearranges(env, m, 0x78, rest + [a, b, a]) // OVER
    ensures Rearranges(env, m, 0x7c, rest + [b, a]) // SWAP
    ensures Rearranges(env, m, 0x7d, rest + [b, a, b]) // TUCK
  {
    hide Encode, CastToBool, ExecPickRoll;
    assert Dropped(m.stack, 2) == rest && Duplicated(m.stack, 2) == rest + [a, b, a, b];
    assert Nipped(m.stack) == rest + [b] && CopiedOver(m.stack, 1) == rest + [a, b, a];
    assert Swapped(m.stack, 1) == rest + [b, a] && Tucked(m.stack) == rest + [b, a, b];
  }

  lemma {:induction false} ThreeElements(env: Env, m: Machine, rest: seq<Element>, a: Element, b: Element, c: Element)
    requires m.stack == rest + [a, b, c]
    ensures Rearranges(env, m, 0x6f, rest + [a, b, c, a, b, c]) // 3DUP
    ensures Rearranges(env, m, 0x7b, rest + [b, c, a]) // ROT
  {
    hide Encode, CastToBool, ExecPickRoll;
    assert Duplicated(m.stack, 3) == rest + [a, b, c, a, b, c] && Rotated(m.stack, 1) == rest + [b, c, a];
  }

  lemma {:induction false} TwoPairs(env: Env, m: Machine, rest: seq<Element>, a: seq<Element>, b: seq<Element>)
    requires |a| == |b| == 2 && m.stack == rest + a + b
    ensures Rearranges(env, m, 0x70, rest + a + b + a) // 2OVER
    ensures Rearranges(env, m, 0x72, rest + b + a) // 2SWAP
  {
    hide Encode, CastToBool, ExecPickRoll;
    assert CopiedOver(m.stack, 2) == rest + a + b + a && Swapped(m.stack, 2) == rest + b + a;
  }

  lemma {:induction false} ThreePairs(env: Env, m: Machine, rest: seq<Element>, a: seq<Element>, b: seq<Element>, c: seq<Element>)
    requires |a| == |b| == |c| == 2 && m.stack == rest + a + b + c
    ensures Rearranges(env, m, 0x71, rest + b + c + a) // 2ROT
  {
    hide Encode, CastToBool, ExecPickRoll, Rotated;
    RotateGroups(rest, a, b, c);
  }

  /** `PICK` copies and `ROLL` moves the element with `n` others above it. */
  lemma {:induction false} PickAndRoll(env: Env, m: Machine, below: seq<Element>, x: Element, above: seq<Element>)
    requires IsOperand(|above|) && m.stack == below + [x] + above + [Encode(|above|)]
    ensures Rearranges(env, m, 0x79, below + [x] + above + [x]) // PICK
    ensures Rearranges(env, m, 0x7a, below + above + [x]) // ROLL
  {
    hide Encode, CastToBool, Duplicated, Dropped, Swapped, Rotated, CopiedOver, Nipped, Tucked;
    PopOperand(env, below + [x] + above, |above|);
    assert Without(below + [x] + above, |below|) == below + above;
  }

  // ---------------------------------------------------------------------------------------------
  // The stack opcodes in terms of each other, on every stack and with the same failures.

  function Then(env: Env, r: Result<Machine, ScriptError>, op: byte): Result<Machine, ScriptError> {
    if r.Ok? then ExecStack(env, r.value, op) else r
  }

  function Twice(env: Env, m: Machine, first: byte, second: byte): Result<Machine, ScriptError> {
    Then(env, ExecStack(env, m, first), second)
  }

  lemma {:induction false} ComposedOpcodes(env: Env, m: Machine)
    ensures Twice(env, m, 0x7c, 0x75) == ExecStack(env, m, 0x77) // SWAP DROP is NIP
    ensures Twice(env, m, 0x7c, 0x78) == ExecStack(env, m, 0x7d) // SWAP OVER is TUCK
    ensures Twice(env, m, 0x75, 0x75) == ExecStack(env, m, 0x6d) // DROP DROP is 2DROP
    ensures Twice(env, m, 0x78, 0x78) == ExecStack(env, m, 0x6e) // OVER OVER is 2DUP
  {
    hide ExecStack;
    if |m.stack| >= 2 {
      var n := |m.stack|;
      var rest, a, b := m.stack[..n - 2], m.stack[n - 2], m.stack[n - 1];
      assert m.stack == rest + [a, b];
      TwoElements(env, m, rest, a, b);
      OneElement(env, m, rest + [a], b);
      assert rest + [a] + [b] == rest + [a, b] && rest + [b, a] == rest + [b] + [a];
      OneElement(env, m.(stack := rest + [a]), rest, a);
      OneElement(env, m.(stack := rest + [b, a]), rest + [b], a);
      TwoElements(env, m.(stack := rest + [b, a]), rest, b, a);
      assert rest + [a, b, a] == rest + [a] + [b, a] && rest + [a] + [b, a, b] == rest + [a, b, a, b];
      TwoElements(env, m.(stack := rest + [a, b, a]), rest + [a], b, a);
    } else {
      TooFew(env, m);
    }
  }

  lemma {:induction false} TooFew(env: Env, m: Machine)
    requires |m.stack| < 2
    ensures Twice(env, m, 0x7c, 0x75) == ExecStack(env, m, 0x77) == Err(InvalidStackOperation)
    ensures Twice(env, m, 0x7c, 0x78) == ExecStack(env, m, 0x7d) == Err(InvalidStackOperation)
    ensures Twice(env, m, 0x75, 0x75) == ExecStack(env, m, 0x6d) == Err(InvalidStackOperation)
    ensures Twice(env, m, 0x78, 0x78) == ExecStack(env, m, 0x6e) == Err(InvalidStackOperation)
  {
    hide Encode, CastToBool, ExecPickRoll, Swapped, Rotated, CopiedOver, Duplicated, Nipped, Tucked;
  }

  /** Swapping is its own inverse and rotating has order three, for single elements and pairs. */
  lemma {:induction false} SwapsAndRotations(env: Env, m: Machine)
    ensures |m.stack| >= 2 ==> Twice(env, m, 0x7c, 0x7c) == Ok(m)
    ensures |m.stack| >= 4 ==> Twice(env, m, 0x72, 0x72) == Ok(m)
    ensures |m.stack| >= 3 ==> Then(env, Twice(env, m, 0x7b, 0x7b), 0x7b) == Ok(m)
    ensures |m.stack| >= 6 ==> Then(env, Twice(env, m, 0x71, 0x71), 0x71) == Ok(m)
  {
    hide Encode, CastToBool, ExecPickRoll, Swapped, Rotated;
    SizesKept(m.stack);
    if |m.stack| >= 2 {
      SwapTwice(m.stack, 1);
    }
    if |m.stack| >= 4 {
      SwapTwice(m.stack, 2);
    }
    if |m.stack| >= 3 {
      SwapRotateOrder(m.stack, 1);
    }
    if |m.stack| >= 6 {
      SwapRotateOrder(m.stack, 2);
    }
  }

  lemma {:induction false} SwapTwice(s: seq<Element>, i: nat)
    requires 2 * i <= |s|
    ensures |Swapped(s, i)| == |s| && Swapped(Swapped(s, i), i) == s
  {
    var n := |s|;
    var a, c, d := s[..n - 2 * i], s[n - 2 * i..n - i], s[n - i..];
    assert s == a + c + d;
    SwapGroups(a, c, d);
    SwapGroups(a, d, c);
  }

  lemma {:induction false} SizesKept(s: seq<Element>)
    ensures forall i: nat, t: seq<Element> | 3 * i <= |t| == |s| :: |Rotated(t, i)| == |s|
  {
  }
}
