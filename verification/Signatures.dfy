/** Signature and public key encodings, hash types and the foreign functions behind signature checks
    (script/src/interpreter.rs, script/src/sign.rs, script/src/flags.rs). */
module Signatures {
  import opened Primitives
  import opened Script

  datatype VerificationFlags = VerificationFlags(
    verifyP2sh: bool, verifyStrictenc: bool, verifyDersig: bool, verifyLowS: bool, verifyNulldummy: bool,
    verifySigpushonly: bool, verifyMinimaldata: bool, verifyDiscourageUpgradableNops: bool, verifyCleanstack: bool,
    verifyLocktime: bool, verifyChecksequence: bool, verifyWitness: bool,
    verifyDiscourageUpgradableWitnessProgram: bool, verifyConcat: bool, verifySplit: bool, verifyAnd: bool,
    verifyOr: bool, verifyXor: bool, verifyDiv: bool, verifyMod: bool, verifyBin2num: bool, verifyNum2bin: bool,
    verifyCheckdatasig: bool)

  datatype SignatureVersion = Base | WitnessV0 | ForkId

  datatype SighashBase = SignAll | SignNone | SignSingle

  datatype Sighash = Sighash(base: SighashBase, anyoneCanPay: bool, forkId: bool)

  type Digest20 = s: seq<byte> | |s| == 20 witness seq(20, i => 0)
  type Digest32 = s: seq<byte> | |s| == 32 witness seq(32, i => 0)

  /** The hash functions and the transaction's signature checker. */
  datatype Checker = Checker(
    ripemd160: seq<byte> -> Digest20,
    sha1: seq<byte> -> Digest20,
    sha256: seq<byte> -> Digest32,
    dhash160: seq<byte> -> Digest20,
    dhash256: seq<byte> -> Digest32,
    checkSignature: (seq<byte>, seq<byte>, seq<byte>, byte, SignatureVersion) -> bool,
    verifySignature: (seq<byte>, seq<byte>, Digest32) -> bool,
    checkLockTime: int -> bool,
    checkSequence: int -> bool)

  /** Everything a run depends on besides the script and the stack. */
  datatype Env = Env(flags: VerificationFlags, version: SignatureVersion, checker: Checker)

  // ---------------------------------------------------------------------------------------------
  // Hash types.

  predicate HasBit(u: nat, bit: nat)
    requires bit > 0
  {
    (u / bit) % 2 == 1
  }

  function ClearBit(u: nat, bit: nat): (r: nat)
    requires bit > 0
    ensures r <= u
  {
    if HasBit(u, bit) then
      assert u / bit >= 1;
      u - bit
    else u
  }

  /** Reads any number; undefined types count as "all". */
  function FromU32(version: SignatureVersion, u: u32): Sighash {
    Sighash(if u % 32 == 2 then SignNone else if u % 32 == 3 then SignSingle else SignAll,
            HasBit(u, 0x80), version == ForkId && HasBit(u, 0x40))
  }

  function ToU32(s: Sighash): u32 {
    (match s.base case SignAll => 1 case SignNone => 2 case SignSingle => 3) +
    (if s.anyoneCanPay then 0x80 else 0) + (if s.forkId then 0x40 else 0)
  }

  predicate IsDefined(version: SignatureVersion, u: u32) {
    var v := ClearBit(u, 0x80);
    1 <= (if version == ForkId then ClearBit(v, 0x40) else v) <= 3
  }

  /** The defined numbers are exactly those that survive the conversion, and every hash type of the
      version is the reading of its own number. */
  lemma {:induction false} DefinedHashTypes(version: SignatureVersion, u: u32, s: Sighash)
    ensures IsDefined(version, u) <==> ToU32(FromU32(version, u)) == u
    ensures (s.forkId ==> version == ForkId) ==> FromU32(version, ToU32(s)) == s
  {
    hide IsDefined, FromU32, ToU32;
    if u < 256 {
      ByteDefined(version, u);
    } else {
      WideUndefined(version, u);
    }
    HashTypeReads(version, s);
  }

  /** A byte by its low five bits and the three above them. */
  function Byte(low: nat, b5: bool, b6: bool, b7: bool): nat {
    low + (if b5 then 0x20 else 0) + (if b6 then 0x40 else 0) + (if b7 then 0x80 else 0)
  }

  lemma {:induction false} ByteBits(u: byte)
    ensures u == Byte(u % 32, HasBit(u, 0x20), HasBit(u, 0x40), HasBit(u, 0x80))
  {
  }

  lemma {:induction false} ByteDefined(version: SignatureVersion, u: byte)
    ensures IsDefined(version, u) <==> ToU32(FromU32(version, u)) == u
  {
    ByteBits(u);
    var v := ClearBit(u, 0x80);
    ClearedBit(u);
    hide HasBit;
  }

  lemma {:induction false} ClearedBit(u: byte)
    ensures var v := ClearBit(u, 0x80); v == Byte(u % 32, HasBit(u, 0x20), HasBit(u, 0x40), false) && (HasBit(v, 0x40) <==> HasBit(u, 0x40))
  {
    ByteBits(u);
  }

  lemma {:induction false} WideUndefined(version: SignatureVersion, u: u32)
    requires u >= 256
    ensures !IsDefined(version, u) && ToU32(FromU32(version, u)) != u
  {
    hide HasBit;
  }

  lemma {:induction false} HashTypeReads(version: SignatureVersion, s: Sighash)
    ensures (s.forkId ==> version == ForkId) ==> FromU32(version, ToU32(s)) == s
  {
  }

  // ---------------------------------------------------------------------------------------------
  // Encodings.

  predicate IsPublicKey(v: seq<byte>) {
    (|v| == 33 && (v[0] == 2 || v[0] == 3)) || (|v| == 65 && v[0] == 4)
  }

  /** The strict DER test of BIP 66, one rejection after another. */
  predicate IsValidSignatureEncoding(sig: seq<byte>) {
    if |sig| < 9 || |sig| > 73 then false
    else if sig[0] != 0x30 then false
    else if sig[1] != |sig| - 3 then false
    else
      var lenR := sig[3] as nat;
      if lenR + 5 >= |sig| then false
      else
        var lenS := sig[lenR + 5] as nat;
        if lenR + lenS + 7 != |sig| then false
        else if sig[2] != 2 then false
        else if lenR == 0 then false
        else if sig[4] >= 0x80 then false
        else if lenR > 1 && sig[4] == 0 && sig[5] < 0x80 then false
        else if sig[lenR + 4] != 2 then false
        else if lenS == 0 then false
        else if sig[lenR + 6] >= 0x80 then false
        else if lenS > 1 && sig[lenR + 6] == 0 && sig[lenR + 7] < 0x80 then false
        else true
  }

  /** A positive big-endian integer in its shortest form. */
  predicate ShortestPositive(n: seq<byte>) {
    n != [] && n[0] < 0x80 && (|n| > 1 && n[0] == 0 ==> n[1] >= 0x80)
  }

  /** <30> <total length> <02> <length of R> R <02> <length of S> S <hash type>. */
  function Der(r: seq<byte>, s: seq<byte>, hashType: byte): seq<byte>
    requires |r| + |s| <= 66
  {
    [0x30, |r| + |s| + 4, 2, |r|] + r + [2, |s|] + s + [hashType]
  }

  ghost predicate IsDer(sig: seq<byte>, r: seq<byte>, s: seq<byte>, hashType: byte) {
    |r| + |s| <= 66 && ShortestPositive(r) && ShortestPositive(s) && sig == Der(r, s, hashType)
  }

  /** The test accepts exactly the canonical signatures of at most 73 bytes. */
  lemma {:induction false} ValidEncodings(sig: seq<byte>)
    ensures IsValidSignatureEncoding(sig) <==> exists r, s, hashType :: IsDer(sig, r, s, hashType)
  {
    hide IsValidSignatureEncoding, IsDer;
    if IsValidSignatureEncoding(sig) {
      var r, s, hashType := DerLayout(sig);
      assert IsDer(sig, r, s, hashType);
    }
    forall r, s, hashType | IsDer(sig, r, s, hashType)
      ensures IsValidSignatureEncoding(sig)
    {
      DerIsValid(sig, r, s, hashType);
    }
  }

  lemma {:induction false} DerLayout(sig: seq<byte>) returns (r: seq<byte>, s: seq<byte>, hashType: byte)
    requires IsValidSignatureEncoding(sig)
    ensures IsDer(sig, r, s, hashType)
  {
    DerIntegers(sig);
    DerBytes(sig);
    r, s, hashType := sig[4..4 + sig[3]], sig[sig[3] + 6..|sig| - 1], sig[|sig| - 1];
  }

  lemma {:induction false} DerIntegers(sig: seq<byte>)
    requires IsValidSignatureEncoding(sig)
    ensures var r, s := sig[4..4 + sig[3]], sig[sig[3] + 6..|sig| - 1];
            |r| + |s| <= 66 && ShortestPositive(r) && ShortestPositive(s)
  {
    var lenR := sig[3] as nat;
    var r, s := sig[4..4 + lenR], sig[lenR + 6..|sig| - 1];
    assert r[0] == sig[4] && s[0] == sig[lenR + 6];
    assert |r| > 1 ==> r[1] == sig[5];
    assert |s| > 1 ==> s[1] == sig[lenR + 7];
  }

  lemma {:induction false} DerBytes(sig: seq<byte>)
    requires IsValidSignatureEncoding(sig)
    ensures var r, s := sig[4..4 + sig[3]], sig[sig[3] + 6..|sig| - 1];
            |r| + |s| <= 66 && sig == Der(r, s, sig[|sig| - 1])
  {
    var lenR := sig[3] as nat;
    var lenS := sig[lenR + 5] as nat;
    assert lenS == |sig| - lenR - 7 && sig[0] == 0x30 && sig[1] == lenR + lenS + 4 && sig[2] == 2 && sig[lenR + 4] == 2;
    hide IsValidSignatureEncoding;
    var r, s := sig[4..4 + lenR], sig[lenR + 6..|sig| - 1];
    assert sig[..4] == [0x30, lenR + lenS + 4, 2, lenR];
    assert sig[4 + lenR..6 + lenR] == [2, lenS];
    assert sig == sig[..4] + r + sig[4 + lenR..6 + lenR] + s + [sig[|sig| - 1]];
  }

  lemma {:induction false} DerIsValid(sig: seq<byte>, r: seq<byte>, s: seq<byte>, hashType: byte)
    requires IsDer(sig, r, s, hashType)
    ensures IsValidSignatureEncoding(sig)
  {
    assert sig[4] == r[0] && sig[|r| + 4] == 2 && sig[|r| + 5] == |s| && sig[|r| + 6] == s[0];
    assert |r| > 1 ==> sig[5] == r[1];
    assert |s| > 1 ==> sig[|r| + 7] == s[1];
  }

  function HashTypeOf(sig: seq<byte>): byte {
    if sig == [] then 0 else sig[|sig| - 1]
  }

  function ParseHashType(version: SignatureVersion, sig: seq<byte>): Sighash {
    FromU32(version, HashTypeOf(sig))
  }

  /** `check_signature_encoding`; the empty signature always passes. The low-S test is not implemented in
      the source and stops the program. */
  function SignatureEncodingError(env: Env, sig: seq<byte>): Option<ScriptError> {
    var flags := env.flags;
    var forkId := ParseHashType(env.version, sig).forkId;
    if sig == [] then None
    else if (flags.verifyDersig || flags.verifyLowS || flags.verifyStrictenc) && !IsValidSignatureEncoding(sig) then
      Some(SignatureDer)
    else if flags.verifyLowS then Some(Unimplemented)
    else if !flags.verifyStrictenc then None
    else if !IsDefined(env.version, HashTypeOf(sig)) then Some(SignatureHashtype)
    else if forkId && env.version != ForkId then Some(SignatureIllegalForkId)
    else if !forkId && env.version == ForkId then Some(SignatureMustUseForkId)
    else None
  }

  function PubkeyEncodingError(env: Env, key: seq<byte>): Option<ScriptError> {
    if env.flags.verifyStrictenc && !IsPublicKey(key) then Some(PubkeyType) else None
  }

  /** The two encoding checks made before a signature is compared with a key. */
  function EncodingError(env: Env, sig: seq<byte>, key: seq<byte>): Option<ScriptError> {
    var e := SignatureEncodingError(env, sig);
    if e.Some? then e else PubkeyEncodingError(env, key)
  }

  /** An illegal fork id is never the reason for a rejection: outside the fork the bit is not read. */
  lemma {:induction false} ForkIdErrors(env: Env, sig: seq<byte>)
    ensures SignatureEncodingError(env, sig) != Some(SignatureIllegalForkId)
  {
  }

  /** The missing low-S test is reached exactly by a well-formed signature under its flag. */
  lemma {:induction false} LowSStops(env: Env, sig: seq<byte>, key: seq<byte>)
    ensures EncodingError(env, sig, key) == Some(Unimplemented) <==> env.flags.verifyLowS && sig != [] && IsValidSignatureEncoding(sig)
  {
  }

  predicate HasKeyLength(key: seq<byte>) {
    |key| == 33 || |key| == 65
  }

  predicate CheckSignature(env: Env, sig: seq<byte>, key: seq<byte>, code: seq<byte>) {
    HasKeyLength(key) && sig != [] &&
    env.checker.checkSignature(sig[..|sig| - 1], key, code, sig[|sig| - 1], env.version)
  }

  predicate VerifySignature(env: Env, sig: seq<byte>, key: seq<byte>, message: Digest32) {
    HasKeyLength(key) && sig != [] && env.checker.verifySignature(sig, key, message)
  }
}
