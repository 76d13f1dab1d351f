/** Reading and writing byte streams (serialization/src): fixed-width numbers, variable-length
    integers, byte strings and lists. A reader is the bytes not yet consumed. */
module Serialization {
  import opened Primitives
  import opened LittleEndian

  datatype ReadError = MalformedData | UnexpectedEnd | UnreadData

  /** What was read and the bytes that are left. */
  type Parsed<+T> = Result<(T, seq<byte>), ReadError>

  // ---------------------------------------------------------------------------------------------
  // Fixed widths.

  function ReadSlice(s: seq<byte>, width: nat): Parsed<seq<byte>> {
    if |s| < width then Err(UnexpectedEnd) else Ok((s[..width], s[width..]))
  }

  function ReadUint(s: seq<byte>, width: nat): (r: Parsed<nat>)
    ensures r.Ok? ==> r.value.0 < Pow256(width) && |s| == |r.value.1| + width
  {
    var p :- ReadSlice(s, width);
    ValueBound(p.0);
    Ok((Value(p.0), p.1))
  }

  lemma {:induction false} Widths()
    ensures Pow256(1) == 0x100 && Pow256(2) == 0x1_0000 && Pow256(4) == 0x1_0000_0000 && Pow256(8) == 0x1_0000_0000_0000_0000
  {
  }

  function ReadU32(s: seq<byte>): Parsed<u32> {
    var p :- ReadUint(s, 4);
    Widths();
    Ok((p.0, p.1))
  }

  function ReadU64(s: seq<byte>): Parsed<u64> {
    var p :- ReadUint(s, 8);
    Widths();
    Ok((p.0, p.1))
  }

  /** Reading `b` in front of anything gives `x` and leaves exactly what followed. */
  ghost predicate Reads<T(!new)>(p: seq<byte> -> Parsed<T>, b: seq<byte>, x: T) {
    forall tail: seq<byte> :: p(b + tail) == Ok((x, tail))
  }

  lemma {:induction false} SliceReads(b: seq<byte>, tail: seq<byte>)
    ensures ReadSlice(b + tail, |b|) == Ok((b, tail))
  {
  }

  lemma {:induction false} UintReads(n: nat, width: nat, tail: seq<byte>)
    requires n < Pow256(width)
    ensures ReadUint(Bytes(n, width) + tail, width) == Ok((n, tail))
  {
    SliceReads(Bytes(n, width), tail);
    ValueOfBytes(n, width);
  }

  lemma {:induction false} U32Reads(n: u32)
    ensures Reads(ReadU32, Bytes(n, 4), n)
  {
    Widths();
    forall tail: seq<byte>
      ensures ReadU32(Bytes(n, 4) + tail) == Ok((n, tail))
    {
      UintReads(n, 4, tail);
    }
  }

  lemma {:induction false} U64Reads(n: u64)
    ensures Reads(ReadU64, Bytes(n, 8), n)
  {
    Widths();
    forall tail: seq<byte>
      ensures ReadU64(Bytes(n, 8) + tail) == Ok((n, tail))
    {
      UintReads(n, 8, tail);
    }
  }

  // ---------------------------------------------------------------------------------------------
  // Variable-length integers.

  function CompactBytes(n: nat): seq<byte> {
    if n <= 0xfc then [n]
    else if n <= 0xffff then [0xfd] + Bytes(n, 2)
    else if n <= 0xffff_ffff then [0xfe] + Bytes(n, 4)
    else [0xff] + Bytes(n, 8)
  }

  function CompactSize(n: nat): nat {
    if n <= 0xfc then 1 else if n <= 0xffff then 3 else if n <= 0xffff_ffff then 5 else 9
  }

  function ReadCompact(s: seq<byte>): Parsed<u64> {
    if s == [] then Err(UnexpectedEnd)
    else if s[0] <= 0xfc then Ok((s[0], s[1..]))
    else
      Widths();
      var p :- ReadUint(s[1..], if s[0] == 0xfd then 2 else if s[0] == 0xfe then 4 else 8);
      Ok((p.0, p.1))
  }

  /** The size announced is the size written, and reading gives the number back. */
  lemma {:induction false} CompactReads(n: u64)
    ensures |CompactBytes(n)| == CompactSize(n)
    ensures Reads(ReadCompact, CompactBytes(n), n)
  {
    forall tail: seq<byte>
      ensures ReadCompact(CompactBytes(n) + tail) == Ok((n, tail))
    {
      CompactReadsAt(n, tail);
    }
  }

  lemma {:induction false} CompactReadsAt(n: u64, tail: seq<byte>)
    ensures ReadCompact(CompactBytes(n) + tail) == Ok((n, tail))
  {
    hide Bytes, Pow256, ReadUint;
    Widths();
    var all := CompactBytes(n) + tail;
    if n <= 0xfc {
      assert all[1..] == tail;
    } else {
      var width := if n <= 0xffff then 2 else if n <= 0xffff_ffff then 4 else 8;
      assert all[1..] == Bytes(n, width) + tail;
      UintReads(n, width, tail);
    }
  }

  /** The reader also takes longer spellings, and never a shorter one than is written. */
  lemma {:induction false} CompactIsShortest(s: seq<byte>)
    ensures var r := ReadCompact(s); r.Ok? ==> |s| - |r.value.1| >= |CompactBytes(r.value.0)|
  {
    Widths();
  }

  // ---------------------------------------------------------------------------------------------
  // Byte strings.

  function BlobBytes(b: seq<byte>): seq<byte> {
    CompactBytes(|b|) + b
  }

  function ReadBlob(s: seq<byte>): Parsed<seq<byte>> {
    var n :- ReadCompact(s);
    ReadSlice(n.1, n.0)
  }

  lemma {:induction false} BlobReads(b: seq<byte>)
    requires |b| < 0x1_0000_0000_0000_0000
    ensures Reads(ReadBlob, BlobBytes(b), b)
  {
    hide CompactBytes, ReadCompact;
    CompactReads(|b|);
    forall tail: seq<byte>
      ensures ReadBlob(BlobBytes(b) + tail) == Ok((b, tail))
    {
      assert BlobBytes(b) + tail == CompactBytes(|b|) + (b + tail);
      SliceReads(b, tail);
    }
  }

  // ---------------------------------------------------------------------------------------------
  // Lists: a count and the items.

  function ItemsBytes<T>(xs: seq<T>, write: T -> seq<byte>): seq<byte> {
    if xs == [] then [] else write(xs[0]) + ItemsBytes(xs[1..], write)
  }

  function ListBytes<T>(xs: seq<T>, write: T -> seq<byte>): seq<byte> {
    CompactBytes(|xs|) + ItemsBytes(xs, write)
  }

  function ReadItems<T>(s: seq<byte>, n: nat, read: seq<byte> -> Parsed<T>): Parsed<seq<T>>
    decreases n
  {
    if n == 0 then Ok(([], s))
    else
      var first :- read(s);
      var rest :- ReadItems(first.1, n - 1, read);
      Ok(([first.0] + rest.0, rest.1))
  }

  function ReadList<T>(s: seq<byte>, read: seq<byte> -> Parsed<T>): Parsed<seq<T>> {
    var n :- ReadCompact(s);
    ReadItems(n.1, n.0, read)
  }

  /** If every item reads back, as `ys[i]`, the list does. */
  lemma {:induction false} ItemsRead<T(!new)>(xs: seq<T>, ys: seq<T>, write: T -> seq<byte>, read: seq<byte> -> Parsed<T>, tail: seq<byte>)
    requires |xs| == |ys| && forall i :: 0 <= i < |xs| ==> Reads(read, write(xs[i]), ys[i])
    ensures ReadItems(ItemsBytes(xs, write) + tail, |xs|, read) == Ok((ys, tail))
    decreases |xs|
  {
    if xs == [] {
      assert [] + tail == tail;
    } else {
      var rest := ItemsBytes(xs[1..], write) + tail;
      assert ItemsBytes(xs, write) + tail == write(xs[0]) + rest;
      assert Reads(read, write(xs[0]), ys[0]);
      ItemsRead(xs[1..], ys[1..], write, read, tail);
      assert ys == [ys[0]] + ys[1..];
    }
  }

  lemma {:induction false} ListReads<T(!new)>(xs: seq<T>, ys: seq<T>, write: T -> seq<byte>, read: seq<byte> -> Parsed<T>, tail: seq<byte>)
    requires |xs| == |ys| < 0x1_0000_0000_0000_0000 && forall i :: 0 <= i < |xs| ==> Reads(read, write(xs[i]), ys[i])
    ensures ReadList(ListBytes(xs, write) + tail, read) == Ok((ys, tail))
  {
    hide CompactBytes, ReadCompact, ItemsBytes, ReadItems;
    CompactReads(|xs|);
    var items := ItemsBytes(xs, write) + tail;
    assert ListBytes(xs, write) + tail == CompactBytes(|xs|) + items;
    ItemsRead(xs, ys, write, read, tail);
  }

  lemma {:induction false} ItemsSnoc<T>(xs: seq<T>, x: T, write: T -> seq<byte>)
    ensures ItemsBytes(xs + [x], write) == ItemsBytes(xs, write) + write(x)
    decreases |xs|
  {
    if xs == [] {
      assert [] + [x] == [x] && [x][1..] == [];
      assert ItemsBytes([x], write) == write(x) + [];
    } else {
      assert (xs + [x])[1..] == xs[1..] + [x];
      ItemsSnoc(xs[1..], x, write);
    }
  }

  /** `Stream::append_list`. */
  method AppendList<T>(stream: seq<byte>, xs: seq<T>, write: T -> seq<byte>) returns (out: seq<byte>)
    ensures out == stream + ListBytes(xs, write)
  {
    hide CompactBytes;
    out := stream + CompactBytes(|xs|);
    assert CompactBytes(|xs|) + [] == CompactBytes(|xs|);
    for i := 0 to |xs|
      invariant out == stream + (CompactBytes(|xs|) + ItemsBytes(xs[..i], write))
    {
      ItemsSnoc(xs[..i], xs[i], write);
      assert xs[..i + 1] == xs[..i] + [xs[i]];
      assert stream + (CompactBytes(|xs|) + ItemsBytes(xs[..i], write)) + write(xs[i])
          == stream + (CompactBytes(|xs|) + (ItemsBytes(xs[..i], write) + write(xs[i])));
      out := out + write(xs[i]);
    }
    assert xs[..|xs|] == xs;
  }

  /** `Reader::read_list`. */
  method ReadListLoop<T>(s: seq<byte>, read: seq<byte> -> Parsed<T>) returns (r: Parsed<seq<T>>)
    ensures r == ReadList(s, read)
  {
    hide ReadCompact;
    var count := ReadCompact(s);
    if count.Err? {
      return Err(count.error);
    }
    var n: nat, left: seq<byte>, result: seq<T> := count.value.0, count.value.1, [];
    ghost var all := ReadItems(left, n, read);
    assert all.Ok? ==> [] + all.value.0 == all.value.0;
    for i := 0 to n
      invariant |result| == i
      invariant ReadItems(count.value.1, n, read) ==
                var more := ReadItems(left, n - i, read); if more.Err? then Err(more.error) else Ok((result + more.value.0, more.value.1))
    {
      var item := read(left);
      if item.Err? {
        return Err(item.error);
      }
      ghost var more := ReadItems(item.value.1, n - i - 1, read);
      if more.Ok? {
        assert result + ([item.value.0] + more.value.0) == result + [item.value.0] + more.value.0;
      }
      result, left := result + [item.value.0], item.value.1;
    }
    assert result + [] == result;
    r := Ok((result, left));
  }
}
