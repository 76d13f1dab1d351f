/** The interpreter's stack (script/src/stack.rs): what each operation does to the element sequence,
    and the in-place versions with their counting loops. */
module ScriptStack {
  import opened Primitives

  // ---------------------------------------------------------------------------------------------
  // The operations on sequences; the top of the stack is the last element.

  function Dropped<T>(s: seq<T>, i: nat): seq<T>
    requires i <= |s|
  {
    s[..|s| - i]
  }

  /** Repeats the top `i` elements. */
  function Duplicated<T>(s: seq<T>, i: nat): seq<T>
    requires i <= |s|
  {
    s + s[|s| - i..]
  }

  /** Repeats the `i` elements below the top `i`. */
  function CopiedOver<T>(s: seq<T>, i: nat): seq<T>
    requires 2 * i <= |s|
  {
    s + s[|s| - 2 * i..|s| - i]
  }

  /** Moves the third group of `i` elements to the top. */
  function Rotated<T>(s: seq<T>, i: nat): seq<T>
    requires 3 * i <= |s|
  {
    s[..|s| - 3 * i] + s[|s| - 2 * i..] + s[|s| - 3 * i..|s| - 2 * i]
  }

  /** Exchanges the top two groups of `i` elements. */
  function Swapped<T>(s: seq<T>, i: nat): seq<T>
    requires 2 * i <= |s|
  {
    s[..|s| - 2 * i] + s[|s| - i..] + s[|s| - 2 * i..|s| - i]
  }

  function Nipped<T>(s: seq<T>): seq<T>
    requires 2 <= |s|
  {
    s[..|s| - 2] + [s[|s| - 1]]
  }

  function Tucked<T>(s: seq<T>): seq<T>
    requires 2 <= |s|
  {
    s[..|s| - 2] + [s[|s| - 1]] + s[|s| - 2..]
  }

  /** `Vec::remove` at an index. */
  function Without<T>(s: seq<T>, at: nat): seq<T>
    requires at < |s|
  {
    s[..at] + s[at + 1..]
  }

  /** Swapping twice, and rotating three times, restores the stack. */
  lemma {:induction false} SwapRotateOrder<T>(s: seq<T>, i: nat)
    requires 3 * i <= |s|
    ensures Swapped(Swapped(s, i), i) == s
    ensures Rotated(Rotated(Rotated(s, i), i), i) == s
  {
    hide Rotated, Swapped;
    var n := |s|;
    var a, b, c, d := s[..n - 3 * i], s[n - 3 * i..n - 2 * i], s[n - 2 * i..n - i], s[n - i..];
    assert s == a + b + c + d;
    RotateGroups(a, b, c, d);
    RotateGroups(a, c, d, b);
    RotateGroups(a, d, b, c);
    SwapGroups(a + b, c, d);
    SwapGroups(a + b, d, c);
  }

  lemma {:induction false} SwapGroups<T>(a: seq<T>, c: seq<T>, d: seq<T>)
    requires |c| == |d|
    ensures Swapped(a + c + d, |c|) == a + d + c
  {
  }

  lemma {:induction false} RotateGroups<T>(a: seq<T>, b: seq<T>, c: seq<T>, d: seq<T>)
    requires |b| == |c| == |d|
    ensures Rotated(a + b + c + d, |b|) == a + c + d + b
  {
  }

  lemma {:induction false} RotateParts<T>(front: seq<T>, moved: seq<T>, left: seq<T>)
    requires |left| == 2 * |moved|
    ensures Rotated(front + moved + left, |moved|) == front + left + moved
  {
  }

  lemma {:induction false} MoveToEnd<T>(a: seq<T>, v: T, b: seq<T>, c: seq<T>)
    ensures Without(a + ([v] + b) + c, |a|) + [v] == a + b + (c + [v])
  {
  }

  // ---------------------------------------------------------------------------------------------
  // In place. An operation that needs more elements than there are fails and changes nothing.

  class Stack<T> {
    var data: seq<T>

    constructor (data: seq<T>)
      ensures this.data == data
    {
      this.data := data;
    }

    method Remove(i: nat) returns (r: Option<T>)
      modifies this
      ensures if i < |old(data)| then r == Some(old(data)[|old(data)| - 1 - i]) && data == Without(old(data), |old(data)| - 1 - i)
              else r == None && data == old(data)
    {
      if |data| < i + 1 {
        return None;
      }
      var at := |data| - (i + 1);
      r := Some(data[at]);
      data := data[..at] + data[at + 1..];
    }

    method Drop(i: nat) returns (ok: bool)
      modifies this
      ensures ok <==> i <= |old(data)|
      ensures data == if ok then Dropped(old(data), i) else old(data)
    {
      if |data| < i {
        return false;
      }
      var j := i;
      while j > 0
        invariant 0 <= j <= i <= |old(data)| && data == old(data)[..|old(data)| - (i - j)]
      {
        data := data[..|data| - 1];
        j := j - 1;
      }
      ok := true;
    }

    method Dup(i: nat) returns (ok: bool)
      modifies this
      ensures ok <==> i <= |old(data)|
      ensures data == if ok then Duplicated(old(data), i) else old(data)
    {
      if |data| < i {
        return false;
      }
      var j := i;
      ghost var n := |data|;
      while j > 0
        invariant 0 <= j <= i <= n == |old(data)| && data == old(data) + old(data)[n - i..n - j]
      {
        var v := data[|data| - i];
        data := data + [v];
        j := j - 1;
      }
      ok := true;
    }

    method Over(i: nat) returns (ok: bool)
      modifies this
      ensures ok <==> 2 * i <= |old(data)|
      ensures data == if ok then CopiedOver(old(data), i) else old(data)
    {
      var j := i * 2;
      if |data| < j {
        return false;
      }
      var toClone := j;
      ghost var n := |data|;
      while j > i
        invariant i <= j <= 2 * i == toClone <= n == |old(data)| && data == old(data) + old(data)[n - 2 * i..n - j]
      {
        var v := data[|data| - toClone];
        data := data + [v];
        j := j - 1;
      }
      ok := true;
    }

    method Rot(i: nat) returns (ok: bool)
      modifies this
      ensures ok <==> 3 * i <= |old(data)|
      ensures data == if ok then Rotated(old(data), i) else old(data)
    {
      var j := i * 3;
      if |data| < j {
        return false;
      }
      var at, limit := |data| - j, j - i;
      ghost var was, front, moved, left := data, data[..at], [], data[at..];
      while j > limit
        invariant limit == 2 * i <= j <= 3 * i <= |was| && at == |front| == |was| - 3 * i && |moved| == 3 * i - j
        invariant data == front + left + moved && was == front + moved + left
      {
        var v := data[at];
        assert left == [v] + left[1..];
        MoveToEnd(front, v, left[1..], moved);
        data := Without(data, at) + [v];
        moved, left := moved + [v], left[1..];
        j := j - 1;
      }
      RotateParts(front, moved, left);
      ok := true;
    }

    method Swap(i: nat) returns (ok: bool)
      modifies this
      ensures ok <==> 2 * i <= |old(data)|
      ensures data == if ok then Swapped(old(data), i) else old(data)
    {
      var j, k := i * 2, i;
      if |data| < j {
        return false;
      }
      var n := |data|;
      while k > 0
        invariant 0 <= k <= i && j == i + k && 2 * i <= n == |old(data)| == |data|
        invariant forall a :: 0 <= a < n - 2 * i || n - j <= a < n - i || n - k <= a < n ==> data[a] == old(data)[a]
        invariant forall a :: n - 2 * i <= a < n - j ==> data[a] == old(data)[a + i] && data[a + i] == old(data)[a]
      {
        var x, y := data[n - j], data[n - k];
        data := data[n - j := y][n - k := x];
        j := j - 1;
        k := k - 1;
      }
      ghost var was := old(data);
      assert forall a :: n - i <= a < n ==> data[a] == was[a - i] by {
        forall a | n - i <= a < n
          ensures data[a] == was[a - i]
        {
          assert data[a - i + i] == was[a - i];
        }
      }
      assert data == Swapped(was, i);
      ok := true;
    }

    method Nip() returns (ok: bool)
      modifies this
      ensures ok <==> 2 <= |old(data)|
      ensures data == if ok then Nipped(old(data)) else old(data)
    {
      if |data| < 2 {
        return false;
      }
      var n := |data|;
      data := data[n - 2 := data[n - 1]][..n - 1];
      ok := true;
    }

    method Tuck() returns (ok: bool)
      modifies this
      ensures ok <==> 2 <= |old(data)|
      ensures data == if ok then Tucked(old(data)) else old(data)
    {
      if |data| < 2 {
        return false;
      }
      var n := |data|;
      data := data[..n - 2] + [data[n - 1]] + data[n - 2..];
      ok := true;
    }
  }
}
