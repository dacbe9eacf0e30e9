/**
 cl::vector of cl.hpp: a fixed array with a size field that holds the last index, starts
 at unsigned -1 and relies on wrap-around; and its iterator, which carries a snapshot of
 the whole vector. Elements are plain values.
 */
module Vector {
  import opened Common

  const MINUS_ONE: u32 := 0xFFFF_FFFF
  const INT_MAX: int := 0x7FFF_FFFF

  function Successor(x: u32): u32 {
    (x + 1) % 0x1_0000_0000
  }

  function Predecessor(x: u32): u32 {
    (x - 1) % 0x1_0000_0000
  }

  // ---------------------------------------------------------------- bounded sequences

  /** The first n elements, or all of them. */
  function Take<T>(s: seq<T>, n: nat): (r: seq<T>)
    ensures |r| == if |s| < n then |s| else n
    ensures r <= s
  {
    if |s| < n then s else s[..n]
  }

  datatype Op<T> = PushBack(x: T) | PopBack | Clear | Assign(src: seq<T>) | Set(src: seq<T>)

  /** The bounded sequence the vector stands for: a full one ignores a push, an empty one a pop. `Set` is
      assignment from another vector of the same capacity. */
  function Apply<T>(s: seq<T>, n: nat, op: Op<T>): seq<T> {
    match op
    case PushBack(x) => Take(s + [x], n)
    case PopBack => if s == [] then s else s[..|s| - 1]
    case Clear => []
    case Assign(src) => Take(src, n)
    case Set(src) => Take(src, n)
  }

  function Fold<T>(s: seq<T>, n: nat, ops: seq<Op<T>>): seq<T>
    decreases ops
  {
    if ops == [] then s else Fold(Apply(s, n, ops[0]), n, ops[1..])
  }

  function Pushes<T>(xs: seq<T>): (ops: seq<Op<T>>)
    ensures |ops| == |xs|
  {
    seq(|xs|, i requires 0 <= i < |xs| => PushBack(xs[i]))
  }

  /** Pushing one after the other keeps what fits. */
  lemma {:induction false} PushesTake<T>(s: seq<T>, n: nat, xs: seq<T>)
    requires |s| <= n
    ensures Fold(s, n, Pushes(xs)) == Take(s + xs, n)
    decreases xs
  {
    if xs == [] {
      assert s + xs == s;
    } else {
      assert Pushes(xs)[1..] == Pushes(xs[1..]);
      PushesTake(Take(s + [xs[0]], n), n, xs[1..]);
      assert (s + [xs[0]]) + xs[1..] == s + xs;
    }
  }

  lemma {:induction false} FoldIsBounded<T>(s: seq<T>, n: nat, ops: seq<Op<T>>)
    requires |s| <= n
    ensures |Fold(s, n, ops)| <= n
    decreases ops
  {
    if ops != [] { FoldIsBounded(Apply(s, n, ops[0]), n, ops[1..]); }
  }

  /** Clearing and assigning forget all that came before. */
  lemma {:induction false} Forgets<T>(s: seq<T>, n: nat, ops: seq<Op<T>>, src: seq<T>)
    ensures Fold(s, n, ops + [Clear]) == []
    ensures Fold(s, n, ops + [Assign(src)]) == Take(src, n) == Fold(s, n, ops + [Set(src)])
    decreases ops
  {
    if ops == [] {
      assert ops + [Clear] == [Clear] && ops + [Assign(src)] == [Assign(src)] && ops + [Set(src)] == [Set(src)];
    } else {
      assert (ops + [Clear])[1..] == ops[1..] + [Clear];
      assert (ops + [Assign(src)])[1..] == ops[1..] + [Assign(src)];
      assert (ops + [Set(src)])[1..] == ops[1..] + [Set(src)];
      Forgets(Apply(s, n, ops[0]), n, ops[1..], src);
    }
  }

  /** A pop undoes a push exactly when the push was not on a full vector. */
  lemma PopUndoesPush<T>(s: seq<T>, n: nat, x: T)
    requires |s| <= n
    ensures Fold(s, n, [PushBack(x), PopBack]) == s <==> |s| < n || s == []
  {
    var ops := [PushBack(x), PopBack];
    assert ops[1..] == [PopBack] && ops[1..][1..] == [];
    assert Fold(s, n, ops) == Fold(Apply(s, n, ops[0]), n, [PopBack])
      == Fold(Apply(Apply(s, n, ops[0]), n, PopBack), n, []);
    if |s| < n { assert (s + [x])[..|s|] == s; }
  }

  // ---------------------------------------------------------------- the vector

  class Vec<T(0, ==)> {
    const data: array<T>
    var size_: u32
    var empty_: bool

    ghost predicate Valid()
      reads this
    {
      && data.Length < 0x1_0000_0000
      && Size() <= data.Length
      && (empty_ <==> Size() == 0)
    }

    function Size(): u32
      reads this
    {
      Successor(size_)
    }

    ghost function Contents(): seq<T>
      requires Valid()
      reads this, data
    {
      data[..Size()]
    }

    constructor (n: u32)
      ensures Valid() && Contents() == [] && data.Length == n && fresh(data)
    {
      data := new T[n];
      size_ := MINUS_ONE;
      empty_ := true;
    }

    method ClearAll()
      requires Valid()
      modifies this
      ensures Valid() && Contents() == []
    {
      size_ := MINUS_ONE;
      empty_ := true;
    }

    method Push(x: T)
      requires Valid()
      modifies this, data
      ensures Valid()
      ensures Contents() == if |old(Contents())| < data.Length then old(Contents()) + [x] else old(Contents())
      ensures forall i :: 0 <= i < data.Length && i != old(Size()) ==> data[i] == old(data[i])
    {
      if Size() < data.Length {
        size_ := Successor(size_);
        data[size_] := x;
        empty_ := false;
        assert Contents() == old(Contents()) + [x];
      } else {
        assert Take(old(Contents()) + [x], data.Length) == old(Contents());
      }
    }

    method Pop()
      requires Valid()
      modifies this
      ensures Valid()
      ensures Contents() == if old(Contents()) == [] then [] else old(Contents())[..|old(Contents())| - 1]
    {
      if !empty_ {
        size_ := Predecessor(size_);
        if size_ == MINUS_ONE { empty_ := true; }
      }
    }

    /** back(): defined on a vector that is not empty. */
    method Back() returns (x: T)
      requires Valid() && Contents() != []
      ensures x == Contents()[|Contents()| - 1]
    {
      x := data[size_];
    }

    /** The copy constructor. */
    constructor Copy(vec: Vec<T>)
      requires vec.Valid()
      ensures Valid() && fresh(data) && data.Length == vec.data.Length && Contents() == vec.Contents()
    {
      data := new T[vec.data.Length];
      size_ := vec.size_;
      empty_ := vec.empty_;
      new;
      if !empty_ {
        forall i | 0 <= i < Size() { data[i] := vec.data[i]; }
      }
    }

    /** vector(size, val): pushes the value `count` times. */
    constructor Fill(n: u32, count: u32, val: T)
      ensures Valid() && data.Length == n && fresh(data)
      ensures Contents() == Take(seq(count, _ => val), n)
    {
      data := new T[n];
      size_ := MINUS_ONE;
      empty_ := true;
      new;
      for i := 0 to count
        invariant Valid() && fresh(data)
        invariant Contents() == Take(seq(i, _ => val), n)
      {
        Push(val);
        assert seq(i + 1, _ => val) == seq(i, _ => val) + [val];
      }
    }

    /** operator=: a vector of the same type, so of the same capacity. */
    method SetTo(rhs: Vec<T>)
      requires Valid() && rhs.Valid() && rhs.data.Length == data.Length && (rhs != this ==> rhs.data != data)
      modifies this, data
      ensures Valid() && Contents() == old(rhs.Contents())
    {
      if this == rhs { return; }
      size_ := rhs.size_;
      empty_ := rhs.empty_;
      if !empty_ {
        forall i | 0 <= i < Size() { data[i] := rhs.data[i]; }
      }
    }

    /** operator==: equality of the sequences. */
    method Equals(vec: Vec<T>) returns (r: bool)
      requires Valid() && vec.Valid()
      ensures r <==> Contents() == vec.Contents()
    {
      if empty_ && vec.empty_ { return true; }
      if Size() != vec.Size() { return false; }
      assert Contents() == vec.Contents() <==> forall i :: 0 <= i < Size() ==> data[i] == vec.data[i];
      return data[..Size()] == vec.data[..vec.Size()];
    }

    /** assign(start, end) over an array of values, which may be the vector's own. */
    method AssignFrom(src: array<T>, start: nat, end: nat)
      requires Valid() && start <= src.Length && end <= src.Length
      modifies this, data
      ensures Valid()
      ensures Contents() == Take(if start < end then old(src[start..end]) else [], data.Length)
    {
      ghost var was := src[..];
      ClearAll();
      var p := start;
      while p < end
        invariant start <= p && (p <= end || p == start)
        invariant forall i :: p <= i < src.Length ==> src[i] == was[i]
        invariant Valid() && Contents() == Take(was[start..p], data.Length)
      {
        Push(src[p]);
        assert was[start..p + 1] == was[start..p] + [was[p]];
        p := p + 1;
      }
      assert old(src[start..]) == was[start..];
    }

    /** Each operation is the one of bounded sequences. */
    method PerformOne(op: Op<T>)
      requires Valid()
      modifies this, data
      ensures Valid() && Contents() == Apply(old(Contents()), data.Length, op)
    {
      match op
      case PushBack(x) =>
        Push(x);
        assert old(Contents()) <= old(Contents()) + [x];
      case PopBack => Pop();
      case Clear => ClearAll();
      case Assign(src) =>
        var a := new T[|src|](j requires 0 <= j < |src| => src[j]);
        assert a[0..|src|] == src;
        AssignFrom(a, 0, |src|);
      case Set(src) =>
        var v := new Vec<T>(data.Length);
        var a := new T[|src|](j requires 0 <= j < |src| => src[j]);
        assert a[0..|src|] == src;
        v.AssignFrom(a, 0, |src|);
        SetTo(v);
    }

    /** Any run of operations is the same run on a bounded sequence. */
    method Perform(ops: seq<Op<T>>)
      requires Valid()
      modifies this, data
      ensures Valid() && Contents() == Fold(old(Contents()), data.Length, ops)
    {
      for i := 0 to |ops|
        invariant Valid()
        invariant Fold(Contents(), data.Length, ops[i..]) == Fold(old(Contents()), data.Length, ops)
      {
        assert ops[i..][1..] == ops[i + 1..];
        PerformOne(ops[i]);
      }
    }
  }

  // ---------------------------------------------------------------- the iterator

  /** The conversion of an unsigned int to int. */
  function AsInt(x: u32): int {
    if x <= INT_MAX then x else x - 0x1_0000_0000
  }

  function EndIndex(size: u32): int {
    if size == 0 then -1 else AsInt(size)
  }

  /** An iterator: its own copy of the vector, an index and a flag. The index is a C int. */
  class Iterator<T(0, ==)> {
    const vec: Vec<T>
    var index: int
    var initialized: bool

    ghost predicate Valid()
      reads this, vec
    {
      vec.Valid()
    }

    /** begin(): at 0, or at -1 on an empty vector. */
    constructor Begin(v: Vec<T>)
      requires v.Valid()
      ensures Valid() && fresh(vec) && fresh(vec.data) && vec.data.Length == v.data.Length
      ensures vec.Contents() == v.Contents() && initialized && index == if v.Size() == 0 then -1 else 0
    {
      vec := new Vec<T>.Copy(v);
      index := if !v.empty_ then 0 else -1;
      initialized := true;
    }

    /** end(): at the size, converted to int, or at -1 on an empty vector. */
    constructor End(v: Vec<T>)
      requires v.Valid()
      ensures Valid() && fresh(vec) && fresh(vec.data) && vec.data.Length == v.data.Length
      ensures vec.Contents() == v.Contents() && initialized && index == EndIndex(v.Size())
    {
      vec := new Vec<T>.Copy(v);
      index := if !v.empty_ then AsInt(v.Size()) else -1;
      initialized := true;
    }

    /** operator==: snapshots, index and flag all agree. */
    method Equals(i: Iterator<T>) returns (r: bool)
      requires Valid() && i.Valid()
      ensures r <==> vec.Contents() == i.vec.Contents() && index == i.index && initialized == i.initialized
    {
      var same := vec.Equals(i.vec);
      return same && index == i.index && initialized == i.initialized;
    }

    /** Prefix operator++. */
    method Increment()
      requires index < INT_MAX
      modifies this`index
      ensures index == old(index) + 1
    {
      index := index + 1;
    }

    /** operator*: defined between begin and end. */
    method Deref() returns (x: T)
      requires Valid() && 0 <= index < |vec.Contents()|
      ensures x == vec.Contents()[index]
    {
      x := vec.data[index];
    }
  }

  /** it == v.end(). */
  method AtEnd<T(0, ==)>(it: Iterator<T>, v: Vec<T>) returns (r: bool)
    requires it.Valid() && v.Valid()
    ensures r <==> it.vec.Contents() == v.Contents() && it.index == EndIndex(v.Size()) && it.initialized
  {
    var end := new Iterator<T>.End(v);
    r := it.Equals(end);
  }

  /** Stepping begin() until it equals end() visits the elements of an unmodified vector in order, once each,
      and stops after as many steps as there are elements; exactly if the size does not fit an int, it steps
      the index past the largest int instead, which C++ leaves undefined. */
  method Traverse<T(0, ==)>(v: Vec<T>) returns (visited: seq<T>, overflow: bool)
    requires v.Valid()
    ensures overflow <==> v.Size() > INT_MAX
    ensures !overflow ==> visited == v.Contents()
    ensures overflow ==> visited == v.Contents()[..INT_MAX + 1]
  {
    visited := [];
    ghost var s := v.Contents();
    var it := new Iterator<T>.Begin(v);
    var done := AtEnd(it, v);
    while !done
      invariant v.Valid() && v.Contents() == s
      invariant it.Valid() && fresh(it) && it.initialized && it.vec.Contents() == s
      invariant it.index == if s == [] then -1 else |visited|
      invariant |visited| <= |s| && |visited| <= INT_MAX && visited == s[..|visited|]
      invariant done <==> it.index == EndIndex(v.Size())
      decreases |s| - |visited|
    {
      var x := it.Deref();
      visited := visited + [x];
      if it.index == INT_MAX { return visited, true; }
      it.Increment();
      done := AtEnd(it, v);
    }
    return visited, false;
  }
}
