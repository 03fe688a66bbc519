/** The growable array `vector_t` (hw06-vector-h3ic/vector.h), with the
    behaviour its test suite (hw06-vector-h3ic/main.cpp) requires: every
    mutator keeps the live elements equal to what the standard vector holds
    after the same call, and the capacity follows the power-of-two policy of
    module Growth.

    The header itself is an unfinished skeleton; where it and the tests
    disagree this model follows the tests, and says so at the member. */
module Vectors {
  import opened Growth
  import Lexicographic

  /** `count` copies of `v`. */
  function Repeat(v: int, count: nat): (r: seq<int>)
    ensures |r| == count && forall i :: 0 <= i < count ==> r[i] == v
  {
    seq(count, _ => v)
  }

  /** Copies the first `n` slots of `src` into `dst`, one by one. */
  method CopyPrefix(src: array<int>, dst: array<int>, n: nat)
    requires n <= src.Length && n <= dst.Length && src != dst
    modifies dst
    ensures dst[..n] == src[..n]
  {
    var i := 0;
    while i < n
      invariant 0 <= i <= n
      invariant dst[..i] == src[..i]
    {
      dst[i] := src[i];
      i := i + 1;
    }
  }

  /** A fresh buffer of `cap` slots whose first `n` slots hold `value`: the
      allocation of the sized constructor and the filling the tests require
      of it. */
  method FilledBuffer(cap: nat, n: nat, value: int) returns (buffer: array<int>)
    requires n <= cap
    ensures fresh(buffer) && buffer.Length == cap
    ensures buffer[..n] == Repeat(value, n)
  {
    buffer := new int[cap];
    var i := 0;
    while i < n
      invariant 0 <= i <= n
      invariant buffer[..i] == Repeat(value, i)
    {
      buffer[i] := value;
      i := i + 1;
    }
  }

  /** Moves slots [pos, len) of `a` `count` places to the right, working
      from the back so that nothing is overwritten before it is moved. */
  method ShiftRight(a: array<int>, pos: nat, len: nat, count: nat)
    requires pos <= len && len + count <= a.Length
    modifies a
    ensures a[..pos] == old(a[..pos])
    ensures a[pos + count..len + count] == old(a[pos..len])
  {
    ghost var s := a[..];
    var i := len;
    while i > pos
      invariant pos <= i <= len
      invariant forall k :: 0 <= k < i ==> a[k] == s[k]
      invariant forall k :: i + count <= k < len + count ==> a[k] == s[k - count]
    {
      a[i - 1 + count] := a[i - 1];
      i := i - 1;
    }
    ghost var moved := s[pos..len];
    assert forall k :: 0 <= k < len - pos ==> a[pos + count + k] == moved[k];
    assert a[pos + count..len + count] == moved;
  }

  /** Writes `x` into slots [lo, hi) of `a`. */
  method FillRange(a: array<int>, lo: nat, hi: nat, x: int)
    requires lo <= hi <= a.Length
    modifies a
    ensures a[..lo] == old(a[..lo]) && a[hi..] == old(a[hi..])
    ensures a[lo..hi] == Repeat(x, hi - lo)
  {
    var j := lo;
    while j < hi
      invariant lo <= j <= hi
      invariant a[..lo] == old(a[..lo]) && a[hi..] == old(a[hi..])
      invariant a[lo..j] == Repeat(x, j - lo)
    {
      a[j] := x;
      j := j + 1;
    }
  }

  /** Opens a gap of `count` slots at `pos` in the first `len` slots of
      `a` and fills it with `x`: the shifting loop followed by the filling
      loop of `insert`. */
  method SpliceFill(a: array<int>, pos: nat, len: nat, count: nat, x: int)
    requires pos <= len && len + count <= a.Length
    modifies a
    ensures a[..len + count] == old(a[..pos]) + Repeat(x, count) + old(a[pos..len])
  {
    ShiftRight(a, pos, len, count);
    ghost var shifted := a[..];
    FillRange(a, pos, pos + count, x);
    assert a[pos + count..len + count] == shifted[pos + count..len + count];
    assert a[..len + count] == a[..pos] + a[pos..pos + count] + a[pos + count..len + count];
  }

  /** Moves slots [last, len) of `a` left onto `first`, closing the gap
      [first, last): the shifting loop of `erase`. */
  method ShiftLeft(a: array<int>, first: nat, last: nat, len: nat)
    requires first <= last <= len <= a.Length
    modifies a
    ensures a[..len - (last - first)] == old(a[..first]) + old(a[last..len])
  {
    ghost var s := a[..];
    var gap := last - first;
    var i := first;
    while i < len - gap
      invariant first <= i <= len - gap
      invariant forall k :: 0 <= k < first ==> a[k] == s[k]
      invariant forall k :: first <= k < i ==> a[k] == s[k + gap]
      invariant forall k :: i + gap <= k < len ==> a[k] == s[k]
    {
      a[i] := a[i + gap];
      i := i + 1;
    }
    ghost var closed := s[..first] + s[last..len];
    assert forall k :: 0 <= k < len - gap ==> a[k] == closed[k];
    assert a[..len - gap] == closed;
  }

  /** A container of `int` elements. `arr` is the owned buffer; a buffer of
      length 0 stands for the null pointer, so `capacity == 0` exactly when
      there is no buffer. */
  class Vector {
    var capacity: nat
    var arr: array<int>
    var size: nat

    /** The invariants of every container: the capacity is the buffer's
        length, holds all live elements, and is 0 or a power of two. */
    ghost predicate Valid()
      reads this
    {
      capacity == arr.Length && size <= capacity && IsCapacity(capacity)
    }

    /** The live elements, slots [0, size) of the buffer. What lies in
        [size, capacity) is unspecified. */
    function Elements(): seq<int>
      reads this, arr
      requires Valid()
    {
      arr[..size]
    }

    /** `vector_t()`: no elements, no buffer. */
    constructor ()
      ensures Valid() && fresh(arr)
      ensures Elements() == [] && capacity == 0
    {
      capacity := 0;
      arr := new int[0];
      size := 0;
    }

    /** `vector_t(elem_num, value)`. The header computes the capacity but
        leaves `pos_` at 0 and never fills the buffer; the tests require
        `elem_num` copies of the value, which is what this constructor
        builds. Zero elements allocate nothing. */
    constructor Filled(elemNum: nat, value: int)
      ensures Valid() && fresh(arr)
      ensures Elements() == Repeat(value, elemNum)
      ensures capacity == TightCapacity(elemNum)
    {
      var cap := ComputeCapacity(elemNum);
      var buffer := FilledBuffer(cap, elemNum, value);
      capacity := cap;
      arr := buffer;
      size := elemNum;
    }

    /** `vector_t(elem_num)`: the sized constructor with its default
        argument `T()`, which is 0 for `int`. */
    constructor FilledDefault(elemNum: nat)
      ensures Valid() && fresh(arr)
      ensures Elements() == Repeat(0, elemNum)
      ensures capacity == TightCapacity(elemNum)
    {
      var cap := ComputeCapacity(elemNum);
      var buffer := FilledBuffer(cap, elemNum, 0);
      capacity := cap;
      arr := buffer;
      size := elemNum;
    }

    /** `vector_t(const vector_t &)`. The header copies only `pos_`; the
        tests require a deep copy into a buffer of its own whose capacity is
        re-tightened to the copied length (size 7 with capacity 16 copies to
        capacity 8), and no buffer at all for an empty source. */
    constructor Copy(other: Vector)
      requires other.Valid()
      ensures Valid() && fresh(arr)
      ensures Elements() == other.Elements()
      ensures capacity == TightCapacity(other.size)
    {
      var cap := ComputeCapacity(other.size);
      var buffer := new int[cap];
      CopyPrefix(other.arr, buffer, other.size);
      capacity := cap;
      arr := buffer;
      size := other.size;
    }

    /** `swap`: the two containers exchange size, capacity and buffer as a
        whole; no element is copied. (The header swaps `pos_` three times,
        which swaps it once and leaves the rest in place; the tests require
        the full exchange, including the data pointers.) */
    method Swap(other: Vector)
      requires Valid() && other.Valid()
      modifies this, other
      ensures Valid() && other.Valid()
      ensures arr == old(other.arr) && other.arr == old(arr)
      ensures size == old(other.size) && other.size == old(size)
      ensures capacity == old(other.capacity) && other.capacity == old(capacity)
      ensures Elements() == old(other.Elements()) && other.Elements() == old(Elements())
    {
      capacity, other.capacity := other.capacity, capacity;
      arr, other.arr := other.arr, arr;
      size, other.size := other.size, size;
    }

    /** `operator=`: copy-and-swap. The copy is built first and then swapped
        in, so self-assignment keeps the elements; the result has a fresh
        buffer re-tightened to the copied length. */
    method Assign(other: Vector)
      requires Valid() && other.Valid()
      modifies this
      ensures Valid() && fresh(arr)
      ensures Elements() == old(other.Elements())
      ensures capacity == TightCapacity(old(other.size))
      ensures other != this ==> other.Elements() == old(other.Elements())
    {
      var tmp := new Vector.Copy(other);
      Swap(tmp);
    }

    /** `operator[]` for reading. Unchecked in the source: the index must be
        in range. */
    method Get(index: nat) returns (x: int)
      requires Valid() && index < size
      ensures x == Elements()[index]
    {
      x := arr[index];
    }

    /** Writing through the reference `operator[]` (and `front()`, `back()`)
        returns: only that element changes. */
    method Set(index: nat, x: int)
      requires Valid() && index < size
      modifies arr
      ensures Valid()
      ensures Elements() == old(Elements())[index := x]
    {
      arr[index] := x;
    }

    /** `front()`, the first element (unchecked: requires a non-empty
        container). */
    method Front() returns (x: int)
      requires Valid() && size > 0
      ensures x == Elements()[0]
    {
      x := arr[0];
    }

    /** `back()`, the last element (unchecked: requires a non-empty
        container). */
    method Back() returns (x: int)
      requires Valid() && size > 0
      ensures x == Elements()[|Elements()| - 1]
    {
      x := arr[size - 1];
    }

    /** `data()`: the buffer, or null exactly when there is none. Its first
        `size()` slots are the elements. */
    method Data() returns (p: array?<int>)
      requires Valid()
      ensures p == null <==> capacity == 0
      ensures p != null ==> p == arr && p[..size] == Elements()
    {
      p := if capacity == 0 then null else arr;
    }

    /** `empty()`. The header tests `arr_ == nullptr`; the tests require
        emptiness of the elements, also while a buffer is held (after two
        pushes and two pops). */
    method Empty() returns (b: bool)
      requires Valid()
      ensures b <==> Elements() == []
    {
      b := size == 0;
    }

    /** `size()`: the number of live elements. */
    method Size() returns (n: nat)
      requires Valid()
      ensures n == |Elements()|
    {
      n := size;
    }

    /** `capacity()`: the buffer length, 0 or a power of two, at least the
        number of elements. */
    method Capacity() returns (c: nat)
      requires Valid()
      ensures c == arr.Length && IsCapacity(c) && |Elements()| <= c
    {
      c := capacity;
    }

    /** Moves the elements into a fresh buffer of `newCap` slots. */
    method Reallocate(newCap: nat)
      requires Valid() && size <= newCap && IsCapacity(newCap)
      modifies this
      ensures Valid() && fresh(arr)
      ensures capacity == newCap && size == old(size)
      ensures Elements() == old(Elements())
    {
      var buffer := new int[newCap];
      CopyPrefix(arr, buffer, size);
      arr := buffer;
      capacity := newCap;
    }

    /** `reserve(n)`: nothing when `n` fits, otherwise a buffer of the
        smallest power of two at least `n`. This is also the growth step of
        every operation that lengthens the container. */
    method Reserve(n: nat)
      requires Valid()
      modifies this
      ensures Valid() && size == old(size)
      ensures capacity == GrownCapacity(old(capacity), n)
      ensures Elements() == old(Elements())
      ensures n <= old(capacity) ==> arr == old(arr)
      ensures arr == old(arr) || fresh(arr)
    {
      if n > capacity {
        Reallocate(NextPow2(n));
      }
    }

    /** `push_back(x)`. */
    method PushBack(x: int)
      requires Valid()
      modifies this, arr
      ensures Valid()
      ensures Elements() == old(Elements()) + [x]
      ensures capacity == GrownCapacity(old(capacity), old(size) + 1)
      ensures old(size) + 1 <= old(capacity) ==> arr == old(arr)
      ensures arr == old(arr) || fresh(arr)
    {
      Reserve(size + 1);
      arr[size] := x;
      size := size + 1;
    }

    /** `pop_back()` on a non-empty container; the capacity is kept. */
    method PopBack()
      requires Valid() && size > 0
      modifies this
      ensures Valid() && arr == old(arr) && capacity == old(capacity)
      ensures Elements() == old(Elements())[..old(size) - 1]
    {
      size := size - 1;
    }

    /** `insert(pos, x)`: `x` goes before position `pos`, the elements from
        `pos` on move one slot to the right. */
    method Insert(pos: nat, x: int)
      requires Valid() && pos <= size
      modifies this, arr
      ensures Valid()
      ensures Elements() == old(Elements())[..pos] + [x] + old(Elements())[pos..]
      ensures capacity == GrownCapacity(old(capacity), old(size) + 1)
      ensures old(size) + 1 <= old(capacity) ==> arr == old(arr)
      ensures arr == old(arr) || fresh(arr)
    {
      InsertCount(pos, 1, x);
    }

    /** `insert(pos, count, x)`: `count` copies of `x` go before position
        `pos`; the capacity grows to fit the new length in one step. */
    method InsertCount(pos: nat, count: nat, x: int)
      requires Valid() && pos <= size
      modifies this, arr
      ensures Valid()
      ensures Elements() == old(Elements())[..pos] + Repeat(x, count) + old(Elements())[pos..]
      ensures capacity == GrownCapacity(old(capacity), old(size) + count)
      ensures old(size) + count <= old(capacity) ==> arr == old(arr)
      ensures arr == old(arr) || fresh(arr)
    {
      Reserve(size + count);
      SpliceFill(arr, pos, size, count, x);
      size := size + count;
    }

    /** `erase(first, last)`: removes the elements in [first, last); the
        rest move left, the capacity is kept, and `first == last` changes
        nothing. */
    method EraseRange(first: nat, last: nat)
      requires Valid() && first <= last <= size
      modifies this, arr
      ensures Valid() && arr == old(arr) && capacity == old(capacity)
      ensures Elements() == old(Elements())[..first] + old(Elements())[last..]
    {
      ShiftLeft(arr, first, last, size);
      size := size - (last - first);
    }

    /** `erase(pos)`: removes the element at `pos`; the capacity is kept. */
    method Erase(pos: nat)
      requires Valid() && pos < size
      modifies this, arr
      ensures Valid() && arr == old(arr) && capacity == old(capacity)
      ensures Elements() == old(Elements())[..pos] + old(Elements())[pos + 1..]
    {
      EraseRange(pos, pos + 1);
    }

    /** `resize(n, x)`: drops the tail when shrinking, appends copies of `x`
        when growing; the capacity only ever grows. */
    method Resize(n: nat, x: int)
      requires Valid()
      modifies this, arr
      ensures Valid()
      ensures Elements() == if n <= old(size) then old(Elements())[..n]
                            else old(Elements()) + Repeat(x, n - old(size))
      ensures capacity == GrownCapacity(old(capacity), n)
      ensures n <= old(capacity) ==> arr == old(arr)
      ensures arr == old(arr) || fresh(arr)
    {
      if n > size {
        Reserve(n);
        ghost var s := Elements();
        FillRange(arr, size, n, x);
        size := n;
        assert Elements() == s + Repeat(x, n - |s|) by {
          assert arr[..n] == arr[..|s|] + arr[|s|..n];
        }
      } else {
        size := n;
      }
    }

    /** `resize(n)`: as Resize, filling with the value-initialised element,
        which is 0 for `int`. */
    method ResizeDefault(n: nat)
      requires Valid()
      modifies this, arr
      ensures Valid()
      ensures Elements() == if n <= old(size) then old(Elements())[..n]
                            else old(Elements()) + Repeat(0, n - old(size))
      ensures capacity == GrownCapacity(old(capacity), n)
      ensures n <= old(capacity) ==> arr == old(arr)
      ensures arr == old(arr) || fresh(arr)
    {
      Resize(n, 0);
    }

    /** `clear()`: no elements and no buffer; unlike `resize(0)`, the
        capacity drops to 0. */
    method Clear()
      requires Valid()
      modifies this
      ensures Valid() && fresh(arr)
      ensures Elements() == [] && capacity == 0
    {
      arr := new int[0];
      capacity := 0;
      size := 0;
    }

    /** `shrink_to_fit()`: the capacity becomes the tight capacity of the
        current length (no buffer when empty), and the buffer is kept when it
        is already tight. */
    method ShrinkToFit()
      requires Valid()
      modifies this
      ensures Valid() && size == old(size)
      ensures capacity == TightCapacity(old(size)) && capacity <= old(capacity)
      ensures Elements() == old(Elements())
      ensures old(capacity) == TightCapacity(old(size)) ==> arr == old(arr)
      ensures arr == old(arr) || fresh(arr)
    {
      var target := ComputeCapacity(size);
      TightWithin(size, capacity);
      if target != capacity {
        Reallocate(target);
      }
    }

    /** `operator<`: lexicographic comparison of the elements, up to the
        shorter length, with a strict prefix counting as less. Capacity plays
        no part. */
    method Less(other: Vector) returns (r: bool)
      requires Valid() && other.Valid()
      ensures r == Lexicographic.Less(Elements(), other.Elements())
    {
      var i := 0;
      while i < size && i < other.size
        invariant 0 <= i <= size && i <= other.size
        invariant Lexicographic.Less(Elements(), other.Elements())
               == Lexicographic.Less(Elements()[i..], other.Elements()[i..])
      {
        if arr[i] != other.arr[i] {
          return arr[i] < other.arr[i];
        }
        i := i + 1;
      }
      r := i < other.size;
    }

    /** `operator==`, derived from `<`: equal exactly when neither is less,
        which is exactly when the elements are equal. */
    method Equal(other: Vector) returns (r: bool)
      requires Valid() && other.Valid()
      ensures r <==> Elements() == other.Elements()
    {
      var lt := Less(other);
      var gt := other.Less(this);
      Lexicographic.Trichotomy(Elements(), other.Elements());
      r := !lt && !gt;
    }

    /** `operator!=`. */
    method NotEqual(other: Vector) returns (r: bool)
      requires Valid() && other.Valid()
      ensures r <==> Elements() != other.Elements()
    {
      var lt := Less(other);
      var gt := other.Less(this);
      Lexicographic.Trichotomy(Elements(), other.Elements());
      r := lt || gt;
    }

    /** `operator>`: `other < this`, which never holds together with
        `this < other` or equality. */
    method Greater(other: Vector) returns (r: bool)
      requires Valid() && other.Valid()
      ensures r == Lexicographic.Less(other.Elements(), Elements())
      ensures r ==> Elements() != other.Elements() && !Lexicographic.Less(Elements(), other.Elements())
    {
      r := other.Less(this);
      Lexicographic.Trichotomy(Elements(), other.Elements());
    }

    /** `operator<=`: not `other < this`, that is, less or equal. */
    method LessOrEqual(other: Vector) returns (r: bool)
      requires Valid() && other.Valid()
      ensures r <==> Lexicographic.Less(Elements(), other.Elements()) || Elements() == other.Elements()
    {
      var gt := other.Less(this);
      Lexicographic.Trichotomy(Elements(), other.Elements());
      r := !gt;
    }

    /** `operator>=`: not `this < other`, that is, greater or equal. */
    method GreaterOrEqual(other: Vector) returns (r: bool)
      requires Valid() && other.Valid()
      ensures r <==> Lexicographic.Less(other.Elements(), Elements()) || Elements() == other.Elements()
    {
      var lt := Less(other);
      Lexicographic.Trichotomy(Elements(), other.Elements());
      r := !lt;
    }
  }
}
