/** Client methods that replay, against the contracts of Vectors.Vector
    alone, the deterministic tests of the container's suite
    (hw06-vector-h3ic/main.cpp): DefaultConstructor, ValueConstructor,
    CopyConstructor, CopyAssignment, BracketOperator, Front, Back, Empty,
    Size, Capacity, Reserve, Clear, SwapEmpty, SwapNonEmpty and
    Comparisions. Each method names the lines it replays; its asserts are
    the ASSERT lines of those lines (CHECK_RESERVE_CAPACITY in full:
    capacity, size, a non-null buffer and every element), apart from the
    ones marked as proof steps, which include the sizes the suite only
    notes in comments. The lockstep, random and stress tests are not replayed: the
    mutators' contracts state the lockstep result for every input. */
module VectorScenarios {
  import opened Growth
  import opened Vectors
  import Lexicographic

  /** The suite's Capacity test, first part (main.cpp:503-521): pushes grow
      the capacity 0, 1, 2, 4, 4, then 8 for the next four. */
  method CapacityByPushes() {
    NextPow2Exact(1, 1);
    NextPow2Exact(2, 2);
    NextPow2Exact(3, 4);
    NextPow2Exact(5, 8);
    var v := new Vector();
    assert v.capacity == 0;
    v.PushBack(1);
    assert v.capacity == 1;
    v.PushBack(2);
    assert v.capacity == 2;
    v.PushBack(3);
    assert v.capacity == 4;
    v.PushBack(4);
    assert v.capacity == 4;
    var i := 0;
    while i < 4
      invariant 0 <= i <= 4
      invariant v.Valid() && fresh(v.arr) && v.size == 4 + i
      invariant v.capacity == if i == 0 then 4 else 8
    {
      v.PushBack(5 + i);
      assert v.capacity == 8;
      i := i + 1;
    }
    assert v.capacity == 8 && v.size == 8;  // proof step
  }

  /** The Capacity test, second part (main.cpp:523-526), from 8 elements in
      8 slots: bulk growth jumps straight to the fitting power of two. */
  method CapacityByBulkGrowth() {
    NextPow2Exact(8, 8);
    NextPow2Exact(30, 32);
    var v := new Vector.Filled(8, 1);
    v.Resize(30, 12);
    assert v.capacity == 32;
    v.Resize(32, 13);
    assert v.capacity == 32;
    assert v.size == 32;  // proof step: the size the suite's comment notes
  }

  /** The Capacity test, continued (main.cpp:528-529), from 32 elements in
      32 slots. */
  method CapacityByInserts() {
    NextPow2Exact(32, 32);
    NextPow2Exact(52, 64);
    var v := new Vector.Filled(32, 13);
    v.InsertCount(5, 20, 10);
    assert v.capacity == 64;
    assert v.size == 52;  // proof step: the size the suite's comment notes
  }

  /** The Capacity test, continued (main.cpp:530-534), from 52 elements in
      64 slots: the 65th element doubles the capacity. */
  method CapacityBySingleInserts() {
    NextPow2Exact(52, 64);
    NextPow2Exact(65, 128);
    var v := new Vector.Filled(52, 13);
    assert v.capacity == 64;
    var i := 0;
    while i < 12
      invariant 0 <= i <= 12
      invariant v.Valid() && fresh(v.arr) && v.size == 52 + i && v.capacity == 64
    {
      v.Insert(7, 12);
      i := i + 1;
    }
    v.Insert(7, 12);
    assert v.capacity == 128;
    assert v.size == 65;  // proof step: the size the suite's comment notes
  }

  /** The Capacity test, third part (main.cpp:536-543), from 65 elements
      in 128 slots: pop_back and erase keep the capacity. */
  method CapacityAfterRemovals() {
    NextPow2Exact(65, 128);
    var v := new Vector.Filled(65, 1);
    assert v.capacity == 128;
    v.PopBack();
    assert v.capacity == 128;
    var i := 0;
    while i < 33
      invariant 0 <= i <= 33
      invariant v.Valid() && fresh(v.arr) && v.size == 64 - i && v.capacity == 128
    {
      v.Erase(0);
      i := i + 1;
    }
    assert v.capacity == 128;
    assert v.size == 31;  // proof step: the size the suite's comment notes
  }

  /** The Capacity test, continued (main.cpp:545-554), from 31 elements in
      128 slots (the state the erase loop leaves, reached here by one range
      erase): range erase and pops keep the capacity, shrink_to_fit tightens
      it to 16. */
  method CapacityAfterShrink() {
    NextPow2Exact(65, 128);
    NextPow2Exact(12, 16);
    var v := new Vector.Filled(65, 1);
    v.EraseRange(31, 65);
    assert v.size == 31;  // proof step: the size the suite's comment notes
    v.EraseRange(0, 16);
    assert v.capacity == 128;
    assert v.size == 15;  // proof step: the size the suite's comment notes
    v.PopBack();
    v.PopBack();
    v.PopBack();
    assert v.capacity == 128;
    assert v.size == 12;  // proof step: the size the suite's comment notes
    v.ShrinkToFit();
    assert v.capacity == 16;
  }

  /** The Capacity test, clearing (main.cpp:556-566): clear drops the
      buffer, and shrink_to_fit of an empty container drops it too. */
  method CapacityAfterClear() {
    NextPow2Exact(12, 16);
    NextPow2Exact(1, 1);
    var v := new Vector.Filled(12, 1);
    v.Clear();
    var p := v.Data();
    assert v.capacity == 0 && p == null;
    v.PushBack(10);
    v.PopBack();
    assert v.capacity == 1;
    v.ShrinkToFit();
    p := v.Data();
    assert v.capacity == 0 && p == null;
  }

  /** The Capacity test, end (main.cpp:568-578), from the empty container:
      bulk insertion, then shrink_to_fit and shrinking resizes keep 128. */
  method CapacityAfterBulkInsert() {
    NextPow2Exact(100, 128);
    var v := new Vector();
    v.InsertCount(0, 100, 12);
    assert v.capacity == 128;
    v.ShrinkToFit();
    assert v.capacity == 128;
    v.ResizeDefault(10);
    assert v.capacity == 128;
    v.ResizeDefault(0);
    assert v.capacity == 128;
  }

  /** The suite's Reserve test on an empty container (main.cpp:593-613).
      Each step is the suite's CHECK_RESERVE_CAPACITY (main.cpp:581-590):
      capacity, size, a non-null buffer, and the elements (none here). */
  method ReserveEmpty() {
    NextPow2Exact(10, 16);
    NextPow2Exact(100, 128);
    NextPow2Exact(256, 256);
    var e := new Vector();
    var c := e.Capacity();
    var n := e.Size();
    var p := e.Data();
    assert c == 0 && n == 0 && p == null;
    e.Reserve(10);
    p := e.Data();
    assert e.capacity == 16 && e.size == 0 && p != null;
    e.Reserve(3);
    p := e.Data();
    assert e.capacity == 16 && e.size == 0 && p != null;
    e.Reserve(100);
    p := e.Data();
    assert e.capacity == 128 && e.size == 0 && p != null;
    e.Reserve(256);
    p := e.Data();
    assert e.capacity == 256 && e.size == 0 && p != null;
    e.Reserve(0);
    p := e.Data();
    assert e.capacity == 256 && e.size == 0 && p != null;
  }

  /** The suite's Reserve test on a non-empty container (main.cpp:614-630),
      each step checked as CHECK_RESERVE_CAPACITY does, including every
      element. */
  method ReserveNonEmpty() {
    NextPow2Exact(15, 16);
    NextPow2Exact(32, 32);
    var v := new Vector.Filled(15, 7);
    var p := v.Data();
    assert v.capacity == 16 && v.size == 15 && p != null;
    assert forall i :: 0 <= i < 15 ==> v.Elements()[i] == 7;
    v.Reserve(32);
    p := v.Data();
    assert v.capacity == 32 && v.size == 15 && p != null;
    assert forall i :: 0 <= i < 15 ==> v.Elements()[i] == 7;
    var i := 0;
    while i < 32 - 15
      invariant 0 <= i <= 17
      invariant v.Valid() && fresh(v.arr) && v.capacity == 32
      invariant v.Elements() == Repeat(7, 15 + i)
    {
      v.PushBack(7);
      assert v.Elements() == Repeat(7, 15 + i + 1);  // proof step
      i := i + 1;
    }
    p := v.Data();
    assert v.capacity == 32 && v.size == 32 && p != null;
    assert forall i :: 0 <= i < 32 ==> v.Elements()[i] == 7;
    v.Reserve(16);
    p := v.Data();
    assert v.capacity == 32 && v.size == 32 && p != null;
    assert forall i :: 0 <= i < 32 ==> v.Elements()[i] == 7;
    v.Reserve(0);
    p := v.Data();
    assert v.capacity == 32 && v.size == 32 && p != null;
    assert forall i :: 0 <= i < 32 ==> v.Elements()[i] == 7;
  }

  /** The Reserve test on a non-empty container, continued (main.cpp:632-633),
      from 32 elements in 32 slots. */
  method ReserveNonEmptyInsert() {
    NextPow2Exact(32, 32);
    NextPow2Exact(33, 64);
    var v := new Vector.Filled(32, 7);
    v.Insert(14, 7);
    var p := v.Data();
    assert v.capacity == 64 && v.size == 33 && p != null;
    assert v.Elements() == Repeat(7, 14) + [7] + Repeat(7, 18);  // proof step
    assert forall i :: 0 <= i < 33 ==> v.Elements()[i] == 7;
  }

  /** The Reserve test on a non-empty container, end (main.cpp:635-636),
      from 33 elements in 64 slots. */
  method ReserveNonEmptyLarge() {
    NextPow2Exact(33, 64);
    NextPow2Exact(1023, 1024);
    var v := new Vector.Filled(33, 7);
    assert v.capacity == 64;
    v.Reserve(1023);
    var p := v.Data();
    assert v.capacity == 1024 && v.size == 33 && p != null;
    assert forall i :: 0 <= i < 33 ==> v.Elements()[i] == 7;
  }

  /** The suite's DefaultConstructor test (main.cpp:196-203). */
  method DefaultConstructor() {
    var v := new Vector();
    var n := v.Size();
    var c := v.Capacity();
    var p := v.Data();
    var e := v.Empty();
    assert n == 0 && c == 0 && p == null && e;
  }

  /** The suite's ValueConstructor test (main.cpp:205-221). */
  method ValueConstructor() {
    NextPow2Exact(10, 16);
    var v := new Vector.Filled(10, 1);
    var n := v.Size();
    var c := v.Capacity();
    var e := v.Empty();
    assert n == 10 && c == 16 && !e;
    assert forall i :: 0 <= i < 10 ==> v.Elements()[i] == 1;
    var emptyV := new Vector.Filled(0, 2);
    n := emptyV.Size();
    c := emptyV.Capacity();
    var p := emptyV.Data();
    e := emptyV.Empty();
    assert n == 0 && c == 0 && p == null && e;
  }

  /** The suite's CopyConstructor test, first block (main.cpp:224-232): the
      copy equals the source, and writing into the copy leaves the source
      alone. */
  method CopyIndependent() {
    var v := new Vector.Filled(10, 1);
    var copy := new Vector.Copy(v);
    var same := v.Equal(copy);
    assert same;
    copy.Set(0, 2);
    var differ := v.NotEqual(copy);
    assert v.Elements()[0] != copy.Elements()[0];  // proof step
    assert differ;
  }

  /** The CopyConstructor test, empty copy (main.cpp:234-241): copying an
      empty container leaves it empty and without a buffer. */
  method EmptyCopy() {
    var v := new Vector();
    var copy := new Vector.Copy(v);
    var e := v.Empty();
    var n := v.Size();
    var p := v.Data();
    assert e && n == 0 && p == null;
  }

  /** The CopyConstructor test, narrowing copy (main.cpp:243-254): a copy
      of 7 elements in 16 slots gets 8 slots and equals the source. */
  method NarrowingCopy() {
    NextPow2Exact(10, 16);
    NextPow2Exact(7, 8);
    var v := new Vector.Filled(10, 1);
    assert v.capacity == 16;
    v.EraseRange(7, 10);
    assert v.capacity == 16 && v.size == 7;
    var copy := new Vector.Copy(v);
    assert copy.capacity == 8 && copy.size == 7;
    var same := copy.Equal(v);
    assert same;
  }

  /** The CopyConstructor test, empty copies (main.cpp:256-268): copies of
      an empty container, and of one emptied by erasing everything, have no
      buffer. The copy emptied here holds 7 elements in 8 slots, as in the
      narrowing copy above. */
  method EmptiedCopy() {
    NextPow2Exact(7, 8);
    var emptyV := new Vector();
    var emptyCopy := new Vector.Copy(emptyV);
    var p := emptyCopy.Data();
    assert emptyCopy.capacity == 0 && emptyCopy.size == 0 && p == null;
    var copy := new Vector.Filled(7, 1);
    var n := copy.Size();
    copy.EraseRange(0, n);
    var e := copy.Empty();
    assert e;
    var emptyCopy2 := new Vector.Copy(copy);
    p := emptyCopy2.Data();
    assert emptyCopy2.capacity == 0 && emptyCopy2.size == 0 && p == null;
  }

  /** The suite's CopyAssignment test, self-assignment (main.cpp:273-281). */
  method SelfAssignment() {
    NextPow2Exact(10, 16);
    var v := new Vector.Filled(10, 1);
    v.Assign(v);
    assert v.size == 10 && v.capacity == 16;
    assert forall i :: 0 <= i < 10 ==> v.Elements()[i] == 1;
  }

  /** The CopyAssignment test, widening assignment (main.cpp:282-293). */
  method WideningAssignment() {
    NextPow2Exact(5, 8);
    NextPow2Exact(10, 16);
    var v := new Vector.Filled(5, 1);
    var tmp := new Vector.Filled(10, 2);
    v.Assign(tmp);
    assert v.size == 10 && v.capacity == 16;
    assert forall i :: 0 <= i < 10 ==> v.Elements()[i] == 2;
  }

  /** The CopyAssignment test, narrowing assignment (main.cpp:294-308). */
  method NarrowingAssignment() {
    NextPow2Exact(10, 16);
    NextPow2Exact(6, 8);
    var v := new Vector.Filled(10, 1);
    v.EraseRange(6, 10);
    assert v.size == 6 && v.capacity == 16;
    var tmp := new Vector.Filled(1, 2);
    tmp.Assign(v);
    assert tmp.size == 6 && tmp.capacity == 8;
    var tmpData := tmp.Data();
    var vData := v.Data();
    assert tmpData != vData;
    assert forall i :: 0 <= i < 6 ==> tmp.Elements()[i] == 1;
  }

  /** The CopyAssignment test, empty assignment (main.cpp:309-323):
      assigning an empty container, in either direction, leaves no
      buffer. */
  method EmptyAssignment() {
    NextPow2Exact(10, 16);
    var emptyV := new Vector();
    var v := new Vector.Filled(10, 1);
    v.Assign(emptyV);
    var p := v.Data();
    assert v.size == 0 && v.capacity == 0 && p == null;
    var ten := new Vector.Filled(10, 1);
    v.Assign(ten);
    v.EraseRange(0, 10);
    var e := v.Empty();
    assert e;
    emptyV.Assign(v);
    p := emptyV.Data();
    assert emptyV.size == 0 && emptyV.capacity == 0 && p == null;
  }

  /** The CopyAssignment test, end (main.cpp:325-333), into the container
      emptied above (no elements in 16 slots). */
  method AssignmentIntoEmptied() {
    NextPow2Exact(10, 16);
    NextPow2Exact(5, 8);
    var v := new Vector.Filled(10, 1);
    v.EraseRange(0, 10);
    var tmp := new Vector.Filled(5, 2);
    v.Assign(tmp);
    assert v.size == 5 && v.capacity == 8;
    var vData := v.Data();
    var tmpData := tmp.Data();
    assert vData != tmpData;
    assert forall i :: 0 <= i < 5 ==> v.Elements()[i] == 2;
  }

  /** The suite's BracketOperator test (main.cpp:336-345); the const
      overload reads the same element. */
  method BracketOperator() {
    var v := new Vector.Filled(5, 10);
    v.Set(0, 12);
    var x := v.Get(0);
    var y := v.Get(1);
    assert x == 12 && y == 10;
  }

  /** The suite's Front test (main.cpp:347-358): writes through `front()`
      and through `operator[]` both show at the front. */
  method Front() {
    var v := new Vector.Filled(5, 10);
    var f := v.Front();
    assert f == 10;
    v.Set(0, 12);
    f := v.Front();
    assert f == 12;
    v.Set(0, 15);
    f := v.Front();
    assert f == 15;
  }

  /** The suite's Back test (main.cpp:360-371). */
  method Back() {
    var v := new Vector.Filled(5, 10);
    var b := v.Back();
    assert b == 10;
    v.Set(4, 12);
    b := v.Back();
    assert b == 12;
    v.Set(4, 15);
    b := v.Back();
    assert b == 15;
  }

  /** The suite's Empty test (main.cpp:400-410): a container holding a
      buffer but no elements is empty. */
  method Empty() {
    NextPow2Exact(1, 1);
    NextPow2Exact(2, 2);
    var v := new Vector();
    var e := v.Empty();
    assert e;
    v.PushBack(1);
    v.PushBack(2);
    e := v.Empty();
    assert !e;
    v.PopBack();
    v.PopBack();
    e := v.Empty();
    assert e && v.capacity == 2;  // proof step: a buffer is still held
  }

  /** The suite's Size test (main.cpp:412-425). */
  method Size() {
    var v := new Vector.Filled(5, 10);
    var n := v.Size();
    assert n == 5;
    var i := 0;
    while i < 5
      invariant 0 <= i <= 5
      invariant v.Valid() && fresh(v.arr) && v.size == 5 - i
    {
      v.PopBack();
      n := v.Size();
      assert n == 4 - i;
      i := i + 1;
    }
    i := 0;
    while i < 5
      invariant 0 <= i <= 5
      invariant v.Valid() && fresh(v.arr) && v.size == i
    {
      v.PushBack(1);
      n := v.Size();
      assert n == i + 1;
      i := i + 1;
    }
  }

  /** The suite's Clear test (main.cpp:642-653). */
  method Clear() {
    var emptyV := new Vector();
    var v := new Vector.Filled(10, 20);
    var differ := emptyV.NotEqual(v);
    assert differ;
    v.Clear();
    var e := v.Empty();
    var n := v.Size();
    var p := v.Data();
    assert e && n == 0 && p == null;
    var same := v.Equal(emptyV);
    assert same;
  }

  /** The suite's SwapEmpty test (main.cpp:827-842). */
  method SwapEmpty() {
    NextPow2Exact(10, 16);
    var a := new Vector.Filled(10, 10);
    var aData := a.Data();
    var b := new Vector();
    a.Swap(b);
    assert a.capacity == 0 && b.capacity == 16;
    assert a.size == 0 && b.size == 10;
    var aNow := a.Data();
    var bNow := b.Data();
    assert aNow == null && bNow == aData;
  }

  /** The suite's SwapNonEmpty test (main.cpp:844-860). */
  method SwapNonEmpty() {
    NextPow2Exact(10, 16);
    NextPow2Exact(5, 8);
    var a := new Vector.Filled(10, 10);
    var aData := a.Data();
    var b := new Vector.Filled(5, 5);
    var bData := b.Data();
    a.Swap(b);
    assert a.capacity == 8 && b.capacity == 16;
    assert a.size == 5 && b.size == 10;
    var aNow := a.Data();
    var bNow := b.Data();
    assert aNow == bData && bNow == aData;
  }

  /** One half of the suite's CHECK_COMPARISIONS (main.cpp:885-896): `a < b`
      is `la`, `b < a` is `lb`, and the other five operators agree. */
  method CheckComparisonsOneWay(a: Vector, b: Vector, la: bool, lb: bool)
    requires a.Valid() && b.Valid()
    requires Lexicographic.Less(a.Elements(), b.Elements()) == la
    requires Lexicographic.Less(b.Elements(), a.Elements()) == lb
  {
    var aLessB := a.Less(b);
    assert aLessB == la;
    var bLessA := b.Less(a);
    assert bLessA == lb;
    Lexicographic.Trichotomy(a.Elements(), b.Elements());
    var eq := a.Equal(b);
    assert eq == !(aLessB || bLessA);
    var ne := a.NotEqual(b);
    assert ne == (aLessB || bLessA);
    var gt := a.Greater(b);
    assert gt == bLessA;
    var le := a.LessOrEqual(b);
    assert le == !bLessA;
    var ge := a.GreaterOrEqual(b);
    assert ge == !aLessB;
  }

  /** CHECK_COMPARISIONS (main.cpp:898): both halves, in both orders. */
  method CheckComparisons(a: Vector, b: Vector, la: bool, lb: bool)
    requires a.Valid() && b.Valid()
    requires Lexicographic.Less(a.Elements(), b.Elements()) == la
    requires Lexicographic.Less(b.Elements(), a.Elements()) == lb
  {
    CheckComparisonsOneWay(a, b, la, lb);
    CheckComparisonsOneWay(b, a, lb, la);
  }

  /** The suite's Comparisions test, first block (main.cpp:901-912): empty
      containers are equal, equal fillings are equal, and the empty
      container is less than a non-empty one. */
  method ComparisonsEmptyAndEqual() {
    var x := new Vector();
    var y := new Vector();
    CheckComparisons(x, y, false, false);
    var c := new Vector.Filled(5, 1);
    var d := new Vector.Filled(5, 1);
    Lexicographic.Trichotomy(c.Elements(), d.Elements());
    CheckComparisons(c, d, false, false);
    var e := new Vector();
    CheckComparisons(e, c, true, false);
  }

  /** The pushes 0, 1, ..., n - 1 into an empty container (main.cpp:914-917). */
  method Counting(n: nat) returns (v: Vector)
    ensures fresh(v) && fresh(v.arr) && v.Valid()
    ensures |v.Elements()| == n && forall k :: 0 <= k < n ==> v.Elements()[k] == k
  {
    v := new Vector();
    var i := 0;
    while i < n
      invariant 0 <= i <= n
      invariant fresh(v) && fresh(v.arr) && v.Valid()
      invariant |v.Elements()| == i && forall k :: 0 <= k < i ==> v.Elements()[k] == k
    {
      v.PushBack(i);
      i := i + 1;
    }
  }

  /** The Comparisions test, second block (main.cpp:913-923): a copy is
      equal, and one element more makes it greater. */
  method ComparisonsLonger() {
    var a := Counting(16);
    var b := new Vector.Copy(a);
    Lexicographic.Trichotomy(a.Elements(), b.Elements());
    CheckComparisons(a, b, false, false);
    a.PushBack(16);
    assert b.Elements() == a.Elements()[..16];  // proof step
    Lexicographic.LessCharacterised(b.Elements(), a.Elements());
    Lexicographic.Trichotomy(a.Elements(), b.Elements());
    CheckComparisons(a, b, false, true);
  }

  /** The Comparisions test, continued (main.cpp:925-926), from `a` holding
      0, ..., 16 and `b` holding 0, ..., 15: erasing the last two elements
      of `a` makes it a strict prefix of `b`, hence less. */
  method ComparisonsShorter() {
    var a := Counting(17);
    var b := Counting(16);
    a.EraseRange(15, 17);
    assert a.Elements() == b.Elements()[..15];  // proof step
    Lexicographic.LessCharacterised(a.Elements(), b.Elements());
    Lexicographic.Trichotomy(a.Elements(), b.Elements());
    CheckComparisons(a, b, true, false);
  }

  /** The Comparisions test, end (main.cpp:928-932), from `a` holding
      0, ..., 14 and `b` holding 0, ..., 15: the first difference decides,
      in either direction. */
  method ComparisonsFirstDifference() {
    var a := Counting(15);
    var b := Counting(16);
    a.PushBack(10);
    assert a.Elements()[..15] == b.Elements()[..15] && a.Elements()[15] < b.Elements()[15];  // proof step
    Lexicographic.LessCharacterised(a.Elements(), b.Elements());
    Lexicographic.Trichotomy(a.Elements(), b.Elements());
    CheckComparisons(a, b, true, false);
    a.Set(15, 20);
    assert a.Elements()[..15] == b.Elements()[..15] && b.Elements()[15] < a.Elements()[15];  // proof step
    Lexicographic.LessCharacterised(b.Elements(), a.Elements());
    Lexicographic.Trichotomy(a.Elements(), b.Elements());
    CheckComparisons(a, b, false, true);
  }
}
