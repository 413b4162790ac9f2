/** _sbrk in debug.c: the break pointer of the C heap, in 32-bit addresses that wrap. */
module Heap {
  import opened Machine

  /** _end and _heap_end from the linker script. */
  datatype Area = Area(start: nat, end: nat)

  predicate ValidArea(a: Area) {
    a.start <= a.end < TWO32
  }

  /** ptrdiff_t */
  predicate IsIncrement(incr: int) {
    -TWO31 <= incr < TWO31
  }

  const FAILED: nat := 0xFFFF_FFFF    // NULL - 1

  /** Both tests of _sbrk, on the wrapped sum. */
  predicate Accepts(a: Area, brk: nat, incr: int) {
    var next := Wrap32(brk + incr);
    !(next < a.start || next > a.end)
  }

  /** What the tests are for: the unbounded new break stays in the area. */
  predicate Fits(a: Area, brk: nat, incr: int) {
    a.start <= brk + incr <= a.end
  }

  /** The static curbrk with the function that moves it. */
  class Break {
    const area: Area
    var curbrk: nat

    ghost predicate Valid()
      reads this
    {
      ValidArea(area) && area.end - area.start < TWO31 && area.start <= curbrk <= area.end
    }

    constructor (area: Area)
      requires ValidArea(area) && area.end - area.start < TWO31
      ensures Valid() && this.area == area && curbrk == area.start
    {
      this.area := area;
      curbrk := area.start;
    }

    /** _sbrk: in a heap of less than 2^31 bytes a request succeeds exactly when the unbounded new
        break stays in the area, and returns the old break; a failure changes nothing and returns the
        highest address, which no block has unless the heap ends there. */
    method Sbrk(incr: int) returns (address: nat)
      requires Valid() && IsIncrement(incr)
      modifies this
      ensures Valid() && curbrk == After(area, old(curbrk), incr) && address == Result(area, old(curbrk), incr)
      ensures area.start <= old(curbrk) + incr <= area.end ==>
        curbrk == old(curbrk) + incr && address == old(curbrk) && area.start <= address <= area.end
      ensures !(area.start <= old(curbrk) + incr <= area.end) ==>
        curbrk == old(curbrk) && address == 0xFFFF_FFFF
      ensures area.end < 0xFFFF_FFFF ==>
        (address == 0xFFFF_FFFF <==> !(area.start <= old(curbrk) + incr <= area.end))
    {
      WrappedTestIsExact(area, curbrk, incr);
      if Wrap32(curbrk + incr) < area.start || Wrap32(curbrk + incr) > area.end {
        return FAILED;
      }
      curbrk := Wrap32(curbrk + incr);
      address := Wrap32(curbrk - incr);
    }
  }

  lemma WrappedTestIsExact(a: Area, brk: nat, incr: int)
    requires ValidArea(a) && a.end - a.start < TWO31
    requires a.start <= brk <= a.end && IsIncrement(incr)
    ensures Accepts(a, brk, incr) <==> Fits(a, brk, incr)
  {
  }

  /** The wrapped test is right for every break and increment exactly when the heap is smaller
      than 2^31 bytes. */
  lemma ExactIffBelowHalf(a: Area)
    requires ValidArea(a)
    ensures (forall brk: nat, incr: int :: a.start <= brk <= a.end && IsIncrement(incr) ==>
               (Accepts(a, brk, incr) <==> Fits(a, brk, incr)))
       <==> a.end - a.start < TWO31
  {
    if a.end - a.start < TWO31 {
      forall brk: nat, incr: int | a.start <= brk <= a.end && IsIncrement(incr)
        ensures Accepts(a, brk, incr) <==> Fits(a, brk, incr)
      {
        WrappedTestIsExact(a, brk, incr);
      }
    } else {
      assert IsIncrement(-TWO31) && Accepts(a, a.start, -TWO31) && !Fits(a, a.start, -TWO31);
    }
  }

  // ----- sequences of calls -----

  function After(a: Area, brk: nat, incr: int): nat {
    if Accepts(a, brk, incr) then Wrap32(brk + incr) else brk
  }

  /** What the call returns: the old break, computed back from the new one, or the failure address. */
  function Result(a: Area, brk: nat, incr: int): nat {
    if Accepts(a, brk, incr) then Wrap32(Wrap32(brk + incr) - incr) else FAILED
  }

  /** The break before call i of a sequence. */
  function BreakAt(a: Area, calls: seq<int>, i: nat): nat
    requires i <= |calls|
  {
    if i == 0 then a.start else After(a, BreakAt(a, calls, i - 1), calls[i - 1])
  }

  predicate Granted(a: Area, calls: seq<int>, i: nat)
    requires i < |calls|
  {
    Accepts(a, BreakAt(a, calls, i), calls[i])
  }

  /** Increments accepted before call i, added up. */
  function GrantedSum(a: Area, calls: seq<int>, i: nat): int
    requires i <= |calls|
  {
    if i == 0 then 0 else GrantedSum(a, calls, i - 1) + if Granted(a, calls, i - 1) then calls[i - 1] else 0
  }

  predicate ValidCalls(a: Area, calls: seq<int>) {
    && ValidArea(a) && a.end - a.start < TWO31
    && forall i :: 0 <= i < |calls| ==> IsIncrement(calls[i])
  }

  /** Over every sequence of calls the break stays in the area and has moved by exactly the sum of
      the accepted increments. */
  lemma {:induction false} BreakIsSum(a: Area, calls: seq<int>, i: nat)
    requires ValidCalls(a, calls) && i <= |calls|
    ensures a.start <= BreakAt(a, calls, i) <= a.end
    ensures BreakAt(a, calls, i) == a.start + GrantedSum(a, calls, i)
  {
    if i > 0 {
      BreakIsSum(a, calls, i - 1);
      WrappedTestIsExact(a, BreakAt(a, calls, i - 1), calls[i - 1]);
    }
  }

  /** When nothing is given back, granted blocks lie one behind the other inside the heap: a later
      one never reaches into an earlier one, and the next one starts where the last one ended,
      whatever was refused in between. */
  lemma {:induction false} BlocksAreDisjointAndAdjacent(a: Area, calls: seq<int>, i: nat, j: nat)
    requires ValidCalls(a, calls) && i < j <= |calls|
    requires calls[i] > 0 && Granted(a, calls, i)
    requires forall k :: i < k < j ==> calls[k] >= 0
    ensures a.start <= BreakAt(a, calls, i)
    ensures BreakAt(a, calls, i) + calls[i] <= BreakAt(a, calls, j) <= a.end
    ensures (forall k :: i < k < j ==> !Granted(a, calls, k)) ==>
      BreakAt(a, calls, j) == BreakAt(a, calls, i) + calls[i]
    decreases j
  {
    var before := BreakAt(a, calls, j - 1);
    BreakIsSum(a, calls, i);
    BreakIsSum(a, calls, j - 1);
    BreakIsSum(a, calls, j);
    WrappedTestIsExact(a, before, calls[j - 1]);
    if j > i + 1 {
      BlocksAreDisjointAndAdjacent(a, calls, i, j - 1);
      assert !Granted(a, calls, j - 1) ==> BreakAt(a, calls, j) == before;
      assert Granted(a, calls, j - 1) ==> BreakAt(a, calls, j) == before + calls[j - 1];
    }
  }

  /** A granted request is undone by giving the same number of bytes back. */
  lemma GivingBackUndoes(a: Area, calls: seq<int>, i: nat)
    requires ValidCalls(a, calls) && i + 1 < |calls|
    requires Granted(a, calls, i) && calls[i + 1] == -calls[i]
    ensures Granted(a, calls, i + 1) && BreakAt(a, calls, i + 2) == BreakAt(a, calls, i)
  {
    BreakIsSum(a, calls, i);
    BreakIsSum(a, calls, i + 1);
    WrappedTestIsExact(a, BreakAt(a, calls, i), calls[i]);
    WrappedTestIsExact(a, BreakAt(a, calls, i + 1), calls[i + 1]);
  }

  lemma ResultTells(a: Area, brk: nat, incr: int)
    requires ValidArea(a) && a.end - a.start < TWO31 && a.start <= brk <= a.end && IsIncrement(incr)
    ensures Result(a, brk, incr) == if a.start <= brk + incr <= a.end then brk else 0xFFFF_FFFF
  {
    WrappedTestIsExact(a, brk, incr);
    WrapAdd(brk + incr, -incr);
  }

  /** Over every sequence of calls a caller can tell: the result is the highest address exactly when the
      break would have left the heap, and otherwise the address of the block, inside the heap. */
  lemma RefusalIsTold(a: Area, calls: seq<int>, i: nat)
    requires ValidCalls(a, calls) && i < |calls| && a.end < 0xFFFF_FFFF
    ensures var brk, result := BreakAt(a, calls, i), Result(a, BreakAt(a, calls, i), calls[i]);
      && (result == 0xFFFF_FFFF <==> !(a.start <= brk + calls[i] <= a.end))
      && (result != 0xFFFF_FFFF ==> result == brk && a.start <= result <= a.end)
  {
    BreakIsSum(a, calls, i);
    ResultTells(a, BreakAt(a, calls, i), calls[i]);
  }

  /** That bound on the heap is exact: a heap that ends at the highest address can grant a request with
      the failure address. */
  lemma ToldApartIff(a: Area)
    requires ValidArea(a)
    ensures (forall brk: nat, incr: int :: a.start <= brk <= a.end && Accepts(a, brk, incr) ==> brk != FAILED)
       <==> a.end < 0xFFFF_FFFF
  {
    assert Accepts(a, a.end, 0);
  }
}
