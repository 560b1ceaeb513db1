/** What the mining workers share: bounded reservations of attempts, and a result that is written once. */
module Reservation {
  import opened Machine

  const U64_MAX: int := 0xFFFF_FFFF_FFFF_FFFF

  type U64 = x: int | 0 <= x <= U64_MAX

  /** The attempts lo, ..., hi - 1. */
  datatype Range = Range(lo: U64, hi: U64)

  function SaturatingAdd(a: U64, b: U64): U64 {
    if a + b > U64_MAX then U64_MAX else a + b
  }

  function CheckedAdd(a: U64, b: U64): Option<U64> {
    if a + b > U64_MAX then None else Some(a + b)
  }

  function Min(a: U64, b: U64): U64 {
    if a <= b then a else b
  }

  /** The range that a reservation gets when `next` attempts are gone; none if it asks for nothing or nothing is left. */
  function Reserved(next: U64, end: U64, count: U64): Option<Range> {
    if count == 0 || next >= end then None else Some(Range(next, Min(SaturatingAdd(next, count), end)))
  }

  /** A reservation takes at least one attempt, at most what it asked for, and never one past the end. */
  lemma ReservedFits(next: U64, end: U64, count: U64)
    ensures Reserved(next, end, count).Some? <==> count > 0 && next < end
    ensures var r := Reserved(next, end, count);
      r.Some? ==> r.value.lo == next && next < r.value.hi <= end && r.value.hi <= next + count
                  && (r.value.hi == next + count || r.value.hi == end)
  {}

  class Attempts {
    var next: U64
    const end: U64

    constructor (start: U64, end: U64)
      requires start <= end
      ensures next == start && this.end == end
    {
      next := start;
      this.end := end;
    }

    /** The source panics where the range does not fit in 64 bits. */
    static method New(start: U64, count: U64) returns (attempts: Option<Attempts>)
      ensures attempts.Some? <==> start + count <= U64_MAX
      ensures attempts.Some? ==> fresh(attempts.value) && attempts.value.next == start && attempts.value.end == start + count
    {
      var end := CheckedAdd(start, count);
      if end.None? {
        return None;
      }
      var a := new Attempts(start, end.value);
      return Some(a);
    }

    /** One atomic update of the counter. */
    method Reserve(count: U64) returns (range: Option<Range>)
      modifies this
      ensures range == Reserved(old(next), end, count)
      ensures next == if range.Some? then range.value.hi else old(next)
    {
      if count == 0 {
        return None;
      }
      var start := next;
      if start < end {
        next := Min(SaturatingAdd(start, count), end);
      } else {
        return None;
      }
      return Some(Range(start, Min(SaturatingAdd(start, count), end)));
    }
  }

  /** The first value put into the slot stays. */
  function Published<T>(slot: Option<T>, value: T): Option<T> {
    if slot.None? then Some(value) else slot
  }

  class Winner<T> {
    var slot: Option<T>

    constructor ()
      ensures slot == None
    {
      slot := None;
    }

    method Found() returns (found: bool)
      ensures found <==> slot.Some?
    {
      found := slot.Some?;
    }

    method Publish(value: T)
      modifies this
      ensures slot == Published(old(slot), value)
      ensures old(slot).Some? ==> slot == old(slot)
    {
      if slot.None? {
        slot := Some(value);
      }
    }

    method Take() returns (result: Option<T>)
      ensures result == slot
    {
      result := slot;
    }
  }
}
