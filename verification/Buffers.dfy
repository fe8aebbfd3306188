/** A fixed-size array together with the sequence it currently holds. */
module Buffers {
  class Buffer<T> {
    const cells: array<T>
    ghost var view: seq<T>

    ghost predicate Valid()
      reads this, cells
    {
      cells[..] == view
    }

    constructor (n: nat, init: T)
      ensures Valid() && fresh(cells) && view == seq(n, _ => init)
    {
      cells := new T[n](_ => init);
      view := seq(n, _ => init);
    }

    constructor FromSeq(s: seq<T>)
      ensures Valid() && fresh(cells) && view == s
    {
      cells := new T[|s|](i requires 0 <= i < |s| => s[i]);
      view := s;
    }

    method Get(i: nat) returns (x: T)
      requires Valid() && i < |view|
      ensures x == view[i]
    {
      x := cells[i];
    }

    method Put(i: nat, x: T)
      requires Valid() && i < |view|
      modifies this, cells
      ensures Valid() && view == old(view)[i := x]
    {
      cells[i] := x;
      view := view[i := x];
    }
  }
}
