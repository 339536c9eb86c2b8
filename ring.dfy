/**
 * `Ring`, a non-empty list with a cursor that wraps around at both ends. The audio
 * scripts use it to step from the current sink to the next or previous one.
 */
module Rings {
  import opened Wrappers
  import Arith

  /** The index after `i` in a ring of `n` elements. */
  function NextIndex(i: nat, n: nat): (j: nat)
    requires i < n
    ensures j < n
  {
    if i + 1 >= n then 0 else i + 1
  }

  /** The index before `i` in a ring of `n` elements. */
  function PrevIndex(i: nat, n: nat): (j: nat)
    requires i < n
    ensures j < n
  {
    if i == 0 then n - 1 else i - 1
  }

  /** `next` is addition of one modulo the ring's length. */
  lemma {:induction false} NextIndexMod(i: nat, n: nat)
    requires i < n
    ensures NextIndex(i, n) == (i + 1) % n
  {
    if i + 1 < n {
      Arith.DivModUnique(i + 1, n, 0, i + 1);
    } else {
      Arith.DivModUnique(i + 1, n, 1, 0);
    }
  }

  /** `prev` is subtraction of one modulo the ring's length. */
  lemma {:induction false} PrevIndexMod(i: nat, n: nat)
    requires i < n
    ensures PrevIndex(i, n) == (i + n - 1) % n
  {
    if i == 0 {
      Arith.DivModUnique(n - 1, n, 0, n - 1);
    } else {
      Arith.DivModUnique(i + n - 1, n, 1, i - 1);
    }
  }

  /** Stepping forward and then back, or back and then forward, returns to the start. */
  lemma {:induction false} NextPrevInverse(i: nat, n: nat)
    requires i < n
    ensures PrevIndex(NextIndex(i, n), n) == i
    ensures NextIndex(PrevIndex(i, n), n) == i
  {
  }

  /** `k` calls of `next` from index `i` reach `(i + k) % n`; in particular `n` calls come back to `i`. */
  lemma {:induction false} StepsMod(i: nat, n: nat, k: nat)
    requires i < n
    ensures Steps(i, n, k) == (i + k) % n
    decreases k
  {
    if k == 0 {
      Arith.DivModUnique(i, n, 0, i);
    } else {
      StepsMod(i, n, k - 1);
      NextIndexMod(Steps(i, n, k - 1), n);
      Arith.ModSucc(i + k - 1, n);
    }
  }

  /** The index after `k` calls of `next` from index `i`. */
  function Steps(i: nat, n: nat, k: nat): (j: nat)
    requires i < n
    ensures j < n
  {
    if k == 0 then i else NextIndex(Steps(i, n, k - 1), n)
  }

  /** The first index whose entry satisfies `p`, if any. */
  function FirstIndex<T>(data: seq<T>, p: (nat, T) -> bool): (r: Option<nat>)
    ensures r.Some? ==> r.value < |data| && p(r.value, data[r.value])
    ensures r.Some? ==> forall j :: 0 <= j < r.value ==> !p(j, data[j])
    ensures r.None? ==> forall j :: 0 <= j < |data| ==> !p(j, data[j])
  {
    FirstIndexFrom(data, p, 0)
  }

  function FirstIndexFrom<T>(data: seq<T>, p: (nat, T) -> bool, from: nat): (r: Option<nat>)
    requires from <= |data|
    ensures r.Some? ==> from <= r.value < |data| && p(r.value, data[r.value])
    ensures r.Some? ==> forall j :: from <= j < r.value ==> !p(j, data[j])
    ensures r.None? ==> forall j :: from <= j < |data| ==> !p(j, data[j])
    decreases |data| - from
  {
    if from == |data| then None
    else if p(from, data[from]) then Some(from)
    else FirstIndexFrom(data, p, from + 1)
  }

  class Ring<T> {
    var cursor: nat
    const data: seq<T>

    ghost predicate Valid()
      reads this
    {
      cursor < |data|
    }

    constructor (data: seq<T>)
      requires |data| > 0
      ensures Valid() && this.data == data && cursor == 0
    {
      this.data := data;
      cursor := 0;
    }

    /** `Ring::get`: the current entry; the cursor stays. */
    method Get() returns (x: T)
      requires Valid()
      ensures x == data[cursor]
    {
      x := data[cursor];
    }

    /** `Ring::next`: moves one step forward, from the last entry to the first. */
    method Next() returns (x: T)
      requires Valid()
      modifies this
      ensures Valid()
      ensures cursor == NextIndex(old(cursor), |data|)
      ensures x == data[cursor]
    {
      if cursor + 1 >= |data| {
        cursor := 0;
      } else {
        cursor := cursor + 1;
      }
      x := data[cursor];
    }

    /** `Ring::prev`: moves one step back, from the first entry to the last. */
    method Prev() returns (x: T)
      requires Valid()
      modifies this
      ensures Valid()
      ensures cursor == PrevIndex(old(cursor), |data|)
      ensures x == data[cursor]
    {
      if cursor == 0 {
        cursor := |data| - 1;
      } else {
        cursor := cursor - 1;
      }
      x := data[cursor];
    }

    /**
     * `Ring::find`: moves the cursor to the first entry that satisfies `p` and
     * returns it; if there is none the cursor stays where it was.
     */
    method Find(p: (nat, T) -> bool) returns (x: Option<T>)
      requires Valid()
      modifies this
      ensures Valid()
      ensures FirstIndex(data, p).Some? ==> cursor == FirstIndex(data, p).value && x == Some(data[cursor])
      ensures FirstIndex(data, p).None? ==> cursor == old(cursor) && x == None
    {
      var i := 0;
      while i < |data|
        invariant 0 <= i <= |data|
        invariant FirstIndex(data, p) == FirstIndexFrom(data, p, i)
      {
        if p(i, data[i]) {
          cursor := i;
          return Some(data[cursor]);
        }
        i := i + 1;
      }
      return None;
    }
  }

  /** `Ring::new`: refused for an empty list, otherwise the cursor starts at the first entry. */
  method NewRing<T>(data: seq<T>) returns (r: Result<Ring<T>, string>)
    ensures r.Ok? <==> |data| > 0
    ensures r.Ok? ==> fresh(r.value) && r.value.Valid() && r.value.data == data && r.value.cursor == 0
    ensures r.Err? ==> r.error == "Ring cannot work with an empty Vec"
  {
    if |data| == 0 {
      return Err("Ring cannot work with an empty Vec");
    }
    var ring := new Ring(data);
    return Ok(ring);
  }

  /** `next` followed by `prev` leaves the cursor where it was. */
  method NextThenPrev<T>(ring: Ring<T>) returns (x: T)
    requires ring.Valid()
    modifies ring
    ensures ring.Valid() && ring.cursor == old(ring.cursor) && x == ring.data[ring.cursor]
  {
    var _ := ring.Next();
    x := ring.Prev();
    NextPrevInverse(old(ring.cursor), |ring.data|);
  }
}
