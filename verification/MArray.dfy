/** mobject.c: the storage of an array, which grows to the next power of two. */
module MArray {
  import opened Options
  import opened Powers

  const MARRAY_MAX := 128 * 1024 * 1024

  lemma Pow2Bounds()
    ensures Pow2(2) == 4 && Pow2(26) == MARRAY_MAX / 2 && Pow2(27) == MARRAY_MAX
  {
    assert Pow2(9) == 512;
    assert Pow2(18) == 262144;
    assert Pow2(26) == 67108864;
  }

  /** The sizes the storage can have. */
  ghost predicate Capacity(n: nat) {
    n == 0 || exists k :: 2 <= k <= 26 && n == Pow2(k)
  }

  class MArray<T> {
    var entries: array<Option<T>>
    var nused: nat

    ghost predicate Valid()
      reads this, entries
    {
      && (nused < entries.Length || nused == entries.Length == 0) && Capacity(entries.Length)
      && (forall i :: 0 <= i < nused ==> entries[i].Some?)
      && (forall i :: nused <= i < entries.Length ==> entries[i].None?)
    }

    ghost function Contents(): (s: seq<T>)
      requires Valid()
      reads this, entries
      ensures |s| == nused
    {
      seq(nused, i requires 0 <= i < nused && Valid() reads this, entries => entries[i].value)
    }

    constructor ()
      ensures Valid() && Contents() == [] && fresh(entries)
    {
      entries, nused := new Option<T>[0], 0;
    }

    /** marray_resize: room for more than `want` items, if a power of two below MARRAY_MAX has it. */
    method Resize(want: nat) returns (ok: bool)
      requires Valid()
      modifies this
      ensures Valid() && Contents() == old(Contents()) && (entries == old(entries) || fresh(entries))
      ensures ok <==> want < MARRAY_MAX / 2
      ensures ok ==> entries.Length > want
      ensures !ok ==> entries == old(entries)
    {
      CapacityBound(entries.Length);
      if want < entries.Length {
        return true;
      }
      var n := NextSize(entries.Length, want);
      if n >= MARRAY_MAX || n <= nused || n <= want {
        return false;
      }
      var bigger := new Option<T>[n](i requires 0 <= i reads this, entries =>
        if i < nused && i < entries.Length then entries[i] else None);
      ghost var was := Contents();
      entries := bigger;
      assert Contents() == was;
      ok := true;
    }

    /** The loop of marray_resize. */
    static method NextSize(nalloc: nat, want: nat) returns (n: nat)
      requires Capacity(nalloc)
      ensures want < MARRAY_MAX / 2 ==> Capacity(n) && want < n < MARRAY_MAX && n >= nalloc
      ensures want >= MARRAY_MAX / 2 ==> n >= MARRAY_MAX
    {
      Pow2Bounds();
      CapacityBound(nalloc);
      n := if nalloc > 4 then nalloc else 4;
      ghost var k :| 2 <= k <= 26 && n == Pow2(k);
      while n < MARRAY_MAX && n <= want
        invariant 2 <= k <= 27 && n == Pow2(k) && n >= nalloc && (k == 27 ==> n == MARRAY_MAX && want >= MARRAY_MAX / 2)
        decreases MARRAY_MAX - n
      {
        n, k := n * 2, k + 1;
      }
      if k < 26 {
        Pow2Monotone(k, 26);
      }
    }

    static lemma CapacityBound(n: nat)
      requires Capacity(n)
      ensures n <= MARRAY_MAX / 2 && (n != 0 ==> n >= 4)
      ensures n > 4 || (exists k :: 2 <= k <= 26 && 4 == Pow2(k))
    {
      Pow2Bounds();
      if n != 0 {
        var k :| 2 <= k <= 26 && n == Pow2(k);
        if k < 26 { Pow2Monotone(k, 26); }
        if k > 2 { Pow2Monotone(2, k); }
      }
    }

    method Append(value: T) returns (ok: bool)
      requires Valid()
      modifies this, entries
      ensures Valid() && (entries == old(entries) || fresh(entries))
      ensures ok <==> old(nused) + 1 < MARRAY_MAX / 2
      ensures Contents() == if ok then old(Contents()) + [value] else old(Contents())
    {
      ok := Resize(nused + 1);
      if ok {
        entries[nused] := Some(value);
        nused := nused + 1;
      }
    }

    method Prepend(value: T) returns (ok: bool)
      requires Valid()
      modifies this, entries
      ensures Valid() && (entries == old(entries) || fresh(entries))
      ensures ok <==> old(nused) + 1 < MARRAY_MAX / 2
      ensures Contents() == if ok then [value] + old(Contents()) else old(Contents())
    {
      ok := Resize(nused + 1);
      if ok {
        forall i | 0 <= i < nused {
          entries[i + 1] := entries[i];
        }
        entries[0] := Some(value);
        nused := nused + 1;
      }
    }

    /** marray_set: fills a gap with `nones`, and frees the entry it overwrites. */
    method Set(ndx: nat, value: T, nones: seq<T>) returns (ok: bool, freed: Option<T>)
      requires Valid() && |nones| == if nused < ndx then ndx - nused else 0
      modifies this, entries
      ensures Valid() && (entries == old(entries) || fresh(entries))
      ensures ok <==> ndx + 1 < MARRAY_MAX / 2
      ensures Contents() == if ok then Updated(old(Contents()), ndx, value, nones) else old(Contents())
      ensures freed == if ok && ndx < old(nused) then Some(old(Contents())[ndx]) else None
    {
      CapacityBound(entries.Length);
      freed := None;
      if ndx >= MARRAY_MAX {
        return false, None;
      }
      ok := Resize(ndx + 1);
      if !ok {
        return;
      }
      ghost var was := Contents();
      var i := nused;
      while i < ndx
        invariant nused <= i <= entries.Length && (if nused < ndx then i <= ndx else i == nused)
        invariant forall k :: 0 <= k < nused ==> entries[k].Some? && entries[k].value == was[k]
        invariant forall k :: nused <= k < i ==> entries[k] == Some(nones[k - nused])
        invariant forall k :: i <= k < entries.Length ==> entries[k].None?
        modifies entries
      {
        entries[i] := Some(nones[i - nused]);
        i := i + 1;
      }
      freed := entries[ndx];
      entries[ndx] := Some(value);
      nused := if nused < ndx + 1 then ndx + 1 else nused;
    }

    method Pop() returns (r: Option<T>)
      requires Valid()
      modifies this, entries
      ensures Valid() && entries == old(entries)
      ensures old(Contents()) == [] ==> r == None && Contents() == []
      ensures old(Contents()) != [] ==> r.Some? && Contents() + [r.value] == old(Contents())
    {
      if nused == 0 {
        return None;
      }
      nused := nused - 1;
      r := entries[nused];
      entries[nused] := None;
    }
  }

  /** One item of a sequence changed; beyond the end, with a gap of `nones` before it. */
  function Updated<T>(s: seq<T>, ndx: nat, value: T, nones: seq<T>): (r: seq<T>)
  {
    if ndx < |s| then s[ndx := value] else s + nones + [value]
  }
}
