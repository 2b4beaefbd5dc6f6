/** mobject.c: comparing objects. */
module ObjectOrder {
  import opened Options
  import opened Keys

  /** An object as the comparison sees it: a dictionary is only its address, and an array may hold
      empty slots. */
  datatype Obj = ONone | OInt(num: int) | OString(str: string) | OArray(items: seq<Option<Obj>>) | ODict(addr: int)

  /** enum mobject_type */
  function Rank(o: Obj): int {
    match o
    case ONone => 0
    case OInt(_) => 1
    case OString(_) => 2
    case OArray(_) => 3
    case ODict(_) => 4
  }

  function Sign(a: int, b: int): int {
    if a < b then -1 else if a == b then 0 else 1
  }

  /** The order the comparison is meant to decide: by type, then numbers by value, strings by their
      bytes, arrays by length and then by their first difference. */
  function Cmp(a: Obj, b: Obj): (r: int)
    ensures -1 <= r <= 1
    decreases a, 1
  {
    match (a, b)
    case (OInt(m), OInt(n)) => Sign(m, n)
    case (OString(s), OString(t)) => Sign(Strcmp(s, t), 0)
    case (OArray(s), OArray(t)) => if |s| != |t| then Sign(|s|, |t|) else CmpItems(s, t)
    case (ODict(x), ODict(y)) => Sign(x, y)
    case _ => Sign(Rank(a), Rank(b))
  }

  function CmpSlot(a: Option<Obj>, b: Option<Obj>): (r: int)
    ensures -1 <= r <= 1
    decreases a, 2
  {
    match (a, b)
    case (None, None) => 0
    case (None, Some(_)) => -1
    case (Some(_), None) => 1
    case (Some(x), Some(y)) => Cmp(x, y)
  }

  function CmpItems(s: seq<Option<Obj>>, t: seq<Option<Obj>>): (r: int)
    requires |s| == |t|
    ensures -1 <= r <= 1
    decreases s, 0
  {
    if s == [] then 0
    else
      var r := CmpSlot(s[0], t[0]);
      if r != 0 then r else CmpItems(s[1..], t[1..])
  }

  // ---------- a total order ----------

  /** Swapping the objects flips the sign, and only equal objects compare equal: without
      dictionaries, equal in structure. */
  lemma {:induction false} CmpFlips(a: Obj, b: Obj)
    ensures Cmp(b, a) == -Cmp(a, b)
    ensures Cmp(a, b) == 0 <==> a == b
    decreases a, 1
  {
    match (a, b)
    case (OString(s), OString(t)) => StrcmpOrder(s, t);
    case (OArray(s), OArray(t)) => if |s| == |t| { ItemsFlip(s, t); }
    case _ =>
  }

  lemma {:induction false} SlotFlips(a: Option<Obj>, b: Option<Obj>)
    ensures CmpSlot(b, a) == -CmpSlot(a, b)
    ensures CmpSlot(a, b) == 0 <==> a == b
    decreases a, 2
  {
    if a.Some? && b.Some? {
      CmpFlips(a.value, b.value);
    }
  }

  lemma {:induction false} ItemsFlip(s: seq<Option<Obj>>, t: seq<Option<Obj>>)
    requires |s| == |t|
    ensures CmpItems(t, s) == -CmpItems(s, t)
    ensures CmpItems(s, t) == 0 <==> s == t
    decreases s, 0
  {
    if s != [] {
      SlotFlips(s[0], t[0]);
      ItemsFlip(s[1..], t[1..]);
      assert s == [s[0]] + s[1..] && t == [t[0]] + t[1..];
    }
  }

  lemma {:induction false} CmpTransitive(a: Obj, b: Obj, c: Obj)
    requires Cmp(a, b) <= 0 && Cmp(b, c) <= 0
    ensures Cmp(a, c) <= 0
    ensures Cmp(a, c) == 0 ==> Cmp(a, b) == 0 && Cmp(b, c) == 0
    decreases a, 1
  {
    CmpFlips(a, b);
    CmpFlips(b, c);
    if a != b && b != c {
      match (a, b, c)
      case (OString(s), OString(t), OString(u)) => StrcmpTransitive(s, t, u);
      case (OArray(s), OArray(t), OArray(u)) => if |s| == |t| == |u| { ItemsTransitive(s, t, u); }
      case _ =>
    }
  }

  lemma {:induction false} SlotTransitive(a: Option<Obj>, b: Option<Obj>, c: Option<Obj>)
    requires CmpSlot(a, b) <= 0 && CmpSlot(b, c) <= 0
    ensures CmpSlot(a, c) <= 0
    ensures CmpSlot(a, c) == 0 ==> CmpSlot(a, b) == 0 && CmpSlot(b, c) == 0
    decreases a, 2
  {
    if a.Some? && b.Some? && c.Some? {
      CmpTransitive(a.value, b.value, c.value);
    }
  }

  lemma {:induction false} ItemsTransitive(s: seq<Option<Obj>>, t: seq<Option<Obj>>, u: seq<Option<Obj>>)
    requires |s| == |t| == |u| && CmpItems(s, t) <= 0 && CmpItems(t, u) <= 0
    ensures CmpItems(s, u) <= 0
    ensures CmpItems(s, u) == 0 ==> CmpItems(s, t) == 0 && CmpItems(t, u) == 0
    decreases s, 0
  {
    if s != [] {
      SlotTransitive(s[0], t[0], u[0]);
      if CmpSlot(s[0], t[0]) == 0 && CmpSlot(t[0], u[0]) == 0 {
        ItemsTransitive(s[1..], t[1..], u[1..]);
      }
    }
  }

  /** Reflexive, sign-antisymmetric and transitive over all objects. */
  lemma TotalPreorder(a: Obj, b: Obj, c: Obj)
    ensures Cmp(a, a) == 0 && Cmp(b, a) == -Cmp(a, b)
    ensures Cmp(a, b) <= 0 && Cmp(b, c) <= 0 ==> Cmp(a, c) <= 0
    ensures Cmp(a, b) < 0 && Cmp(b, c) <= 0 ==> Cmp(a, c) < 0
    ensures Cmp(a, b) <= 0 && Cmp(b, c) < 0 ==> Cmp(a, c) < 0
  {
    CmpFlips(a, a);
    CmpFlips(a, b);
    if Cmp(a, b) <= 0 && Cmp(b, c) <= 0 {
      CmpTransitive(a, b, c);
    }
  }

  // ---------- which of two objects is the smaller ----------

  /** The first string is a proper prefix of the second, or has the smaller character where they first
      differ. */
  ghost predicate StringBefore(s: string, t: string) {
    exists k: nat :: k <= |s| && k <= |t| && s[..k] == t[..k]
                     && ((k == |s| && k < |t|) || (k < |s| && k < |t| && s[k] < t[k]))
  }

  /** By kind none, integer, string, array, dictionary; integers and addresses by value; of two arrays the
      shorter one, or the one with the smaller item where they first differ, an empty slot before any object. */
  ghost predicate ObjectBefore(a: Obj, b: Obj)
    decreases a, 1
  {
    match (a, b)
    case (ONone, ONone) => false
    case (ONone, _) => true
    case (OInt(m), OInt(n)) => m < n
    case (OInt(_), _) => b.OString? || b.OArray? || b.ODict?
    case (OString(s), OString(t)) => StringBefore(s, t)
    case (OString(_), _) => b.OArray? || b.ODict?
    case (OArray(s), OArray(t)) =>
      |s| < |t|
      || (|s| == |t| && exists k: nat :: k < |s| && s[..k] == t[..k] && SlotBefore(s[k], t[k]))
    case (OArray(_), _) => b.ODict?
    case (ODict(x), ODict(y)) => x < y
    case (ODict(_), _) => false
  }

  ghost predicate SlotBefore(a: Option<Obj>, b: Option<Obj>)
    decreases a, 2
  {
    b.Some? && (a.None? || ObjectBefore(a.value, b.value))
  }

  /** The comparison is negative exactly if the first object comes before the second. */
  lemma {:induction false} CmpIsBefore(a: Obj, b: Obj)
    ensures Cmp(a, b) < 0 <==> ObjectBefore(a, b)
    decreases a, 1
  {
    match (a, b)
    case (OString(s), OString(t)) => StringIsBefore(s, t);
    case (OArray(s), OArray(t)) => if |s| == |t| { ItemsBefore(s, t); Spelled(s, t); }
    case _ =>
  }

  lemma {:induction false} SlotIsBefore(a: Option<Obj>, b: Option<Obj>)
    ensures CmpSlot(a, b) < 0 <==> SlotBefore(a, b)
    decreases a, 2
  {
    if a.Some? && b.Some? {
      CmpIsBefore(a.value, b.value);
    }
  }

  ghost predicate DiffersAt(s: seq<Option<Obj>>, t: seq<Option<Obj>>, k: nat)
    requires |s| == |t|
  {
    k < |s| && s[..k] == t[..k] && SlotBefore(s[k], t[k])
  }

  lemma Spelled(s: seq<Option<Obj>>, t: seq<Option<Obj>>)
    requires |s| == |t|
    ensures (exists k: nat :: DiffersAt(s, t, k))
            <==> exists k: nat :: k < |s| && s[..k] == t[..k] && SlotBefore(s[k], t[k])
  {
    hide SlotBefore;
    if k: nat :| DiffersAt(s, t, k) {
      assert s[..k] == t[..k] && SlotBefore(s[k], t[k]);
    }
    if k: nat :| k < |s| && s[..k] == t[..k] && SlotBefore(s[k], t[k]) {
      assert DiffersAt(s, t, k);
    }
  }

  lemma {:induction false} ItemsBefore(s: seq<Option<Obj>>, t: seq<Option<Obj>>)
    requires |s| == |t|
    ensures CmpItems(s, t) < 0 <==> exists k: nat :: DiffersAt(s, t, k)
    decreases s, 0
  {
    if s != [] {
      hide Cmp, SlotBefore;
      SlotFlips(s[0], t[0]);
      SlotIsBefore(s[0], t[0]);
      if s[0] == t[0] {
        ItemsBefore(s[1..], t[1..]);
        DiffersLater(s, t);
      } else {
        DiffersFirst(s, t);
      }
    }
  }

  lemma {:induction false} DiffersLater(s: seq<Option<Obj>>, t: seq<Option<Obj>>)
    requires |s| == |t| && s != [] && s[0] == t[0] && !SlotBefore(s[0], t[0])
    ensures (exists k: nat :: DiffersAt(s, t, k)) <==> exists k: nat :: DiffersAt(s[1..], t[1..], k)
  {
    hide SlotBefore;
    if k: nat :| DiffersAt(s, t, k) {
      assert s[1..][..k - 1] == s[..k][1..] && t[1..][..k - 1] == t[..k][1..];
      assert DiffersAt(s[1..], t[1..], k - 1);
    }
    if k: nat :| DiffersAt(s[1..], t[1..], k) {
      assert s[..k + 1] == [s[0]] + s[1..][..k] && t[..k + 1] == [t[0]] + t[1..][..k];
      assert DiffersAt(s, t, k + 1);
    }
  }

  lemma {:induction false} DiffersFirst(s: seq<Option<Obj>>, t: seq<Option<Obj>>)
    requires |s| == |t| && s != []
    ensures s[0] != t[0] ==> ((exists k: nat :: DiffersAt(s, t, k)) <==> SlotBefore(s[0], t[0]))
  {
    hide SlotBefore;
    assert s[..0] == t[..0];
    assert DiffersAt(s, t, 0) <==> SlotBefore(s[0], t[0]);
    forall k: nat | DiffersAt(s, t, k) && k > 0 ensures s[0] == t[0] {
      assert s[..k][0] == t[..k][0];
    }
  }

  // ---------- deep copies ----------

  predicate DictFree(a: Obj)
    decreases a
  {
    match a
    case ODict(_) => false
    case OArray(items) => forall i :: 0 <= i < |items| ==> items[i].Some? ==> DictFree(items[i].value)
    case _ => true
  }

  /** What a deep copy gives: the same structure, with every dictionary at an address of its own. */
  predicate IsCopy(a: Obj, b: Obj)
    decreases a
  {
    match (a, b)
    case (ODict(x), ODict(y)) => x != y
    case (OArray(s), OArray(t)) =>
      && |s| == |t|
      && forall i :: 0 <= i < |s| ==>
           (s[i].None? && t[i].None?) || (s[i].Some? && t[i].Some? && IsCopy(s[i].value, t[i].value))
    case _ => a == b
  }

  /** A copy compares equal to its source exactly if the source holds no dictionary. */
  lemma {:induction false} CopyComparesEqual(a: Obj, b: Obj)
    requires IsCopy(a, b)
    ensures Cmp(a, b) == 0 <==> DictFree(a)
    decreases a
  {
    CmpFlips(a, b);
    match (a, b)
    case (OArray(s), OArray(t)) =>
      forall i | 0 <= i < |s| && s[i].Some? ensures s[i] == t[i] <==> DictFree(s[i].value) {
        CopyComparesEqual(s[i].value, t[i].value);
        CmpFlips(s[i].value, t[i].value);
      }
      if DictFree(a) {
        assert forall i :: 0 <= i < |s| ==> s[i] == t[i];
        assert s == t;
      }
    case _ =>
  }

  // ---------- the source's comparisons ----------

  lemma {:induction false} StrcmpByPrefix(s: string, t: string, k: nat)
    requires k == if |s| < |t| then |s| else |t|
    ensures Strcmp(s, t) == if Strcmp(s[..k], t[..k]) != 0 then Strcmp(s[..k], t[..k]) else Sign(|s|, |t|)
  {
    if k > 0 {
      StrcmpByPrefix(s[1..], t[1..], k - 1);
      assert s[..k][1..] == s[1..][..k - 1] && t[..k][1..] == t[1..][..k - 1];
    }
  }

  lemma StringIsBefore(s: string, t: string)
    ensures Strcmp(s, t) < 0 <==> StringBefore(s, t)
  {
    StrcmpFirst(s, t);
  }

  /** mstring_cmp; memcmp compares the common length. */
  method StringCmp(s: string, t: string) returns (r: int)
    ensures Sign(r, 0) == Sign(Strcmp(s, t), 0)
    ensures (r < 0 <==> StringBefore(s, t)) && (r == 0 <==> s == t) && (r > 0 <==> StringBefore(t, s))
  {
    hide StringBefore;
    StrcmpOrder(s, t);
    StringIsBefore(s, t);
    StringIsBefore(t, s);
    if |s| == 0 && |t| == 0 {
      return 0;
    }
    if |s| == 0 {
      return -1;
    }
    if |t| == 0 {
      return 1;
    }
    var n := if |s| < |t| then |s| else |t|;
    StrcmpByPrefix(s, t, n);
    r := Strcmp(s[..n], t[..n]);
    if r != 0 {
      return;
    }
    if |s| > |t| {
      return 1;
    }
    r := if |t| > |s| then -1 else 0;
  }

  /** marray_cmp */
  method ArrayCmp(s: seq<Option<Obj>>, t: seq<Option<Obj>>) returns (r: int)
    ensures Sign(r, 0) == Cmp(OArray(s), OArray(t))
    decreases s, 0
  {
    if |s| != |t| {
      return if |s| < |t| then -1 else 1;
    }
    var i := 0;
    assert s[0..] == s && t[0..] == t;
    while i < |s|
      invariant 0 <= i <= |s| && CmpItems(s, t) == CmpItems(s[i..], t[i..])
    {
      assert s[i..][1..] == s[i + 1..] && t[i..][1..] == t[i + 1..];
      if s[i].None? {
        if t[i].None? {
          i := i + 1;
          continue;
        }
        return -1;
      }
      if t[i].None? {
        return 1;
      }
      r := ObjectCmp(s[i].value, t[i].value);
      if r != 0 {
        return;
      }
      i := i + 1;
    }
    r := 0;
  }

  /** mobject_cmp decides the order. Its shortcut for identical pointers agrees with it, because an
      object compares equal to itself. */
  method ObjectCmp(a: Obj, b: Obj) returns (r: int)
    ensures Sign(r, 0) == Cmp(a, b)
    ensures (r < 0 <==> ObjectBefore(a, b)) && (r == 0 <==> a == b) && (r > 0 <==> ObjectBefore(b, a))
    decreases a, 1
  {
    hide ObjectBefore;
    CmpFlips(a, b);
    CmpIsBefore(a, b);
    CmpIsBefore(b, a);
    if Rank(a) != Rank(b) {
      return if Rank(a) < Rank(b) then -1 else 1;
    }
    match (a, b) {
      case (OInt(m), OInt(n)) => r := if m == n then 0 else if m < n then -1 else 1;
      case (OString(s), OString(t)) => r := StringCmp(s, t);
      case (OArray(s), OArray(t)) => r := ArrayCmp(s, t);
      case (ODict(x), ODict(y)) => r := if x == y then 0 else if x < y then -1 else 1;
      case _ => r := 0;
    }
  }
}
