/** Sequences put together and taken apart. */
module Sequences {
  /** `s'` is `s` less the element at `pos`. */
  ghost predicate LeavesOut<T>(s: seq<T>, s': seq<T>, pos: nat) {
    pos < |s| && s' == s[..pos] + s[pos + 1..]
  }

  lemma {:induction false} CutOut<T>(a: seq<T>, x: T, b: seq<T>)
    ensures LeavesOut(a + [x] + b, a + b, |a|) && (a + [x] + b)[|a|] == x
  {
    var s := a + [x] + b;
    assert s[..|a|] == a && s[|a| + 1..] == b;
  }

  lemma {:induction false} JoinedAt<T>(a: seq<T>, x: T, b: seq<T>, pos: nat)
    requires pos < |a + [x] + b|
    ensures (a + [x] + b)[pos] == if pos < |a| then a[pos] else if pos == |a| then x else b[pos - |a| - 1]
  {
  }

  lemma {:induction false} Assoc<T>(a: seq<T>, b: seq<T>, c: seq<T>)
    ensures (a + b) + c == a + (b + c)
  {
  }

  lemma {:induction false} Regroup<T>(a: seq<T>, b: seq<T>, c: seq<T>, d: seq<T>, e: seq<T>)
    ensures a + (b + c + d) + e == a + b + (c + d + e)
    ensures a + (b + c + d) + e == (a + b + c) + d + e
    ensures a + (b + c + d) + e == (a + b) + c + (d + e)
  {
  }
}
