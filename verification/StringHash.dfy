/** string_hash.c: which shard of the parallel database a key goes to. */
module StringHash {
  import opened Keys
  import opened Powers

  const MAX_HASH := 16

  /** A `char` is signed. */
  function CharValue(c: char): int {
    var b := (c as int) % 0x100;
    if b < 0x80 then b else b - 0x100
  }

  /** The arithmetic shift `c >> n`; Dafny's division by a positive number rounds down. */
  function Shifted(c: char, n: nat): int {
    CharValue(c) / Pow2(n)
  }

  /** The sum over the first `n` characters. */
  ghost function Sum(s: Key, n: nat): int
    requires n <= |s|
  {
    if n == 0 then 0 else Sum(s, n - 1) + Shifted(s[n - 1], (n - 1) / 2)
  }

  ghost function Hash(s: Key): (h: nat)
    ensures h < 0x100
  {
    Sum(s, if |s| < MAX_HASH then |s| else MAX_HASH) % 0x100
  }

  method ComputeHash(s: Key) returns (h: nat)
    ensures h == Hash(s)
  {
    var result, n := 0, 0;
    while n < |s| && n < MAX_HASH
      invariant n <= |s| && n <= MAX_HASH && result == Sum(s, n)
    {
      result := result + Shifted(s[n], n / 2);
      n := n + 1;
    }
    h := result % 0x100;
  }

  /** Characters past the sixteenth do not choose the shard. */
  lemma {:induction false} SumPrefix(s: Key, t: Key, n: nat)
    requires n <= |s| && n <= |t| && s[..n] == t[..n]
    ensures Sum(s, n) == Sum(t, n)
  {
    if n > 0 {
      assert s[..n - 1] == s[..n][..n - 1] && t[..n - 1] == t[..n][..n - 1];
      assert s[n - 1] == s[..n][n - 1] && t[n - 1] == t[..n][n - 1];
      SumPrefix(s, t, n - 1);
    }
  }

  lemma LongKeysShareShard(s: Key, t: Key)
    requires |s| >= MAX_HASH && |t| >= MAX_HASH && s[..MAX_HASH] == t[..MAX_HASH]
    ensures Hash(s) == Hash(t)
  {
    SumPrefix(s, t, MAX_HASH);
  }

  // ---------- the sum, written out ----------

  lemma {:induction false} CharValueIs(c: char)
    requires c as int < 0x100
    ensures CharValue(c) == if c as int < 128 then c as int else c as int - 256
  {
  }

  /** Each character is shifted by half its place. */
  lemma {:induction false} SixteenCharacters(s: Key)
    requires |s| >= 16
    ensures var c := (i: nat) requires i < |s| => CharValue(s[i]);
      Hash(s) == (c(0) + c(1) + c(2) / 2 + c(3) / 2 + c(4) / 4 + c(5) / 4 + c(6) / 8 + c(7) / 8
                  + c(8) / 16 + c(9) / 16 + c(10) / 32 + c(11) / 32 + c(12) / 64 + c(13) / 64
                  + c(14) / 128 + c(15) / 128) % 256
  {
    hide CharValue;
    assert Pow2(0) == 1 && Pow2(1) == 2 && Pow2(2) == 4 && Pow2(3) == 8;
    assert Pow2(4) == 16 && Pow2(5) == 32 && Pow2(6) == 64 && Pow2(7) == 128;
    HalfSum(s);
  }

  lemma {:induction false} HalfSum(s: Key)
    requires |s| >= 16
    ensures Sum(s, 8) == Shifted(s[0], 0) + Shifted(s[1], 0) + Shifted(s[2], 1) + Shifted(s[3], 1)
                         + Shifted(s[4], 2) + Shifted(s[5], 2) + Shifted(s[6], 3) + Shifted(s[7], 3)
    ensures Sum(s, 16) == Sum(s, 8) + Shifted(s[8], 4) + Shifted(s[9], 4) + Shifted(s[10], 5) + Shifted(s[11], 5)
                          + Shifted(s[12], 6) + Shifted(s[13], 6) + Shifted(s[14], 7) + Shifted(s[15], 7)
  {
    hide Sum, Shifted;
    assert Sum(s, 0) == 0 by { NoSum(s); }
    TwoMore(s, 0);
    TwoMore(s, 1);
    TwoMore(s, 2);
    TwoMore(s, 3);
    TwoMore(s, 4);
    TwoMore(s, 5);
    TwoMore(s, 6);
    TwoMore(s, 7);
  }

  lemma NoSum(s: Key)
    ensures Sum(s, 0) == 0
  {
  }

  lemma {:induction false} TwoMore(s: Key, k: nat)
    requires 2 * k + 2 <= |s|
    ensures Sum(s, 2 * k + 2) == Sum(s, 2 * k) + Shifted(s[2 * k], k) + Shifted(s[2 * k + 1], k)
  {
    hide Shifted;
    assert Sum(s, 2 * k + 2) == Sum(s, 2 * k + 1) + Shifted(s[2 * k + 1], (2 * k + 1) / 2);
  }

  /** A shorter key hashes as if NUL characters followed. */
  lemma {:induction false} PaddedHash(s: Key, pad: Key)
    requires |s| + |pad| <= 16 && forall i :: 0 <= i < |pad| ==> pad[i] == '\0'
    ensures Hash(s + pad) == Hash(s)
  {
    PaddedSum(s, pad, |pad|);
  }

  lemma {:induction false} NulAddsNothing(n: nat)
    ensures Shifted('\0', n) == 0
  {
    hide Pow2;
    assert CharValue('\0') == 0;
  }

  lemma {:induction false} PaddedSum(s: Key, pad: Key, n: nat)
    requires n <= |pad| && forall i :: 0 <= i < |pad| ==> pad[i] == '\0'
    ensures Sum(s + pad, |s| + n) == Sum(s, |s|)
  {
    if n == 0 {
      SumPrefix(s + pad, s, |s|);
    } else {
      hide Shifted;
      PaddedSum(s, pad, n - 1);
      assert (s + pad)[|s| + n - 1] == pad[n - 1];
      NulAddsNothing((|s| + n - 1) / 2);
    }
  }
}
