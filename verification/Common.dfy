/** The few definitions every module shares. */
module Common {
  datatype Option<+T> = None | Some(value: T)

  datatype Result<+T, +E> = Ok(value: T) | Error(error: E)

  function Max(a: real, b: real): real { if a >= b then a else b }

  function Min(a: real, b: real): real { if a <= b then a else b }

  function MaxInt(a: int, b: int): int { if a >= b then a else b }

  function Pow2(n: nat): nat { if n == 0 then 1 else 2 * Pow2(n - 1) }

  /** Texts in the order of their characters. */
  function Less(a: string, b: string): bool {
    if b == "" then false
    else if a == "" then true
    else if a[0] == b[0] then Less(a[1..], b[1..])
    else a[0] < b[0]
  }

  lemma {:induction false} LessIsTotal(a: string, b: string)
    ensures Less(a, b) || Less(b, a) || a == b
  {
    if a != "" && b != "" && a[0] == b[0] {
      LessIsTotal(a[1..], b[1..]);
      assert a == [a[0]] + a[1..] && b == [b[0]] + b[1..];
    }
  }

  lemma {:induction false} LessIsTransitive(a: string, b: string, c: string)
    requires Less(a, b) && Less(b, c)
    ensures Less(a, c)
  {
    if a != "" && a[0] == b[0] && b[0] == c[0] { LessIsTransitive(a[1..], b[1..], c[1..]); }
  }

  lemma {:induction false} LessIsAsymmetric(a: string, b: string)
    ensures !(Less(a, b) && Less(b, a))
  {
    if a != "" && b != "" && a[0] == b[0] { LessIsAsymmetric(a[1..], b[1..]); }
  }

  /** The first text ends within the second, or has the lesser character where they first differ. */
  lemma {:induction false} LessIsLexicographic(a: string, b: string)
    ensures Less(a, b) <==> exists n: nat :: DiffersAt(a, b, n) && (n == |a| || (n < |b| && a[n] < b[n]))
  {
    if a == "" {
      if b != "" { assert DiffersAt(a, b, 0); }
    } else if b == "" {
      assert forall n: nat :: DiffersAt(a, b, n) ==> n == 0;
    } else if a[0] != b[0] {
      assert DiffersAt(a, b, 0);
      forall n: nat | 0 < n <= |a| && n <= |b| ensures a[..n] != b[..n] {
        assert a[..n][0] == a[0] && b[..n][0] == b[0];
      }
    } else {
      LessIsLexicographic(a[1..], b[1..]);
      forall n: nat ensures DiffersAt(a, b, n + 1) <==> DiffersAt(a[1..], b[1..], n) {
        if n < |a| && n < |b| { SamePrefixes(a, b, n); }
      }
      assert !DiffersAt(a, b, 0);
      if n: nat :| DiffersAt(a[1..], b[1..], n) && (n == |a[1..]| || (n < |b[1..]| && a[1..][n] < b[1..][n])) {
        assert DiffersAt(a, b, n + 1);
      }
      if n: nat :| DiffersAt(a, b, n) && (n == |a| || (n < |b| && a[n] < b[n])) {
        assert n > 0 && DiffersAt(a[1..], b[1..], n - 1);
      }
    }
  }

  /** The texts agree up to n, and there one ends or they differ. */
  predicate DiffersAt(a: string, b: string, n: nat) {
    n <= |a| && n <= |b| && a[..n] == b[..n] && a != b && (n < |a| && n < |b| ==> a[n] != b[n])
  }

  lemma SamePrefixes(a: string, b: string, n: nat)
    requires n < |a| && n < |b| && a[0] == b[0]
    ensures a[..n + 1] == b[..n + 1] <==> a[1..][..n] == b[1..][..n]
    ensures a == b <==> a[1..] == b[1..]
  {
    assert a[..n + 1] == [a[0]] + a[1..][..n] && b[..n + 1] == [b[0]] + b[1..][..n];
    assert a == [a[0]] + a[1..] && b == [b[0]] + b[1..];
    if a[..n + 1] == b[..n + 1] { assert a[1..][..n] == a[..n + 1][1..] && b[1..][..n] == b[..n + 1][1..]; }
  }
}
