/** The few string operations the pollers use: lower-casing of hex addresses and lexicographic order. */
module Text {
  function LowerChar(c: char): char {
    if 'A' <= c <= 'Z' then c - 'A' + 'a' else c
  }

  function Lower(s: string): string {
    seq(|s|, i requires 0 <= i < |s| => LowerChar(s[i]))
  }

  const UPPER := "ABCDEFGHIJKLMNOPQRSTUVWXYZ"
  const LOWER := "abcdefghijklmnopqrstuvwxyz"

  /** The 26 capitals become the letters at the same place of the other alphabet. */
  lemma CapitalsAreLowered(s: string, i: nat, n: nat)
    requires i < |s| && n < 26 && s[i] == UPPER[n]
    ensures |Lower(s)| == |s| && Lower(s)[i] == LOWER[n]
  {
  }

  lemma CapitalIsListed(c: char)
    requires 'A' <= c <= 'Z'
    ensures c in UPPER
  {
    assert UPPER[(c - 'A') as int] == c;
  }

  lemma OthersAreKept(s: string, i: nat)
    requires i < |s| && s[i] !in UPPER
    ensures |Lower(s)| == |s| && Lower(s)[i] == s[i]
  {
    if 'A' <= s[i] <= 'Z' {
      CapitalIsListed(s[i]);
    }
  }

  /** Lexicographic order, as `String` compares. */
  predicate Le(a: string, b: string) {
    a == "" || (b != "" && (a[0] < b[0] || (a[0] == b[0] && Le(a[1..], b[1..]))))
  }

  lemma {:induction false} LeIsTotal(a: string, b: string)
    ensures Le(a, b) || Le(b, a)
  {
    if a != "" && b != "" && a[0] == b[0] {
      LeIsTotal(a[1..], b[1..]);
    }
  }

  lemma {:induction false} LeIsAntisymmetric(a: string, b: string)
    requires Le(a, b) && Le(b, a)
    ensures a == b
  {
    if a != "" {
      LeIsAntisymmetric(a[1..], b[1..]);
      assert a == [a[0]] + a[1..] && b == [b[0]] + b[1..];
    }
  }

  lemma {:induction false} LeIsTransitive(a: string, b: string, c: string)
    requires Le(a, b) && Le(b, c)
    ensures Le(a, c)
  {
    if a != "" && a[0] == b[0] && b[0] == c[0] {
      LeIsTransitive(a[1..], b[1..], c[1..]);
    }
  }

  /** `a` ends, or holds the smaller character, where the two first differ. */
  ghost predicate Precedes(a: string, b: string) {
    exists n: nat :: DiffersAt(a, b, n)
  }

  predicate DiffersAt(a: string, b: string, n: nat) {
    n <= |a| && n < |b| && a[..n] == b[..n] && (n == |a| || a[n] < b[n])
  }

  lemma {:induction false} PrecedesIsLe(a: string, b: string, n: nat)
    requires DiffersAt(a, b, n)
    ensures Le(a, b) && a != b
  {
    if n > 0 {
      assert a[0] == a[..n][0] == b[..n][0] == b[0];
      assert a[1..][..n - 1] == a[..n][1..] && b[1..][..n - 1] == b[..n][1..];
      PrecedesIsLe(a[1..], b[1..], n - 1);
    }
  }

  /** The order compares the first characters that differ; a proper prefix comes first. */
  lemma {:induction false} LeExactly(a: string, b: string)
    ensures Le(a, b) <==> a == b || Precedes(a, b)
  {
    if n: nat :| DiffersAt(a, b, n) {
      PrecedesIsLe(a, b, n);
    }
    if Le(a, b) {
      if a == "" || b == "" || a[0] < b[0] {
        assert b != "" ==> DiffersAt(a, b, 0);
      } else {
        assert a == [a[0]] + a[1..] && b == [b[0]] + b[1..];
        LeExactly(a[1..], b[1..]);
        if n: nat :| DiffersAt(a[1..], b[1..], n) {
          assert a[..n + 1] == [a[0]] + a[1..][..n] && b[..n + 1] == [b[0]] + b[1..][..n];
          assert DiffersAt(a, b, n + 1);
        }
      }
    } else if a == b {
      LeIsTotal(a, b);
    }
  }
}
