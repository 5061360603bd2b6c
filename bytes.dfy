/** Python `bytes` values and their built-in ordering.

    A byte is an unsigned integer in 0..255. Python compares two `bytes`
    objects lexicographically: the first position where they differ decides,
    by the unsigned values of the two bytes there, and when one sequence is a
    proper prefix of the other, the shorter one sorts first. */
module Bytes {

  newtype Byte = b: int | 0 <= b < 256

  /** Python's `a < b` on two byte strings, one position at a time. */
  predicate Less(a: seq<Byte>, b: seq<Byte>)
  {
    if |a| == 0 then |b| > 0
    else if |b| == 0 then false
    else if a[0] != b[0] then a[0] < b[0]
    else Less(a[1..], b[1..])
  }

  /** `a` is a strictly shorter start of `b`. */
  ghost predicate IsProperPrefix(a: seq<Byte>, b: seq<Byte>)
  {
    |a| < |b| && a == b[..|a|]
  }

  /** `i` is the first position at which `a` and `b` hold different bytes. */
  ghost predicate FirstDifferenceAt(a: seq<Byte>, b: seq<Byte>, i: nat)
  {
    i < |a| && i < |b| && a[..i] == b[..i] && a[i] != b[i]
  }

  /** The textbook definition of the lexicographic order, independent of how
      `Less` walks the sequences. */
  ghost predicate LexicographicallyBefore(a: seq<Byte>, b: seq<Byte>)
  {
    || IsProperPrefix(a, b)
    || exists i: nat :: FirstDifferenceAt(a, b, i) && a[i] < b[i]
  }

  /** Sequences that share their first byte differ first where their tails do,
      one position further on. */
  lemma FirstDifferenceOfTails(a: seq<Byte>, b: seq<Byte>, i: nat)
    requires |a| > 0 && |b| > 0 && a[0] == b[0]
    ensures FirstDifferenceAt(a, b, i + 1) <==> FirstDifferenceAt(a[1..], b[1..], i)
  {
  }

  /** `Less` is exactly the lexicographic order, prefixes first. */
  lemma {:induction false} LessIsLexicographic(a: seq<Byte>, b: seq<Byte>)
    ensures Less(a, b) <==> LexicographicallyBefore(a, b)
    decreases |a|
  {
    if |a| == 0 {
      assert a == b[..0];
      assert forall i: nat :: !FirstDifferenceAt(a, b, i);
    } else if |b| == 0 {
      assert forall i: nat :: !FirstDifferenceAt(a, b, i);
    } else if a[0] != b[0] {
      assert FirstDifferenceAt(a, b, 0);
      assert !IsProperPrefix(a, b) by {
        if |a| < |b| { assert b[..|a|][0] == b[0]; }
      }
      forall i: nat | 0 < i <= |a| && i <= |b| ensures a[..i] != b[..i] {
        assert a[..i][0] != b[..i][0];
      }
    } else {
      LessIsLexicographic(a[1..], b[1..]);
      assert IsProperPrefix(a, b) <==> IsProperPrefix(a[1..], b[1..]) by {
        if |a| < |b| {
          assert b[..|a|] == [b[0]] + b[1..][..|a| - 1];
          assert a == [a[0]] + a[1..];
        }
      }
      assert !FirstDifferenceAt(a, b, 0);
      if exists i: nat :: FirstDifferenceAt(a, b, i) && a[i] < b[i] {
        var i: nat :| FirstDifferenceAt(a, b, i) && a[i] < b[i];
        FirstDifferenceOfTails(a, b, i - 1);
        assert FirstDifferenceAt(a[1..], b[1..], i - 1) && a[1..][i - 1] < b[1..][i - 1];
      }
      if exists j: nat :: FirstDifferenceAt(a[1..], b[1..], j) && a[1..][j] < b[1..][j] {
        var j: nat :| FirstDifferenceAt(a[1..], b[1..], j) && a[1..][j] < b[1..][j];
        FirstDifferenceOfTails(a, b, j);
        assert FirstDifferenceAt(a, b, j + 1) && a[j + 1] < b[j + 1];
      }
    }
  }

  /** Where two byte strings first differ, the byte there decides the order,
      in both directions. */
  lemma DecidedAtFirstDifference(a: seq<Byte>, b: seq<Byte>, i: nat)
    requires FirstDifferenceAt(a, b, i)
    ensures Less(a, b) <==> a[i] < b[i]
    ensures Less(b, a) <==> b[i] < a[i]
  {
    LessIsLexicographic(a, b);
    LessIsLexicographic(b, a);
    assert FirstDifferenceAt(b, a, i);
    assert !IsProperPrefix(a, b) && !IsProperPrefix(b, a) by {
      assert a[..i + 1][i] != b[..i + 1][i];
    }
    forall j: nat | j < i ensures a[j] == b[j] {
      assert a[..i][j] == b[..i][j];
    }
    forall j: nat | i < j <= |a| && j <= |b| ensures a[..j] != b[..j] {
      assert a[..j][i] != b[..j][i];
    }
  }

  /** A proper prefix sorts before the longer sequence, and not after it. */
  lemma ProperPrefixIsLess(a: seq<Byte>, b: seq<Byte>)
    requires IsProperPrefix(a, b)
    ensures Less(a, b) && !Less(b, a)
  {
  }

  lemma {:induction false} LessIrreflexive(a: seq<Byte>)
    ensures !Less(a, a)
    decreases |a|
  {
    if |a| > 0 {
      LessIrreflexive(a[1..]);
    }
  }

  lemma {:induction false} LessAsymmetric(a: seq<Byte>, b: seq<Byte>)
    ensures Less(a, b) ==> !Less(b, a)
    decreases |a|
  {
    if |a| > 0 && |b| > 0 && a[0] == b[0] {
      LessAsymmetric(a[1..], b[1..]);
    }
  }

  lemma {:induction false} LessTransitive(a: seq<Byte>, b: seq<Byte>, c: seq<Byte>)
    requires Less(a, b) && Less(b, c)
    ensures Less(a, c)
    decreases |a|
  {
    if |a| > 0 && a[0] == b[0] && b[0] == c[0] {
      LessTransitive(a[1..], b[1..], c[1..]);
    }
  }

  /** Any two different byte strings are ordered one way or the other. */
  lemma {:induction false} LessConnected(a: seq<Byte>, b: seq<Byte>)
    requires a != b
    ensures Less(a, b) || Less(b, a)
    decreases |a|
  {
    if |a| > 0 && |b| > 0 && a[0] == b[0] {
      assert a == [a[0]] + a[1..] && b == [b[0]] + b[1..];
      LessConnected(a[1..], b[1..]);
    }
  }
}
