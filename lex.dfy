/** The ordering Python uses for `str` values: code point by code point from
    the left, and a proper prefix before any of its extensions. The record
    store sorts by this order on its date and time strings; no calendar or
    clock meaning is given to them. */
module Lex {

  /** `a < b` on Python strings. A proper prefix comes before every
      extension of it. */
  predicate Less(a: string, b: string)
    ensures |a| < |b| && a == b[..|a|] ==> Less(a, b)
  {
    if a == [] then b != []
    else if b == [] then false
    else a[0] < b[0] || (a[0] == b[0] && Less(a[1..], b[1..]))
  }

  /** The same order stated without recursion: `a` is a proper prefix of `b`,
      or at the first position where the two differ `a` holds the smaller
      code point. */
  ghost predicate LessAtFirstDifference(a: string, b: string)
  {
    (|a| < |b| && a == b[..|a|]) ||
    (exists i :: 0 <= i < |a| && i < |b| && a[..i] == b[..i] && a[i] < b[i])
  }

  lemma LessIsFirstDifference(a: string, b: string)
    ensures Less(a, b) <==> LessAtFirstDifference(a, b)
  {
    if Less(a, b) {
      LessGivesFirstDifference(a, b);
    }
    if LessAtFirstDifference(a, b) {
      FirstDifferenceGivesLess(a, b);
    }
  }

  lemma {:induction false} LessGivesFirstDifference(a: string, b: string)
    requires Less(a, b)
    ensures LessAtFirstDifference(a, b)
  {
    if a == [] {
    } else if a[0] < b[0] {
      assert a[..0] == b[..0];
    } else {
      var a', b' := a[1..], b[1..];
      LessGivesFirstDifference(a', b');
      if |a'| < |b'| && a' == b'[..|a'|] {
        assert a == [a[0]] + a';
        assert b[..|a|] == [b[0]] + b'[..|a'|];
      } else {
        var i :| 0 <= i < |a'| && i < |b'| && a'[..i] == b'[..i] && a'[i] < b'[i];
        assert a[..i + 1] == [a[0]] + a'[..i];
        assert b[..i + 1] == [b[0]] + b'[..i];
        assert a[i + 1] < b[i + 1];
      }
    }
  }

  lemma {:induction false} FirstDifferenceGivesLess(a: string, b: string)
    requires LessAtFirstDifference(a, b)
    ensures Less(a, b)
  {
    if |a| < |b| && a == b[..|a|] {
      if a != [] {
        assert a[0] == b[0];
        assert a[1..] == b[1..][..|a| - 1];
        FirstDifferenceGivesLess(a[1..], b[1..]);
      }
    } else {
      var i :| 0 <= i < |a| && i < |b| && a[..i] == b[..i] && a[i] < b[i];
      if i > 0 {
        assert a[0] == a[..i][0] == b[..i][0] == b[0];
        var a', b' := a[1..], b[1..];
        assert a'[..i - 1] == a[..i][1..] == b[..i][1..] == b'[..i - 1];
        assert a'[i - 1] < b'[i - 1];
        FirstDifferenceGivesLess(a', b');
      }
    }
  }

  lemma {:induction false} LessIrreflexive(a: string)
    ensures !Less(a, a)
  {
    if a != [] {
      LessIrreflexive(a[1..]);
    }
  }

  lemma {:induction false} LessTransitive(a: string, b: string, c: string)
    requires Less(a, b) && Less(b, c)
    ensures Less(a, c)
  {
    if a != [] && a[0] == b[0] && b[0] == c[0] {
      LessTransitive(a[1..], b[1..], c[1..]);
    }
  }

  /** Any two strings are comparable: the order is total. */
  lemma {:induction false} LessTrichotomy(a: string, b: string)
    ensures Less(a, b) || a == b || Less(b, a)
  {
    if a != [] && b != [] && a[0] == b[0] {
      LessTrichotomy(a[1..], b[1..]);
      assert a == [a[0]] + a[1..];
      assert b == [b[0]] + b[1..];
    }
  }

  /** A common prefix does not change the comparison. */
  lemma {:induction false} LessAfterPrefix(p: string, a: string, b: string)
    ensures Less(p + a, p + b) <==> Less(a, b)
  {
    if p == [] {
      assert p + a == a && p + b == b;
    } else {
      assert (p + a)[0] == p[0] == (p + b)[0];
      assert (p + a)[1..] == p[1..] + a;
      assert (p + b)[1..] == p[1..] + b;
      LessAfterPrefix(p[1..], a, b);
    }
  }
}
