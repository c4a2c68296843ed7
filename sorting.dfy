/** The order of `sort_records`: records compared by the pair (date, time),
    date first, each string by Python's string order; the description plays
    no part. `Sort` is a stable insertion sort, and `SortIsTheStableSort`
    shows that every stable sort by this key, Python's `list.sort` among
    them, produces the same sequence. */
module Sorting {
  import Lex
  import opened Records

  /** The tuple comparison `(x.date, x.time) < (y.date, y.time)`: the first
      component that differs decides, and equal tuples are not smaller. The
      result is the lexicographic order on the pair, date first. */
  function KeyLess(x: Record, y: Record): (r: bool)
    ensures r <==> Lex.Less(x.date, y.date) || (x.date == y.date && Lex.Less(x.time, y.time))
  {
    Lex.LessIrreflexive(x.date);
    Lex.LessIrreflexive(x.time);
    if x.date != y.date then Lex.Less(x.date, y.date)
    else if x.time != y.time then Lex.Less(x.time, y.time)
    else false
  }

  predicate SameKey(x: Record, y: Record)
  {
    x.date == y.date && x.time == y.time
  }

  /** The records whose sort key is (date, time). */
  function HasKey(date: string, time: string): Record -> bool
  {
    (x: Record) => x.date == date && x.time == time
  }

  /** Ascending by key: no record is followed by one with a smaller key. */
  ghost predicate Sorted(s: seq<Record>)
  {
    forall i, j :: 0 <= i < j < |s| ==> !KeyLess(s[j], s[i])
  }

  /** Records with one and the same key appear in `r` in the order they
      have in `s`, for every key. */
  ghost predicate SameOrderPerKey(r: seq<Record>, s: seq<Record>)
  {
    forall date, time :: Filter(r, HasKey(date, time)) == Filter(s, HasKey(date, time))
  }

  lemma KeyLessIrreflexive(x: Record)
    ensures !KeyLess(x, x)
  {
    Lex.LessIrreflexive(x.date);
    Lex.LessIrreflexive(x.time);
  }

  lemma KeyLessTransitive(x: Record, y: Record, z: Record)
    requires KeyLess(x, y) && KeyLess(y, z)
    ensures KeyLess(x, z)
  {
    if Lex.Less(x.date, y.date) && Lex.Less(y.date, z.date) {
      Lex.LessTransitive(x.date, y.date, z.date);
    } else if x.date == y.date && y.date == z.date {
      Lex.LessTransitive(x.time, y.time, z.time);
    }
  }

  /** Two keys are either equal or one is the smaller. */
  lemma KeyTrichotomy(x: Record, y: Record)
    ensures KeyLess(x, y) || SameKey(x, y) || KeyLess(y, x)
  {
    Lex.LessTrichotomy(x.date, y.date);
    Lex.LessTrichotomy(x.time, y.time);
  }

  lemma KeyLessAsymmetric(x: Record, y: Record)
    requires KeyLess(x, y)
    ensures !KeyLess(y, x)
  {
    if KeyLess(y, x) {
      KeyLessTransitive(x, y, x);
      KeyLessIrreflexive(x);
    }
  }

  /** "Not smaller" is transitive. */
  lemma NotLessTransitive(x: Record, y: Record, z: Record)
    requires !KeyLess(y, x) && !KeyLess(z, y)
    ensures !KeyLess(z, x)
  {
    KeyTrichotomy(x, y);
    if KeyLess(z, x) && KeyLess(x, y) {
      KeyLessTransitive(z, x, y);
    }
  }

  lemma SortedCons(x: Record, s: seq<Record>)
    requires Sorted(s)
    requires forall y :: y in s ==> !KeyLess(y, x)
    ensures Sorted([x] + s)
  {
    var r := [x] + s;
    forall i, j | 0 <= i < j < |r| ensures !KeyLess(r[j], r[i]) {
      if i > 0 {
        assert r[j] == s[j - 1] && r[i] == s[i - 1];
      } else {
        assert r[j] in s;
      }
    }
  }

  /** Puts `x` in front of the first record whose key is not smaller than
      its own: ahead of every record of equal key. */
  function Insert(x: Record, s: seq<Record>): (r: seq<Record>)
    ensures multiset(r) == multiset(s) + multiset{x}
  {
    if s == [] then [x]
    else if KeyLess(s[0], x) then
      assert s == [s[0]] + s[1..];
      [s[0]] + Insert(x, s[1..])
    else [x] + s
  }

  lemma {:induction false} InsertSorted(x: Record, s: seq<Record>)
    requires Sorted(s)
    ensures Sorted(Insert(x, s))
  {
    if s == [] {
    } else if KeyLess(s[0], x) {
      var t := Insert(x, s[1..]);
      InsertSorted(x, s[1..]);
      forall y | y in t ensures !KeyLess(y, s[0]) {
        assert y in multiset(t);
        if y == x {
          KeyLessAsymmetric(s[0], x);
        } else {
          assert y in s[1..];
        }
      }
      SortedCons(s[0], t);
    } else {
      forall j | 0 <= j < |s| ensures !KeyLess(s[j], x) {
        if j > 0 {
          NotLessTransitive(x, s[0], s[j]);
        }
      }
      SortedCons(x, s);
    }
  }

  /** Stable, ascending by key, and a permutation of its input. */
  function Sort(s: seq<Record>): (r: seq<Record>)
    ensures multiset(r) == multiset(s)
    ensures Sorted(r)
  {
    if s == [] then []
    else
      var t := Sort(s[1..]);
      InsertSorted(s[0], t);
      assert s == [s[0]] + s[1..];
      Insert(s[0], t)
  }

  /** Records of different keys never pass the same key test. */
  lemma KeyLessApart(y: Record, x: Record, date: string, time: string)
    requires KeyLess(y, x)
    ensures !(HasKey(date, time)(x) && HasKey(date, time)(y))
  {
    KeyLessIrreflexive(x);
  }

  /** Inserting `x` adds it in front of the records of its own key and
      leaves every other key's records as they were. */
  lemma {:induction false} InsertPerKey(x: Record, s: seq<Record>, date: string, time: string)
    ensures Filter(Insert(x, s), HasKey(date, time))
         == (if HasKey(date, time)(x) then [x] else []) + Filter(s, HasKey(date, time))
  {
    if s == [] {
      FilterCons(x, [], HasKey(date, time));
    } else if KeyLess(s[0], x) {
      InsertPerKey(x, s[1..], date, time);
      KeyLessApart(s[0], x, date, time);
      FilterPastHead(s[0], x, s[1..], Insert(x, s[1..]), HasKey(date, time));
      assert s == [s[0]] + s[1..];
    } else {
      FilterCons(x, s, HasKey(date, time));
    }
  }

  /** A record `y` that `keep` cannot accept together with `x` may be
      passed over by `x` without changing what the filter returns. */
  lemma FilterPastHead(y: Record, x: Record, rest: seq<Record>, t: seq<Record>, keep: Record -> bool)
    requires !(keep(x) && keep(y))
    requires Filter(t, keep) == (if keep(x) then [x] else []) + Filter(rest, keep)
    ensures Filter([y] + t, keep) == (if keep(x) then [x] else []) + Filter([y] + rest, keep)
  {
    FilterCons(y, t, keep);
    FilterCons(y, rest, keep);
    if keep(x) {
      assert Filter([y] + t, keep) == Filter(t, keep);
      assert Filter([y] + rest, keep) == Filter(rest, keep);
    } else {
      assert Filter(t, keep) == Filter(rest, keep);
    }
  }

  /** Stability: for every key, its records keep their relative order. */
  lemma {:induction false} SortIsStable(s: seq<Record>)
    ensures SameOrderPerKey(Sort(s), s)
  {
    forall date, time
      ensures Filter(Sort(s), HasKey(date, time)) == Filter(s, HasKey(date, time))
    {
      SortPerKey(s, date, time);
    }
  }

  lemma {:induction false} SortPerKey(s: seq<Record>, date: string, time: string)
    ensures Filter(Sort(s), HasKey(date, time)) == Filter(s, HasKey(date, time))
  {
    if s != [] {
      SortPerKey(s[1..], date, time);
      InsertPerKey(s[0], Sort(s[1..]), date, time);
    }
  }

  /** A sequence that is already sorted is left exactly as it is. */
  lemma {:induction false} SortOfSorted(s: seq<Record>)
    requires Sorted(s)
    ensures Sort(s) == s
  {
    if s != [] {
      assert Sorted(s[1..]);
      SortOfSorted(s[1..]);
      assert s == [s[0]] + s[1..];
    }
  }

  /** Sorting a second time leaves the order unchanged. */
  lemma SortIdempotent(s: seq<Record>)
    ensures Sort(Sort(s)) == Sort(s)
  {
    SortOfSorted(Sort(s));
  }

  /** Two sorted sequences that list the records of each key in the same
      order are equal. */
  lemma {:induction false} SortedPerKeyUnique(r: seq<Record>, s: seq<Record>)
    requires Sorted(r) && Sorted(s) && SameOrderPerKey(r, s)
    ensures r == s
  {
    if r == [] || s == [] {
      if r != [] {
        MemberShowsInKey(r, s, r[0]);
      } else if s != [] {
        MemberShowsInKey(s, r, s[0]);
      }
    } else {
      HeadsShareKey(r, s);
      TailsSameOrderPerKey(r, s);
      assert Sorted(r[1..]) && Sorted(s[1..]);
      SortedPerKeyUnique(r[1..], s[1..]);
      assert r == [r[0]] + r[1..] && s == [s[0]] + s[1..];
    }
  }

  /** The first records of two such sequences have the smallest key of
      both, so the same key. */
  lemma HeadsShareKey(r: seq<Record>, s: seq<Record>)
    requires Sorted(r) && Sorted(s) && SameOrderPerKey(r, s)
    requires r != [] && s != []
    ensures SameKey(r[0], s[0])
  {
    var x, y := r[0], s[0];
    MemberShowsInKey(r, s, x);
    MemberShowsInKey(s, r, y);
    var i :| 0 <= i < |s| && s[i] == x;
    var j :| 0 <= j < |r| && r[j] == y;
    if i == 0 { KeyLessIrreflexive(y); }
    if j == 0 { KeyLessIrreflexive(x); }
    KeyTrichotomy(x, y);
  }

  /** Equal first records, and each key's records in the same order after
      them. */
  lemma TailsSameOrderPerKey(r: seq<Record>, s: seq<Record>)
    requires SameOrderPerKey(r, s) && r != [] && s != [] && SameKey(r[0], s[0])
    ensures r[0] == s[0]
    ensures SameOrderPerKey(r[1..], s[1..])
  {
    HeadsEqual(r, s);
    forall date, time
      ensures Filter(r[1..], HasKey(date, time)) == Filter(s[1..], HasKey(date, time))
    {
      TailsAgree(r, s, HasKey(date, time));
    }
  }

  lemma HeadsEqual(r: seq<Record>, s: seq<Record>)
    requires SameOrderPerKey(r, s) && r != [] && s != [] && SameKey(r[0], s[0])
    ensures r[0] == s[0]
  {
    var k := HasKey(r[0].date, r[0].time);
    assert Filter(r, k) == Filter(s, k);
    assert Filter(r, k) == [r[0]] + Filter(r[1..], k);
    assert Filter(s, k) == [s[0]] + Filter(s[1..], k);
    assert Filter(r, k)[0] == r[0] && Filter(s, k)[0] == s[0];
  }

  lemma TailsAgree(r: seq<Record>, s: seq<Record>, keep: Record -> bool)
    requires r != [] && s != [] && r[0] == s[0] && Filter(r, keep) == Filter(s, keep)
    ensures Filter(r[1..], keep) == Filter(s[1..], keep)
  {
    var h: seq<Record> := if keep(r[0]) then [r[0]] else [];
    assert Filter(r, keep) == h + Filter(r[1..], keep);
    assert Filter(s, keep) == h + Filter(s[1..], keep);
    assert Filter(r[1..], keep) == Filter(r, keep)[|h|..];
  }

  /** A record of `r` occurs in every `s` that lists each key's records as
      `r` does. */
  lemma MemberShowsInKey(r: seq<Record>, s: seq<Record>, x: Record)
    requires SameOrderPerKey(r, s) && x in r
    ensures x in s
  {
    var k := HasKey(x.date, x.time);
    assert Filter(r, k) == Filter(s, k);
    FilterCount(r, k);
    assert multiset(Filter(r, k))[x] > 0;
  }

  /** Every sort by key that is stable agrees with `Sort`: a sorted
      sequence that lists each key's records in their order in `s` is
      `Sort(s)`. */
  lemma SortIsTheStableSort(s: seq<Record>, r: seq<Record>)
    requires Sorted(r) && SameOrderPerKey(r, s)
    ensures r == Sort(s)
  {
    SortIsStable(s);
    SortedPerKeyUnique(r, Sort(s));
  }
}
