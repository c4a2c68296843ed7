/** The entries of the notebook and the two list comprehensions the store
    uses to select among them: the records of one day, and the records that
    survive a delete. */
module Records {

  /** One notebook entry. The three fields are opaque strings; a record has
      no identity beyond its triple, so two entries with the same triple are
      equal. */
  datatype Record = Record(date: string, time: string, description: string)

  /** The records of `s` that `keep` accepts, in the order of `s`, each as
      often as it occurs in `s`. */
  function Filter(s: seq<Record>, keep: Record -> bool): (r: seq<Record>)
    ensures |r| <= |s|
    ensures forall x :: x in r ==> x in s && keep(x)
  {
    if s == [] then [] else (if keep(s[0]) then [s[0]] else []) + Filter(s[1..], keep)
  }

  /** Each accepted record occurs in the result as often as in `s`, each
      rejected one not at all. */
  lemma {:induction false} FilterCount(s: seq<Record>, keep: Record -> bool)
    ensures forall x :: multiset(Filter(s, keep))[x] == if keep(x) then multiset(s)[x] else 0
  {
    if s != [] {
      FilterCount(s[1..], keep);
      assert s == [s[0]] + s[1..];
    }
  }

  /** Filtering a sequence with a known first record. */
  lemma FilterCons(x: Record, s: seq<Record>, keep: Record -> bool)
    ensures Filter([x] + s, keep) == (if keep(x) then [x] else []) + Filter(s, keep)
  {
    assert ([x] + s)[0] == x && ([x] + s)[1..] == s;
  }

  /** Filtering distributes over concatenation: a kept record keeps its
      place relative to every other kept record. */
  lemma {:induction false} FilterAppend(a: seq<Record>, b: seq<Record>, keep: Record -> bool)
    ensures Filter(a + b, keep) == Filter(a, keep) + Filter(b, keep)
  {
    if a == [] {
      assert a + b == b;
    } else {
      assert (a + b)[1..] == a[1..] + b;
      FilterAppend(a[1..], b, keep);
    }
  }

  /** A filter that accepts every record of `s` returns `s` itself. */
  lemma {:induction false} FilterKeepsAll(s: seq<Record>, keep: Record -> bool)
    requires forall x :: x in s ==> keep(x)
    ensures Filter(s, keep) == s
  {
    if s != [] {
      FilterKeepsAll(s[1..], keep);
    }
  }

  /** Filtering twice with the same test is filtering once. */
  lemma FilterIdempotent(s: seq<Record>, keep: Record -> bool)
    ensures Filter(Filter(s, keep), keep) == Filter(s, keep)
  {
    FilterKeepsAll(Filter(s, keep), keep);
  }

  function OnDay(date: string): Record -> bool
  {
    (x: Record) => x.date == date
  }

  /** The records dated exactly `date`, in store order (the comprehension of
      `get_records_for_day`). */
  function ForDay(s: seq<Record>, date: string): (r: seq<Record>)
    ensures forall x :: x in r ==> x.date == date
    ensures forall x: Record :: x.date == date ==> multiset(r)[x] == multiset(s)[x]
  {
    FilterCount(s, OnDay(date));
    Filter(s, OnDay(date))
  }

  /** Adding a record and then asking for a day gives the earlier answer,
      followed by the new record when it is of that day. */
  lemma ForDayAfterAppend(s: seq<Record>, x: Record, date: string)
    ensures ForDay(s + [x], date) == ForDay(s, date) + (if x.date == date then [x] else [])
  {
    FilterAppend(s, [x], OnDay(date));
    assert [x][1..] == [];
  }

  /** Asking for a day over two stretches of the store is asking for it over
      each and joining the answers: the answer keeps store order. */
  lemma ForDayOfConcat(a: seq<Record>, b: seq<Record>, date: string)
    ensures ForDay(a + b, date) == ForDay(a, date) + ForDay(b, date)
  {
    FilterAppend(a, b, OnDay(date));
  }

  function Differs(target: Record): Record -> bool
  {
    (x: Record) => x != target
  }

  /** The store after removing every record equal to `target` (the
      comprehension of `delete_record`). */
  function Without(s: seq<Record>, target: Record): (r: seq<Record>)
    ensures target !in r
    ensures forall x :: x != target ==> multiset(r)[x] == multiset(s)[x]
  {
    FilterCount(s, Differs(target));
    Filter(s, Differs(target))
  }

  /** Exactly the matching records go: the length drops by their number. */
  lemma {:induction false} WithoutLength(s: seq<Record>, target: Record)
    ensures |Without(s, target)| == |s| - multiset(s)[target]
  {
    if s != [] {
      WithoutLength(s[1..], target);
      assert s == [s[0]] + s[1..];
    }
  }

  /** The records that survive keep their relative order. */
  lemma WithoutOfConcat(a: seq<Record>, b: seq<Record>, target: Record)
    ensures Without(a + b, target) == Without(a, target) + Without(b, target)
  {
    FilterAppend(a, b, Differs(target));
  }

  /** Deleting the same triple a second time changes nothing. */
  lemma WithoutIdempotent(s: seq<Record>, target: Record)
    ensures Without(Without(s, target), target) == Without(s, target)
  {
    FilterIdempotent(s, Differs(target));
  }

  /** Deleting a triple that is not stored leaves the store as it is. */
  lemma WithoutAbsent(s: seq<Record>, target: Record)
    requires target !in s
    ensures Without(s, target) == s
  {
    FilterKeepsAll(s, Differs(target));
  }
}
