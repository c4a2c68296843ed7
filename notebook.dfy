/** `NotebookModel`: the in-memory record store of the notebook. Its one
    field is the ordered list of records; each method of the class keeps the
    name of the method it models. */
module Notebook {
  import opened Records
  import opened Sorting
  import opened Persistence
  import Lex

  class NotebookModel {
    var records: seq<Record>

    /** A new store is empty. */
    constructor ()
      ensures records == []
    {
      records := [];
    }

    /** Appends at the end; every earlier record keeps its place. */
    method AddRecord(record: Record)
      modifies this
      ensures records == old(records) + [record]
      ensures |records| == |old(records)| + 1
      ensures forall i :: 0 <= i < |old(records)| ==> records[i] == old(records)[i]
    {
      records := records + [record];
    }

    /** A new list of the records of day `date`, in store order. */
    method GetRecordsForDay(date: string) returns (result: seq<Record>)
      ensures result == ForDay(records, date)
      ensures forall x :: x in result ==> x.date == date
      ensures forall x: Record :: x.date == date ==> multiset(result)[x] == multiset(records)[x]
    {
      result := ForDay(records, date);
    }

    /** Drops every record equal to the triple, and only those. */
    method DeleteRecord(date: string, time: string, description: string)
      modifies this
      ensures records == Without(old(records), Record(date, time, description))
      ensures Record(date, time, description) !in records
      ensures |records| == |old(records)| - multiset(old(records))[Record(date, time, description)]
    {
      WithoutLength(records, Record(date, time, description));
      records := Without(records, Record(date, time, description));
    }

    /** Reorders the store by (date, time), stably. */
    method SortRecords()
      modifies this
      ensures records == Sort(old(records))
      ensures Sorted(records) && multiset(records) == multiset(old(records))
      ensures SameOrderPerKey(records, old(records))
    {
      SortIsStable(records);
      records := Sort(records);
    }

    /** The value `save_to_file` writes: the store is not changed. */
    method SaveToFile() returns (data: Json)
      ensures data == Encode(records)
      ensures Load(Parsed(data)) == Ok(records)
    {
      LoadOfSave(records);
      data := Encode(records);
    }

    /** Replaces the whole store with the loaded records when `source`
        decodes; otherwise leaves the store as it was and returns the error
        that the program raises, and that nothing in it catches, at that
        point. */
    method LoadFromFile(source: Source) returns (error: Option<LoadError>)
      modifies this
      ensures Load(source).Ok? ==> records == Load(source).value && error == None
      ensures Load(source).Err? ==> records == old(records) && error == Some(Load(source).error)
    {
      var loaded := Load(source);
      match loaded
      case Ok(rs) =>
        records := rs;
        error := None;
      case Err(e) =>
        error := Some(e);
    }
  }

  /** The session of adding a meeting on 2024-01-02 and a call on
      2024-01-01, asking for the first day and sorting, followed through the
      contracts of the class alone. */
  method MeetingAndCall()
  {
    var meeting := Record("2024-01-02", "09:00", "Meeting");
    var call := Record("2024-01-01", "10:00", "Call");
    var notebook := new NotebookModel();
    notebook.AddRecord(meeting);
    notebook.AddRecord(call);
    assert notebook.records == [meeting, call];
    var day := notebook.GetRecordsForDay("2024-01-02");
    ForDayOfPair(meeting, call, "2024-01-02");
    assert day == [meeting];
    notebook.SortRecords();
    CallSortsFirst();
    SortOfPair(meeting, call);
    assert notebook.records == [call, meeting];
  }

  /** Saving, deleting and loading again: a failed load keeps the store, a
      load of what was saved restores it. */
  method SaveDeleteLoad(notebook: NotebookModel, victim: Record)
    modifies notebook
  {
    var before := notebook.records;
    var saved := notebook.SaveToFile();
    notebook.DeleteRecord(victim.date, victim.time, victim.description);
    var kept := notebook.records;
    var failed := notebook.LoadFromFile(Missing);
    assert failed == Some(NotFound) && notebook.records == kept;
    failed := notebook.LoadFromFile(Parsed(saved));
    assert failed == None && notebook.records == before;
  }

  /** "2024-01-01" comes before "2024-01-02". */
  lemma CallSortsFirst()
    ensures KeyLess(Record("2024-01-01", "10:00", "Call"), Record("2024-01-02", "09:00", "Meeting"))
  {
    assert "2024-01-01" == "2024-01-0" + "1";
    assert "2024-01-02" == "2024-01-0" + "2";
    Lex.LessAfterPrefix("2024-01-0", "1", "2");
  }

  lemma ForDayOfPair(x: Record, y: Record, date: string)
    requires x.date == date && y.date != date
    ensures ForDay([x, y], date) == [x]
  {
    ForDayOfConcat([x], [y], date);
    assert [x] + [y] == [x, y];
  }

  lemma SortOfPair(x: Record, y: Record)
    requires KeyLess(y, x)
    ensures Sort([x, y]) == [y, x]
  {
    assert [x, y][1..] == [y];
    assert Sort([y]) == [y];
  }

  /** Sorting `[x, y, z]` where `y` and `z` share a key smaller than that
      of `x` gives `[y, z, x]`: the tie keeps its order whatever the
      descriptions say. */
  lemma SortKeepsTieOrder(x: Record, y: Record, z: Record)
    requires KeyLess(y, x) && SameKey(y, z)
    ensures Sort([x, y, z]) == [y, z, x]
  {
    SortTie(y, z);
    assert [x, y, z] == [x] + [y, z];
    SortStep(x, [y, z], [y, z]);
    InsertLast(x, y, z);
  }

  lemma SortTie(y: Record, z: Record)
    requires SameKey(y, z)
    ensures Sort([y, z]) == [y, z]
  {
    KeyLessIrreflexive(y);
    SortStep(z, [], []);
    assert [y, z] == [y] + [z];
    SortStep(y, [z], [z]);
  }

  lemma InsertLast(x: Record, y: Record, z: Record)
    requires KeyLess(y, x) && SameKey(y, z)
    ensures Insert(x, [y, z]) == [y, z, x]
  {
    InsertPast(x, [z], []);
    InsertPast(x, [y, z], [z]);
  }

  lemma SortStep(x: Record, s: seq<Record>, sorted: seq<Record>)
    requires Sort(s) == sorted
    ensures Sort([x] + s) == Insert(x, sorted)
  {
    assert ([x] + s)[1..] == s;
  }

  lemma InsertPast(x: Record, s: seq<Record>, rest: seq<Record>)
    requires s != [] && KeyLess(s[0], x) && s[1..] == rest
    ensures Insert(x, s) == [s[0]] + Insert(x, rest)
  {
  }

  /** The records (b, 2, "x"), (a, 1, "y"), (a, 1, "z") sort to the two
      (a, 1) records, "y" before "z", then (b, 2, "x"). */
  lemma TieExample()
    ensures Sort([Record("b", "2", "x"), Record("a", "1", "y"), Record("a", "1", "z")])
         == [Record("a", "1", "y"), Record("a", "1", "z"), Record("b", "2", "x")]
  {
    assert Lex.Less("a", "b");
    SortKeepsTieOrder(Record("b", "2", "x"), Record("a", "1", "y"), Record("a", "1", "z"));
  }
}
