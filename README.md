# Notebook record store, modelled in Dafny

This project models the record store of a console scheduling notebook: the
class `NotebookModel` and its `Record` entries in `main.py`. A record is a
triple of opaque strings (date, time, description). The store is an ordered
list of records. It supports these operations:

- appending a record;
- listing the records of one day;
- deleting every record equal to a given triple;
- sorting stably by (date, time);
- saving to and loading from a JSON file.

Modules:

- `Lex` (`lex.dfy`): Python's `<` on strings. It is defined by recursion
  and proved equal to the "first differing code point, else the shorter
  string" reading. It is also proved irreflexive, transitive and total.
- `Records` (`records.dfy`): the `Record` datatype and `Filter`, the list
  comprehension behind both `get_records_for_day` (`ForDay`) and
  `delete_record` (`Without`). Their lemmas cover multiplicities, order
  preservation (filtering distributes over `+`), the length after a delete,
  and idempotence.
- `Sorting` (`sorting.dfy`): the key order `(date, time) < (date', time')`
  and `Sort`, a stable insertion sort.
  - `Sort` is proved sorted, a permutation, stable (`SortIsStable`) and
    idempotent.
  - `SortIsTheStableSort` proves that a sorted sequence which lists each
    key's records in their original order must equal `Sort(s)`. So every
    stable sort by this key gives the same list, Python's `list.sort`
    included.
- `Persistence` (`persistence.dfy`): the value passed to `json.dump` and
  returned by `json.load`, as a small `Json` datatype. `Encode` builds one
  object per record (`record.__dict__`). `DecodeItems` and `Decode` follow
  the comprehension in `load_from_file`, including the errors Python
  raises. `LoadOfSave` is the round trip.
- `Notebook` (`notebook.dfy`): the class `NotebookModel`, with one field
  `records: seq<Record>` and one method per operation. Each method's
  contract ties the new state to the functions above. Two client methods
  trace a session through the contracts alone, and two lemmas work the
  tie-breaking example.

Two behaviours of the code that a reader may not expect, both modelled as
the code has them:

- A file whose JSON value is `{}` or `""` loads as an empty store. Iterating
  an empty dict or an empty string yields nothing, so no error is raised.
- A non-empty object such as `{"not": "an array"}` fails with the
  `TypeError` of indexing a string (`WrongType`).

## Model

| member | source | states |
|---|---|---|
| `Lex.Less` | main.py:26 | Python's string `<`: a proper prefix comes before every extension of it |
| `Lex.LessIsFirstDifference` | main.py:26 | Python's string `<` holds exactly when `a` is a proper prefix of `b` or `a` has the smaller code point at the first position where they differ |
| `Lex.LessIrreflexive` | main.py:26 | no string is smaller than itself |
| `Lex.LessTransitive` | main.py:26 | the string order is transitive |
| `Lex.LessTrichotomy` | main.py:26 | any two strings are equal or one is smaller: the order is total |
| `Records.Record` | main.py:4-8 | a record is the value of its three string fields, date, time and description |
| `Records.Filter` | main.py:18 | a comprehension's result is no longer than its input, and each result record occurs in the input and passes the test |
| `Records.FilterCount` | main.py:18 | every accepted record occurs in the result as often as in the input; rejected records do not occur at all |
| `Records.FilterAppend` | main.py:18 | filtering distributes over concatenation, so the result keeps input order |
| `Records.FilterKeepsAll` | main.py:21-23 | a filter that accepts every record returns its input unchanged |
| `Records.FilterIdempotent` | main.py:21-23 | filtering a second time with the same test changes nothing |
| `Records.ForDay` | main.py:17-18 | every record returned is of the requested day, and every record of that day occurs as often as in the store (zero matches gives the empty list) |
| `Records.ForDayAfterAppend` | main.py:14-18 | after appending a record, the answer for a day is the earlier answer, followed by the new record if it is of that day |
| `Records.ForDayOfConcat` | main.py:17-18 | the answer for a day over two stretches of the store is the two answers joined: records come back in store order |
| `Records.Without` | main.py:20-23 | no record equal to the triple remains, and every other record keeps its multiplicity |
| `Records.WithoutLength` | main.py:20-23 | the new length is the old length minus the number of records equal to the triple |
| `Records.WithoutOfConcat` | main.py:20-23 | the surviving records keep their relative order |
| `Records.WithoutIdempotent` | main.py:20-23 | deleting the same triple again changes nothing |
| `Records.WithoutAbsent` | main.py:20-23 | deleting a triple that is not stored leaves the store unchanged |
| `Sorting.KeyLess` | main.py:26 | the tuple comparison `(date, time) < (date', time')`, decided by the first component that differs, is the lexicographic order on the pair: an earlier date, or the same date and an earlier time |
| `Sorting.KeyLessIrreflexive` | main.py:26 | no record's key is smaller than its own |
| `Sorting.KeyLessTransitive` | main.py:26 | the comparison of (date, time) tuples is transitive |
| `Sorting.KeyTrichotomy` | main.py:26 | two records have equal keys or one key is smaller |
| `Sorting.KeyLessAsymmetric` | main.py:26 | the key order is asymmetric |
| `Sorting.NotLessTransitive` | main.py:26 | "not smaller" is transitive on keys |
| `Sorting.Sort` | main.py:25-26 | the result is ascending by (date, time) and is a permutation of the input |
| `Sorting.SortIsStable` | main.py:26 | the sort is stable: records of equal (date, time) keep their relative order, whatever their descriptions |
| `Sorting.SortOfSorted` | main.py:26 | a list that is already sorted is left exactly as it is |
| `Sorting.SortIdempotent` | main.py:25-26 | sorting twice gives the same order as sorting once |
| `Sorting.SortedPerKeyUnique` | main.py:26 | two sorted lists that list each key's records in the same order are equal |
| `Sorting.SortIsTheStableSort` | main.py:26 | any sorted list holding each key's records in their input order is exactly `Sort` of the input: every stable sort by (date, time) agrees with the model |
| `Persistence.EncodeRecord` | main.py:30 | `record.__dict__` is an object whose keys are exactly `date`, `time` and `description`, each holding a string |
| `Persistence.Encode` | main.py:30 | the saved list has one element per record, and element `i` decodes back to record `i` |
| `Persistence.DecodeRecord` | main.py:36 | a record decodes only from an object that has all three keys, and encoding it again gives back exactly the values under those keys |
| `Persistence.DecodeItems` | main.py:36 | loading a list succeeds exactly when every element decodes, giving one record per element in order; otherwise it fails with the error of the first element that does not decode |
| `Persistence.Decode` | main.py:35-36 | a list loads exactly when every element decodes; `{}` and `""` load as the empty list; every other value that is not a list fails with `WrongType` |
| `Persistence.Load` | main.py:33-36 | only a parsed value can load; a missing file fails with `NotFound` and an unopenable or unparsable one with `NotJson`, and no malformed value produces either error |
| `Persistence.DecodeEncodeRecord` | main.py:30 | a record's field object decodes back to the same record |
| `Persistence.LoadOfSave` | main.py:28-36 | saving and then loading gives back the same records in the same order, the empty list included |
| `Persistence.ExtraKeysIgnored` | main.py:36 | two objects that agree on `date`, `time` and `description` decode alike, whatever other keys they carry |
| `Persistence.MissingKeyFails` | main.py:36 | an object lacking one of the three keys fails with a missing-key error that names a key it lacks |
| `Persistence.DecodeSucceeds` | main.py:35-36 | a loaded value decodes exactly when it is a list of decodable objects, an empty object or an empty string |
| `Persistence.ObjectIsNotAList` | main.py:35-36 | the value `{"not": "an array"}` fails with `WrongType`, the `TypeError` of indexing a string |
| `Notebook.NotebookModel.constructor` | main.py:11-12 | a new store is empty |
| `Notebook.NotebookModel.AddRecord` | main.py:14-15 | the record is appended: the length grows by one and every earlier record keeps its position |
| `Notebook.NotebookModel.GetRecordsForDay` | main.py:17-18 | returns the day's records as `ForDay` gives them, without changing the store |
| `Notebook.NotebookModel.DeleteRecord` | main.py:20-23 | the store becomes `Without` of the triple: no match remains, and the length drops by the number of matches |
| `Notebook.NotebookModel.SortRecords` | main.py:25-26 | the store becomes `Sort` of its old contents: sorted, a permutation of them, and stable |
| `Notebook.NotebookModel.SaveToFile` | main.py:28-31 | produces the encoded list, which loads back to the current records, and leaves the store unchanged |
| `Notebook.NotebookModel.LoadFromFile` | main.py:33-36 | on success the store is replaced by the loaded records; on any failure the store is left untouched and the error is returned |
| `Notebook.SortKeepsTieOrder` | main.py:26 | sorting `[x, y, z]`, where `y` and `z` tie on a key smaller than `x`'s, gives `[y, z, x]` |
| `Notebook.TieExample` | main.py:26 | `(b, 2, "x"), (a, 1, "y"), (a, 1, "z")` sort to `(a, 1, "y"), (a, 1, "z"), (b, 2, "x")` |

## Left out

- File handling and the JSON text itself (`open`, `json.dump`, `json.load`). These are library calls. `Load` takes the outcome of opening and parsing the file as its `Source` argument. A missing file becomes `NotFound`. Every other failure to open or parse the file (text that is not JSON, `PermissionError`, `IsADirectoryError`, `UnicodeDecodeError`) becomes `Unparsable`, reported as `NotJson`; the model does not tell these apart.
- Notebook.NotebookModel.LoadFromFile: in the program a failed load raises an exception that neither the presenter (main.py:71-72) nor `run` (main.py:109-111) catches, so the program stops. The model returns the error as a value instead and leaves the store unchanged; ending the program is not modelled.
- Failures while writing in `save_to_file`: bad path, permissions, full disk, and a file truncated by a failed dump. `SaveToFile` returns the value that would be written and models no write error.
- Persistence.DecodeRecord: rejects a field value that is not a JSON string (`NotAString`). Python would build a `Record` holding a number, list or `None` there. Records in this model hold strings only, so that case cannot be represented.
- Persistence.Json: numbers carry an integer only. Floats, and the size and precision of numbers, are not modelled; no part of the store reads them.
- Python strings may contain lone surrogate code points, which Dafny's `char` cannot hold. Strings are otherwise compared code point by code point, as Python does.
- Sorting.Sort: a stable insertion sort stands in for Timsort. `SortIsTheStableSort` shows that every stable sort by the same key gives the same list. Timsort's running time and memory use are not modelled.
- Python `Record` objects are compared by identity, but the store only ever compares their fields. The model treats a record as the value of its triple, so aliasing between the store and a list returned by `get_records_for_day` is not represented.
- `NotebookView`, `NotebookPresenter` and `NotebookController` (main.py:38-119): console output, input and menu dispatch. The presenter only forwards calls to the model.
- The unused `datetime` import (main.py:2). Dates and times are compared as strings only, with no calendar meaning.
