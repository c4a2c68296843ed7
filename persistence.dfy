/** The file format of `save_to_file` and `load_from_file`, at the level of
    the value `json.dump` writes and `json.load` returns: saving turns each
    record into the object of its three fields, loading rebuilds a record
    from the `date`, `time` and `description` entries of each element. The
    text of the file, and reading and writing it, are not modelled: the
    outcome of opening and parsing the file is an input of `Load`. */
module Persistence {
  import opened Records

  /** A parsed JSON value. Numbers keep only their integer value, which no
      part of the notebook reads. */
  datatype Json =
    | JNull
    | JBool(b: bool)
    | JNumber(n: int)
    | JString(s: string)
    | JArray(items: seq<Json>)
    | JObject(fields: map<string, Json>)

  /** Why a load fails: the file is missing (`FileNotFoundError`), it cannot
      be opened or its text is not JSON (`JSONDecodeError` and the other
      errors of `open` and `json.load`), a value is used as a list of objects
      that is not one (`TypeError`), an object lacks one of the three keys
      (`KeyError`), or a field is not a string. */
  datatype LoadError =
    | NotFound
    | NotJson
    | WrongType
    | MissingKey(key: string)
    | NotAString(key: string)

  datatype Result<T> = Ok(value: T) | Err(error: LoadError)

  datatype Option<T> = None | Some(value: T)

  /** What opening the file and running `json.load` on it produced: the
      file does not exist, it could not be opened or parsed for any other
      reason, or it parsed to a value. */
  datatype Source = Missing | Unparsable | Parsed(value: Json)

  /** The keys of `record.__dict__`. */
  const FieldNames: set<string> := {"date", "time", "description"}

  /** `record.__dict__`: the object of the record's three fields. */
  function EncodeRecord(rec: Record): (r: Json)
    ensures r.JObject? && r.fields.Keys == FieldNames
    ensures forall key :: key in FieldNames ==> r.fields[key].JString?
  {
    JObject(map["date" := JString(rec.date), "time" := JString(rec.time), "description" := JString(rec.description)])
  }

  /** The list `[record.__dict__ for record in self.records]` that
      `save_to_file` hands to `json.dump`. */
  function Encode(s: seq<Record>): (r: Json)
    ensures r.JArray? && |r.items| == |s|
    ensures forall i :: 0 <= i < |s| ==> DecodeRecord(r.items[i]) == Ok(s[i])
  {
    JArray(seq(|s|, i requires 0 <= i < |s| => EncodeRecord(s[i])))
  }

  /** `Record(record['date'], record['time'], record['description'])` for
      one element. The keys are looked up in that order, so a missing key
      is reported as the first of the three that is absent; other keys of
      the object are never read. */
  function DecodeRecord(j: Json): (r: Result<Record>)
    ensures r.Err? ==> r.error.WrongType? || r.error.MissingKey? || r.error.NotAString?
    ensures r.Ok? ==> j.JObject? && forall key :: key in FieldNames ==> key in j.fields
    ensures r.Ok? ==> forall key :: key in FieldNames ==> EncodeRecord(r.value).fields[key] == j.fields[key]
  {
    match j
    case JObject(m) =>
      if "date" !in m then Err(MissingKey("date"))
      else if "time" !in m then Err(MissingKey("time"))
      else if "description" !in m then Err(MissingKey("description"))
      else if !m["date"].JString? then Err(NotAString("date"))
      else if !m["time"].JString? then Err(NotAString("time"))
      else if !m["description"].JString? then Err(NotAString("description"))
      else Ok(Record(m["date"].s, m["time"].s, m["description"].s))
    case _ => Err(WrongType)
  }

  /** The list comprehension over the loaded list: it succeeds exactly when
      every element decodes, and then yields one record per element in the
      same order; otherwise it fails with the error of the first element
      that does not decode. */
  function DecodeItems(items: seq<Json>): (r: Result<seq<Record>>)
    ensures r.Ok? <==> forall i :: 0 <= i < |items| ==> DecodeRecord(items[i]).Ok?
    ensures r.Ok? ==> |r.value| == |items|
    ensures r.Ok? ==> forall i :: 0 <= i < |items| ==> r.value[i] == DecodeRecord(items[i]).value
    ensures r.Err? ==>
      exists i :: (0 <= i < |items| && DecodeRecord(items[i]) == Err(r.error) &&
                   forall k :: 0 <= k < i ==> DecodeRecord(items[k]).Ok?)
  {
    if items == [] then Ok([])
    else
      match DecodeRecord(items[0])
      case Err(e) => Err(e)
      case Ok(first) =>
        match DecodeItems(items[1..])
        case Err(e) => Err(e)
        case Ok(rest) => Ok([first] + rest)
  }

  /** What the comprehension makes of the whole loaded value. Iterating a
      dictionary visits its keys and iterating a string its characters, so
      an empty object or an empty string gives the empty list and a
      non-empty one fails on indexing a string; other scalars cannot be
      iterated. */
  function Decode(j: Json): (r: Result<seq<Record>>)
    ensures j.JArray? ==> (r.Ok? <==> forall i :: 0 <= i < |j.items| ==> DecodeRecord(j.items[i]).Ok?)
    ensures !j.JArray? ==> (r.Ok? <==> j == JObject(map[]) || j == JString(""))
    ensures !j.JArray? && r.Ok? ==> r.value == []
    ensures !j.JArray? && r.Err? ==> r.error == WrongType
  {
    match j
    case JArray(items) => DecodeItems(items)
    case JObject(m) => if |m| == 0 then Ok([]) else Err(WrongType)
    case JString(s) => if |s| == 0 then Ok([]) else Err(WrongType)
    case _ => Err(WrongType)
  }

  /** `load_from_file` up to the assignment: the records it would store, or
      why it raises instead. Only a parsed value can load, and a failure to
      find, open or parse the file is never confused with a malformed
      value. */
  function Load(source: Source): (r: Result<seq<Record>>)
    ensures r.Ok? ==> source.Parsed?
    ensures r.Err? ==> (r.error == NotFound <==> source.Missing?)
    ensures r.Err? ==> (r.error == NotJson <==> source.Unparsable?)
  {
    match source
    case Missing => Err(NotFound)
    case Unparsable => Err(NotJson)
    case Parsed(j) => Decode(j)
  }

  lemma DecodeEncodeRecord(r: Record)
    ensures DecodeRecord(EncodeRecord(r)) == Ok(r)
  {
  }

  /** Saving and then loading gives back the same records in the same
      order, the empty sequence included. */
  lemma LoadOfSave(s: seq<Record>)
    ensures Load(Parsed(Encode(s))) == Ok(s)
  {
    var items := Encode(s).items;
    forall i | 0 <= i < |items| ensures DecodeRecord(items[i]) == Ok(s[i]) {
      DecodeEncodeRecord(s[i]);
    }
    var r := DecodeItems(items);
    assert r.Ok? && |r.value| == |s|;
    assert r.value == s;
  }

  /** Only the three named fields are read: objects that agree on them
      decode alike, whatever other keys they carry. */
  lemma ExtraKeysIgnored(m: map<string, Json>, m': map<string, Json>)
    requires forall key :: key in FieldNames ==> (key in m <==> key in m')
    requires forall key :: key in FieldNames && key in m ==> m[key] == m'[key]
    ensures DecodeRecord(JObject(m)) == DecodeRecord(JObject(m'))
  {
    assert "date" in FieldNames && "time" in FieldNames && "description" in FieldNames;
  }

  /** An object that lacks a field fails with a missing-key error naming
      one of the three keys that it lacks (the first in the order date,
      time, description). */
  lemma MissingKeyFails(m: map<string, Json>, key: string)
    requires key in FieldNames && key !in m
    ensures DecodeRecord(JObject(m)).Err?
    ensures DecodeRecord(JObject(m)).error.MissingKey?
    ensures DecodeRecord(JObject(m)).error.key in FieldNames - m.Keys
  {
  }

  /** Loading succeeds only on a list of decodable objects, or on an empty
      object or string. */
  lemma DecodeSucceeds(j: Json)
    ensures Decode(j).Ok? <==>
      (j.JArray? && forall i :: 0 <= i < |j.items| ==> DecodeRecord(j.items[i]).Ok?) ||
      j == JObject(map[]) || j == JString("")
  {
    if j.JObject? && |j.fields| == 0 {
      assert j.fields == map[];
    }
  }

  /** A file holding a single object that is not a list of records, such
      as `{"not": "an array"}`, fails with the error of indexing a string. */
  lemma ObjectIsNotAList()
    ensures Decode(JObject(map["not" := JString("an array")])) == Err(WrongType)
  {
    assert "not" in map["not" := JString("an array")];
  }
}
