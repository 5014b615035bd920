/**
 * The measurement store of the rangefinder: one JSON document with four
 * named tables, kept in a single file and rewritten whole on every update.
 *
 * JSON text is not modelled. The file is either missing, holds text that does
 * not decode, or holds a decoded JSON value; writing a value and loading it
 * again gives the same value back.
 */
module Storage {
  import opened Wrappers

  /** A JSON value as the decoder produces it. */
  datatype Json =
    | JNull
    | JBool(b: bool)
    | JNumber(n: real)
    | JString(s: string)
    | JArray(items: seq<Json>)
    | JObject(fields: map<string, Json>)

  /** The four tables of the store document. */
  datatype Table = Distance | Temperature | Humidity | Logs

  /** The key under which a table is stored in the document. */
  function Key(t: Table): string {
    match t
    case Distance => "distance_measurements"
    case Temperature => "temperature_measurements"
    case Humidity => "humidity_measurements"
    case Logs => "logs"
  }

  /** The state of the backing file before a load. */
  datatype FileState =
    | Missing          // opening the file fails with "file not found"
    | Undecodable      // the file exists but its text is not JSON
    | Holds(doc: Json) // the file decodes to `doc`

  /**
   * Why appending to a table raises: the document is not an object
   * (TypeError), it lacks the table's key (KeyError), or the value under the
   * key is not a list (AttributeError).
   */
  datatype StorageError =
    | NotSubscriptable
    | MissingKey(key: string)
    | NotAList(key: string)

  /** One call of an `update_*_table` method: the table and the appended item. */
  datatype Entry = Entry(table: Table, item: Json)

  /** A document with all four tables present, each a list. */
  predicate WellFormed(d: Json) {
    d.JObject? && forall t: Table :: Key(t) in d.fields && d.fields[Key(t)].JArray?
  }

  /** The rows of table `t` in a well-formed document. */
  function Rows(d: Json, t: Table): seq<Json>
    requires WellFormed(d)
  {
    d.fields[Key(t)].items
  }

  /** The fresh document: the four table keys, each mapped to an empty list. */
  function InitDataFile(): (d: Json)
    ensures WellFormed(d)
    ensures forall t: Table :: Rows(d, t) == []
    ensures d.fields.Keys == {Key(Distance), Key(Temperature), Key(Humidity), Key(Logs)}
  {
    JObject(map[
      Key(Distance) := JArray([]),
      Key(Temperature) := JArray([]),
      Key(Humidity) := JArray([]),
      Key(Logs) := JArray([])])
  }

  /** The document a load leaves in memory: a missing or undecodable file yields the fresh document. */
  function LoadedDocument(f: FileState): Json {
    match f
    case Missing => InitDataFile()
    case Undecodable => InitDataFile()
    case Holds(doc) => doc
  }

  /** `document[Key(t)].append(item)` on a decoded document. */
  function Append(d: Json, t: Table, item: Json): Result<Json, StorageError> {
    if !d.JObject? then Failure(NotSubscriptable)
    else if Key(t) !in d.fields then Failure(MissingKey(Key(t)))
    else match d.fields[Key(t)]
      case JArray(items) => Success(JObject(d.fields[Key(t) := JArray(items + [item])]))
      case _ => Failure(NotAList(Key(t)))
  }

  /** The document an update computes from the file it finds: load, then append. */
  function Update(f: FileState, t: Table, item: Json): Result<Json, StorageError> {
    Append(LoadedDocument(f), t, item)
  }

  /** The file after an update: rewritten with the new document, or untouched when the append raised. */
  function FileAfterUpdate(f: FileState, e: Entry): FileState {
    match Update(f, e.table, e.item)
    case Success(d) => Holds(d)
    case Failure(_) => f
  }

  /** The file after a sequence of updates, performed in order. */
  function FileAfter(f: FileState, entries: seq<Entry>): FileState
    decreases |entries|
  {
    if entries == [] then f
    else FileAfterUpdate(FileAfter(f, entries[..|entries| - 1]), entries[|entries| - 1])
  }

  /** The items that `entries` append to table `t`, in order. */
  function ItemsFor(entries: seq<Entry>, t: Table): seq<Json>
    decreases |entries|
  {
    if entries == [] then []
    else
      var last := entries[|entries| - 1];
      ItemsFor(entries[..|entries| - 1], t) + (if last.table == t then [last.item] else [])
  }

  /**
   * Whenever the loaded document is an object whose entry for `t` is a list,
   * the update succeeds: the item is appended at the end of that list (its
   * length grows by one), every other key keeps its value and no key is
   * added or removed. On a well-formed document the other three tables are
   * unchanged and the document stays well-formed.
   */
  lemma UpdateAppendsToOwnTable(f: FileState, t: Table, item: Json)
    requires var d := LoadedDocument(f); d.JObject? && Key(t) in d.fields && d.fields[Key(t)].JArray?
    ensures Update(f, t, item).Success?
    ensures var d, d' := LoadedDocument(f), Update(f, t, item).value;
      && d'.JObject?
      && d'.fields.Keys == d.fields.Keys
      && d'.fields[Key(t)] == JArray(d.fields[Key(t)].items + [item])
      && |d'.fields[Key(t)].items| == |d.fields[Key(t)].items| + 1
      && (forall k :: k in d.fields && k != Key(t) ==> d'.fields[k] == d.fields[k])
    ensures var d, d' := LoadedDocument(f), Update(f, t, item).value;
      WellFormed(d) ==>
        && WellFormed(d')
        && Rows(d', t) == Rows(d, t) + [item]
        && (forall u: Table :: u != t ==> Rows(d', u) == Rows(d, u))
  {
    var d := LoadedDocument(f);
    var d' := Update(f, t, item).value;
    if WellFormed(d) {
      forall u: Table | u != t
        ensures Key(u) != Key(t) && Rows(d', u) == Rows(d, u)
      {
        KeysDistinct(u, t);
      }
    }
  }

  /** Distinct tables are stored under distinct keys. */
  lemma KeysDistinct(t: Table, u: Table)
    requires t != u
    ensures Key(t) != Key(u)
  {
    match t
    case Distance => assert Key(t)[0] == 'd' && (Key(u)[0] != 'd' || |Key(u)| != |Key(t)|);
    case Temperature => assert Key(t)[0] == 't' && Key(u)[0] != 't';
    case Humidity => assert Key(t)[0] == 'h' && Key(u)[0] != 'h';
    case Logs => assert Key(t)[0] == 'l' && Key(u)[0] != 'l';
  }

  /**
   * A missing file is replaced by the fresh document before the append: the
   * result holds the new item in its table, empty lists elsewhere, and
   * exactly the four table keys.
   */
  lemma UpdateOnMissingFile(t: Table, item: Json)
    ensures Update(Missing, t, item).Success?
    ensures var d := Update(Missing, t, item).value;
      && WellFormed(d)
      && Rows(d, t) == [item]
      && (forall u: Table :: u != t ==> Rows(d, u) == [])
      && d.fields.Keys == InitDataFile().fields.Keys
  {
    UpdateAppendsToOwnTable(Missing, t, item);
  }

  /** An undecodable file is discarded: the update behaves exactly as on a missing file. */
  lemma UpdateOnUndecodableFile(t: Table, item: Json)
    ensures Update(Undecodable, t, item) == Update(Missing, t, item)
    ensures FileAfterUpdate(Undecodable, Entry(t, item)) == FileAfterUpdate(Missing, Entry(t, item))
  {
  }

  /**
   * A file that decodes is never reset: when its value is not an object, lacks
   * the table's key or holds a non-list under it, the update raises and the
   * file is left as it was.
   */
  lemma UpdateOnMalformedDocument(doc: Json, t: Table, item: Json)
    requires !(doc.JObject? && Key(t) in doc.fields && doc.fields[Key(t)].JArray?)
    ensures !doc.JObject? ==> Update(Holds(doc), t, item) == Failure(NotSubscriptable)
    ensures doc.JObject? && Key(t) !in doc.fields ==> Update(Holds(doc), t, item) == Failure(MissingKey(Key(t)))
    ensures doc.JObject? && Key(t) in doc.fields ==> Update(Holds(doc), t, item) == Failure(NotAList(Key(t)))
    ensures FileAfterUpdate(Holds(doc), Entry(t, item)) == Holds(doc)
  {
  }

  /**
   * The store is append-only across any sequence of updates: starting from a
   * file whose document is well-formed (or a missing or undecodable file),
   * every table ends as its old rows followed by the items appended to it, in
   * call order, and the file stays well-formed.
   */
  lemma {:induction false} HistoryIsAppendOnly(f: FileState, entries: seq<Entry>)
    requires WellFormed(LoadedDocument(f))
    ensures WellFormed(LoadedDocument(FileAfter(f, entries)))
    ensures forall t: Table ::
      Rows(LoadedDocument(FileAfter(f, entries)), t) == Rows(LoadedDocument(f), t) + ItemsFor(entries, t)
    decreases |entries|
  {
    if entries != [] {
      var init := entries[..|entries| - 1];
      var last := entries[|entries| - 1];
      HistoryIsAppendOnly(f, init);
      var g := FileAfter(f, init);
      UpdateAppendsToOwnTable(g, last.table, last.item);
      assert FileAfter(f, entries) == Holds(Update(g, last.table, last.item).value);
    }
  }

  /** The file a store reads and writes (the `json_file_path` of the source). */
  class DataFile {
    var content: FileState

    constructor (content: FileState)
      ensures this.content == content
    {
      this.content := content;
    }
  }

  /** The store: a path to its file and the document last loaded into memory. */
  class DataStorage {
    const jsonFile: DataFile
    var jsonData: Json

    /** Nothing is loaded yet: the in-memory document is `None`. */
    constructor (jsonFile: DataFile)
      ensures this.jsonFile == jsonFile && jsonData == JNull
    {
      this.jsonFile := jsonFile;
      jsonData := JNull;
    }

    /** Loads the file into memory, falling back to the fresh document. */
    method GetFileContent()
      modifies this
      ensures jsonData == LoadedDocument(jsonFile.content)
      ensures !jsonFile.content.Holds? ==> jsonData == InitDataFile()
    {
      match jsonFile.content
      case Holds(doc) =>
        jsonData := doc;
      case Undecodable =>
        jsonData := InitDataFile();
      case Missing =>
        jsonData := InitDataFile();
    }

    /** Overwrites the file with the whole in-memory document. */
    method UpdateFileContent()
      modifies jsonFile
      ensures jsonFile.content == Holds(jsonData)
      ensures LoadedDocument(jsonFile.content) == jsonData
    {
      jsonFile.content := Holds(jsonData);
    }

    /** Appends `item` in place to table `t` of the in-memory document. */
    method AppendToTable(t: Table, item: Json) returns (r: Outcome<StorageError>)
      modifies this
      ensures Append(old(jsonData), t, item) == (if r.Pass? then Success(jsonData) else Failure(r.error))
      ensures r.Fail? ==> jsonData == old(jsonData)
    {
      if !jsonData.JObject? {
        r := Fail(NotSubscriptable);
      } else if Key(t) !in jsonData.fields {
        r := Fail(MissingKey(Key(t)));
      } else {
        match jsonData.fields[Key(t)]
        case JArray(items) =>
          jsonData := JObject(jsonData.fields[Key(t) := JArray(items + [item])]);
          r := Pass;
        case _ =>
          r := Fail(NotAList(Key(t)));
      }
    }

    /**
     * Read-modify-write of the distance table. The outcome depends only on
     * the file found and the argument: the document in memory is reloaded
     * first, and the file is rewritten with the whole document when the
     * append succeeds.
     */
    method UpdateDistanceTable(measurement: Json) returns (r: Outcome<StorageError>)
      modifies this, jsonFile
      ensures Update(old(jsonFile.content), Distance, measurement)
        == (if r.Pass? then Success(jsonData) else Failure(r.error))
      ensures r.Fail? ==> jsonData == LoadedDocument(old(jsonFile.content))
      ensures jsonFile.content == FileAfterUpdate(old(jsonFile.content), Entry(Distance, measurement))
      ensures r.Pass? ==> jsonFile.content == Holds(jsonData)
    {
      GetFileContent();
      r := AppendToTable(Distance, measurement);
      if r.Pass? {
        UpdateFileContent();
      }
    }

    /** Read-modify-write of the temperature table; see UpdateDistanceTable. */
    method UpdateTemperatureTable(measurement: Json) returns (r: Outcome<StorageError>)
      modifies this, jsonFile
      ensures Update(old(jsonFile.content), Temperature, measurement)
        == (if r.Pass? then Success(jsonData) else Failure(r.error))
      ensures r.Fail? ==> jsonData == LoadedDocument(old(jsonFile.content))
      ensures jsonFile.content == FileAfterUpdate(old(jsonFile.content), Entry(Temperature, measurement))
      ensures r.Pass? ==> jsonFile.content == Holds(jsonData)
    {
      GetFileContent();
      r := AppendToTable(Temperature, measurement);
      if r.Pass? {
        UpdateFileContent();
      }
    }

    /** Read-modify-write of the humidity table; see UpdateDistanceTable. */
    method UpdateHumidityTable(measurement: Json) returns (r: Outcome<StorageError>)
      modifies this, jsonFile
      ensures Update(old(jsonFile.content), Humidity, measurement)
        == (if r.Pass? then Success(jsonData) else Failure(r.error))
      ensures r.Fail? ==> jsonData == LoadedDocument(old(jsonFile.content))
      ensures jsonFile.content == FileAfterUpdate(old(jsonFile.content), Entry(Humidity, measurement))
      ensures r.Pass? ==> jsonFile.content == Holds(jsonData)
    {
      GetFileContent();
      r := AppendToTable(Humidity, measurement);
      if r.Pass? {
        UpdateFileContent();
      }
    }

    /** Read-modify-write of the log table; see UpdateDistanceTable. */
    method UpdateLogsTable(logsEntry: Json) returns (r: Outcome<StorageError>)
      modifies this, jsonFile
      ensures Update(old(jsonFile.content), Logs, logsEntry)
        == (if r.Pass? then Success(jsonData) else Failure(r.error))
      ensures r.Fail? ==> jsonData == LoadedDocument(old(jsonFile.content))
      ensures jsonFile.content == FileAfterUpdate(old(jsonFile.content), Entry(Logs, logsEntry))
      ensures r.Pass? ==> jsonFile.content == Holds(jsonData)
    {
      GetFileContent();
      r := AppendToTable(Logs, logsEntry);
      if r.Pass? {
        UpdateFileContent();
      }
    }
  }

  /**
   * Two stores on one file see each other's updates: each update reloads the
   * file, so the second store's append lands after the first store's, and
   * the file ends holding both items in call order.
   */
  method TwoStoresShareOneFile(m1: Json, m2: Json) returns (rows: seq<Json>, stored: FileState)
    ensures rows == [m1, m2]
    ensures stored.Holds? && WellFormed(stored.doc) && Rows(stored.doc, Distance) == rows
  {
    var file := new DataFile(Missing);
    var a := new DataStorage(file);
    var b := new DataStorage(file);
    var r1 := a.UpdateDistanceTable(m1);
    var r2 := b.UpdateDistanceTable(m2);
    UpdateOnMissingFile(Distance, m1);
    UpdateAppendsToOwnTable(Holds(a.jsonData), Distance, m2);
    rows := b.jsonData.fields[Key(Distance)].items;
    stored := file.content;
  }
}
