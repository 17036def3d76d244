/**
 * The pure part of `load_records` and `save_records` (account.py): which stored
 * objects become records, how records are written, and `Account.__init__`,
 * which loads and then builds the indexes. Reading and writing the file, the
 * JSON codec and the `.bak` copy are outside the model: a file that is absent
 * or is not valid JSON is `None`.
 */
module Persistence {
  import opened Results
  import opened Calendar
  import opened Records
  import opened DateText
  import opened Ledger
  import opened Sequences

  /** The JSON value under the "date" key: a string, or a value of another JSON type. */
  datatype DateField = Text(text: string) | NotText

  /**
   * One object of the data file. `date` is `None` when the object has no
   * "date" key. `fieldsFit` tells whether the object's keys are exactly the
   * parameters of `Record(date, category, amount, description)`.
   */
  datatype StoredRecord = StoredRecord(
    date: Option<DateField>,
    category: string,
    amount: real,
    description: string,
    fieldsFit: bool)

  /**
   * What the loading loop does with one object: skip it with a warning (no
   * "date" key, or a date `strptime` rejects with `ValueError`), keep it, or
   * raise an error the per-record handler does not catch (`strptime` given a
   * non-string raises `TypeError`, as does `Record(**data)` given missing or
   * extra keys).
   */
  datatype Decoded = Skip | Keep(record: Record) | Abort

  function Decode(item: StoredRecord): (d: Decoded)
    ensures d.Skip? <==> item.date.None? || (item.date.value.Text? && ParseDate(item.date.value.text).None?)
    ensures d.Abort? <==> item.date == Some(NotText) || (item.date.Some? && item.date.value.Text? && ParseDate(item.date.value.text).Some? && !item.fieldsFit)
    ensures d.Keep? ==>
      && item.date.Some? && item.date.value.Text? && ParseDate(item.date.value.text) == Some(d.record.date)
      && d.record == Record(d.record.date, item.category, item.amount, item.description)
  {
    match item.date
    case None => Skip
    case Some(NotText) => Abort
    case Some(Text(text)) =>
      match ParseDate(text)
      case None => Skip
      case Some(d) =>
        if item.fieldsFit then Keep(Record(d, item.category, item.amount, item.description)) else Abort
  }

  /**
   * The loading loop. `None` means it raised an uncaught error, which the
   * outer `except Exception` turns into an empty load, discarding any records
   * already read.
   */
  function LoadItems(items: seq<StoredRecord>): (r: Option<seq<Record>>)
    ensures r.None? <==> exists i | 0 <= i < |items| :: Decode(items[i]).Abort?
    ensures r.Some? ==> |r.value| <= |items|
  {
    if items == [] then Some([])
    else
      var init, last := items[..|items| - 1], items[|items| - 1];
      assert items == init + [last];
      match LoadItems(init)
      case None => None
      case Some(rs) =>
        match Decode(last)
        case Abort => None
        case Skip => Some(rs)
        case Keep(r) => Some(rs + [r])
  }

  /** `load_records`: an absent or malformed file, or an aborted loop, loads nothing. */
  function Load(file: Option<seq<StoredRecord>>): (rs: seq<Record>)
    ensures file.None? ==> rs == []
    ensures file.Some? && LoadItems(file.value).None? ==> rs == []
    ensures file.Some? && LoadItems(file.value).Some? ==> rs == LoadItems(file.value).value
  {
    match file
    case None => []
    case Some(items) =>
      match LoadItems(items)
      case None => []
      case Some(rs) => rs
  }

  /** The object `save_records` writes for one record. */
  function Encode(r: Record): StoredRecord
  {
    StoredRecord(Some(Text(FormatDate(r.date))), r.category, r.amount, r.description, true)
  }

  /** `save_records`: every record, in order, with its date written as "YYYY-MM-DD". */
  function Save(rs: seq<Record>): (items: seq<StoredRecord>)
    ensures |items| == |rs|
    ensures forall i | 0 <= i < |rs| :: Decode(items[i]) == Keep(rs[i])
  {
    var items := seq(|rs|, i requires 0 <= i < |rs| => Encode(rs[i]));
    assert forall i | 0 <= i < |rs| :: Decode(items[i]) == Keep(rs[i]) by {
      forall i | 0 <= i < |rs|
        ensures Decode(items[i]) == Keep(rs[i])
      {
        ParseFormat(rs[i].date);
      }
    }
    items
  }

  /** `Account.__init__`: load the file, then build the indexes over the loaded list. */
  function Open(file: Option<seq<StoredRecord>>): (a: Account)
    ensures Consistent(a)
    ensures a.records == Load(file)
  {
    BuildIndexes(Load(file))
  }

  lemma {:induction false} DecodeAllKept(items: seq<StoredRecord>, rs: seq<Record>)
    requires |items| == |rs|
    requires forall i | 0 <= i < |items| :: Decode(items[i]) == Keep(rs[i])
    ensures LoadItems(items) == Some(rs)
    decreases |items|
  {
    if items != [] {
      var init, last := items[..|items| - 1], items[|items| - 1];
      var kept := rs[..|rs| - 1];
      forall i | 0 <= i < |init|
        ensures Decode(init[i]) == Keep(kept[i])
      {
        assert init[i] == items[i] && kept[i] == rs[i];
      }
      DecodeAllKept(init, kept);
      assert Decode(last) == Keep(rs[|rs| - 1]);
      LoadKept(items);
      InitThenLast(rs);
    }
  }

  /** A kept object is appended to what the objects before it loaded. */
  lemma LoadKept(items: seq<StoredRecord>)
    requires items != []
    requires LoadItems(items[..|items| - 1]).Some? && Decode(items[|items| - 1]).Keep?
    ensures LoadItems(items) == Some(LoadItems(items[..|items| - 1]).value + [Decode(items[|items| - 1]).record])
  {
  }

  /** Saving and then loading gives back the same records, in the same order. */
  lemma SaveLoad(rs: seq<Record>)
    ensures Load(Some(Save(rs))) == rs
  {
    DecodeAllKept(Save(rs), rs);
  }

  /** Reopening the file written after any add reproduces the account, indexes included. */
  lemma ReopenAfterSave(a: Account)
    requires Consistent(a)
    ensures Open(Some(Save(a.records))) == a
  {
    SaveLoad(a.records);
    ConsistentUnique(Open(Some(Save(a.records))), a);
  }

  /**
   * The loading loop works object by object: loading two runs of objects is
   * loading each run and concatenating, so kept records keep their relative
   * order, and an object that is skipped contributes nothing.
   */
  lemma {:induction false} LoadItemsConcat(a: seq<StoredRecord>, b: seq<StoredRecord>)
    requires LoadItems(a + b).Some?
    ensures LoadItems(a).Some? && LoadItems(b).Some?
    ensures LoadItems(a + b).value == LoadItems(a).value + LoadItems(b).value
    decreases |b|
  {
    if b == [] {
      assert a + b == a;
    } else {
      ConcatInit(a, b);
      LoadItemsConcat(a, b[..|b| - 1]);
    }
  }

  /** An object without a usable date is dropped without affecting the others. */
  lemma DropUndated(a: seq<StoredRecord>, item: StoredRecord, b: seq<StoredRecord>)
    requires item.date.None? || (item.date.value.Text? && ParseDate(item.date.value.text).None?)
    ensures LoadItems(a + [item] + b) == LoadItems(a + b)
  {
    if LoadItems(a + b).None? {
      var i :| 0 <= i < |a + b| && Decode((a + b)[i]).Abort?;
      var j := if i < |a| then i else i + 1;
      assert (a + [item] + b)[j] == (a + b)[i];
    } else {
      LoadItemsConcat(a, b);
      assert LoadItems([item]) == Some([]) by {
        assert [item][..0] == [];
      }
      assert LoadItems(a + [item]) == LoadItems(a) by {
        assert (a + [item])[..|a|] == a;
      }
      assert LoadItems(a + [item] + b).Some?;
      LoadItemsConcat(a + [item], b);
    }
  }
}
