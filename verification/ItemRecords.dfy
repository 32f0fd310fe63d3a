/** Creating items from a queue message and recording them (`StreamingCreateItemsTask`). */
module ItemRecords {
  import opened Common
  import opened Text

  /** A STAC item. A missing version is the empty one; None is a version of null. */
  datatype Item = Item(collectionId: string, id: string, version: Option<string>, body: string)

  /** The content of a message: JSON that does not parse, or a storage event. */
  datatype Content = Malformed | Event(id: string, url: string)

  /** What the create function does with a url. A failed validation counts as a failure. */
  datatype Created = Items(items: seq<Item>) | CreateFails | Waits

  /** A deterministic create function. */
  type CreateFn = string -> Created

  datatype RawRecord =
    | StacItem(stacId: string, version: Option<string>, body: string)
    | ItemUpdated(stacId: string, version: Option<string>, runId: string)

  /** The validator of a record: exactly one slash in the STAC id. */
  predicate ValidStacId(stacId: string) {
    |Split(stacId, '/')| == 2
  }

  type Record = r: RawRecord | ValidStacId(r.stacId) witness StacItem("/", None, "")

  /** A record is stored under its partition key, the STAC id, and its record id. */
  type Key = (string, string)

  // ---------------------------------------------------------------- record ids

  function StacId(item: Item): string {
    item.collectionId + "/" + item.id
  }

  function TypeName(r: RawRecord): string {
    if r.StacItem? then "StacItem" else "ItemUpdated"
  }

  /** The collection and item parts of a record id. */
  function IdPrefix(stacId: string): string
    requires ValidStacId(stacId)
  {
    Split(stacId, '/')[0] + ":" + Split(stacId, '/')[1] + ":"
  }

  /** The version as a record id shows it. */
  function VersionText(version: Option<string>): string {
    if version.None? then "None" else version.value
  }

  /** The validator of update records replaces null. */
  function Recorded(version: Option<string>): Option<string> {
    Some(if version.None? then "" else version.value)
  }

  /** `get_id`. */
  function RecordId(r: Record): string {
    IdPrefix(r.stacId) + (VersionText(r.version) + (":" + TypeName(r)))
  }

  function KeyOf(r: Record): Key {
    (r.stacId, RecordId(r))
  }

  lemma CancelPrefix(a: string, x: string, y: string)
    requires a + x == a + y
    ensures x == y
  {
    assert x == (a + x)[|a|..] && y == (a + y)[|a|..];
  }

  lemma CancelSuffix(x: string, y: string, a: string)
    requires x + a == y + a
    ensures x == y
  {
    assert |x + a| == |x| + |a| && |y + a| == |y| + |a|;
    assert x == (x + a)[..|x|] && y == (y + a)[..|y|];
  }

  lemma LastChar(v: string, r: Record)
    ensures var x := v + (":" + TypeName(r)); x[|x| - 1] == if r.StacItem? then 'm' else 'd'
  {
  }

  /** A record id alone is ambiguous, since its parts may contain colons, but together with the
      partition key it determines the STAC id, the text of the version and the type. */
  lemma KeyDetermines(r: Record, s: Record)
    requires KeyOf(r) == KeyOf(s)
    ensures r.stacId == s.stacId && VersionText(r.version) == VersionText(s.version) && (r.StacItem? <==> s.StacItem?)
  {
    var v, w := VersionText(r.version), VersionText(s.version);
    CancelPrefix(IdPrefix(r.stacId), v + (":" + TypeName(r)), w + (":" + TypeName(s)));
    LastChar(v, r);
    LastChar(w, s);
    CancelSuffix(v, w, ":" + TypeName(r));
  }

  // ---------------------------------------------------------------- processing

  /** The result of `process_message`: an exception, items, or an error record. */
  datatype Processed = ProcessRaises | Ok(items: seq<Item>) | Error(eventId: string)

  /** `process_message`. A failing create function yields an error record, not an exception;
      an unexpected wait result and unreadable content raise. */
  function ProcessMessage(create: CreateFn, content: Content): Processed {
    match content
    case Malformed => ProcessRaises
    case Event(id, url) =>
      match create(url)
      case Items(items) => Ok(items)
      case CreateFails => Error(id)
      case Waits => ProcessRaises
  }

  predicate ValidItem(item: Item) {
    ValidStacId(StacId(item))
  }

  predicate ValidItems(items: seq<Item>) {
    forall i :: 0 <= i < |items| ==> ValidItem(items[i])
  }

  function ItemRecord(item: Item): Record
    requires ValidItem(item)
  {
    StacItem(StacId(item), item.version, item.body)
  }

  function UpdateRecord(item: Item, runId: string): Record
    requires ValidItem(item)
  {
    ItemUpdated(StacId(item), Recorded(item.version), runId)
  }

  function ItemPuts(items: seq<Item>): seq<Record>
    requires ValidItems(items)
  {
    seq(|items|, i requires 0 <= i < |items| => ItemRecord(items[i]))
  }

  function UpdatePuts(items: seq<Item>, runId: string): seq<Record>
    requires ValidItems(items)
  {
    seq(|items|, i requires 0 <= i < |items| => UpdateRecord(items[i], runId))
  }

  /** The records a delivery puts, in order: all item records, then all update records. */
  function RecordsOf(items: seq<Item>, runId: string): seq<Record>
    requires ValidItems(items)
  {
    ItemPuts(items) + UpdatePuts(items, runId)
  }

  lemma {:induction false} OnePart(s: string, c: char)
    ensures |Split(s, c)| == 1 <==> c !in s
  {
    if s != "" {
      OnePart(s[1..], c);
    }
  }

  /** The validator accepts an item exactly when neither its collection nor its own id has a
      slash, and then the parts of the STAC id are these two. */
  lemma ValidItemMeans(item: Item)
    ensures ValidItem(item) <==> '/' !in item.collectionId && '/' !in item.id
    ensures ValidItem(item) ==> Split(StacId(item), '/') == [item.collectionId, item.id]
  {
    SplitConcat(item.collectionId, item.id, '/');
    OnePart(item.collectionId, '/');
    OnePart(item.id, '/');
    if ValidItem(item) {
      SplitFree(item.collectionId, '/');
      SplitFree(item.id, '/');
    }
  }

  type Store = map<Key, Record>

  /** Upserting records one after the other. */
  function PutAll(store: Store, rs: seq<Record>): Store {
    if rs == [] then store
    else
      var last := rs[|rs| - 1];
      PutAll(store, rs[..|rs| - 1])[KeyOf(last) := last]
  }

  lemma {:induction false} PutAllConcat(store: Store, a: seq<Record>, b: seq<Record>)
    ensures PutAll(store, a + b) == PutAll(PutAll(store, a), b)
  {
    if b == [] {
      assert a + b == a;
    } else {
      var front := b[..|b| - 1];
      assert (a + b)[..|a + b| - 1] == a + front;
      PutAllConcat(store, a, front);
    }
  }

  // ---------------------------------------------------------------- finalizing

  /** The containers: item and update records share one, errors have their own. */
  class Containers {
    var records: Store
    var errors: set<string>

    /** A put. It may raise, before or after the record was stored. */
    method Put(r: Record) returns (ok: bool, stored: bool)
      modifies this`records
      ensures ok ==> stored
      ensures records == if stored then old(records)[KeyOf(r) := r] else old(records)
    {
      ok, stored := *, *;
      if ok {
        stored := true;
      }
      if stored {
        records := records[KeyOf(r) := r];
      }
    }

    method PutError(id: string) returns (ok: bool, stored: bool)
      modifies this`errors
      ensures ok ==> stored
      ensures errors == if stored then old(errors) + {id} else old(errors)
    {
      ok, stored := *, *;
      if ok {
        stored := true;
      }
      if stored {
        errors := errors + {id};
      }
    }

    /** Puts records until one put raises; `done` of them were stored. */
    method PutEach(rs: seq<Record>) returns (ok: bool, done: nat)
      modifies this`records
      ensures done <= |rs| && (ok ==> done == |rs|) && (!ok ==> rs != [])
      ensures records == PutAll(old(records), rs[..done])
    {
      done := 0;
      ok := true;
      while done < |rs|
        invariant done <= |rs| && ok
        invariant records == PutAll(old(records), rs[..done])
      {
        assert rs[..done + 1][..done] == rs[..done];
        var stored;
        ok, stored := Put(rs[done]);
        if stored {
          done := done + 1;
        }
        if !ok {
          return;
        }
      }
    }

    /** The two loops of `finalize_message` that put the records. */
    method PutRecords(itemRecords: seq<Record>, updateRecords: seq<Record>) returns (ok: bool, done: nat)
      modifies this`records
      ensures done <= |itemRecords + updateRecords| && (ok ==> done == |itemRecords + updateRecords|)
      ensures !ok ==> itemRecords + updateRecords != []
      ensures records == PutAll(old(records), (itemRecords + updateRecords)[..done])
    {
      ghost var all := itemRecords + updateRecords;
      ok, done := PutEach(itemRecords);
      assert itemRecords[..done] == all[..done];
      if !ok {
        return;
      }
      var more;
      ok, more := PutEach(updateRecords);
      PutAllConcat(old(records), itemRecords, updateRecords[..more]);
      done := done + more;
      assert itemRecords[..|itemRecords|] == itemRecords;
      assert itemRecords + updateRecords[..more] == all[..done];
    }

    /** The first loop of `finalize_message`; None when a STAC id is not valid. */
    static method BuildRecords(items: seq<Item>, runId: string) returns (r: Option<(seq<Record>, seq<Record>)>)
      ensures r.Some? <==> ValidItems(items)
      ensures r.Some? ==> r.value == (ItemPuts(items), UpdatePuts(items, runId))
    {
      var itemRecords: seq<Record>, updateRecords: seq<Record> := [], [];
      for i := 0 to |items|
        invariant ValidItems(items[..i])
        invariant itemRecords == ItemPuts(items[..i])
        invariant updateRecords == UpdatePuts(items[..i], runId)
      {
        if !ValidItem(items[i]) {
          return None;
        }
        var itemRecord := ItemRecord(items[i]);
        assert items[..i + 1] == items[..i] + [items[i]];
        itemRecords := itemRecords + [itemRecord];
        updateRecords := updateRecords + [ItemUpdated(itemRecord.stacId, Recorded(itemRecord.version), runId)];
      }
      assert items[..|items|] == items;
      return Some((itemRecords, updateRecords));
    }

    /** `finalize_message` with the result of `process_message`. It raises (`ok` is false) when
        an item has no valid STAC id, before any put, or when a put raises; `done` puts were
        stored. */
    method FinalizeMessage(result: Processed, runId: string, errorId: string) returns (ok: bool, done: nat)
      requires !result.ProcessRaises?
      modifies this
      ensures result.Ok? ==> errors == old(errors)
      ensures result.Ok? && !ValidItems(result.items) ==> !ok && done == 0 && records == old(records)
      ensures result.Ok? && ValidItems(result.items) ==>
                && done <= |RecordsOf(result.items, runId)|
                && (ok ==> done == |RecordsOf(result.items, runId)|)
                && (!ok ==> result.items != [])
                && records == PutAll(old(records), RecordsOf(result.items, runId)[..done])
      ensures result.Error? ==> records == old(records) && done <= 1 && (ok ==> done == 1)
      ensures result.Error? ==> errors == old(errors) + if done == 1 then {errorId} else {}
    {
      done := 0;
      match result {
        case Ok(items) =>
          var built := BuildRecords(items, runId);
          if built.None? {
            return false, 0;
          }
          ok, done := PutRecords(built.value.0, built.value.1);
        case Error(_) =>
          var stored;
          ok, stored := PutError(errorId);
          done := if stored then 1 else 0;
      }
    }
  }
}
