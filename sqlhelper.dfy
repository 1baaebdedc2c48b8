/**
 * The event object the dispatcher assembles, and the name-to-id catalogs of
 * event types and event states read from the database. The stored procedures
 * and their connections are outside the model; a catalog is built from the
 * rows the reader returns.
 */
module SqlHelper {
  import opened Wrappers
  import opened Text
  import opened AppConfig

  /** The values held by a `CameraEvent` at one moment. */
  datatype EventRecord = EventRecord(
    EventType: string, EventState: int, RawEventState: string, IpAddress: string,
    Count: int, TimeStart: int, TimeEnd: int, Actions: seq<EventAction>)

  /** The record of a freshly constructed event at time `now`. */
  function InitialRecord(ipAddress: string, now: int): EventRecord {
    EventRecord("", 0, "", ipAddress, 0, now, now, [])
  }

  /**
   * An event being assembled for one camera and, once promoted, coalesced.
   * Its fields are updated in place, and the same object may be reachable from
   * both tables of the dispatcher.
   */
  class CameraEvent {
    var EventType: string
    var EventState: int
    var RawEventState: string
    const IpAddress: string
    var Count: int
    var TimeStart: int
    var TimeEnd: int
    var Actions: seq<EventAction>

    function Record(): EventRecord
      reads this
    {
      EventRecord(EventType, EventState, RawEventState, IpAddress, Count, TimeStart, TimeEnd, Actions)
    }

    /**
     * The empty event: no type, state 0, both times `now`. `Count` is never
     * assigned and keeps the default 0; `Actions` is null, modelled as empty.
     */
    constructor(ipAddress: string, now: int)
      ensures Record() == InitialRecord(ipAddress, now)
    {
      IpAddress := ipAddress;
      EventState := 0;
      RawEventState := "";
      EventType := "";
      TimeStart := now;
      TimeEnd := now;
      Count := 0;
      Actions := [];
    }
  }

  /** One row of `sp_getAllCameraEvents` or `sp_getAllEventStates`. */
  datatype Row = Row(Id: int, Name: string)

  /** No two rows share an upper-cased name or an id. */
  predicate UniqueRows(rows: seq<Row>) {
    forall i, j | 0 <= i < j < |rows| ::
      ToUpper(rows[i].Name) != ToUpper(rows[j].Name) && rows[i].Id != rows[j].Id
  }

  /** The key of each row: its name, upper-cased. */
  function RowKeys(rows: seq<Row>): (keys: seq<string>)
    ensures |keys| == |rows| && forall i | 0 <= i < |rows| :: keys[i] == ToUpper(rows[i].Name)
  {
    seq(|rows|, i requires 0 <= i < |rows| => ToUpper(rows[i].Name))
  }

  /** The id of each row. */
  function RowIds(rows: seq<Row>): (ids: seq<int>)
    ensures |ids| == |rows| && forall i | 0 <= i < |rows| :: ids[i] == rows[i].Id
  {
    seq(|rows|, i requires 0 <= i < |rows| => rows[i].Id)
  }

  /** Among the first `n` rows, no two share a key or an id. */
  ghost predicate UniqueUpTo(keys: seq<string>, ids: seq<int>, n: int)
    requires 0 <= n <= |keys| == |ids|
  {
    forall a, b | 0 <= a < b < n :: keys[a] != keys[b] && ids[a] != ids[b]
  }

  /** `catalog` maps exactly the keys of the first `n` rows, each to its row's id. */
  ghost predicate CatalogOf(keys: seq<string>, ids: seq<int>, n: int, catalog: map<string, int>)
    requires 0 <= n <= |keys| == |ids|
  {
    && |catalog| == n
    && (forall j | 0 <= j < n :: keys[j] in catalog && catalog[keys[j]] == ids[j])
    && (forall k | k in catalog :: exists j | 0 <= j < n :: k == keys[j])
  }

  /** Unique rows are rows whose keys and ids are all distinct. */
  lemma UniqueRowsOfKeys(rows: seq<Row>)
    ensures UniqueRows(rows) <==> UniqueUpTo(RowKeys(rows), RowIds(rows), |rows|)
  {
  }

  /** A row whose key or id is already in the catalog makes the rows not unique. */
  lemma CatalogClash(keys: seq<string>, ids: seq<int>, i: int, catalog: map<string, int>)
    requires 0 <= i < |keys| == |ids| && CatalogOf(keys, ids, i, catalog)
    requires ids[i] in catalog.Values || keys[i] in catalog
    ensures !UniqueUpTo(keys, ids, |keys|)
  {
    if keys[i] in catalog {
      var j :| 0 <= j < i && keys[i] == keys[j];
    } else {
      var k :| k in catalog && catalog[k] == ids[i];
      var j :| 0 <= j < i && k == keys[j];
      assert ids[j] == ids[i];
    }
  }

  /** The rows so far stay unique when the next row differs from each of them. */
  lemma UniqueUpToExtend(keys: seq<string>, ids: seq<int>, i: int)
    requires 0 <= i < |keys| == |ids| && UniqueUpTo(keys, ids, i)
    requires forall j | 0 <= j < i :: keys[j] != keys[i] && ids[j] != ids[i]
    ensures UniqueUpTo(keys, ids, i + 1)
  {
    forall a, b | 0 <= a < b < i + 1
      ensures keys[a] != keys[b] && ids[a] != ids[b]
    {
      if b == i {
        assert keys[a] != keys[i] && ids[a] != ids[i];
      }
    }
  }

  /** A key and an id missing from the catalog belong to none of the rows it holds. */
  lemma CatalogMisses(keys: seq<string>, ids: seq<int>, i: int, catalog: map<string, int>)
    requires 0 <= i < |keys| == |ids| && CatalogOf(keys, ids, i, catalog)
    requires ids[i] !in catalog.Values && keys[i] !in catalog
    ensures forall j | 0 <= j < i :: keys[j] != keys[i] && ids[j] != ids[i]
  {
    forall j | 0 <= j < i
      ensures keys[j] != keys[i] && ids[j] != ids[i]
    {
      assert catalog[keys[j]] == ids[j];
    }
  }

  /** Adding the next row's key, absent before, catalogs one row more. */
  lemma CatalogAdd(keys: seq<string>, ids: seq<int>, i: int, catalog: map<string, int>)
    requires 0 <= i < |keys| == |ids| && CatalogOf(keys, ids, i, catalog)
    requires keys[i] !in catalog
    ensures CatalogOf(keys, ids, i + 1, catalog[keys[i] := ids[i]])
  {
    var next := catalog[keys[i] := ids[i]];
    assert |next| == i + 1;
    forall j | 0 <= j < i + 1
      ensures keys[j] in next && next[keys[j]] == ids[j]
    {
      if j < i {
        assert keys[j] in catalog && keys[j] != keys[i];
      }
    }
    forall k | k in next
      ensures exists j | 0 <= j < i + 1 :: k == keys[j]
    {
      if k != keys[i] {
        var j :| 0 <= j < i && k == keys[j];
      }
    }
  }

  /** A row with a new key and a new id extends the catalog and keeps the rows so far unique. */
  lemma CatalogExtend(keys: seq<string>, ids: seq<int>, i: int, catalog: map<string, int>)
    requires 0 <= i < |keys| == |ids| && CatalogOf(keys, ids, i, catalog) && UniqueUpTo(keys, ids, i)
    requires ids[i] !in catalog.Values && keys[i] !in catalog
    ensures CatalogOf(keys, ids, i + 1, catalog[keys[i] := ids[i]])
    ensures UniqueUpTo(keys, ids, i + 1)
  {
    CatalogMisses(keys, ids, i, catalog);
    UniqueUpToExtend(keys, ids, i);
    CatalogAdd(keys, ids, i, catalog);
  }

  /** A catalog of unique rows maps no two keys to the same id. */
  lemma CatalogInjective(keys: seq<string>, ids: seq<int>, catalog: map<string, int>)
    requires |keys| == |ids| && CatalogOf(keys, ids, |keys|, catalog) && UniqueUpTo(keys, ids, |keys|)
    ensures forall k1, k2 | k1 in catalog && k2 in catalog && k1 != k2 :: catalog[k1] != catalog[k2]
  {
    forall k1, k2 | k1 in catalog && k2 in catalog && k1 != k2
      ensures catalog[k1] != catalog[k2]
    {
      var j1 :| 0 <= j1 < |keys| && k1 == keys[j1];
      var j2 :| 0 <= j2 < |keys| && k2 == keys[j2];
      assert j1 != j2;
    }
  }

  /**
   * The reading loop of `GetAllEventTypes` and `GetAllEventStates`: names are
   * upper-cased into keys, and a repeated name or id makes the whole result
   * null (the loop throws and the handler returns null).
   */
  method BuildCatalog(rows: seq<Row>) returns (catalog: Option<map<string, int>>)
    ensures catalog.Some? <==> UniqueRows(rows)
    ensures catalog.Some? ==> |catalog.value| == |rows|
    ensures catalog.Some? ==> forall i | 0 <= i < |rows| ::
      ToUpper(rows[i].Name) in catalog.value && catalog.value[ToUpper(rows[i].Name)] == rows[i].Id
    ensures catalog.Some? ==> forall k | k in catalog.value ::
      exists i | 0 <= i < |rows| :: k == ToUpper(rows[i].Name)
    ensures catalog.Some? ==> forall k1, k2 | k1 in catalog.value && k2 in catalog.value && k1 != k2 ::
      catalog.value[k1] != catalog.value[k2]
  {
    ghost var keys, ids := RowKeys(rows), RowIds(rows);
    UniqueRowsOfKeys(rows);
    var events: map<string, int> := map[];
    var i := 0;
    while i < |rows|
      invariant 0 <= i <= |rows|
      invariant UniqueUpTo(keys, ids, i)
      invariant CatalogOf(keys, ids, i, events)
    {
      var id := rows[i].Id;
      var name := ToUpper(rows[i].Name);
      if id in events.Values || name in events {
        CatalogClash(keys, ids, i, events);
        return Option.None;
      }
      CatalogExtend(keys, ids, i, events);
      events := events[name := id];
      i := i + 1;
    }
    CatalogInjective(keys, ids, events);
    return Some(events);
  }
}
