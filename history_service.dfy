/**
 * The storage-backed search history: one list of history items kept in the browser's
 * local storage under the key "geo-app-history". Every operation reads the stored list,
 * computes a new one and writes it back; the storage slot is the one field of
 * HistoryStorage. The random UUID and the current time of a new item are parameters.
 */
module HistoryService {
  import opened Wrappers
  import opened Lists
  import opened Records

  const StorageKey: string := "geo-app-history"
  const MaxHistoryItems: nat := 10

  datatype HistoryItem = HistoryItem(
    id: string,
    ip: string,
    city: Option<string>,
    region: Option<string>,
    country: Option<string>,
    loc: Option<string>,
    hostname: Option<string>,
    org: Option<string>,
    postal: Option<string>,
    timezone: Option<string>,
    createdAt: string)

  /** The key `item => item.ip`. */
  function ItemIp(h: HistoryItem): string { h.ip }

  /**
   * What local storage holds under the history key: nothing (or an empty string),
   * text that JSON.parse rejects, or a saved list.
   */
  datatype Slot = Absent | Unreadable | Saved(items: seq<HistoryItem>)

  /** `getHistoryFromStorage`: the saved list, or the empty list when there is none or it cannot be parsed. */
  function Load(slot: Slot): (items: seq<HistoryItem>)
    ensures slot.Saved? ==> items == slot.items
    ensures !slot.Saved? ==> items == []
  {
    match slot
    case Saved(items) => items
    case _ => []
  }

  /** The eight optional location fields of a provider record, in declaration order. */
  function RecordFields(g: GeoRecord): seq<Option<string>> {
    [g.city, g.region, g.country, g.loc, g.hostname, g.org, g.postal, g.timezone]
  }

  /** The same eight fields of a history item. */
  function ItemFields(h: HistoryItem): seq<Option<string>> {
    [h.city, h.region, h.country, h.loc, h.hostname, h.org, h.postal, h.timezone]
  }

  /** `value || null` on an optional string. */
  function OrNull(o: Option<string>): Option<string> {
    if Truthy(o) then o else None
  }

  /**
   * The item addToHistory builds: the given id and time, the record's ip, and each
   * optional field copied when truthy and null otherwise, so no field holds "".
   */
  function NewItem(g: GeoRecord, id: string, createdAt: string): (h: HistoryItem)
    ensures h.id == id && h.ip == g.ip && h.createdAt == createdAt
    ensures |ItemFields(h)| == |RecordFields(g)| == 8
    ensures forall k :: 0 <= k < 8 && Truthy(RecordFields(g)[k]) ==> ItemFields(h)[k] == RecordFields(g)[k]
    ensures forall k :: 0 <= k < 8 && !Truthy(RecordFields(g)[k]) ==> ItemFields(h)[k] == None
    ensures forall k :: 0 <= k < 8 ==> ItemFields(h)[k] != Some("")
  {
    HistoryItem(id, g.ip, OrNull(g.city), OrNull(g.region), OrNull(g.country), OrNull(g.loc),
                OrNull(g.hostname), OrNull(g.org), OrNull(g.postal), OrNull(g.timezone), createdAt)
  }

  /**
   * The list addToHistory saves: the new item first, then the earlier entries with a
   * different ip in their stored order, cut to MaxHistoryItems so that the oldest go first.
   */
  function Prepended(history: seq<HistoryItem>, item: HistoryItem): (r: seq<HistoryItem>)
    ensures r != [] && r[0] == item
    ensures |r| <= MaxHistoryItems
    ensures forall k :: 1 <= k < |r| ==> r[k].ip != item.ip
    ensures r[1..] == Take(Without(history, ItemIp, [item.ip]), MaxHistoryItems - 1)
  {
    var r := Take([item] + Without(history, ItemIp, [item.ip]), MaxHistoryItems);
    assert r[1..] == Take(Without(history, ItemIp, [item.ip]), MaxHistoryItems - 1);
    forall k | 1 <= k < |r| ensures r[k].ip != item.ip {
      var f := Without(history, ItemIp, [item.ip]);
      assert r[k] in r[1..] && r[1..] <= f;
      assert r[k] in f;
      assert ItemIp(r[k]) !in [item.ip];
    }
    r
  }

  /** If the stored ips were unique, they stay unique after addToHistory. */
  lemma PrependedKeepsUnique(history: seq<HistoryItem>, item: HistoryItem)
    requires UniqueKeys(history, ItemIp)
    ensures UniqueKeys(Prepended(history, item), ItemIp)
  {
    var f := Without(history, ItemIp, [item.ip]);
    WithoutUnique(history, ItemIp, [item.ip]);
    UniqueCons(item, f, ItemIp);
    TakeUnique([item] + f, MaxHistoryItems, ItemIp);
  }

  /**
   * After addToHistory the entries behind the new item are earlier entries in their
   * earlier order, and an earlier entry with a different ip is dropped only when at
   * least MaxHistoryItems - 1 such entries are ahead of it or beside it.
   */
  lemma PrependedKeepsOrder(history: seq<HistoryItem>, item: HistoryItem)
    ensures Subseq(Prepended(history, item)[1..], history)
    ensures |Without(history, ItemIp, [item.ip])| < MaxHistoryItems ==>
              forall i :: 0 <= i < |history| && history[i].ip != item.ip ==> history[i] in Prepended(history, item)
  {
    var f := Without(history, ItemIp, [item.ip]);
    var r := Prepended(history, item);
    WithoutExactly(history, ItemIp, [item.ip]);
    SubseqPrefix(r[1..], f, history);
    if |f| < MaxHistoryItems {
      assert r[1..] == f;
      forall i | 0 <= i < |history| && history[i].ip != item.ip ensures history[i] in r {
        assert ItemIp(history[i]) !in [item.ip];
        assert history[i] in r[1..];
      }
    }
  }

  class HistoryStorage {
    var slot: Slot

    /** Fresh local storage: nothing is saved under the history key. */
    constructor ()
      ensures slot == Absent
    {
      slot := Absent;
    }

    /** The list every operation reads first. */
    function Stored(): seq<HistoryItem>
      reads this
    {
      Load(slot)
    }

    /**
     * `fetchHistory(limit)`: `slice(0, limit)` of the stored list, limit defaulting
     * to 10 when omitted; storage is not touched.
     */
    method FetchHistory(limit: Option<int>) returns (items: seq<HistoryItem>)
      ensures items <= Stored()
      ensures limit.None? ==> items == Take(Stored(), MaxHistoryItems)
      ensures limit.Some? && 0 <= limit.value ==> |items| == Min(limit.value, |Stored()|)
      ensures limit.Some? && limit.value < 0 ==> |items| == Max(|Stored()| + limit.value, 0)
      ensures slot == Absent || slot == Unreadable ==> items == []
    {
      var history := Load(slot);
      var end := if limit.Some? then limit.value else MaxHistoryItems;
      items := SliceTo(history, end);
    }

    /**
     * `addToHistory(geoData)`: builds the new item, removes any stored entry with the
     * same ip, saves the new item in front of the rest cut to ten, and returns the item.
     */
    method AddToHistory(g: GeoRecord, id: string, createdAt: string) returns (item: HistoryItem)
      modifies this
      ensures item == NewItem(g, id, createdAt)
      ensures slot == Saved(Prepended(old(Stored()), item))
    {
      var history := Load(slot);
      var newItem := NewItem(g, id, createdAt);
      var filtered := Without(history, ItemIp, [g.ip]);
      var updated := Take([newItem] + filtered, MaxHistoryItems);
      slot := Saved(updated);
      item := newItem;
    }

    /** `deleteHistory(ips)`: saves the stored entries whose ip is not listed, in order. */
    method DeleteHistory(ips: seq<string>)
      modifies this
      ensures slot == Saved(Without(old(Stored()), ItemIp, ips))
    {
      var history := Load(slot);
      slot := Saved(Without(history, ItemIp, ips));
    }

    /** `clearAllHistory`: saves the empty list. */
    method ClearAllHistory()
      modifies this
      ensures slot == Saved([])
    {
      slot := Saved([]);
    }
  }
}
