/**
 * The application's state container: the signed-in user and token, the record on
 * display, and the in-memory search history. Each action replaces some fields of the
 * one shared state; the fields an action does not name keep their values. The
 * persist middleware stores the projection Partialize; rehydration is not modelled.
 */
module AppStore {
  import opened Wrappers
  import opened Lists
  import opened Records

  const MaxHistoryEntries: nat := 10
  const PersistName: string := "geo-app-storage"

  /** A history entry: the provider record spread into a new object, plus the time it was added. */
  datatype Entry = Entry(record: GeoRecord, timestamp: string)

  /** The key `item => item.ip`. */
  function EntryIp(e: Entry): string { e.record.ip }

  /** The store's state, field by field. */
  datatype StoreState = StoreState(
    user: Option<User>,
    token: Option<string>,
    isLoggedIn: bool,
    currentGeoData: Option<GeoRecord>,
    historyList: seq<Entry>)

  /** The object the persist middleware writes: everything but currentGeoData. */
  datatype Persisted = Persisted(token: Option<string>, user: Option<User>, isLoggedIn: bool, historyList: seq<Entry>)

  function Partialize(s: StoreState): Persisted {
    Persisted(s.token, s.user, s.isLoggedIn, s.historyList)
  }

  /** The record on display is never persisted: changing it leaves the stored projection as it was. */
  lemma PartializeIgnoresCurrentGeoData(s: StoreState, g: Option<GeoRecord>)
    ensures Partialize(s.(currentGeoData := g)) == Partialize(s)
  {
  }

  /** Every other field is persisted: two states with one projection differ at most in currentGeoData. */
  lemma PartializeKeepsTheRest(s: StoreState, t: StoreState)
    requires Partialize(s) == Partialize(t)
    ensures s.(currentGeoData := t.currentGeoData) == t
  {
  }

  /** The history invariant the store's actions keep: at most ten entries, no ip twice. */
  ghost predicate HistoryValid(list: seq<Entry>) {
    |list| <= MaxHistoryEntries && UniqueKeys(list, EntryIp)
  }

  /**
   * The addToHistory rule: an ip already listed leaves the list as it is (no move to
   * the front, no new timestamp); a new ip goes in front, timestamped, and the list
   * keeps its first ten entries. Either way the ip is listed afterwards.
   */
  function WithEntry(list: seq<Entry>, g: GeoRecord, timestamp: string): (r: seq<Entry>)
    ensures HasKey(r, EntryIp, g.ip)
    ensures HasKey(list, EntryIp, g.ip) ==> r == list
    ensures !HasKey(list, EntryIp, g.ip) ==> r[0] == Entry(g, timestamp) && r[1..] == Take(list, MaxHistoryEntries - 1)
    ensures |r| <= Max(|list|, MaxHistoryEntries)
  {
    if HasKey(list, EntryIp, g.ip) then list
    else
      var r := Take([Entry(g, timestamp)] + list, MaxHistoryEntries);
      assert EntryIp(r[0]) == g.ip;
      assert r[1..] == Take(list, MaxHistoryEntries - 1);
      r
  }

  /** One addToHistory keeps the history invariant. */
  lemma WithEntryKeepsValid(list: seq<Entry>, g: GeoRecord, timestamp: string)
    requires HistoryValid(list)
    ensures HistoryValid(WithEntry(list, g, timestamp))
  {
    if !HasKey(list, EntryIp, g.ip) {
      forall x | x in list ensures EntryIp(x) != g.ip {
        var i :| 0 <= i < |list| && list[i] == x;
      }
      UniqueCons(Entry(g, timestamp), list, EntryIp);
      TakeUnique([Entry(g, timestamp)] + list, MaxHistoryEntries, EntryIp);
    }
  }

  /** A sequence of addToHistory calls, each with its record and its time, applied in order. */
  function AddAll(list: seq<Entry>, adds: seq<(GeoRecord, string)>): seq<Entry> {
    if adds == [] then list
    else
      var last := adds[|adds| - 1];
      WithEntry(AddAll(list, adds[..|adds| - 1]), last.0, last.1)
  }

  /** One more addToHistory call after a sequence of them. */
  lemma AddAllSnoc(list: seq<Entry>, adds: seq<(GeoRecord, string)>, a: (GeoRecord, string))
    ensures AddAll(list, adds + [a]) == WithEntry(AddAll(list, adds), a.0, a.1)
  {
    assert (adds + [a])[..|adds|] == adds;
  }

  /** Any sequence of addToHistory calls keeps the history invariant. */
  lemma {:induction false} AddAllKeepsValid(list: seq<Entry>, adds: seq<(GeoRecord, string)>)
    requires HistoryValid(list)
    ensures HistoryValid(AddAll(list, adds))
  {
    if adds != [] {
      var last := adds[|adds| - 1];
      AddAllKeepsValid(list, adds[..|adds| - 1]);
      WithEntryKeepsValid(AddAll(list, adds[..|adds| - 1]), last.0, last.1);
    }
  }

  /** Adding an ip that is already listed, any number of times, changes nothing. */
  lemma {:induction false} AddAllPresent(list: seq<Entry>, adds: seq<(GeoRecord, string)>)
    requires forall k :: 0 <= k < |adds| ==> HasKey(list, EntryIp, adds[k].0.ip)
    ensures AddAll(list, adds) == list
  {
    if adds != [] {
      AddAllPresent(list, adds[..|adds| - 1]);
    }
  }

  /** removeFromHistory keeps the history invariant. */
  lemma RemoveKeepsValid(list: seq<Entry>, ips: seq<string>)
    requires HistoryValid(list)
    ensures HistoryValid(Without(list, EntryIp, ips))
  {
    WithoutUnique(list, EntryIp, ips);
  }

  class Store {
    var user: Option<User>
    var token: Option<string>
    var isLoggedIn: bool
    var currentGeoData: Option<GeoRecord>
    var historyList: seq<Entry>

    /** The initial state: signed out, nothing on display, empty history. */
    constructor ()
      ensures State() == StoreState(None, None, false, None, [])
      ensures Valid()
    {
      user := None;
      token := None;
      isLoggedIn := false;
      currentGeoData := None;
      historyList := [];
    }

    function State(): StoreState
      reads this
    {
      StoreState(user, token, isLoggedIn, currentGeoData, historyList)
    }

    ghost predicate Valid()
      reads this
    {
      HistoryValid(historyList)
    }

    /** `login(user, token)`: signs in; the record on display and the history stay. */
    method Login(u: User, t: string)
      modifies this`user, this`token, this`isLoggedIn
      ensures State() == old(State()).(user := Some(u), token := Some(t), isLoggedIn := true)
    {
      user := Some(u);
      token := Some(t);
      isLoggedIn := true;
    }

    /** `register(user, token)`: the same update as login. */
    method Register(u: User, t: string)
      modifies this`user, this`token, this`isLoggedIn
      ensures State() == old(State()).(user := Some(u), token := Some(t), isLoggedIn := true)
    {
      user := Some(u);
      token := Some(t);
      isLoggedIn := true;
    }

    /** `logout`: back to the initial state, history included. */
    method Logout()
      modifies this
      ensures State() == StoreState(None, None, false, None, [])
      ensures Valid()
    {
      user := None;
      token := None;
      isLoggedIn := false;
      currentGeoData := None;
      historyList := [];
    }

    /** `setCurrentGeoData(data)`: replaces the record on display and nothing else. */
    method SetCurrentGeoData(data: Option<GeoRecord>)
      modifies this`currentGeoData
      ensures State() == old(State()).(currentGeoData := data)
    {
      currentGeoData := data;
    }

    /** `addToHistory(geoData)` at time `timestamp`. */
    method AddToHistory(g: GeoRecord, timestamp: string)
      modifies this`historyList
      ensures State() == old(State()).(historyList := WithEntry(old(historyList), g, timestamp))
      ensures old(Valid()) ==> Valid()
    {
      ghost var before := historyList;
      var present := HasKey(historyList, EntryIp, g.ip);
      if present {
        return;
      }
      historyList := Take([Entry(g, timestamp)] + historyList, MaxHistoryEntries);
      if HistoryValid(before) {
        WithEntryKeepsValid(before, g, timestamp);
      }
    }

    /** `clearHistory`: empties the history and nothing else. */
    method ClearHistory()
      modifies this`historyList
      ensures State() == old(State()).(historyList := [])
      ensures Valid()
    {
      historyList := [];
    }

    /** `removeFromHistory(ips)`: keeps the entries whose ip is not listed, in order. */
    method RemoveFromHistory(ips: seq<string>)
      modifies this`historyList
      ensures State() == old(State()).(historyList := Without(old(historyList), EntryIp, ips))
      ensures old(Valid()) ==> Valid()
    {
      if HistoryValid(historyList) {
        RemoveKeepsValid(historyList, ips);
      }
      historyList := Without(historyList, EntryIp, ips);
    }
  }
}
