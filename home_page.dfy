/**
 * The home page's handlers, run once every lookup they start has settled. The page
 * holds its own view state and shares the application store. A batch search settles
 * one lookup per address, in input order (the order Promise.all keeps); the provider's
 * reply to the k-th lookup is `replyOf(k)` and the time of the k-th history addition
 * is `stamp(k)`.
 */
module Home {
  import opened Wrappers
  import opened Lists
  import opened Text
  import opened Records
  import opened GeoService
  import opened AppStore
  import Search

  const BatchErrorPrefix: string := "Failed to fetch some IPs: "

  /** A settled per-address lookup: a record, or the address with the rejection's message. */
  datatype BatchItem = Found(record: GeoRecord) | Missed(ip: string, message: string)

  /** The `.catch` of the batch: a rejection becomes an item tagged with its address. */
  function Tag(ip: string, o: Outcome): BatchItem {
    match o
    case Resolved(r) => Found(r)
    case Rejected(m) => Missed(ip, m)
  }

  /** The settled lookups of a batch, one per address in input order. */
  function BatchOutcomes(ips: seq<string>, token: string, replyOf: nat -> Reply): (rs: seq<BatchItem>)
    ensures |rs| == |ips|
  {
    seq(|ips|, k requires 0 <= k < |ips| => Tag(ips[k], Lookup(Some(ips[k]), token, replyOf(k))))
  }

  /**
   * An item of a batch is a record exactly when its request was sent and answered, and
   * then it is the answer; a miss carries its own address and a non-empty message, the
   * validation message for a malformed address.
   */
  lemma BatchOutcomeMeans(ips: seq<string>, token: string, replyOf: nat -> Reply, k: nat)
    requires k < |ips|
    ensures var r := BatchOutcomes(ips, token, replyOf)[k];
      (r.Found? <==> RequestFor(Some(ips[k]), token).Some? && replyOf(k).Answered?)
      && (r.Found? ==> r.record == replyOf(k).data)
      && (r.Missed? ==> r.ip == ips[k] && r.message != "")
      && (ips[k] != "" && !ValidateIp(Some(ips[k])) ==> r == Missed(ips[k], InvalidIpMessage))
  {
    var o := Lookup(Some(ips[k]), token, replyOf(k));
    assert BatchOutcomes(ips, token, replyOf)[k] == Tag(ips[k], o);
  }

  /** The first k + 1 settled lookups are the first k followed by the k-th. */
  lemma BatchOutcomesStep(ips: seq<string>, token: string, replyOf: nat -> Reply, k: nat)
    requires k < |ips|
    ensures var rs := BatchOutcomes(ips, token, replyOf);
      rs[..k + 1] == rs[..k] + [Tag(ips[k], Lookup(Some(ips[k]), token, replyOf(k)))]
  {
    var rs := BatchOutcomes(ips, token, replyOf);
    assert rs[k] == Tag(ips[k], Lookup(Some(ips[k]), token, replyOf(k)));
    assert rs[..k + 1] == rs[..k] + [rs[k]];
  }

  /** `results.filter(r => !r.error)`: the records, in order. */
  function Successes(rs: seq<BatchItem>): (s: seq<GeoRecord>)
    ensures |s| <= |rs|
  {
    if rs == [] then []
    else if rs[0].Found? then [rs[0].record] + Successes(rs[1..])
    else Successes(rs[1..])
  }

  /** `results.filter(r => r.error)`: the misses, in order. */
  function Failures(rs: seq<BatchItem>): (f: seq<BatchItem>)
    ensures |f| <= |rs|
  {
    if rs == [] then []
    else if rs[0].Missed? then [rs[0]] + Failures(rs[1..])
    else Failures(rs[1..])
  }

  /** The records are the found items' and the misses are misses of the batch. */
  lemma {:induction false} SplitMembers(rs: seq<BatchItem>)
    ensures forall g :: g in Successes(rs) ==> Found(g) in rs
    ensures forall x :: x in Failures(rs) ==> x.Missed? && x in rs
  {
    if rs != [] {
      SplitMembers(rs[1..]);
      forall g | g in Successes(rs) ensures Found(g) in rs {
        if g !in Successes(rs[1..]) {
          assert g == rs[0].record;
        } else {
          assert Found(g) in rs[1..];
        }
      }
      forall x | x in Failures(rs) ensures x.Missed? && x in rs {
        if x !in Failures(rs[1..]) {
          assert x == rs[0];
        } else {
          assert x in rs[1..];
        }
      }
    }
  }

  /** Each settled lookup lands in exactly one of the two lists. */
  lemma {:induction false} SplitCounts(rs: seq<BatchItem>)
    ensures |Successes(rs)| + |Failures(rs)| == |rs|
  {
    if rs != [] {
      SplitCounts(rs[1..]);
    }
  }

  /** Both lists keep input order: the split of a concatenation is the concatenation of the splits. */
  lemma {:induction false} SplitAppend(a: seq<BatchItem>, b: seq<BatchItem>)
    ensures Successes(a + b) == Successes(a) + Successes(b)
    ensures Failures(a + b) == Failures(a) + Failures(b)
  {
    if a != [] {
      var ab := a + b;
      assert ab != [] && ab[0] == a[0] && ab[1..] == a[1..] + b;
      SplitAppend(a[1..], b);
      if a[0].Found? {
        assert Successes(ab) == [a[0].record] + Successes(a[1..] + b);
        assert Failures(ab) == Failures(a[1..] + b);
      } else {
        assert Successes(ab) == Successes(a[1..] + b);
        assert Failures(ab) == [a[0]] + Failures(a[1..] + b);
      }
    } else {
      assert a + b == b;
    }
  }

  /** `` `${r.ip}: ${r.message}` `` for one miss. */
  function FailureLine(x: BatchItem): string {
    if x.Missed? then x.ip + ": " + x.message else ""
  }

  function FailureLines(fs: seq<BatchItem>): (ls: seq<string>)
    ensures |ls| == |fs|
    ensures forall k :: 0 <= k < |fs| ==> ls[k] == FailureLine(fs[k])
  {
    seq(|fs|, k requires 0 <= k < |fs| => FailureLine(fs[k]))
  }

  /** The page's error after a batch: empty without misses, else the prefix and the "ip: message" lines joined by "; ". */
  function BatchError(fs: seq<BatchItem>): string {
    if |fs| > 0 then BatchErrorPrefix + Join(FailureLines(fs), "; ") else ""
  }

  /** The error is empty exactly when nothing failed. */
  lemma BatchErrorEmpty(fs: seq<BatchItem>)
    ensures BatchError(fs) == "" <==> fs == []
  {
    if fs != [] {
      assert |BatchError(fs)| >= |BatchErrorPrefix| > 0;
    }
  }

  /** One miss is reported on its own after the prefix. */
  lemma BatchErrorSingle(x: BatchItem)
    requires x.Missed?
    ensures BatchError([x]) == BatchErrorPrefix + x.ip + ": " + x.message
  {
    assert FailureLines([x]) == [FailureLine(x)];
  }

  /** Each further miss is appended after "; ", so the misses appear in input order. */
  lemma BatchErrorAppend(fs: seq<BatchItem>, x: BatchItem)
    requires fs != [] && x.Missed?
    ensures BatchError(fs + [x]) == BatchError(fs) + "; " + (x.ip + ": " + x.message)
  {
    var ls, l := FailureLines(fs), FailureLine(x);
    assert FailureLines(fs + [x]) == ls + [l];
    JoinAppend(ls, [l], "; ");
    assert Join([l], "; ") == l;
    calc {
      BatchError(fs + [x]);
      BatchErrorPrefix + ((Join(ls, "; ") + "; ") + l);
      { ConcatAssoc(BatchErrorPrefix, Join(ls, "; ") + "; ", l);
        ConcatAssoc(BatchErrorPrefix, Join(ls, "; "), "; "); }
      BatchError(fs) + "; " + l;
    }
  }

  /** The store additions of the history loop: the k-th record with the k-th time. */
  function Adds(records: seq<GeoRecord>, stamp: nat -> string): (adds: seq<(GeoRecord, string)>)
    ensures |adds| == |records|
    ensures forall k :: 0 <= k < |records| ==> adds[k] == (records[k], stamp(k))
  {
    seq(|records|, k requires 0 <= k < |records| => (records[k], stamp(k)))
  }

  /** Two records around one miss split into the two records, in order, and the miss. */
  lemma SplitOfThree(x: BatchItem, y: BatchItem, z: BatchItem)
    requires x.Found? && y.Missed? && z.Found?
    ensures Successes([x, y, z]) == [x.record, z.record]
    ensures Failures([x, y, z]) == [y]
  {
    assert [x, y, z][1..] == [y, z] && [y, z][1..] == [z] && [z][1..] == [];
    assert Successes([z]) == [z.record] + Successes([]);
    assert Successes([y, z]) == Successes([z]);
    assert Successes([x, y, z]) == [x.record] + Successes([y, z]);
    assert Failures([z]) == Failures([]);
    assert Failures([y, z]) == [y] + Failures([z]);
    assert Failures([x, y, z]) == Failures([y, z]);
  }

  /** A well-formed, answered address yields its record; a malformed one the validation miss. */
  lemma BatchOfThree(a: string, b: string, c: string, token: string, replyOf: nat -> Reply)
    requires ValidateIp(Some(a)) && ValidateIp(Some(c)) && b != "" && !ValidateIp(Some(b))
    requires replyOf(0).Answered? && replyOf(2).Answered?
    ensures var rs := BatchOutcomes([a, b, c], token, replyOf);
      Successes(rs) == [replyOf(0).data, replyOf(2).data]
      && Failures(rs) == [Missed(b, InvalidIpMessage)]
      && BatchError(Failures(rs)) == BatchErrorPrefix + b + ": " + InvalidIpMessage
  {
    var rs := BatchOutcomes([a, b, c], token, replyOf);
    BatchOutcomeMeans([a, b, c], token, replyOf, 0);
    BatchOutcomeMeans([a, b, c], token, replyOf, 1);
    BatchOutcomeMeans([a, b, c], token, replyOf, 2);
    var found0, miss, found2 := Found(replyOf(0).data), Missed(b, InvalidIpMessage), Found(replyOf(2).data);
    assert rs == [found0, miss, found2];
    SplitOfThree(found0, miss, found2);
    BatchErrorSingle(miss);
  }

  lemma AddsSnoc(records: seq<GeoRecord>, j: nat, stamp: nat -> string)
    requires j < |records|
    ensures Adds(records[..j + 1], stamp) == Adds(records[..j], stamp) + [(records[j], stamp(j))]
  {
    assert records[..j + 1][..j] == records[..j];
  }

  /**
   * The batch of the three addresses "8.8.8.8", "not-an-ip" and "1.1.1.1" with the two
   * well-formed ones answered: two records in input order, the last of them current,
   * and one miss tagged with the malformed address and the validation message.
   */
  lemma ThreeAddressBatch(token: string, replyOf: nat -> Reply)
    requires replyOf(0).Answered? && replyOf(2).Answered?
    ensures var rs := BatchOutcomes(["8.8.8.8", "not-an-ip", "1.1.1.1"], token, replyOf);
      Successes(rs) == [replyOf(0).data, replyOf(2).data]
      && Failures(rs) == [Missed("not-an-ip", InvalidIpMessage)]
      && BatchError(Failures(rs)) == BatchErrorPrefix + "not-an-ip" + ": " + InvalidIpMessage
  {
    ValidateIpAcceptsIpv4Examples();
    ValidateIpRejectsWord();
    BatchOfThree("8.8.8.8", "not-an-ip", "1.1.1.1", token, replyOf);
  }

  class HomePage {
    const store: Store
    const token: string
    var loading: bool
    var error: string
    var userLocation: Option<GeoRecord>
    var activeSearchResults: seq<GeoRecord>
    var searchInputs: seq<string>

    /** The page before its mount effect runs. */
    constructor (store: Store, token: string)
      ensures this.store == store && this.token == token
      ensures !loading && error == "" && userLocation == None && activeSearchResults == [] && searchInputs == []
    {
      this.store := store;
      this.token := token;
      loading := false;
      error := "";
      userLocation := None;
      activeSearchResults := [];
      searchInputs := [];
    }

    /**
     * `fetchCurrentUserGeo`: look up the caller's own address. An answer becomes the
     * current record and the user's location, clears the search results and puts its
     * ip in the search inputs; a failure only sets the error.
     */
    method FetchCurrentUserGeo(reply: Reply)
      modifies this, store`currentGeoData
      ensures !loading
      ensures reply.Answered? ==>
        store.State() == old(store.State()).(currentGeoData := Some(reply.data))
        && userLocation == Some(reply.data) && activeSearchResults == [] && searchInputs == [reply.data.ip]
        && error == ""
      ensures !reply.Answered? ==>
        store.State() == old(store.State())
        && userLocation == old(userLocation) && activeSearchResults == old(activeSearchResults)
        && searchInputs == old(searchInputs)
        && error == Lookup(None, token, reply).message
    {
      loading := true;
      error := "";
      var _, outcome := FetchGeoData(None, token, reply);
      match outcome {
        case Resolved(data) =>
          store.SetCurrentGeoData(Some(data));
          userLocation := Some(data);
          activeSearchResults := [];
          searchInputs := [data.ip];
        case Rejected(message) =>
          error := if message != "" then message else FetchFailedMessage;
      }
      loading := false;
    }

    /** The fan-out of a batch, settled: one tagged item per address, in input order. */
    method FetchAll(ips: seq<string>, replyOf: nat -> Reply) returns (results: seq<BatchItem>)
      ensures results == BatchOutcomes(ips, token, replyOf)
    {
      ghost var rs := BatchOutcomes(ips, token, replyOf);
      results := [];
      var k := 0;
      while k < |ips|
        invariant 0 <= k <= |ips|
        invariant results == rs[..k]
      {
        BatchOutcomesStep(ips, token, replyOf, k);
        var _, outcome := FetchGeoData(Some(ips[k]), token, replyOf(k));
        results := results + [Tag(ips[k], outcome)];
        k := k + 1;
      }
      assert rs[..|ips|] == rs;
    }

    /** The `forEach` that passes every record, in order, to the store's addToHistory. */
    method AddAllToHistory(records: seq<GeoRecord>, stamp: nat -> string)
      modifies store`historyList
      ensures store.State() == old(store.State()).(historyList := AddAll(old(store.historyList), Adds(records, stamp)))
      ensures old(store.Valid()) ==> store.Valid()
    {
      var j := 0;
      while j < |records|
        invariant 0 <= j <= |records|
        invariant store.historyList == AddAll(old(store.historyList), Adds(records[..j], stamp))
        invariant old(store.Valid()) ==> store.Valid()
      {
        AddsSnoc(records, j, stamp);
        AddAllSnoc(old(store.historyList), Adds(records[..j], stamp), (records[j], stamp(j)));
        store.AddToHistory(records[j], stamp(j));
        j := j + 1;
      }
      assert records[..|records|] == records;
    }

    /**
     * The store's part of a batch: every record is added to the history in order and
     * the last one becomes current.
     */
    method RecordBatch(found: seq<GeoRecord>, stamp: nat -> string)
      modifies store`historyList, store`currentGeoData
      ensures store.State() == old(store.State()).(
        currentGeoData := if |found| > 0 then Some(found[|found| - 1]) else old(store.currentGeoData),
        historyList := AddAll(old(store.historyList), Adds(found, stamp)))
      ensures old(store.Valid()) ==> store.Valid()
    {
      AddAllToHistory(found, stamp);
      if |found| > 0 {
        store.SetCurrentGeoData(Some(found[|found| - 1]));
      }
    }

    /**
     * `handleBatchSearch(ipAddresses)` after every lookup has settled: the records become
     * the search results, each is added to the store's history in order, the last one
     * becomes current, and the misses are reported in the error.
     */
    method HandleBatchSearch(ips: seq<string>, replyOf: nat -> Reply, stamp: nat -> string)
      modifies this, store`historyList, store`currentGeoData
      ensures !loading
      ensures var rs := BatchOutcomes(ips, token, replyOf);
        activeSearchResults == Successes(rs) && error == BatchError(Failures(rs))
      ensures var found := Successes(BatchOutcomes(ips, token, replyOf));
        store.State() == old(store.State()).(
          currentGeoData := if |found| > 0 then Some(found[|found| - 1]) else old(store.currentGeoData),
          historyList := AddAll(old(store.historyList), Adds(found, stamp)))
      ensures old(store.Valid()) ==> store.Valid()
      ensures userLocation == old(userLocation) && searchInputs == old(searchInputs)
    {
      loading := true;
      error := "";
      var results := FetchAll(ips, replyOf);
      var successful := Successes(results);
      var failed := Failures(results);
      activeSearchResults := successful;
      RecordBatch(successful, stamp);
      if |failed| > 0 {
        error := BatchErrorPrefix + Join(FailureLines(failed), "; ");
      }
      loading := false;
    }

    /** `handleClear`: empty the results and the inputs, then look up the caller again. */
    method HandleClear(reply: Reply)
      modifies this, store`currentGeoData
      ensures !loading && activeSearchResults == []
      ensures reply.Answered? ==>
        store.State() == old(store.State()).(currentGeoData := Some(reply.data))
        && userLocation == Some(reply.data) && searchInputs == [reply.data.ip] && error == ""
      ensures !reply.Answered? ==>
        store.State() == old(store.State()) && userLocation == old(userLocation)
        && searchInputs == [] && error == Lookup(None, token, reply).message
    {
      activeSearchResults := [];
      searchInputs := [];
      FetchCurrentUserGeo(reply);
    }

    /**
     * The page's onSearch as the search box calls it, with the trimmed address string
     * itself: `map` is not a method of a string, so the catch shows the TypeError's
     * message and nothing is looked up, shown or added to the history.
     */
    method OnSearchAsWritten(query: string, thrown: string)
      modifies this
      ensures !loading && error == ThrownError(thrown)
      ensures activeSearchResults == old(activeSearchResults)
      ensures userLocation == old(userLocation) && searchInputs == old(searchInputs)
    {
      loading := true;
      error := "";
      error := ThrownError(thrown);
      loading := false;
    }

    /** The page's onSearch given the address alone in an array, as its other handlers pass it. */
    method OnSearch(query: string, replyOf: nat -> Reply, stamp: nat -> string)
      modifies this, store`historyList, store`currentGeoData
      ensures !loading && searchInputs == old(searchInputs)
      ensures (activeSearchResults, error) == BatchView(IntendedArgument(query), token, replyOf, old(activeSearchResults), "")
      ensures var found := Successes(BatchOutcomes([query], token, replyOf));
        store.State() == old(store.State()).(
          currentGeoData := if |found| > 0 then Some(found[|found| - 1]) else old(store.currentGeoData),
          historyList := AddAll(old(store.historyList), Adds(found, stamp)))
    {
      HandleBatchSearch([query], replyOf, stamp);
    }

    /** `handleSelectHistory(item)`: put the entry's ip in the inputs and search for it alone. */
    method HandleSelectHistory(item: Entry, replyOf: nat -> Reply, stamp: nat -> string)
      modifies this, store`historyList, store`currentGeoData
      ensures searchInputs == [EntryIp(item)] && !loading
      ensures var rs := BatchOutcomes([EntryIp(item)], token, replyOf);
        activeSearchResults == Successes(rs) && error == BatchError(Failures(rs))
      ensures var found := Successes(BatchOutcomes([EntryIp(item)], token, replyOf));
        store.State() == old(store.State()).(
          currentGeoData := if |found| > 0 then Some(found[|found| - 1]) else old(store.currentGeoData),
          historyList := AddAll(old(store.historyList), Adds(found, stamp)))
    {
      searchInputs := [item.record.ip];
      HandleBatchSearch([item.record.ip], replyOf, stamp);
    }

    /** `handleSelectPopularIP(ip)`: put ip in the inputs and search for it alone. */
    method HandleSelectPopularIp(ip: string, replyOf: nat -> Reply, stamp: nat -> string)
      modifies this, store`historyList, store`currentGeoData
      ensures searchInputs == [ip] && !loading
      ensures var rs := BatchOutcomes([ip], token, replyOf);
        activeSearchResults == Successes(rs) && error == BatchError(Failures(rs))
      ensures var found := Successes(BatchOutcomes([ip], token, replyOf));
        store.State() == old(store.State()).(
          currentGeoData := if |found| > 0 then Some(found[|found| - 1]) else old(store.currentGeoData),
          historyList := AddAll(old(store.historyList), Adds(found, stamp)))
    {
      searchInputs := [ip];
      HandleBatchSearch([ip], replyOf, stamp);
    }
  }

  /**
   * A search for one address: it succeeds exactly when its request was sent and
   * answered, and then the answer is the one result and the current record, and at
   * most the one entry is added to the history.
   */
  lemma SingleSearch(ip: string, token: string, replyOf: nat -> Reply)
    ensures var rs := BatchOutcomes([ip], token, replyOf);
      RequestFor(Some(ip), token).Some? && replyOf(0).Answered? ==>
        Successes(rs) == [replyOf(0).data] && Failures(rs) == []
    ensures var rs := BatchOutcomes([ip], token, replyOf);
      !(RequestFor(Some(ip), token).Some? && replyOf(0).Answered?) ==>
        Successes(rs) == [] && Failures(rs) == [Missed(ip, Lookup(Some(ip), token, replyOf(0)).message)]
  {
    var rs := BatchOutcomes([ip], token, replyOf);
    BatchOutcomeMeans([ip], token, replyOf, 0);
    assert rs[1..] == [];
  }

  /**
   * What a caller hands to handleBatchSearch: an array of addresses, or a plain string.
   * A string has no `map` method, so for it the fan-out throws a TypeError before any
   * lookup starts.
   */
  datatype SearchArgument = Addresses(ips: seq<string>) | Plain(text: string)

  /** `err.message || "Failed to fetch geolocation data"` for a thrown error with message `thrown`. */
  function ThrownError(thrown: string): string {
    if thrown != "" then thrown else FetchFailedMessage
  }

  /**
   * The page's search results and error once handleBatchSearch(arg) has settled, given
   * the results it showed before and the message of the TypeError a string argument throws.
   */
  function BatchView(arg: SearchArgument, token: string, replyOf: nat -> Reply, before: seq<GeoRecord>, thrown: string): (seq<GeoRecord>, string) {
    match arg
    case Addresses(ips) =>
      var rs := BatchOutcomes(ips, token, replyOf);
      (Successes(rs), BatchError(Failures(rs)))
    case Plain(_) => (before, ThrownError(thrown))
  }

  /** The search box as written passes the address itself to onSearch. */
  function SearchBoxArgument(query: string): SearchArgument { Plain(query) }

  /** The argument the page expects: the address alone in an array. */
  function IntendedArgument(query: string): SearchArgument { Addresses([query]) }

  /**
   * An address typed into the search box and accepted by it is never looked up as the
   * two components are wired: the results stay as they were and an error is shown,
   * whatever the provider would have answered. " 8.8.8.8 " is such an input.
   */
  lemma SearchBoxFindsNothing(token: string, replyOf: nat -> Reply, before: seq<GeoRecord>, thrown: string)
    requires replyOf(0).Answered?
    ensures Search.Submitted(" 8.8.8.8 ") == Some("8.8.8.8")
    ensures BatchView(SearchBoxArgument("8.8.8.8"), token, replyOf, before, thrown).0 == before
    ensures BatchView(SearchBoxArgument("8.8.8.8"), token, replyOf, before, thrown).1 != ""
    ensures BatchView(IntendedArgument("8.8.8.8"), token, replyOf, before, thrown) == ([replyOf(0).data], "")
  {
    Search.SubmitsTrimmedAddress();
    ValidateIpAcceptsIpv4Examples();
    SingleSearch("8.8.8.8", token, replyOf);
    BatchErrorEmpty([]);
  }

  /**
   * With the address passed in an array, every accepted submission is looked up: an
   * answer becomes the one result with no error, and any other reply leaves no result
   * and reports the address with the lookup's message.
   */
  lemma SearchBoxIntended(input: string, token: string, replyOf: nat -> Reply, before: seq<GeoRecord>)
    requires Search.Submitted(input).Some?
    ensures var q := Search.Submitted(input).value;
      replyOf(0).Answered? ==> BatchView(IntendedArgument(q), token, replyOf, before, "") == ([replyOf(0).data], "")
    ensures var q := Search.Submitted(input).value;
      !replyOf(0).Answered? ==>
        BatchView(IntendedArgument(q), token, replyOf, before, "")
          == ([], BatchErrorPrefix + q + ": " + Lookup(Some(q), token, replyOf(0)).message)
  {
    var q := Search.Submitted(input).value;
    assert q != "" && ValidateIp(Some(q));
    assert RequestFor(Some(q), token).Some?;
    SingleSearch(q, token, replyOf);
    if replyOf(0).Answered? {
      BatchErrorEmpty([]);
    } else {
      BatchErrorSingle(Missed(q, Lookup(Some(q), token, replyOf(0)).message));
    }
  }
}
