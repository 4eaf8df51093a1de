/**
 * The marker logic of the map panel. A provider record's `loc` is "lat,lng"; the two
 * numbers are parsed by a caller-supplied partial function `parse` (parseFloat with
 * NaN as None), and a position is the pair of parsed values of an abstract type C
 * compared by equality. The user's own marker is shown only when there are no search
 * results; search markers follow the results and no two markers share a position.
 */
module MapView {
  import opened Wrappers
  import opened Lists
  import opened Text
  import opened Records

  datatype Kind = UserMarker | SearchMarker

  datatype Marker<C> = Marker(position: (C, C), kind: Kind, data: GeoRecord)

  /** The key the duplicate check compares: both coordinates. */
  function Position<C>(m: Marker<C>): (C, C) { m.position }

  /** `parseLocation(loc)`: a truthy string with exactly one comma whose two trimmed sides both parse. */
  function ParseLocation<C>(loc: Option<string>, parse: string -> Option<C>): (p: Option<(C, C)>)
    ensures !Truthy(loc) ==> p == None
  {
    if !Truthy(loc) then None
    else
      var parts := Split(loc.value, ',');
      if |parts| != 2 then None
      else
        var lat := parse(Trim(parts[0]));
        var lng := parse(Trim(parts[1]));
        if lat.None? || lng.None? then None else Some((lat.value, lng.value))
  }

  /** A location that parses is two comma-free sides joined by one comma, and its position is their parses. */
  lemma ParseLocationShape<C>(loc: Option<string>, parse: string -> Option<C>)
    requires ParseLocation(loc, parse).Some?
    ensures loc.Some?
    ensures var parts := Split(loc.value, ',');
      |parts| == 2 && ',' !in parts[0] && ',' !in parts[1] && loc.value == parts[0] + "," + parts[1]
      && parse(Trim(parts[0])).Some? && parse(Trim(parts[1])).Some?
      && ParseLocation(loc, parse).value == (parse(Trim(parts[0])).value, parse(Trim(parts[1])).value)
  {
    var parts := Split(loc.value, ',');
    JoinSplit(loc.value, ',');
    assert parts[0] in parts && parts[1] in parts;
    assert parts[1..] == [parts[1]];
  }

  /** Conversely, two comma-free sides joined by a comma parse to their parses, if both parse. */
  lemma ParseLocationOfSides<C>(a: string, b: string, parse: string -> Option<C>)
    requires ',' !in a && ',' !in b
    ensures ParseLocation(Some(a + "," + b), parse) ==
      if parse(Trim(a)).Some? && parse(Trim(b)).Some? then Some((parse(Trim(a)).value, parse(Trim(b)).value)) else None
  {
    var parts := [a, b];
    assert parts[1..] == [b];
    assert Join(parts, [',']) == a + "," + b;
    SplitJoin(parts, ',');
  }

  /** The list behind `activeSearchResults`: empty when it is null or undefined. */
  function Items(results: Option<seq<GeoRecord>>): seq<GeoRecord> {
    if results.Some? then results.value else []
  }

  /** The user's marker, pushed first, when the user's loc parses and there are no search results. */
  function UserMarkers<C>(userLocation: Option<GeoRecord>, results: Option<seq<GeoRecord>>, parse: string -> Option<C>): seq<Marker<C>> {
    if userLocation.Some? && Truthy(userLocation.value.loc) && Items(results) == [] then
      match ParseLocation(userLocation.value.loc, parse)
      case Some(p) => [Marker(p, UserMarker, userLocation.value)]
      case None => []
    else []
  }

  /** The parsed location of each result, in result order. */
  function Locations<C>(items: seq<GeoRecord>, parse: string -> Option<C>): (ps: seq<Option<(C, C)>>)
    ensures |ps| == |items|
  {
    if items == [] then []
    else Locations(items[..|items| - 1], parse) + [ParseLocation(items[|items| - 1].loc, parse)]
  }

  /** The k-th parsed location is the k-th result's. */
  lemma {:induction false} LocationAt<C>(items: seq<GeoRecord>, parse: string -> Option<C>, k: nat)
    requires k < |items|
    ensures Locations(items, parse)[k] == ParseLocation(items[k].loc, parse)
  {
    var n := |items| - 1;
    if k < n {
      LocationAt(items[..n], parse, k);
      assert items[..n][k] == items[k];
    }
  }

  /** The candidate of one result whose location parsed to `p`: its marker, or nothing. */
  function StepCandidate<C>(item: GeoRecord, p: Option<(C, C)>): seq<Marker<C>> {
    if p.Some? then [Marker(p.value, SearchMarker, item)] else []
  }

  /** The candidates of results paired with their parsed locations, in result order. */
  function Collect<C>(items: seq<GeoRecord>, ps: seq<Option<(C, C)>>): (ms: seq<Marker<C>>)
    requires |ps| == |items|
    ensures |ms| <= |items|
    ensures forall m :: m in ms ==> m.kind == SearchMarker
  {
    if items == [] then []
    else Collect(items[..|items| - 1], ps[..|items| - 1]) + StepCandidate(items[|items| - 1], ps[|items| - 1])
  }

  /** One candidate search marker per result whose loc parses, in result order. */
  function SearchCandidates<C>(items: seq<GeoRecord>, parse: string -> Option<C>): seq<Marker<C>> {
    Collect(items, Locations(items, parse))
  }

  lemma CollectStep<C>(items: seq<GeoRecord>, ps: seq<Option<(C, C)>>, i: nat)
    requires |ps| == |items| && i < |items|
    ensures Collect(items[..i + 1], ps[..i + 1]) == Collect(items[..i], ps[..i]) + StepCandidate(items[i], ps[i])
  {
    assert items[..i + 1][..i] == items[..i] && items[..i + 1][i] == items[i];
    assert ps[..i + 1][..i] == ps[..i] && ps[..i + 1][i] == ps[i];
  }

  /** Walking one more result: its candidate is kept exactly when no kept marker has its position. */
  lemma PushStep<C>(before: seq<Marker<C>>, item: GeoRecord, p: Option<(C, C)>)
    ensures var d := FirstByKey(before, Position);
      var step := StepCandidate(item, p);
      FirstByKey(before + step, Position) ==
        if step == [] then d
        else if HasKey(d, Position, step[0].position) then d
        else d + step
  {
    var step := StepCandidate(item, p);
    if step == [] {
      assert before + step == before;
    } else {
      FirstByKeySnoc(before, step[0], Position);
      assert step == [step[0]];
    }
  }

  /** Every collected marker comes from some result, at that result's parsed location. */
  lemma {:induction false} CollectSound<C>(items: seq<GeoRecord>, ps: seq<Option<(C, C)>>)
    requires |ps| == |items|
    ensures forall m :: m in Collect(items, ps) ==>
      exists k :: 0 <= k < |items| && items[k] == m.data && ps[k] == Some(m.position)
  {
    if items != [] {
      var n := |items| - 1;
      CollectSound(items[..n], ps[..n]);
      forall m | m in Collect(items, ps)
        ensures exists k :: 0 <= k < |items| && items[k] == m.data && ps[k] == Some(m.position)
      {
        if m in Collect(items[..n], ps[..n]) {
          var k :| 0 <= k < n && items[..n][k] == m.data && ps[..n][k] == Some(m.position);
          assert items[k] == m.data && ps[k] == Some(m.position);
        } else {
          assert m in StepCandidate(items[n], ps[n]);
        }
      }
    }
  }

  /** Every search candidate sits at the parsed location of its own result. */
  lemma SearchCandidatesSound<C>(items: seq<GeoRecord>, parse: string -> Option<C>)
    ensures forall m :: m in SearchCandidates(items, parse) ==> ParseLocation(m.data.loc, parse) == Some(m.position)
  {
    var ps := Locations(items, parse);
    CollectSound(items, ps);
    forall m | m in SearchCandidates(items, parse) ensures ParseLocation(m.data.loc, parse) == Some(m.position) {
      var k :| 0 <= k < |items| && items[k] == m.data && ps[k] == Some(m.position);
      LocationAt(items, parse, k);
    }
  }

  /** The candidates of a prefix of the results are a prefix of the candidates. */
  lemma {:induction false} CollectPrefix<C>(items: seq<GeoRecord>, ps: seq<Option<(C, C)>>, j: nat)
    requires |ps| == |items| && j <= |items|
    ensures Collect(items[..j], ps[..j]) <= Collect(items, ps)
    decreases |items|
  {
    if j < |items| {
      var n := |items| - 1;
      assert items[..n][..j] == items[..j] && ps[..n][..j] == ps[..j];
      CollectPrefix(items[..n], ps[..n], j);
      var init := Collect(items[..n], ps[..n]);
      assert Collect(items, ps) == init + StepCandidate(items[n], ps[n]);
      assert init <= Collect(items, ps);
    } else {
      assert items[..j] == items && ps[..j] == ps;
    }
  }

  /** A result is skipped only when its loc does not parse: every parsed result has its candidate. */
  lemma SearchCandidatesComplete<C>(items: seq<GeoRecord>, parse: string -> Option<C>, i: nat)
    requires i < |items| && ParseLocation(items[i].loc, parse).Some?
    ensures Marker(ParseLocation(items[i].loc, parse).value, SearchMarker, items[i]) in SearchCandidates(items, parse)
  {
    var ps := Locations(items, parse);
    LocationAt(items, parse, i);
    CollectStep(items, ps, i);
    CollectPrefix(items, ps, i + 1);
    var m := Marker(ParseLocation(items[i].loc, parse).value, SearchMarker, items[i]);
    var front := Collect(items[..i + 1], ps[..i + 1]);
    assert front[|front| - 1] == m;
    assert Collect(items, ps)[|front| - 1] == m;
  }

  /** The user's marker, when there is one, is never dropped as a duplicate. */
  lemma UserMarkersKept<C>(userLocation: Option<GeoRecord>, results: Option<seq<GeoRecord>>, parse: string -> Option<C>)
    ensures FirstByKey(UserMarkers(userLocation, results, parse), Position) == UserMarkers(userLocation, results, parse)
  {
    var u := UserMarkers(userLocation, results, parse);
    if u != [] {
      FirstByKeySnoc([], u[0], Position);
      assert [] + [u[0]] == u;
    }
  }

  /** Every marker buildMarkers might push, in push order. */
  function Candidates<C>(userLocation: Option<GeoRecord>, results: Option<seq<GeoRecord>>, parse: string -> Option<C>): seq<Marker<C>> {
    UserMarkers(userLocation, results, parse) + SearchCandidates(Items(results), parse)
  }

  /** What buildMarkers returns: the candidates with every repeated position after the first dropped. */
  function Markers<C(==)>(userLocation: Option<GeoRecord>, results: Option<seq<GeoRecord>>, parse: string -> Option<C>): seq<Marker<C>> {
    FirstByKey(Candidates(userLocation, results, parse), Position)
  }

  /** The candidates after one more result are those before it followed by its own. */
  lemma CandidatesStep<C>(prior: seq<Marker<C>>, items: seq<GeoRecord>, parse: string -> Option<C>, i: nat)
    requires i < |items|
    ensures var ps := Locations(items, parse);
      prior + Collect(items[..i + 1], ps[..i + 1])
      == (prior + Collect(items[..i], ps[..i])) + StepCandidate(items[i], ParseLocation(items[i].loc, parse))
  {
    var ps := Locations(items, parse);
    LocationAt(items, parse, i);
    CollectStep(items, ps, i);
    ConcatAssoc(prior, Collect(items[..i], ps[..i]), StepCandidate(items[i], ps[i]));
  }

  /**
   * One step of the `forEach`: push the result's parsed location unless a marker in
   * `markers` already has that position.
   */
  method PushSearchMarker<C(==)>(markers: seq<Marker<C>>, item: GeoRecord, parse: string -> Option<C>, ghost cands: seq<Marker<C>>)
    returns (next: seq<Marker<C>>)
    requires markers == FirstByKey(cands, Position)
    ensures next == FirstByKey(cands + StepCandidate(item, ParseLocation(item.loc, parse)), Position)
  {
    PushStep(cands, item, ParseLocation(item.loc, parse));
    next := markers;
    if Truthy(item.loc) {
      var position := ParseLocation(item.loc, parse);
      if position.Some? {
        var isDuplicate := HasKey(markers, Position, position.value);
        if !isDuplicate {
          next := markers + [Marker(position.value, SearchMarker, item)];
        }
      }
    }
  }

  /**
   * The `forEach` of buildMarkers over the results. Started on the de-duplicated
   * `prior` candidates, it ends on the de-duplicated candidates of prior and items together.
   */
  method PushSearchMarkers<C(==)>(start: seq<Marker<C>>, items: seq<GeoRecord>, parse: string -> Option<C>, ghost prior: seq<Marker<C>>)
    returns (markers: seq<Marker<C>>)
    requires start == FirstByKey(prior, Position)
    ensures markers == FirstByKey(prior + SearchCandidates(items, parse), Position)
  {
    markers := start;
    var i := 0;
    ghost var ps := Locations(items, parse);
    ghost var cands := prior;
    assert prior + Collect(items[..0], ps[..0]) == prior;
    while i < |items|
      invariant 0 <= i <= |items|
      invariant cands == prior + Collect(items[..i], ps[..i])
      invariant markers == FirstByKey(cands, Position)
    {
      CandidatesStep(prior, items, parse, i);
      markers := PushSearchMarker(markers, items[i], parse, cands);
      cands := cands + StepCandidate(items[i], ParseLocation(items[i].loc, parse));
      i := i + 1;
    }
    assert items[..|items|] == items && ps[..|ps|] == ps;
  }

  /**
   * `buildMarkers`: push the user's marker when it applies, then walk the results and
   * push each parsed location whose position no pushed marker has yet.
   */
  method BuildMarkers<C(==)>(userLocation: Option<GeoRecord>, results: Option<seq<GeoRecord>>, parse: string -> Option<C>)
    returns (markers: seq<Marker<C>>)
    ensures markers == Markers(userLocation, results, parse)
  {
    markers := [];
    if userLocation.Some? && Truthy(userLocation.value.loc) && (results.None? || results.value == []) {
      var position := ParseLocation(userLocation.value.loc, parse);
      if position.Some? {
        markers := markers + [Marker(position.value, UserMarker, userLocation.value)];
      }
    }
    ghost var u := UserMarkers(userLocation, results, parse);
    UserMarkersKept(userLocation, results, parse);
    assert markers == FirstByKey(u, Position);
    if results.Some? {
      markers := PushSearchMarkers(markers, results.value, parse, u);
    } else {
      assert u + SearchCandidates(Items(results), parse) == u;
    }
  }

  /**
   * No two markers share a position; markers keep the candidates' order; and the earliest
   * candidate with a given position is the one shown.
   */
  lemma MarkersDistinct<C>(userLocation: Option<GeoRecord>, results: Option<seq<GeoRecord>>, parse: string -> Option<C>)
    ensures UniqueKeys(Markers(userLocation, results, parse), Position)
    ensures Subseq(Markers(userLocation, results, parse), Candidates(userLocation, results, parse))
    ensures var cs := Candidates(userLocation, results, parse);
      forall i :: 0 <= i < |cs| && FirstAt(cs, Position, i) ==> cs[i] in Markers(userLocation, results, parse)
  {
    FirstByKeyCorrect(Candidates(userLocation, results, parse), Position);
  }

  /**
   * The user's marker appears, and then first and alone, exactly when the user's loc
   * parses and there are no search results; with search results every marker is a
   * search marker, at most one per result, and otherwise there is at most one marker.
   */
  lemma UserMarkerRule<C>(userLocation: Option<GeoRecord>, results: Option<seq<GeoRecord>>, parse: string -> Option<C>)
    ensures var ms := Markers(userLocation, results, parse);
      (ms != [] && ms[0].kind == UserMarker) <==>
        (userLocation.Some? && Items(results) == [] && ParseLocation(userLocation.value.loc, parse).Some?)
    ensures var ms := Markers(userLocation, results, parse);
      Items(results) == [] ==> |ms| <= 1 && (ms != [] ==> ms[0].kind == UserMarker && ms[0].data == userLocation.value)
    ensures var ms := Markers(userLocation, results, parse);
      Items(results) != [] ==> |ms| <= |Items(results)| && forall m :: m in ms ==> m.kind == SearchMarker
  {
    var u := UserMarkers(userLocation, results, parse);
    var cs := Candidates(userLocation, results, parse);
    var ms := Markers(userLocation, results, parse);
    if Items(results) == [] {
      assert cs == u;
      UserMarkersKept(userLocation, results, parse);
    } else {
      assert u == [];
      assert cs == SearchCandidates(Items(results), parse);
      forall m | m in ms ensures m.kind == SearchMarker {
        assert m in cs;
      }
      if ms != [] {
        assert ms[0] in ms;
      }
    }
  }

  /** `center`: the first marker's position, or the default center when there is none. */
  function Center<C>(markers: seq<Marker<C>>, defaultCenter: (C, C)): (C, C) {
    if |markers| > 0 then markers[0].position else defaultCenter
  }

  /** The map itself is drawn only when there is a marker; the placeholder otherwise. */
  function ShowsMap<C>(markers: seq<Marker<C>>): bool { |markers| != 0 }

  /**
   * The map is drawn exactly when some result (or the user's own loc) parses, and it is
   * centred on the first such position; otherwise the placeholder shows and the
   * default centre is kept.
   */
  lemma CenterRule<C>(userLocation: Option<GeoRecord>, results: Option<seq<GeoRecord>>, parse: string -> Option<C>, defaultCenter: (C, C))
    ensures var cs := Candidates(userLocation, results, parse);
      var ms := Markers(userLocation, results, parse);
      (ShowsMap(ms) <==> cs != [])
      && Center(ms, defaultCenter) == (if cs != [] then cs[0].position else defaultCenter)
  {
    var cs := Candidates(userLocation, results, parse);
    if cs != [] {
      FirstByKeyHead(cs, Position);
    }
  }
}
