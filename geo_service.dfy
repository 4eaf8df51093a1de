/**
 * src/services/geoService.js: the IP-literal check `validateIp` and the decision
 * logic of `fetchGeoData` (which URL, whether the token parameter is sent, the
 * fast failure on a malformed IP, and the mapping of failures to messages).
 * The HTTP GET itself is not modelled: its result is the `Reply` parameter.
 */
module GeoService {
  import opened Wrappers
  import opened Text
  import opened Records
  import Lists

  // ---------------------------------------------------------------------------
  // validateIp: the two regular expressions, read field by field
  // ---------------------------------------------------------------------------

  predicate IsDigit(ch: char) { '0' <= ch <= '9' }

  predicate IsHexDigit(ch: char) { IsDigit(ch) || 'a' <= ch <= 'f' || 'A' <= ch <= 'F' }

  /** `[0-9][0-9]?` */
  predicate DigitThenOptionalDigit(f: string) {
    (|f| == 1 && IsDigit(f[0])) || (|f| == 2 && IsDigit(f[0]) && IsDigit(f[1]))
  }

  /** One field of the IPv4 pattern: `25[0-5]|2[0-4][0-9]|[01]?[0-9][0-9]?`. */
  predicate OctetPattern(f: string) {
    (|f| == 3 && f[0] == '2' && f[1] == '5' && '0' <= f[2] <= '5')
    || (|f| == 3 && f[0] == '2' && '0' <= f[1] <= '4' && IsDigit(f[2]))
    || (|f| >= 1 && (f[0] == '0' || f[0] == '1') && DigitThenOptionalDigit(f[1..]))
    || DigitThenOptionalDigit(f)
  }

  /** `[0-9a-fA-F]{1,4}` */
  predicate HexGroup(g: string) {
    1 <= |g| <= 4 && forall k :: 0 <= k < |g| ==> IsHexDigit(g[k])
  }

  predicate AllHexGroups(gs: seq<string>) {
    forall k :: 0 <= k < |gs| ==> HexGroup(gs[k])
  }

  /** The IPv4 pattern: four '.'-separated fields, each matching the octet alternatives. */
  predicate IsIpv4(s: string) {
    var f := Split(s, '.');
    |f| == 4 && OctetPattern(f[0]) && OctetPattern(f[1]) && OctetPattern(f[2]) && OctetPattern(f[3])
  }

  /**
   * The IPv6 pattern on the ':'-separated fields of the string. An empty field is
   * where "::" stands: the alternatives of the pattern are eight groups; "::" alone;
   * "::" followed by up to seven groups; up to seven groups followed by "::"; and
   * k >= 1 groups, "::", m >= 1 groups with k + m <= 7.
   */
  predicate Ipv6Fields(f: seq<string>) {
    (|f| == 8 && AllHexGroups(f))
    || f == ["", "", ""]
    || (3 <= |f| <= 9 && f[0] == "" && f[1] == "" && AllHexGroups(f[2..]))
    || (3 <= |f| <= 9 && f[|f| - 2] == "" && f[|f| - 1] == "" && AllHexGroups(f[..|f| - 2]))
    || (3 <= |f| <= 8 && exists i :: 0 < i < |f| - 1 && f[i] == "" && AllHexGroups(f[..i]) && AllHexGroups(f[i + 1..]))
  }

  predicate IsIpv6(s: string) {
    Ipv6Fields(Split(s, ':'))
  }

  /**
   * `validateIp(ip)`. None stands for every value the source rejects before the
   * patterns run: null, undefined and non-strings.
   */
  function ValidateIp(ip: Option<string>): bool {
    Truthy(ip) && (IsIpv4(ip.value) || IsIpv6(ip.value))
  }

  // ---------------------------------------------------------------------------
  // The textual forms the patterns are meant to accept, stated declaratively
  // ---------------------------------------------------------------------------

  function DigitValue(ch: char): int { ch as int - '0' as int }

  function DecimalValue(f: string): int {
    if f == [] then 0 else 10 * DecimalValue(f[..|f| - 1]) + DigitValue(f[|f| - 1])
  }

  /** One to three decimal digits whose value is at most 255 (leading zeros allowed). */
  ghost predicate DecimalOctet(f: string) {
    1 <= |f| <= 3 && (forall k :: 0 <= k < |f| ==> IsDigit(f[k])) && DecimalValue(f) <= 255
  }

  ghost predicate DottedQuad(q: seq<string>) {
    |q| == 4 && forall k :: 0 <= k < 4 ==> DecimalOctet(q[k])
  }

  /** Four decimal octets joined by '.'. */
  ghost predicate Ipv4Text(s: string) {
    exists q :: DottedQuad(q) && s == Join(q, ".")
  }

  ghost predicate FullIpv6(g: seq<string>) {
    |g| == 8 && AllHexGroups(g)
  }

  /** s is k leading groups, "::", m trailing groups, with k + m <= 7. */
  ghost predicate CompressedIpv6(l: seq<string>, r: seq<string>, s: string) {
    |l| + |r| <= 7 && AllHexGroups(l) && AllHexGroups(r) && s == Join(l, ":") + "::" + Join(r, ":")
  }

  /**
   * Forms 1 and 2 of section 2.2 of RFC 4291: eight groups of one to four hex digits
   * joined by ':', or the "::"-compressed form. Form 3 (an IPv4 tail) is not included.
   */
  ghost predicate Ipv6Text(s: string) {
    (exists g :: FullIpv6(g) && s == Join(g, ":")) || (exists l, r :: CompressedIpv6(l, r, s))
  }

  // ---------------------------------------------------------------------------
  // The patterns accept exactly the declarative forms
  // ---------------------------------------------------------------------------

  lemma DecimalValueOfTwo(f: string)
    requires |f| == 2
    ensures DecimalValue(f) == 10 * DigitValue(f[0]) + DigitValue(f[1])
  {
    var a := f[..1];
    assert a[..0] == [] && a[0] == f[0];
    assert DecimalValue(a) == DigitValue(f[0]);
  }

  lemma DecimalValueOfThree(f: string)
    requires |f| == 3
    ensures DecimalValue(f) == 100 * DigitValue(f[0]) + 10 * DigitValue(f[1]) + DigitValue(f[2])
  {
    var b := f[..2];
    DecimalValueOfTwo(b);
    assert b[0] == f[0] && b[1] == f[1];
  }

  /** The octet alternatives accept exactly the 1-3 digit strings of value <= 255. */
  lemma OctetPatternMeans(f: string)
    ensures OctetPattern(f) <==> DecimalOctet(f)
  {
    if |f| == 1 {
      assert f[..0] == [];
      assert DecimalValue(f) == DigitValue(f[0]);
    } else if |f| == 2 {
      DecimalValueOfTwo(f);
      assert f[1..] == [f[1]];
    } else if |f| == 3 {
      DecimalValueOfThree(f);
      assert f[1..] == [f[1], f[2]];
    }
  }

  lemma DigitsHaveNoDot(q: seq<string>)
    requires DottedQuad(q)
    ensures forall p :: p in q ==> '.' !in p
  {
    forall p | p in q ensures '.' !in p {
      var k :| 0 <= k < 4 && q[k] == p;
      assert DecimalOctet(q[k]);
    }
  }

  /** The IPv4 pattern accepts exactly four decimal octets joined by '.'. */
  lemma Ipv4Means(s: string)
    ensures IsIpv4(s) <==> Ipv4Text(s)
  {
    var f := Split(s, '.');
    if IsIpv4(s) {
      JoinSplit(s, '.');
      forall k | 0 <= k < 4 ensures DecimalOctet(f[k]) {
        OctetPatternMeans(f[k]);
      }
      assert DottedQuad(f) && s == Join(f, ".");
    }
    if Ipv4Text(s) {
      var q :| DottedQuad(q) && s == Join(q, ".");
      DigitsHaveNoDot(q);
      SplitJoin(q, '.');
      forall k | 0 <= k < 4 ensures OctetPattern(q[k]) {
        OctetPatternMeans(q[k]);
      }
    }
  }

  predicate FieldOrGap(p: string) { p == "" || HexGroup(p) }

  lemma HexGroupsHaveNoColon(f: seq<string>)
    requires forall k :: 0 <= k < |f| ==> FieldOrGap(f[k])
    ensures forall p :: p in f ==> ':' !in p
  {
    forall p | p in f ensures ':' !in p {
      var k :| 0 <= k < |f| && f[k] == p;
      assert FieldOrGap(f[k]);
    }
  }

  /** The field list a compressed address splits into. */
  function CompressedFields(l: seq<string>, r: seq<string>): seq<string> {
    if l == [] && r == [] then ["", "", ""]
    else if l == [] then ["", ""] + r
    else if r == [] then l + ["", ""]
    else l + [""] + r
  }

  lemma CompressedJoin(l: seq<string>, r: seq<string>)
    ensures Join(CompressedFields(l, r), ":") == Join(l, ":") + "::" + Join(r, ":")
  {
    if l == [] && r == [] {
    } else if l == [] {
      JoinAppend(["", ""], r, ":");
    } else if r == [] {
      JoinAppend(l, ["", ""], ":");
    } else {
      JoinAppend(l, [""] + r, ":");
      JoinAppend([""], r, ":");
      assert l + [""] + r == l + ([""] + r);
    }
  }

  lemma CompressedFieldsAccepted(l: seq<string>, r: seq<string>)
    requires |l| + |r| <= 7 && AllHexGroups(l) && AllHexGroups(r)
    ensures Ipv6Fields(CompressedFields(l, r))
    ensures forall k :: 0 <= k < |CompressedFields(l, r)| ==> FieldOrGap(CompressedFields(l, r)[k])
  {
    var f := CompressedFields(l, r);
    if l != [] && r != [] {
      var i := |l|;
      assert f[i] == "" && f[..i] == l && f[i + 1..] == r;
    } else if l == [] && r != [] {
      assert f[2..] == r;
    } else if l != [] && r == [] {
      assert f[..|f| - 2] == l;
    }
  }

  lemma Ipv6FieldsShape(f: seq<string>)
    requires Ipv6Fields(f)
    ensures forall k :: 0 <= k < |f| ==> FieldOrGap(f[k])
  {
    if |f| == 8 && AllHexGroups(f) {
    } else if f == ["", "", ""] {
    } else if 3 <= |f| <= 9 && f[0] == "" && f[1] == "" && AllHexGroups(f[2..]) {
      forall k | 2 <= k < |f| ensures HexGroup(f[k]) { assert f[2..][k - 2] == f[k]; }
    } else if 3 <= |f| <= 9 && f[|f| - 2] == "" && f[|f| - 1] == "" && AllHexGroups(f[..|f| - 2]) {
      forall k | 0 <= k < |f| - 2 ensures HexGroup(f[k]) { assert f[..|f| - 2][k] == f[k]; }
    } else {
      var i :| 0 < i < |f| - 1 && f[i] == "" && AllHexGroups(f[..i]) && AllHexGroups(f[i + 1..]);
      forall k | 0 <= k < |f| && k != i ensures HexGroup(f[k]) {
        if k < i { assert f[..i][k] == f[k]; } else { assert f[i + 1..][k - i - 1] == f[k]; }
      }
    }
  }

  /** The field list of a compressed form with l and r as its sides. */
  ghost predicate CompressedWith(f: seq<string>, l: seq<string>, r: seq<string>) {
    |l| + |r| <= 7 && AllHexGroups(l) && AllHexGroups(r) && f == CompressedFields(l, r)
  }

  /** An accepted field list is the field list of its compressed or full form. */
  lemma Ipv6FieldsWitness(f: seq<string>)
    requires Ipv6Fields(f)
    ensures FullIpv6(f) || exists l, r :: CompressedWith(f, l, r)
  {
    if |f| == 8 && AllHexGroups(f) {
    } else if f == ["", "", ""] {
      assert CompressedWith(f, [], []);
    } else if 3 <= |f| <= 9 && f[0] == "" && f[1] == "" && AllHexGroups(f[2..]) {
      assert f == ["", ""] + f[2..];
      assert CompressedWith(f, [], f[2..]);
    } else if 3 <= |f| <= 9 && f[|f| - 2] == "" && f[|f| - 1] == "" && AllHexGroups(f[..|f| - 2]) {
      var l := f[..|f| - 2];
      assert f == l + ["", ""];
      assert CompressedWith(f, l, []);
    } else {
      assert 3 <= |f| <= 8;
      var i :| 0 < i < |f| - 1 && f[i] == "" && AllHexGroups(f[..i]) && AllHexGroups(f[i + 1..]);
      var l, r := f[..i], f[i + 1..];
      Lists.SplitAt(f, i);
      assert l != [] && r != [] && CompressedFields(l, r) == l + [""] + r;
      assert CompressedWith(f, l, r);
    }
  }

  /** The IPv6 pattern accepts exactly forms 1 and 2 of section 2.2 of RFC 4291. */
  lemma Ipv6Means(s: string)
    ensures IsIpv6(s) <==> Ipv6Text(s)
  {
    var f := Split(s, ':');
    if IsIpv6(s) {
      JoinSplit(s, ':');
      assert s == Join(f, ":");
      Ipv6FieldsWitness(f);
      if !FullIpv6(f) {
        var l, r :| CompressedWith(f, l, r);
        CompressedJoin(l, r);
        assert CompressedIpv6(l, r, s);
      }
    }
    if Ipv6Text(s) {
      if exists g :: FullIpv6(g) && s == Join(g, ":") {
        var g :| FullIpv6(g) && s == Join(g, ":");
        HexGroupsHaveNoColon(g);
        SplitJoin(g, ':');
      } else {
        var l, r :| CompressedIpv6(l, r, s);
        CompressedJoin(l, r);
        CompressedFieldsAccepted(l, r);
        HexGroupsHaveNoColon(CompressedFields(l, r));
        SplitJoin(CompressedFields(l, r), ':');
      }
    }
  }

  /**
   * validateIp is total and accepts exactly the dotted-quad IPv4 texts and the
   * full or "::"-compressed IPv6 texts; null, undefined, non-strings and "" are rejected.
   */
  lemma ValidateIpMeans(ip: Option<string>)
    ensures ValidateIp(ip) <==> ip.Some? && (Ipv4Text(ip.value) || Ipv6Text(ip.value))
  {
    if ip.Some? {
      Ipv4Means(ip.value);
      Ipv6Means(ip.value);
      if ip.value == "" {
        assert Split("", '.') == [""] && Split("", ':') == [""];
      }
    }
  }

  /** No accepted IPv6 text contains a '.', so the embedded-IPv4 form 3 is rejected. */
  lemma Ipv6HasNoDot(s: string)
    requires '.' in s
    ensures !IsIpv6(s)
  {
    var f := Split(s, ':');
    if IsIpv6(s) {
      JoinSplit(s, ':');
      JoinChars(f, ":", '.');
      Ipv6FieldsShape(f);
      assert false;
    }
  }

  lemma AcceptsDottedQuad(s: string, q: seq<string>)
    requires DottedQuad(q) && s == Join(q, ".")
    ensures ValidateIp(Some(s))
  {
    ValidateIpMeans(Some(s));
  }

  lemma AcceptsCompressed(s: string, l: seq<string>, r: seq<string>)
    requires CompressedIpv6(l, r, s)
    ensures ValidateIp(Some(s))
  {
    ValidateIpMeans(Some(s));
  }

  /** A dotted string whose '.'-fields are f, one of them failing the octet pattern, is rejected. */
  lemma RejectsDotted(s: string, f: seq<string>, k: nat)
    requires |f| >= 1 && (forall p :: p in f ==> '.' !in p) && s == Join(f, ".")
    requires |f| != 4 || (k < 4 && !OctetPattern(f[k]))
    requires '.' in s
    ensures !ValidateIp(Some(s))
  {
    SplitJoin(f, '.');
    assert Split(s, '.') == f;
    assert !IsIpv4(s) by {
      if |f| == 4 {
        assert k == 0 || k == 1 || k == 2 || k == 3;
      }
    }
    Ipv6HasNoDot(s);
  }

  /** "8.8.8.8" and "1.1.1.1" pass. */
  lemma ValidateIpAcceptsIpv4Examples()
    ensures ValidateIp(Some("8.8.8.8")) && ValidateIp(Some("1.1.1.1"))
  {
    AcceptsRepeatedDigit("8.8.8.8", '8');
    AcceptsRepeatedDigit("1.1.1.1", '1');
  }

  /** A dotted quad of one digit repeated four times passes. */
  lemma AcceptsRepeatedDigit(s: string, d: char)
    requires IsDigit(d) && s == [d, '.', d, '.', d, '.', d]
    ensures ValidateIp(Some(s))
  {
    var q := [[d], [d], [d], [d]];
    assert DecimalOctet([d]);
    assert DottedQuad(q);
    assert Join(q[2..], ".") == [d] + "." + [d];
    assert Join(q, ".") == s;
    AcceptsDottedQuad(s, q);
  }

  /** "256.1.1.1" fails: its first field is out of range. */
  lemma ValidateIpRejectsOutOfRange()
    ensures !ValidateIp(Some("256.1.1.1"))
  {
    var f := ["256", "1", "1", "1"];
    assert Join(f, ".") == "256.1.1.1";
    assert "256.1.1.1"[3] == '.';
    assert !OctetPattern(f[0]);
    RejectsDotted("256.1.1.1", f, 0);
  }

  /** "8.8.8" fails: it has three fields. */
  lemma ValidateIpRejectsThreeFields()
    ensures !ValidateIp(Some("8.8.8"))
  {
    var f := ["8", "8", "8"];
    assert Join(f, ".") == "8.8.8";
    assert "8.8.8"[1] == '.';
    RejectsDotted("8.8.8", f, 0);
  }

  /** "::1" and "2001:4860:4860::8888" pass. */
  lemma ValidateIpAcceptsIpv6Examples()
    ensures ValidateIp(Some("::1")) && ValidateIp(Some("2001:4860:4860::8888"))
  {
    AcceptsCompressed("::1", [], ["1"]);
    AcceptsGoogleIpv6();
  }

  lemma AcceptsGoogleIpv6()
    ensures ValidateIp(Some("2001:4860:4860::8888"))
  {
    var l, r := ["2001", "4860", "4860"], ["8888"];
    assert HexGroup("2001") && HexGroup("4860") && HexGroup("8888");
    assert AllHexGroups(l) && AllHexGroups(r);
    assert Join(l, ":") == "2001:4860:4860";
    AcceptsCompressed("2001:4860:4860::8888", l, r);
  }

  /** The embedded-IPv4 form "::ffff:1.2.3.4" fails. */
  lemma ValidateIpRejectsIpv4Tail()
    ensures !ValidateIp(Some("::ffff:1.2.3.4"))
  {
    RejectsDotted("::ffff:1.2.3.4", ["::ffff:1", "2", "3", "4"], 0);
  }

  /** A string with neither '.' nor ':' is no address. */
  lemma NoSeparatorNoAddress(s: string)
    requires '.' !in s && ':' !in s
    ensures !ValidateIp(Some(s))
  {
    SplitNoSeparator(s, '.');
    SplitNoSeparator(s, ':');
  }

  /** "not-an-ip" fails: it has no separator at all. */
  lemma ValidateIpRejectsWord()
    ensures !ValidateIp(Some("not-an-ip"))
  {
    NoSeparatorNoAddress("not-an-ip");
  }

  /** The empty string and non-strings are rejected. */
  lemma ValidateIpRejectsEmpty()
    ensures !ValidateIp(Some("")) && !ValidateIp(None)
  {
  }

  // ---------------------------------------------------------------------------
  // fetchGeoData: request choice, fast failure and error mapping
  // ---------------------------------------------------------------------------

  const IpinfoBaseUrl: string := "https://ipinfo.io"
  const InvalidIpMessage: string := "Invalid IP address format"
  const NotFoundMessage: string := "IP address not found"
  const RateLimitMessage: string := "Rate limit exceeded. Please try again later."
  const FetchFailedMessage: string := "Failed to fetch geolocation data"
  const NetworkErrorMessage: string := "Network error. Please check your connection."

  /** The GET handed to axios: the URL and the `token` query parameter, if any. */
  datatype Request = Request(url: string, token: Option<string>)

  /** What the provider did with the request: answered, answered with an HTTP error, or never answered. */
  datatype Reply =
    | Answered(data: GeoRecord)
    | ErrorResponse(status: int, bodyMessage: Option<string>)
    | NoResponse

  /** How the promise returned by fetchGeoData settles. */
  datatype Outcome = Resolved(record: GeoRecord) | Rejected(message: string)

  function LookupUrl(ip: Option<string>): string {
    if Truthy(ip) then IpinfoBaseUrl + "/" + ip.value + "/json" else IpinfoBaseUrl + "/json"
  }

  /** The `params` object: `{ token }` when the configured token is non-empty, else `{}`. */
  function TokenParam(token: string): Option<string> {
    if token != "" then Some(token) else None
  }

  /** Distinct IPs are looked up at distinct URLs, and no IP lookup uses the caller's-own-IP URL. */
  lemma LookupUrlNamesTheIp(a: Option<string>, b: Option<string>)
    requires LookupUrl(a) == LookupUrl(b)
    ensures Truthy(a) <==> Truthy(b)
    ensures Truthy(a) ==> a.value == b.value
  {
    var n := |IpinfoBaseUrl| + 1;
    if Truthy(a) && Truthy(b) {
      var u := LookupUrl(a);
      assert |a.value| == |b.value|;
      assert u[n..n + |a.value|] == a.value;
      assert LookupUrl(b)[n..n + |b.value|] == b.value;
    } else if Truthy(a) {
      assert false;
    } else if Truthy(b) {
      assert false;
    }
  }

  /**
   * The request fetchGeoData sends: none when a truthy ip fails validateIp; otherwise
   * the per-IP URL (or the caller's-own-IP URL), with the token parameter exactly when
   * a token is configured.
   */
  function RequestFor(ip: Option<string>, token: string): (r: Option<Request>)
    ensures r.None? <==> Truthy(ip) && !ValidateIp(ip)
    ensures r.Some? ==> (r.value.token.Some? <==> token != "")
    ensures r.Some? && r.value.token.Some? ==> r.value.token.value == token
  {
    if Truthy(ip) && !ValidateIp(ip) then None else Some(Request(LookupUrl(ip), TokenParam(token)))
  }

  /** The message of the Error that replaces an HTTP error response. */
  function ResponseErrorMessage(status: int, bodyMessage: Option<string>): (m: string)
    ensures m != ""
    ensures status == 404 ==> m == NotFoundMessage
    ensures status == 429 ==> m == RateLimitMessage
    ensures status != 404 && status != 429 && Truthy(bodyMessage) ==> m == bodyMessage.value
    ensures status != 404 && status != 429 && !Truthy(bodyMessage) ==> m == FetchFailedMessage
  {
    if status == 404 then NotFoundMessage
    else if status == 429 then RateLimitMessage
    else if Truthy(bodyMessage) then bodyMessage.value
    else FetchFailedMessage
  }

  /**
   * How fetchGeoData(ip) settles when the provider behaves as `reply`. A malformed
   * truthy ip is rejected with the validation message whatever the provider would do;
   * otherwise the promise resolves exactly when the provider answered, with its record,
   * and every rejection carries a non-empty message.
   */
  function Lookup(ip: Option<string>, token: string, reply: Reply): (o: Outcome)
    ensures Truthy(ip) && !ValidateIp(ip) ==> o == Rejected(InvalidIpMessage)
    ensures RequestFor(ip, token).Some? ==> (o.Resolved? <==> reply.Answered?)
    ensures o.Resolved? ==> reply.Answered? && o.record == reply.data
    ensures RequestFor(ip, token).Some? && reply.ErrorResponse? ==>
              o == Rejected(ResponseErrorMessage(reply.status, reply.bodyMessage))
    ensures RequestFor(ip, token).Some? && reply.NoResponse? ==> o == Rejected(NetworkErrorMessage)
    ensures o.Rejected? ==> o.message != ""
  {
    if RequestFor(ip, token).None? then Rejected(InvalidIpMessage)
    else match reply
      case Answered(data) => Resolved(data)
      case ErrorResponse(status, body) => Rejected(ResponseErrorMessage(status, body))
      case NoResponse => Rejected(NetworkErrorMessage)
  }

  /**
   * `fetchGeoData(ip)`, step by step as the source runs it: choose the URL, throw on a
   * malformed IP, attach the token, take the provider's reply, and translate whatever
   * was thrown in the catch block.
   */
  method FetchGeoData(ip: Option<string>, token: string, reply: Reply) returns (sent: Option<Request>, outcome: Outcome)
    ensures sent == RequestFor(ip, token)
    ensures outcome == Lookup(ip, token, reply)
  {
    sent := None;
    var thrown: Option<string> := None;
    var url: string;
    if Truthy(ip) {
      if !ValidateIp(ip) {
        thrown := Some(InvalidIpMessage);
      }
      url := IpinfoBaseUrl + "/" + ip.value + "/json";
    } else {
      url := IpinfoBaseUrl + "/json";
    }
    if thrown == None {
      var params := if token != "" then Some(token) else None;
      sent := Some(Request(url, params));
      match reply {
        case Answered(data) =>
          outcome := Resolved(data);
          return;
        case ErrorResponse(status, body) =>
          if status == 404 {
            outcome := Rejected(NotFoundMessage);
          } else if status == 429 {
            outcome := Rejected(RateLimitMessage);
          } else {
            outcome := Rejected(if Truthy(body) then body.value else FetchFailedMessage);
          }
          return;
        case NoResponse =>
      }
    }
    // catch without an HTTP response: rethrow the validation error, else report the network
    if thrown == Some(InvalidIpMessage) {
      outcome := Rejected(InvalidIpMessage);
    } else {
      outcome := Rejected(NetworkErrorMessage);
    }
  }
}
