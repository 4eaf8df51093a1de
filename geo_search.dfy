/**
 * The search box: a text field and an error line. Submitting trims the input,
 * refuses an empty or malformed address with a message, and otherwise hands the
 * trimmed address to the page's search callback and empties the field. The
 * callbacks are recorded as the list of calls a handler makes.
 */
module Search {
  import opened Wrappers
  import opened Text
  import opened GeoService

  const EmptyInputMessage: string := "Please enter an IP address"
  const BadFormatMessage: string := "Invalid IP address format"

  /** A call the search box makes to the page: `onSearch(query)` or `onClear()`. */
  datatype Call = Searched(query: string) | Cleared

  /**
   * What a submit hands to onSearch: the trimmed input, when it is non-empty and
   * validateIp accepts it; nothing otherwise.
   */
  function Submitted(input: string): (q: Option<string>)
    ensures q.Some? <==> Trim(input) != [] && ValidateIp(Some(Trim(input)))
    ensures q.Some? ==> q.value == Trim(input)
  {
    var query := Trim(input);
    if query == [] then None
    else if !ValidateIp(Some(query)) then None
    else Some(query)
  }

  /**
   * onSearch is only ever given an IPv4 dotted quad or an IPv6 address in full or
   * `::`-compressed form, with no white space at either end.
   */
  lemma SubmittedIsAddress(input: string)
    requires Submitted(input).Some?
    ensures var q := Submitted(input).value;
      (Ipv4Text(q) || Ipv6Text(q)) && !IsJsSpace(q[0]) && !IsJsSpace(q[|q| - 1])
  {
    TrimMeans(input);
    ValidateIpMeans(Submitted(input));
  }

  /** Surrounding blanks are dropped: " 8.8.8.8 " is handed on as "8.8.8.8". */
  lemma SubmitsTrimmedAddress()
    ensures Submitted(" 8.8.8.8 ") == Some("8.8.8.8")
  {
    assert " 8.8.8.8 "[1..] == "8.8.8.8 ";
    assert TrimStart(" 8.8.8.8 ") == "8.8.8.8 ";
    assert "8.8.8.8 "[..7] == "8.8.8.8";
    assert Trim(" 8.8.8.8 ") == "8.8.8.8";
    ValidateIpAcceptsIpv4Examples();
  }

  class GeoSearch {
    var ipAddress: string
    var error: string

    constructor ()
      ensures ipAddress == "" && error == ""
    {
      ipAddress := "";
      error := "";
    }

    /** The input's onChange: the field takes the new text and the error clears. */
    method OnInputChange(value: string)
      modifies this
      ensures ipAddress == value && error == ""
    {
      ipAddress := value;
      error := "";
    }

    /**
     * `handleSearch`: an all-white-space input and a malformed one each leave the field
     * as it is and show their message; an accepted one is passed to onSearch once,
     * trimmed, and the field and the error are emptied.
     */
    method HandleSearch() returns (calls: seq<Call>)
      modifies this
      ensures Submitted(old(ipAddress)).Some? ==>
        calls == [Searched(Submitted(old(ipAddress)).value)] && ipAddress == "" && error == ""
      ensures AllSpace(old(ipAddress)) ==>
        calls == [] && ipAddress == old(ipAddress) && error == EmptyInputMessage
      ensures !AllSpace(old(ipAddress)) && Submitted(old(ipAddress)).None? ==>
        calls == [] && ipAddress == old(ipAddress) && error == BadFormatMessage
    {
      error := "";
      TrimMeans(ipAddress);
      var query := Trim(ipAddress);
      if query == [] {
        error := EmptyInputMessage;
        return [];
      }
      if !ValidateIp(Some(query)) {
        error := BadFormatMessage;
        return [];
      }
      calls := [Searched(query)];
      ipAddress := "";
    }

    /** `handleClear`: empties the field and the error, then calls onClear. */
    method HandleClear() returns (calls: seq<Call>)
      modifies this
      ensures ipAddress == "" && error == "" && calls == [Cleared]
    {
      ipAddress := "";
      error := "";
      calls := [Cleared];
    }
  }
}
