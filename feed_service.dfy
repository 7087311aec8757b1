/** Request validation and feed generation (feed_service.py): the `show` and `latest`
    query parameters become a pair of integers or one of two validation errors, and a
    validated request is fetched and assembled into the RSS tree. */
module FeedService {
  import opened Wrappers
  import opened Strings
  import opened ElementTree
  import opened ShowJson
  import opened RssXml

  /** The `latest` used when the parameter is absent. */
  const MaxInt32 := 2147483647

  /** The two `ValueError`s `parse_and_validate` raises. */
  datatype ValidationError = InvalidShow | InvalidLatest {
    function Message(): string {
      match this
      case InvalidShow => "Invalid \"show\" parameter"
      case InvalidLatest => "Invalid \"latest\" parameter"
    }
  }

  /** The validated `(show_id, latest)` pair. */
  datatype Request = Request(showId: int, latest: int)

  /** A present parameter made of ASCII digits only. */
  predicate WellFormed(raw: Option<string>) {
    raw.Some? && IsDigits(raw.value)
  }

  /** `parse_and_validate`: `show` must be present and all digits; `latest` may be absent
      (then it is `MaxInt32`) and otherwise must be all digits. An invalid `latest` is read
      as the sentinel -1, which the `latest < 0` test then rejects. */
  function ParseAndValidate(showRaw: Option<string>, latestRaw: Option<string>): (r: Result<Request, ValidationError>)
    ensures r == Failure(InvalidShow) <==> !WellFormed(showRaw)
    ensures r == Failure(InvalidLatest) <==> WellFormed(showRaw) && latestRaw.Some? && !IsDigits(latestRaw.value)
    ensures r.Success? <==> WellFormed(showRaw) && (latestRaw.None? || IsDigits(latestRaw.value))
    ensures r.Success? ==>
      && r.value.showId == ParseDecimal(showRaw.value)
      && r.value.latest == (if latestRaw.None? then MaxInt32 else ParseDecimal(latestRaw.value))
      && r.value.showId >= 0 && r.value.latest >= 0
  {
    if showRaw.None? || !IsDigits(showRaw.value) then
      Failure(InvalidShow)
    else
      var latest := if latestRaw.None? then MaxInt32
                    else if IsDigits(latestRaw.value) then ParseDecimal(latestRaw.value)
                    else -1;
      if latest < 0 then Failure(InvalidLatest)
      else Success(Request(ParseDecimal(showRaw.value), latest))
  }

  /** Any request printed with `str` is read back unchanged, and an absent `latest`
      reads as `MaxInt32`; in particular `"0"` is accepted for both. */
  lemma ParseAndValidatePrinted(showId: nat, latest: nat)
    ensures ParseAndValidate(Some(NatToString(showId)), Some(NatToString(latest))) == Success(Request(showId, latest))
    ensures ParseAndValidate(Some(NatToString(showId)), None) == Success(Request(showId, MaxInt32))
  {
    NatToStringRoundTrip(showId);
    NatToStringRoundTrip(latest);
  }

  /** A negative number printed with `str` is rejected: as `show` with the show error,
      as `latest` with the latest error. */
  lemma ParseAndValidateRejectsNegative(showId: nat, n: int)
    requires n < 0
    ensures ParseAndValidate(Some(IntToString(n)), None) == Failure(InvalidShow)
    ensures ParseAndValidate(Some(NatToString(showId)), Some(IntToString(n))) == Failure(InvalidLatest)
  {
    NatToStringRoundTrip(showId);
    IntToStringRoundTrip(n);
    assert !IsAsciiDigit(IntToString(n)[0]);
  }

  /** A rejected `show` wins over whatever `latest` is. */
  lemma ParseAndValidateShowFirst(showRaw: Option<string>, latestRaw: Option<string>)
    requires !WellFormed(showRaw)
    ensures ParseAndValidate(showRaw, latestRaw) == ParseAndValidate(showRaw, None) == Failure(InvalidShow)
  {
  }

  /** The edge cases of `str.isdigit`: the empty string, a sign and a leading space are
      not digits, so such a `latest` is rejected, while `"0"` passes. */
  lemma ParseAndValidateEdgeCases()
    ensures ParseAndValidate(Some("0"), Some("0")) == Success(Request(0, 0))
    ensures ParseAndValidate(Some("007"), None) == Success(Request(7, MaxInt32))
    ensures ParseAndValidate(Some("1"), Some("")) == Failure(InvalidLatest)
    ensures ParseAndValidate(Some("1"), Some("+5")) == Failure(InvalidLatest)
    ensures ParseAndValidate(Some("1"), Some(" 5")) == Failure(InvalidLatest)
    ensures ParseAndValidate(None, Some("x")) == Failure(InvalidShow)
    ensures ParseAndValidate(Some(""), Some("5")) == Failure(InvalidShow)
  {
    assert "007"[..2] == "00" && "00"[..1] == "0";
    assert !IsAsciiDigit("+5"[0]) && !IsAsciiDigit(" 5"[0]);
  }

  /** `generate_feed`: fetches the show for the validated `(showId, latest)` and assembles
      the feed with the summary-then-synopsis rule. A failed fetch is passed on and no
      length is looked up. */
  method GenerateFeed(showId: int, latest: int, selfLink: string,
                      fetch: (int, int) -> Result<Show, string>,
                      getFileLength: string -> int, formatPubDate: string -> string)
    returns (feed: Result<Element, string>, probes: seq<string>)
    ensures fetch(showId, latest).Failure? ==> feed == Failure(fetch(showId, latest).error) && probes == []
    ensures fetch(showId, latest).Success? ==>
      var show := fetch(showId, latest).value;
      feed == Success(Rss(show, selfLink, getFileLength, formatPubDate, SummaryThenSynopsis))
      && probes == Probes(Nodes(show))
  {
    var fetched := fetch(showId, latest);
    if fetched.Failure? {
      return Failure(fetched.error), [];
    }
    var rss;
    rss, probes := BuildRssXml(fetched.value, selfLink, getFileLength, formatPubDate);
    feed := Success(rss);
  }
}
