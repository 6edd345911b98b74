/**
  Recognising X (Twitter) status links and pulling the numeric tweet ID out
  of them: the `/\/status\/(\d+)/` extraction every store path uses, and the
  `/^https?:\/\/((?:www\.)?(?:twitter\.com|x\.com))\/[a-zA-Z0-9_]+\/status\/[0-9]+/`
  shape test of the submission form and of `XLinkProcessor`.
 */
module TweetIds {
  import opened Common

  const StatusMarker: string := "/status/"

  /** The regex `\/status\/\d` matches at position `i` of `s`. */
  predicate MatchAt(s: string, i: int)
  {
    0 <= i && i + 9 <= |s| && s[i..i + 8] == StatusMarker && IsDigit(s[i + 8])
  }

  /** The leftmost position at or after `from` where the extraction regex matches. */
  function FirstMatchFrom(s: string, from: nat): (r: Option<nat>)
    ensures r.None? ==> forall j | from <= j :: !MatchAt(s, j)
    ensures r.Some? ==> from <= r.value && MatchAt(s, r.value)
    ensures r.Some? ==> forall j | from <= j < r.value :: !MatchAt(s, j)
    decreases |s| - from
  {
    if from + 9 > |s| then None
    else if MatchAt(s, from) then Some(from)
    else FirstMatchFrom(s, from + 1)
  }

  /**
    `url.match(/\/status\/(\d+)/)?.[1] ?? ''`: the whole digit run after the
    leftmost `/status/` that is followed by a digit, or the empty string.
   */
  function ExtractTweetId(url: string): (id: string)
    ensures AllDigits(id)
  {
    match FirstMatchFrom(url, 0)
    case None => ""
    case Some(j) => LeadingDigits(url[j + 8..])
  }

  /**
    The extracted ID is empty exactly when the regex finds no match, and
    otherwise is the maximal digit run after the leftmost match.
   */
  lemma ExtractTweetIdIsLeftmostMatch(url: string)
    ensures ExtractTweetId(url) == "" <==> forall j :: !MatchAt(url, j)
    ensures ExtractTweetId(url) != "" ==>
              exists j :: MatchAt(url, j) && (forall k | 0 <= k < j :: !MatchAt(url, k))
                          && StartsWith(url[j + 8..], ExtractTweetId(url))
                          && (j + 8 + |ExtractTweetId(url)| == |url| || !IsDigit(url[j + 8 + |ExtractTweetId(url)|]))
  {
    match FirstMatchFrom(url, 0)
    case None =>
    case Some(j) =>
      var id := ExtractTweetId(url);
      assert url[j + 8..][0] == url[j + 8];
      assert |id| < |url[j + 8..]| ==> url[j + 8..][|id|] == url[j + 8 + |id|];
  }

  /** The URL the daily X job builds for a fetched tweet before storing it. */
  function JobUrl(id: string): string
  {
    "https://twitter.com/i/web/status/" + id
  }

  /** The URL the link-submission route rebuilds from a submitted tweet ID. */
  function SubmissionUrl(id: string): string
  {
    "x.com/i/status/" + id
  }

  lemma {:induction false} ExtractAfterMarker(url: string, j: nat, id: string)
    requires MatchAt(url, j) && forall k | 0 <= k < j :: !MatchAt(url, k)
    requires url[j + 8..] == id && AllDigits(id)
    ensures ExtractTweetId(url) == id
  {
    var r := FirstMatchFrom(url, 0);
    assert r == Some(j);
    assert DigitRunLength(url[j + 8..]) == |id|;
  }

  /** No match can start where the digit after `/status/` would still fall inside a digit-free prefix. */
  lemma NoMatchInPrefix(p: string, id: string, j: nat)
    requires j + 8 <= |p|
    requires forall i | 0 <= i < |p| :: !IsDigit(p[i])
    ensures forall k | 0 <= k < j :: !MatchAt(p + id, k)
  {
    forall k | 0 <= k < j
      ensures !MatchAt(p + id, k)
    {
      assert (p + id)[k + 8] == p[k + 8];
    }
  }

  lemma JobPrefixHasNoDigit()
    ensures forall i | 0 <= i < 33 :: !IsDigit("https://twitter.com/i/web/status/"[i])
  {
  }

  lemma SubmissionPrefixHasNoDigit()
    ensures forall i | 0 <= i < 23 :: !IsDigit("https://x.com/i/status/"[i])
  {
  }

  /** Round trip of the daily job: the ID written into the job URL is the ID extracted from it. */
  lemma JobUrlRoundTrip(id: string)
    requires id != "" && AllDigits(id)
    ensures ExtractTweetId(JobUrl(id)) == id
  {
    var p := "https://twitter.com/i/web/status/";
    var url := JobUrl(id);
    assert url[25..33] == StatusMarker;
    JobPrefixHasNoDigit();
    NoMatchInPrefix(p, id, 25);
    assert url[33..] == id;
    ExtractAfterMarker(url, 25, id);
  }

  /** Round trip of the link-submission route's rebuilt `https://x.com/i/status/<id>` URL. */
  lemma SubmissionUrlRoundTrip(id: string)
    requires id != "" && AllDigits(id)
    ensures ExtractTweetId("https://" + SubmissionUrl(id)) == id
  {
    var p := "https://x.com/i/status/";
    var url := "https://" + SubmissionUrl(id);
    assert url == p + id;
    assert url[15..23] == StatusMarker;
    SubmissionPrefixHasNoDigit();
    NoMatchInPrefix(p, id, 15);
    assert url[23..] == id;
    ExtractAfterMarker(url, 15, id);
  }

  // ---------------------------------------------------------------------------
  // isValidXLink

  /** `[a-zA-Z0-9_]` */
  predicate IsHandleChar(c: char)
  {
    ('a' <= c <= 'z') || ('A' <= c <= 'Z') || ('0' <= c <= '9') || c == '_'
  }

  function HandleRunLength(s: string): (n: nat)
    ensures n <= |s|
    ensures forall i | 0 <= i < n :: IsHandleChar(s[i])
    ensures n < |s| ==> !IsHandleChar(s[n])
  {
    if |s| == 0 || !IsHandleChar(s[0]) then 0 else 1 + HandleRunLength(s[1..])
  }

  /** What is left after `https?://`, if the link starts that way. */
  function AfterScheme(s: string): Option<string>
  {
    if StartsWith(s, "https://") then Some(s[8..])
    else if StartsWith(s, "http://") then Some(s[7..])
    else None
  }

  /** What is left after an optional `www.` */
  function AfterWww(s: string): string
  {
    if StartsWith(s, "www.") then s[4..] else s
  }

  /** What is left after `twitter.com/` or `x.com/`. */
  function AfterHost(s: string): Option<string>
  {
    if StartsWith(s, "twitter.com/") then Some(s[12..])
    else if StartsWith(s, "x.com/") then Some(s[6..])
    else None
  }

  /** `[a-zA-Z0-9_]+\/status\/[0-9]` at the start of `s`. */
  predicate HandleThenStatus(s: string)
  {
    var n := HandleRunLength(s);
    n > 0 && n + 9 <= |s| && s[n..n + 8] == StatusMarker && IsDigit(s[n + 8])
  }

  /** The anchored regex test, decided left to right (no alternative of the regex can backtrack into success). */
  predicate IsValidXLink(s: string)
  {
    match AfterScheme(s)
    case None => false
    case Some(rest) =>
      match AfterHost(AfterWww(rest))
      case None => false
      case Some(path) => HandleThenStatus(path)
  }

  function SchemeText(secure: bool): string
  {
    if secure then "https://" else "http://"
  }

  function WwwText(www: bool): string
  {
    if www then "www." else ""
  }

  function HostText(twitter: bool): string
  {
    if twitter then "twitter.com/" else "x.com/"
  }

  /** The shortest text the regex matches for one choice of every alternative. */
  function LinkShape(secure: bool, www: bool, twitter: bool, handle: string, digit: char): string
  {
    SchemeText(secure) + (WwwText(www) + (HostText(twitter) + (handle + StatusMarker + [digit])))
  }

  predicate IsHandle(handle: string)
  {
    |handle| > 0 && forall i | 0 <= i < |handle| :: IsHandleChar(handle[i])
  }

  /** A link the regex accepts: it starts with some instance of the pattern. */
  ghost predicate MatchesLinkPattern(s: string)
  {
    exists secure: bool, www: bool, twitter: bool, handle: string, digit: char
      :: IsHandle(handle) && IsDigit(digit) && StartsWith(s, LinkShape(secure, www, twitter, handle, digit))
  }

  lemma StartsWithPrepend(p: string, s: string, q: string)
    requires StartsWith(s, q)
    ensures StartsWith(p + s, p + q)
  {
    assert (p + s)[..|p + q|] == p + s[..|q|];
  }

  lemma StartsWithStrip(p: string, s: string, q: string)
    requires StartsWith(s, p + q)
    ensures StartsWith(s[|p|..], q) && StartsWith(s, p)
  {
    assert s[|p|..][..|q|] == (p + q)[|p|..];
  }

  lemma {:induction false} HandleRunOfShape(handle: string, rest: string)
    requires forall i | 0 <= i < |handle| :: IsHandleChar(handle[i])
    requires |rest| > 0 && rest[0] == '/'
    ensures HandleRunLength(handle + rest) == |handle|
    decreases |handle|
  {
    if |handle| > 0 {
      assert (handle + rest)[1..] == handle[1..] + rest;
      HandleRunOfShape(handle[1..], rest);
    }
  }

  lemma SchemeSplit(s: string)
    requires AfterScheme(s).Some?
    ensures s == SchemeText(StartsWith(s, "https://")) + AfterScheme(s).value
  {
    if StartsWith(s, "https://") {
      assert s == s[..8] + s[8..];
    } else {
      assert s == s[..7] + s[7..];
    }
  }

  lemma WwwSplit(s: string)
    ensures s == WwwText(StartsWith(s, "www.")) + AfterWww(s)
  {
    if StartsWith(s, "www.") {
      assert s == s[..4] + s[4..];
    }
  }

  lemma HostSplit(s: string)
    requires AfterHost(s).Some?
    ensures s == HostText(StartsWith(s, "twitter.com/")) + AfterHost(s).value
  {
    if StartsWith(s, "twitter.com/") {
      assert s == s[..12] + s[12..];
    } else {
      assert s == s[..6] + s[6..];
    }
  }

  lemma SchemeJoin(secure: bool, rest: string)
    requires StartsWith(rest, "w") || StartsWith(rest, "t") || StartsWith(rest, "x")
    ensures AfterScheme(SchemeText(secure) + rest) == Some(rest)
  {
    var s := SchemeText(secure) + rest;
    if secure {
      assert s[..8] == "https://";
      assert s[8..] == rest;
    } else {
      assert s[4] != 's';
      assert s[..7] == "http://";
      assert s[7..] == rest;
    }
  }

  lemma WwwJoin(www: bool, hosted: string)
    requires StartsWith(hosted, "t") || StartsWith(hosted, "x")
    ensures AfterWww(WwwText(www) + hosted) == hosted
  {
    var s := WwwText(www) + hosted;
    if www {
      assert s[..4] == "www.";
      assert s[4..] == hosted;
    } else {
      assert s[0] != 'w';
    }
  }

  lemma HostJoin(twitter: bool, path: string)
    ensures AfterHost(HostText(twitter) + path) == Some(path)
  {
    var s := HostText(twitter) + path;
    if twitter {
      assert s[..12] == "twitter.com/";
      assert s[12..] == path;
    } else {
      assert s[0] != 't';
      assert s[..6] == "x.com/";
      assert s[6..] == path;
    }
  }

  lemma HandleThenStatusPrefix(path: string)
    requires HandleThenStatus(path)
    ensures var n := HandleRunLength(path);
            StartsWith(path, path[..n] + StatusMarker + [path[n + 8]])
  {
    var n := HandleRunLength(path);
    assert path[..n + 9] == path[..n] + path[n..n + 8] + [path[n + 8]];
  }

  lemma TailIsHandleThenStatus(path: string, handle: string, digit: char)
    requires IsHandle(handle) && IsDigit(digit)
    requires StartsWith(path, handle + StatusMarker + [digit])
    ensures HandleThenStatus(path)
  {
    var tail := handle + StatusMarker + [digit];
    assert path[..|tail|] == tail;
    assert path == handle + path[|handle|..];
    assert path[|handle|] == '/';
    HandleRunOfShape(handle, path[|handle|..]);
    assert path[|handle|..|handle| + 8] == tail[|handle|..|handle| + 8];
  }

  lemma ValidLinkParts(s: string) returns (secure: bool, www: bool, twitter: bool, path: string)
    requires IsValidXLink(s)
    ensures HandleThenStatus(path)
    ensures s == SchemeText(secure) + (WwwText(www) + (HostText(twitter) + path))
  {
    secure := StartsWith(s, "https://");
    var rest := AfterScheme(s).value;
    SchemeSplit(s);
    www := StartsWith(rest, "www.");
    var hosted := AfterWww(rest);
    WwwSplit(rest);
    twitter := StartsWith(hosted, "twitter.com/");
    path := AfterHost(hosted).value;
    HostSplit(hosted);
  }

  /** A link that passes the left-to-right test starts with an instance of the pattern. */
  lemma ValidLinkMatchesPattern(s: string)
    requires IsValidXLink(s)
    ensures MatchesLinkPattern(s)
  {
    var secure, www, twitter, path := ValidLinkParts(s);
    var n := HandleRunLength(path);
    var handle := path[..n];
    var digit := path[n + 8];
    var tail := handle + StatusMarker + [digit];
    HandleThenStatusPrefix(path);
    StartsWithPrepend(HostText(twitter), path, tail);
    StartsWithPrepend(WwwText(www), HostText(twitter) + path, HostText(twitter) + tail);
    StartsWithPrepend(SchemeText(secure), WwwText(www) + (HostText(twitter) + path), WwwText(www) + (HostText(twitter) + tail));
    assert IsHandle(handle) && IsDigit(digit) && StartsWith(s, LinkShape(secure, www, twitter, handle, digit));
  }

  /** Cuts a link that starts with an instance of the pattern at the pattern's three joints. */
  lemma ShapeParts(s: string, secure: bool, www: bool, twitter: bool, handle: string, digit: char)
    returns (rest: string, hosted: string, path: string)
    requires StartsWith(s, LinkShape(secure, www, twitter, handle, digit))
    ensures s == SchemeText(secure) + rest && rest == WwwText(www) + hosted && hosted == HostText(twitter) + path
    ensures StartsWith(path, handle + StatusMarker + [digit])
    ensures StartsWith(hosted, "t") || StartsWith(hosted, "x")
    ensures StartsWith(rest, "w") || StartsWith(rest, "t") || StartsWith(rest, "x")
  {
    var tail := handle + StatusMarker + [digit];
    var hostTail := HostText(twitter) + tail;
    StartsWithStrip(SchemeText(secure), s, WwwText(www) + hostTail);
    rest := s[|SchemeText(secure)|..];
    StartsWithStrip(WwwText(www), rest, hostTail);
    hosted := rest[|WwwText(www)|..];
    StartsWithStrip(HostText(twitter), hosted, tail);
    path := hosted[|HostText(twitter)|..];
    assert s == SchemeText(secure) + rest;
    assert rest == WwwText(www) + hosted;
    assert hosted == HostText(twitter) + path;
    assert hosted[0] == hostTail[0];
    assert rest[0] == (WwwText(www) + hostTail)[0];
  }

  /** A link starting with an instance of the pattern passes the left-to-right test. */
  lemma PatternMatchIsValidLink(s: string, secure: bool, www: bool, twitter: bool, handle: string, digit: char)
    requires IsHandle(handle) && IsDigit(digit)
    requires StartsWith(s, LinkShape(secure, www, twitter, handle, digit))
    ensures IsValidXLink(s)
  {
    var rest, hosted, path := ShapeParts(s, secure, www, twitter, handle, digit);
    WwwJoin(www, hosted);
    SchemeJoin(secure, rest);
    HostJoin(twitter, path);
    TailIsHandleThenStatus(path, handle, digit);
  }

  /** The left-to-right decision agrees with the regex in both directions. */
  lemma IsValidXLinkMeansPattern(s: string)
    ensures IsValidXLink(s) <==> MatchesLinkPattern(s)
  {
    if IsValidXLink(s) {
      ValidLinkMatchesPattern(s);
    }
    if MatchesLinkPattern(s) {
      var secure: bool, www: bool, twitter: bool, handle: string, digit: char :|
        IsHandle(handle) && IsDigit(digit) && StartsWith(s, LinkShape(secure, www, twitter, handle, digit));
      PatternMatchIsValidLink(s, secure, www, twitter, handle, digit);
    }
  }

  lemma MatchInPrepended(p: string, path: string, i: int)
    requires MatchAt(path, i)
    ensures MatchAt(p + path, |p| + i)
  {
    var s := p + path;
    assert s[|p| + i..|p| + i + 8] == path[i..i + 8];
    assert s[|p| + i + 8] == path[i + 8];
  }

  /** A match in the path of a link is a match in the whole link, shifted by the scheme, `www.` and host. */
  lemma MatchInLink(secure: bool, www: bool, twitter: bool, path: string, n: int)
    requires MatchAt(path, n)
    ensures MatchAt(SchemeText(secure) + (WwwText(www) + (HostText(twitter) + path)),
                    |SchemeText(secure)| + |WwwText(www)| + |HostText(twitter)| + n)
  {
    var hosted := HostText(twitter) + path;
    MatchInPrepended(HostText(twitter), path, n);
    MatchInPrepended(WwwText(www), hosted, |HostText(twitter)| + n);
    MatchInPrepended(SchemeText(secure), WwwText(www) + hosted, |WwwText(www)| + |HostText(twitter)| + n);
  }

  /** Every link passing the shape test yields a non-empty, all-digit tweet ID. */
  lemma ValidLinkHasTweetId(s: string)
    requires IsValidXLink(s)
    ensures ExtractTweetId(s) != "" && AllDigits(ExtractTweetId(s))
  {
    var secure, www, twitter, path := ValidLinkParts(s);
    LinkPathGivesId(s, secure, www, twitter, path);
  }

  lemma LinkPathGivesId(s: string, secure: bool, www: bool, twitter: bool, path: string)
    requires HandleThenStatus(path)
    requires s == SchemeText(secure) + (WwwText(www) + (HostText(twitter) + path))
    ensures ExtractTweetId(s) != ""
  {
    var n := HandleRunLength(path);
    assert MatchAt(path, n);
    MatchInLink(secure, www, twitter, path, n);
    MatchGivesId(s, |SchemeText(secure)| + |WwwText(www)| + |HostText(twitter)| + n);
  }

  /** Any match at all makes the extracted ID non-empty. */
  lemma MatchGivesId(s: string, k: int)
    requires MatchAt(s, k)
    ensures ExtractTweetId(s) != ""
  {
    match FirstMatchFrom(s, 0)
    case None =>
      assert false;
    case Some(j) =>
      var rest := s[j + 8..];
      assert rest[0] == s[j + 8];
  }
}
