/**
  The link-submission hook (`useXLinkSubmission`): a link is checked in the
  order blank, format, ID, cooldown; a link that passes is sent as its tweet
  ID, and a tweet whose metrics the server actually updated may not be sent
  again for five minutes. The cooldown list is a sequence of
  (tweet ID, timestamp) pairs; the clock and the server's reply are
  parameters of each call.
 */
module Submission {
  import opened Common
  import opened UtcTime
  import opened TweetIds

  /** `SUBMISSION_COOLDOWN`: five minutes, in milliseconds. */
  const Cooldown: int := 5 * 60 * 1000

  /** `RecentSubmission` */
  datatype RecentSubmission = RecentSubmission(tweetId: string, timestamp: Millis)

  /** `SubmissionState`; an absent error is `null`. */
  datatype SubmissionState = SubmissionState(isLoading: bool, error: Option<string>, isSuccess: bool)

  const BlankMessage: string := "Please enter a valid X link"
  const FormatMessage: string := "Invalid X link format"
  const NoIdMessage: string := "Could not extract tweet ID from link"
  const SubmitFailedMessage: string := "Failed to submit link"
  const UnknownErrorMessage: string := "An error occurred"
  const UpToDateMessage: string := "This tweet's metrics are already up to date"

  /** A settled state showing `message` as the error. */
  function Failed(message: string): SubmissionState
  {
    SubmissionState(false, Some(message), false)
  }

  /** The characters `String.prototype.trim` removes: white space and line terminators. */
  predicate IsTrimmed(c: char)
  {
    c == '\t' || c == '\n' || c == '\U{000B}' || c == '\U{000C}' || c == '\r' || c == ' '
    || c == '\U{00A0}' || c == '\U{1680}' || ('\U{2000}' <= c <= '\U{200A}')
    || c == '\U{2028}' || c == '\U{2029}' || c == '\U{202F}' || c == '\U{205F}'
    || c == '\U{3000}' || c == '\U{FEFF}'
  }

  /** `s` without its leading white space. */
  function TrimStart(s: string): (r: string)
    ensures |r| <= |s| && r == s[|s| - |r|..]
    ensures r == "" || !IsTrimmed(r[0])
    ensures forall i | 0 <= i < |s| - |r| :: IsTrimmed(s[i])
  {
    if |s| > 0 && IsTrimmed(s[0]) then
      var r := TrimStart(s[1..]);
      assert forall i | 1 <= i < |s| - |r| :: s[i] == s[1..][i - 1];
      r
    else s
  }

  /** `s` without its trailing white space. */
  function TrimEnd(s: string): (r: string)
    ensures |r| <= |s| && r == s[..|r|]
    ensures r == "" || !IsTrimmed(r[|r| - 1])
    ensures forall i | |r| <= i < |s| :: IsTrimmed(s[i])
  {
    if |s| > 0 && IsTrimmed(s[|s| - 1]) then
      var r := TrimEnd(s[..|s| - 1]);
      assert forall i | |r| <= i < |s| - 1 :: s[i] == s[..|s| - 1][i];
      r
    else s
  }

  /** `s.trim()` */
  function Trim(s: string): string
  {
    TrimEnd(TrimStart(s))
  }

  /** Every character of `s` is white space. */
  predicate IsBlank(s: string)
  {
    forall i | 0 <= i < |s| :: IsTrimmed(s[i])
  }

  /** `!link.trim()`: the trimmed link is empty exactly when the link is all white space. */
  lemma TrimIsEmptyIffBlank(s: string)
    ensures Trim(s) == "" <==> IsBlank(s)
  {
  }

  /** A well-formed link starts with `http`, so it is never blank: the order of the first two checks only chooses the message. */
  lemma LinkIsNotBlank(link: string)
    requires IsValidXLink(link)
    ensures !IsBlank(link)
  {
    var secure, www, twitter, path := ValidLinkParts(link);
    assert link[0] == SchemeText(secure)[0] == 'h';
    assert !IsTrimmed(link[0]);
  }

  /** `cleanXLink(link)`: the digits after the first `/status/`, or `null` when there are none. */
  function CleanXLink(link: string): (r: Option<string>)
    ensures r.Some? ==> r.value != "" && AllDigits(r.value)
    ensures r.None? <==> forall j :: !MatchAt(link, j)
  {
    ExtractTweetIdIsLeftmostMatch(link);
    var id := ExtractTweetId(link);
    if id == "" then None else Some(id)
  }

  /** A link that passes the format check always yields an ID, so the hook's ID check never fails. */
  lemma FormatCheckYieldsId(link: string)
    requires IsValidXLink(link)
    ensures CleanXLink(link) == Some(ExtractTweetId(link))
  {
    ValidLinkHasTweetId(link);
  }

  /** The entry still counts at `now`. */
  predicate Fresh(sub: RecentSubmission, now: Millis)
  {
    now - sub.timestamp < Cooldown
  }

  /** The list after `canSubmitTweet`'s clean-up: the entries still fresh, in order. */
  function Prune(recent: seq<RecentSubmission>, now: Millis): (r: seq<RecentSubmission>)
    ensures |r| <= |recent|
    ensures forall s :: s in r <==> s in recent && Fresh(s, now)
    ensures r == Filter(recent, sub => Fresh(sub, now))
  {
    if |recent| == 0 then []
    else
      var n := |recent| - 1;
      assert recent == recent[..n] + [recent[n]];
      Prune(recent[..n], now) + (if Fresh(recent[n], now) then [recent[n]] else [])
  }

  /** `subs.find(sub => sub.tweetId === tweetId)`: the first entry for the tweet. */
  function FindTweet(subs: seq<RecentSubmission>, tweetId: string): (r: Option<RecentSubmission>)
    ensures r.None? <==> forall i | 0 <= i < |subs| :: subs[i].tweetId != tweetId
    ensures r.Some? ==> exists i | 0 <= i < |subs| :: subs[i] == r.value && r.value.tweetId == tweetId
                                                    && forall j | 0 <= j < i :: subs[j].tweetId != tweetId
  {
    if |subs| == 0 then None
    else if subs[0].tweetId == tweetId then Some(subs[0])
    else
      var r := FindTweet(subs[1..], tweetId);
      assert forall i | 1 <= i < |subs| :: subs[i] == subs[1..][i - 1];
      r
  }

  /** `Math.ceil(x / 1000)` */
  function CeilThousandths(x: int): int
  {
    -((-x) / 1000)
  }

  lemma CeilThousandthsBounds(x: int)
    ensures 1000 * (CeilThousandths(x) - 1) < x <= 1000 * CeilThousandths(x)
  {
  }

  /** The seconds reported for an entry `elapsed` ms old. */
  function WaitSeconds(elapsed: int): int
  {
    CeilThousandths(Cooldown - elapsed)
  }

  /** A fresh entry always reports a positive wait; one not from the future reports at most 300 seconds. */
  lemma WaitSecondsBounds(elapsed: int)
    requires elapsed < Cooldown
    ensures 1 <= WaitSeconds(elapsed)
    ensures 0 <= elapsed ==> WaitSeconds(elapsed) <= Cooldown / 1000
    ensures 1000 * (WaitSeconds(elapsed) - 1) < Cooldown - elapsed <= 1000 * WaitSeconds(elapsed)
  {
    CeilThousandthsBounds(Cooldown - elapsed);
  }

  function WaitMessage(seconds: nat): string
  {
    "Please wait " + NatToString(seconds) + " seconds before resubmitting this tweet"
  }

  /** What `canSubmitTweet` leaves behind: the pruned list, and the wait when the tweet is blocked. */
  datatype CooldownCheck = CooldownCheck(kept: seq<RecentSubmission>, wait: Option<nat>)

  /**
    `canSubmitTweet(tweetId)` at time `now`: drop the stale entries, then
    block the tweet when an entry for it survives.
   */
  function CanSubmitTweet(recent: seq<RecentSubmission>, tweetId: string, now: Millis): (r: CooldownCheck)
    ensures forall s :: s in r.kept <==> s in recent && Fresh(s, now)
    ensures r.wait.None? <==> forall s | s in recent && Fresh(s, now) :: s.tweetId != tweetId
    ensures r.wait.Some? ==> r.wait.value >= 1
    ensures r.wait.Some? ==> exists s | s in recent && Fresh(s, now) && s.tweetId == tweetId :: r.wait.value == WaitSeconds(now - s.timestamp)
    ensures r.kept == Filter(recent, sub => Fresh(sub, now))
    ensures r.wait.Some? ==> exists i | 0 <= i < |r.kept| :: r.kept[i].tweetId == tweetId
                                                            && r.wait.value == WaitSeconds(now - r.kept[i].timestamp)
                                                            && forall j | 0 <= j < i :: r.kept[j].tweetId != tweetId
  {
    var kept := Prune(recent, now);
    match FindTweet(kept, tweetId)
    case None => CooldownCheck(kept, None)
    case Some(sub) =>
      assert sub in kept;
      WaitSecondsBounds(now - sub.timestamp);
      CooldownCheck(kept, Some(WaitSeconds(now - sub.timestamp)))
  }

  /** What the request to `/api/link-submission` yields: a parsed reply, or a thrown error. */
  datatype Response = Reply(ok: bool, message: string, updated: bool) | Threw(error: Thrown)

  /** The state after `submitXLink` settles, the cooldown list, and the tweet ID sent, if any. */
  datatype Outcome = Outcome(state: SubmissionState, recent: seq<RecentSubmission>, sent: Option<string>)

  /**
    `submitXLink(link)` called at `now`, with the server answering
    `response`; `later` is the clock when the reply is handled.
   */
  function SubmitXLink(recent: seq<RecentSubmission>, link: string, now: Millis, response: Response, later: Millis): (r: Outcome)
    ensures !r.state.isLoading
    ensures IsBlank(link) ==> r == Outcome(Failed(BlankMessage), recent, None)
    ensures !IsBlank(link) && !IsValidXLink(link) ==> r == Outcome(Failed(FormatMessage), recent, None)
    ensures r.sent.Some? <==> !IsBlank(link) && IsValidXLink(link) && ExtractTweetId(link) != ""
                              && forall s | s in recent && Fresh(s, now) :: s.tweetId != ExtractTweetId(link)
    ensures r.sent.Some? ==> r.sent.value == ExtractTweetId(link)
    ensures r.sent.None? && !IsBlank(link) && IsValidXLink(link) && ExtractTweetId(link) != ""
            ==> r.recent == Prune(recent, now) && r.state.error.Some?
    ensures r.sent.Some? ==> (r.state.isSuccess <==> response.Reply? && response.ok)
    ensures r.sent.None? ==> !r.state.isSuccess
    ensures r.sent.Some? && response.Reply? && response.ok && response.updated
            ==> r.recent == Prune(recent, now) + [RecentSubmission(ExtractTweetId(link), later)]
    ensures r.sent.Some? && !(response.Reply? && response.ok && response.updated) ==> r.recent == Prune(recent, now)
  {
    if IsBlank(link) then Outcome(Failed(BlankMessage), recent, None)
    else if !IsValidXLink(link) then Outcome(Failed(FormatMessage), recent, None)
    else
      match CleanXLink(link)
      case None => Outcome(Failed(NoIdMessage), recent, None)
      case Some(tweetId) =>
        var checked := CanSubmitTweet(recent, tweetId, now);
        match checked.wait
        case Some(seconds) => Outcome(Failed(WaitMessage(seconds)), checked.kept, None)
        case None =>
          var kept := Prune(recent, now);
          match response
          case Threw(e) => Outcome(Failed(MessageOr(e, UnknownErrorMessage)), kept, Some(tweetId))
          case Reply(ok, message, updated) =>
            if !ok then Outcome(Failed(if message == "" then SubmitFailedMessage else message), kept, Some(tweetId))
            else if updated then Outcome(SubmissionState(false, None, true), kept + [RecentSubmission(tweetId, later)], Some(tweetId))
            else Outcome(SubmissionState(false, Some(UpToDateMessage), true), kept, Some(tweetId))
  }

  /**
    Every well-formed link reaches the cooldown check: it is either sent or
    held back with the wait message, and never with the ID message.
   */
  lemma WellFormedLinkReachesCooldown(recent: seq<RecentSubmission>, link: string, now: Millis, response: Response, later: Millis)
    requires IsValidXLink(link)
    ensures var r := SubmitXLink(recent, link, now, response, later);
            r.sent.None? ==> exists seconds: nat | seconds >= 1 :: r.state == Failed(WaitMessage(seconds))
  {
    LinkIsNotBlank(link);
    FormatCheckYieldsId(link);
  }

  /**
    The wait shown for a blocked tweet: between 1 and 300 seconds when the
    list holds no timestamps later than `now`.
   */
  lemma BlockedWaitIsBounded(recent: seq<RecentSubmission>, tweetId: string, now: Millis)
    requires forall s | s in recent :: s.timestamp <= now
    ensures var w := CanSubmitTweet(recent, tweetId, now).wait;
            w.Some? ==> 1 <= w.value <= Cooldown / 1000
  {
    var w := CanSubmitTweet(recent, tweetId, now).wait;
    if w.Some? {
      var s :| s in recent && Fresh(s, now) && s.tweetId == tweetId && w.value == WaitSeconds(now - s.timestamp);
      WaitSecondsBounds(now - s.timestamp);
    }
  }

  /**
    After the server reports an update, the same link is held back until the
    cooldown has passed: a second submission at any `t` in
    [`later`, `later` + 5 minutes) sends nothing.
   */
  lemma UpdatedTweetIsHeldBack(recent: seq<RecentSubmission>, link: string, now: Millis, later: Millis,
                               t: Millis, response: Response, laterAgain: Millis)
    requires SubmitXLink(recent, link, now, Reply(true, "", true), later).sent.Some?
    requires later <= t < later + Cooldown
    ensures var first := SubmitXLink(recent, link, now, Reply(true, "", true), later);
            var second := SubmitXLink(first.recent, link, t, response, laterAgain);
            second.sent.None? && !second.state.isSuccess && second.recent == Prune(first.recent, t)
  {
    var first := SubmitXLink(recent, link, now, Reply(true, "", true), later);
    var entry := RecentSubmission(ExtractTweetId(link), later);
    assert entry in first.recent;
    assert Fresh(entry, t);
    FormatCheckYieldsId(link);
  }

  /**
    A submission the server did not update (or that failed) records
    nothing: sending the same link again is never held back by it.
   */
  lemma UnchangedTweetIsNotHeldBack(recent: seq<RecentSubmission>, link: string, now: Millis, response: Response,
                                    later: Millis, t: Millis, responseAgain: Response, laterAgain: Millis)
    requires SubmitXLink(recent, link, now, response, later).sent.Some?
    requires !(response.Reply? && response.ok && response.updated)
    ensures var first := SubmitXLink(recent, link, now, response, later);
            SubmitXLink(first.recent, link, t, responseAgain, laterAgain).sent.Some?
  {
    var first := SubmitXLink(recent, link, now, response, later);
    assert forall s | s in first.recent :: s in recent && Fresh(s, now);
  }

  /**
    Once five minutes have passed since the recorded update (and the clock
    has not gone back), the same link is sent again.
   */
  lemma CooldownExpires(recent: seq<RecentSubmission>, link: string, now: Millis, later: Millis,
                        t: Millis, response: Response, laterAgain: Millis)
    requires SubmitXLink(recent, link, now, Reply(true, "", true), later).sent.Some?
    requires now <= t && later + Cooldown <= t
    ensures var first := SubmitXLink(recent, link, now, Reply(true, "", true), later);
            SubmitXLink(first.recent, link, t, response, laterAgain).sent.Some?
  {
    var first := SubmitXLink(recent, link, now, Reply(true, "", true), later);
    var id := ExtractTweetId(link);
    forall s | s in first.recent && Fresh(s, t)
      ensures s.tweetId != id
    {
      if s != RecentSubmission(id, later) {
        assert s in Prune(recent, now) by {
          assert s in Prune(recent, now) + [RecentSubmission(id, later)];
        }
      }
    }
  }
}
