/** The pure helpers of frontend/src/utils/helpers.js: the clock format, the token
    format check, the client-side streak rule and the avatar key set. */
module Helpers {
  import opened Wrappers
  import opened Text
  import opened UserModel
  import opened AuthController
  import opened Validation

  /** A remainder below 100 has at most two decimal digits. */
  lemma AtMostTwoDigits(n: nat)
    requires n < 100
    ensures |NatToString(n)| <= 2
  {
    if n >= 10 {
      assert |NatToString(n / 10)| == 1;
    }
  }

  /** Minutes and seconds of a duration. */
  lemma MinutesSeconds(seconds: nat)
    ensures seconds / 60 * 60 + seconds % 60 == seconds
    ensures 0 <= seconds % 60 < 60
    ensures seconds < 6000 ==> seconds / 60 < 100
  {
  }

  /** One field of the clock: the number's digits, with a '0' in front when there is
      only one. It reads back as the number, and below 100 it is exactly two digits. */
  function Field(n: nat): (r: string)
    ensures AllDigits(r) && ParseDigits(r) == n
    ensures |r| >= 2 && (n < 100 ==> |r| == 2)
  {
    var d := NatToString(n);
    ParseNatToString(n);
    ParsePadded(d, 2);
    PadTwo(d);
    if n < 100 then
      AtMostTwoDigits(n);
      if |d| >= 2 then d else "0" + d
    else
      if |d| >= 2 then d else "0" + d
  }

  /** `padStart(2, '0')` on a non-empty string puts at most one '0' in front. */
  lemma PadTwo(d: string)
    requires |d| >= 1
    ensures PadStart(d, 2, '0') == if |d| >= 2 then d else "0" + d
  {
    if |d| < 2 {
      assert PadStart("0" + d, 2, '0') == "0" + d;
    }
  }

  /** A field is `String(n).padStart(2, '0')`. */
  lemma FieldIsPadStart(n: nat)
    ensures Field(n) == PadStart(NatToString(n), 2, '0')
  {
    PadTwo(NatToString(n));
  }

  /** `minutes + ':' + seconds`. */
  function Clock(m: string, s: string): (r: string)
    requires |s| == 2
    ensures |r| == |m| + 3 && r[|r| - 3] == ':'
    ensures r[..|r| - 3] == m && r[|r| - 2..] == s
  {
    var r := m + ":" + s;
    assert r[..|r| - 3] == m;
    r
  }

  /** `formatTime` on a non-negative number of seconds: whole minutes, a colon and the
      remaining seconds, both zero-padded to at least two digits. The seconds field is
      always exactly two digits below 60, and below 100 minutes the result has five
      characters. */
  function FormatTime(seconds: nat): (r: string)
    ensures |r| >= 5 && r[|r| - 3] == ':'
    ensures AllDigits(r[..|r| - 3]) && AllDigits(r[|r| - 2..])
    ensures ParseDigits(r[..|r| - 3]) == seconds / 60
    ensures ParseDigits(r[|r| - 2..]) == seconds % 60 < 60
    ensures seconds < 6000 ==> |r| == 5
  {
    MinutesSeconds(seconds);
    Clock(Field(seconds / 60), Field(seconds % 60))
  }

  /** Reading a clock string back: minutes, a colon, two digits of seconds below 60. */
  function ParseTime(t: string): Option<nat>
  {
    if |t| >= 4 && t[|t| - 3] == ':' && AllDigits(t[..|t| - 3]) && AllDigits(t[|t| - 2..])
       && ParseDigits(t[|t| - 2..]) < 60
    then Some(ParseDigits(t[..|t| - 3]) * 60 + ParseDigits(t[|t| - 2..]))
    else None
  }

  /** A string of the shape `formatTime` produces reads back as its minutes and seconds. */
  lemma ParseClock(t: string, minutes: nat, seconds: nat)
    requires |t| >= 5 && t[|t| - 3] == ':'
    requires AllDigits(t[..|t| - 3]) && AllDigits(t[|t| - 2..])
    requires ParseDigits(t[..|t| - 3]) == minutes
    requires ParseDigits(t[|t| - 2..]) == seconds < 60
    ensures ParseTime(t) == Some(minutes * 60 + seconds)
  {
  }

  /** Two fields joined by a colon read back as the minutes and seconds they hold. */
  lemma ClockReadsBack(m: string, s: string, seconds: nat)
    requires |s| == 2 && |m| >= 2
    requires AllDigits(m) && ParseDigits(m) == seconds / 60
    requires AllDigits(s) && ParseDigits(s) == seconds % 60
    ensures ParseTime(Clock(m, s)) == Some(seconds)
  {
    MinutesSeconds(seconds);
    ParseClock(Clock(m, s), seconds / 60, seconds % 60);
  }

  /** The clock string determines the number of seconds it was made from. */
  lemma FormatTimeRoundTrip(seconds: nat)
    ensures ParseTime(FormatTime(seconds)) == Some(seconds)
  {
    ClockReadsBack(Field(seconds / 60), Field(seconds % 60), seconds);
  }

  /** Different durations are shown differently. */
  lemma FormatTimeInjective(a: nat, b: nat)
    requires FormatTime(a) == FormatTime(b)
    ensures a == b
  {
    FormatTimeRoundTrip(a);
    FormatTimeRoundTrip(b);
  }

  predicate IsHexDigit(c: char)
  {
    ('0' <= c <= '9') || ('a' <= c <= 'f') || ('A' <= c <= 'F')
  }

  /** `/^[0-9a-fA-F]+$/`. */
  predicate HexPattern(s: string)
  {
    s != [] && forall i :: 0 <= i < |s| ==> IsHexDigit(s[i])
  }

  /** `isValidToken`: a present, non-empty token of exactly 128 hexadecimal digits of
      either case. */
  predicate IsValidToken(token: Option<string>)
  {
    token.Some? && token.value != "" && |token.value| == TokenLength && HexPattern(token.value)
  }

  /** Every token the server generates passes the client's check, and every token the
      client accepts passes the server's format check. */
  lemma TokenChecksAgree(raw: string, token: Option<string>)
    ensures IsGeneratedToken(raw) ==> IsValidToken(Some(raw))
    ensures IsValidToken(token) ==> TokenFormatOk(token)
  {
    if IsGeneratedToken(raw) {
      assert raw != [] by {
        assert |raw| == TokenLength;
      }
    }
  }

  /** The server's check is weaker: 128 characters that are not hexadecimal digits pass
      it, while the client refuses them. */
  lemma ServerSkipsHexCheck()
    ensures var t := seq(128, i => 'g');
            TokenFormatOk(Some(t)) && !IsValidToken(Some(t))
  {
    var t := seq(128, i => 'g');
    assert !IsHexDigit(t[0]);
  }

  /** `calculateStreak` on calendar days: 0 without a last-active date, 1 when the last
      activity was today or yesterday, and 0 when it was two or more days ago or lies
      in the future. */
  function CalculateStreak(lastActive: Option<Timestamp>, today: int): (r: int)
    ensures r == 0 || r == 1
    ensures lastActive.None? ==> r == 0
    ensures r == 1 <==> lastActive.Some? && today - 1 <= lastActive.value.day <= today
  {
    if lastActive.None? then 0
    else
      var diffDays := today - lastActive.value.day;
      if diffDays == 0 then 1 else if diffDays == 1 then 1 else 0
  }

  /** The client shows a live streak exactly when the server's next update would
      continue it rather than restart it, unless the last activity lies in the future. */
  lemma ClientStreakMatchesServer(lastActive: Option<Timestamp>, today: int)
    requires lastActive.Some? ==> lastActive.value.day <= today
    ensures CalculateStreak(lastActive, today) == 1 <==> !IsBroken(lastActive, today)
  {
  }

  /** Right after the server's update on a day, the client shows a live streak. */
  lemma ClientSeesUpdatedStreak(s: Streak, now: Timestamp)
    requires s.lastActive.Some? ==> s.lastActive.value.day <= now.day
    ensures CalculateStreak(NextStreak(s, now).lastActive, now.day) == 1
  {
  }

  /** `avatarIcons`: avatar key to icon name. */
  const AvatarIcons: map<string, string> := map[
    "avatar1" := "User", "avatar2" := "Zap", "avatar3" := "Target", "avatar4" := "Rocket",
    "avatar5" := "Brain", "avatar6" := "Flame", "avatar7" := "Heart", "avatar8" := "Star",
    "avatar9" := "Coffee", "avatar10" := "Laptop", "avatar11" := "Book", "avatar12" := "Music"]

  /** Every icon the client offers is an avatar the profile validator accepts, and the
      schema's default avatar is one of them. */
  lemma AvatarIconsAccepted()
    ensures forall k :: k in AvatarIcons ==> IsAvatarName(k)
    ensures "avatar1" in AvatarIcons
  {
    forall k | k in AvatarIcons ensures IsAvatarName(k) {
      assert k[..6] == "avatar" && AllDigits(k[6..]);
    }
  }
}
