/** The user record of backend/src/models/User.js: schema defaults and limits, the
    pre-save hook that hashes the token, and the daily streak update.

    Time is modelled by calendar-day numbers in the server's local time zone: a
    `Timestamp` is a day number plus the milliseconds elapsed since that day's local
    midnight. bcrypt is an abstract hash function passed in by the caller. */
module UserModel {
  import opened Wrappers
  import opened Text

  const MsPerDay: int := 86400000

  /** An instant: local calendar day and milliseconds since that day's local midnight. */
  datatype Timestamp = Timestamp(day: int, msOfDay: nat)

  /** The `streak` sub-document. */
  datatype Streak = Streak(current: int, longest: int, lastActive: Option<Timestamp>)

  /** The `stats` sub-document (totalTime is in seconds). */
  datatype Stats = Stats(totalSessions: int, totalTime: int, totalItems: int)

  datatype Shortcut = Shortcut(key: string, text: string)

  /** A user document read with `.select('-hashedToken')`: every field but the hash. */
  datatype UserRecord = UserRecord(
    id: nat,
    tokenPrefix: Option<string>,
    username: Option<string>,
    avatar: string,
    streak: Streak,
    stats: Stats,
    shortcuts: seq<Shortcut>)

  function Max(a: int, b: int): int
  {
    if a < b then b else a
  }

  /** Last active before yesterday, or never: the streak is broken. */
  predicate IsBroken(lastActive: Option<Timestamp>, today: int)
  {
    lastActive.None? || lastActive.value.day < today - 1
  }

  /** Already credited on this calendar day. */
  predicate IsSameDay(lastActive: Option<Timestamp>, today: int)
  {
    lastActive.Some? && lastActive.value.day == today
  }

  /** The streak after one `updateStreak` call at instant `now`. A broken streak
      restarts at 1; a second call on the same day changes nothing; any other
      last-active day (yesterday, or a day after today) adds one. Whenever something
      changes, the full instant is recorded and the longest streak is raised to the
      current one. */
  function NextStreak(s: Streak, now: Timestamp): (r: Streak)
    ensures IsBroken(s.lastActive, now.day) ==> r.current == 1
    ensures IsSameDay(s.lastActive, now.day) ==> r == s
    ensures !IsBroken(s.lastActive, now.day) && !IsSameDay(s.lastActive, now.day) ==>
              r.current == s.current + 1
    ensures !IsSameDay(s.lastActive, now.day) ==>
              r.lastActive == Some(now) && r.longest == Max(s.longest, r.current)
    ensures s.current <= s.longest ==> r.current <= r.longest
  {
    if IsBroken(s.lastActive, now.day) then
      Streak(1, Max(s.longest, 1), Some(now))
    else if IsSameDay(s.lastActive, now.day) then
      s
    else
      Streak(s.current + 1, Max(s.longest, s.current + 1), Some(now))
  }

  /** A second update on the same calendar day is a no-op, so updates are idempotent
      within a day. */
  lemma SameDayIdempotent(s: Streak, now: Timestamp, later: Timestamp)
    requires later.day == now.day
    ensures NextStreak(NextStreak(s, now), later) == NextStreak(s, now)
  {
    var r := NextStreak(s, now);
    assert IsSameDay(r.lastActive, later.day);
  }

  /** The streak after a sequence of updates, in order. */
  function ApplyUpdates(s: Streak, nows: seq<Timestamp>): Streak
    decreases |nows|
  {
    if nows == [] then s else ApplyUpdates(NextStreak(s, nows[0]), nows[1..])
  }

  /** The updates fall on consecutive calendar days starting at `first`. */
  predicate ConsecutiveDays(nows: seq<Timestamp>, first: int)
  {
    forall k :: 0 <= k < |nows| ==> nows[k].day == first + k
  }

  /** `current <= longest` holds after any sequence of updates once it holds. */
  lemma {:induction false} UpdatesKeepLongest(s: Streak, nows: seq<Timestamp>)
    requires s.current <= s.longest
    ensures ApplyUpdates(s, nows).current <= ApplyUpdates(s, nows).longest
    decreases |nows|
  {
    if nows != [] {
      UpdatesKeepLongest(NextStreak(s, nows[0]), nows[1..]);
    }
  }

  /** Continuing from yesterday: n updates on n consecutive days add n to the streak. */
  lemma {:induction false} ConsecutiveDaysExtend(s: Streak, nows: seq<Timestamp>)
    requires nows != [] && ConsecutiveDays(nows, nows[0].day)
    requires s.lastActive.Some? && s.lastActive.value.day == nows[0].day - 1
    ensures ApplyUpdates(s, nows).current == s.current + |nows|
    ensures ApplyUpdates(s, nows).longest >= s.current + |nows|
    decreases |nows|
  {
    var s' := NextStreak(s, nows[0]);
    if |nows| == 1 {
      assert ApplyUpdates(s', nows[1..]) == s';
    } else {
      assert nows[1].day == nows[0].day + 1;
      ConsecutiveDaysExtend(s', nows[1..]);
    }
  }

  /** A user who was never active, or whose streak is broken, and then logs in on n
      consecutive days has a streak of exactly n, and the longest streak is at least n. */
  lemma ConsecutiveDaysFromBroken(s: Streak, nows: seq<Timestamp>)
    requires nows != [] && ConsecutiveDays(nows, nows[0].day)
    requires IsBroken(s.lastActive, nows[0].day)
    ensures ApplyUpdates(s, nows).current == |nows|
    ensures ApplyUpdates(s, nows).longest >= |nows|
  {
    var s' := NextStreak(s, nows[0]);
    if |nows| == 1 {
      assert ApplyUpdates(s', nows[1..]) == s';
    } else {
      assert ConsecutiveDays(nows[1..], nows[1].day);
      ConsecutiveDaysExtend(s', nows[1..]);
    }
  }

  /** Which branch of `updateStreak` the source takes, computed as it is written: on
      local-midnight timestamps in milliseconds, with "yesterday" taken to be exactly
      86400000 ms before today's midnight, and a zero timestamp read as "never". */
  datatype StreakBranch = Broken | AlreadyToday | Consecutive

  function StreakBranchMs(lastMidnightMs: Option<int>, todayMidnightMs: int): (b: StreakBranch)
    ensures lastMidnightMs.None? ==> b == Broken
    ensures lastMidnightMs == Some(todayMidnightMs) && todayMidnightMs != 0 ==> b == AlreadyToday
    ensures lastMidnightMs.Some? && lastMidnightMs.value > todayMidnightMs && lastMidnightMs.value != 0 ==>
              b == Consecutive
  {
    if lastMidnightMs.None? || lastMidnightMs.value == 0
       || lastMidnightMs.value < todayMidnightMs - MsPerDay then Broken
    else if lastMidnightMs.value == todayMidnightMs then AlreadyToday
    else Consecutive
  }

  /** The day after the autumn daylight-saving change, the previous local midnight lies
      25 hours before today's. The millisecond rule then reads an update made yesterday
      as a broken streak, while the calendar-day rule continues it. */
  lemma FallBackBreaksStreak(today: int)
    requires today > 2 * MsPerDay
    ensures StreakBranchMs(Some(today - 25 * 3600000), today) == Broken
    ensures var s := Streak(4, 4, Some(Timestamp(9, 3600000)));
            NextStreak(s, Timestamp(10, 0)).current == 5
  {
  }

  /** The stored user document. Fields mirror the schema; the streak and stats
      sub-documents are flattened into fields because the source updates them one
      field at a time. */
  class User {
    const id: nat
    var hashedToken: string
    var tokenPrefix: Option<string>
    var username: Option<string>
    var avatar: string
    var streakCurrent: int
    var streakLastActive: Option<Timestamp>
    var streakLongest: int
    var totalSessions: int
    var totalTime: int
    var totalItems: int
    var shortcuts: seq<Shortcut>
    /** Mongoose's `isNew`: the document has not been stored yet. */
    var isNew: bool
    /** Mongoose's `isModified('hashedToken')` since the last save. */
    var tokenModified: bool

    function StreakOf(): Streak
      reads this`streakCurrent, this`streakLongest, this`streakLastActive
    {
      Streak(streakCurrent, streakLongest, streakLastActive)
    }

    function StatsOf(): Stats
      reads this`totalSessions, this`totalTime, this`totalItems
    {
      Stats(totalSessions, totalTime, totalItems)
    }

    /** The document as read without its hash. */
    function Record(): UserRecord
      reads this
    {
      UserRecord(id, tokenPrefix, username, avatar, StreakOf(), StatsOf(), shortcuts)
    }

    /** `new User({hashedToken: raw})`: every other field takes its schema default. */
    constructor (id: nat, raw: string)
      ensures this.id == id && hashedToken == raw && tokenPrefix.None?
      ensures username.None? && avatar == "avatar1"
      ensures StreakOf() == Streak(0, 0, None)
      ensures StatsOf() == Stats(0, 0, 0)
      ensures shortcuts == []
      ensures isNew && tokenModified
    {
      this.id := id;
      hashedToken := raw;
      tokenPrefix := None;
      username := None;
      avatar := "avatar1";
      streakCurrent, streakLastActive, streakLongest := 0, None, 0;
      totalSessions, totalTime, totalItems := 0, 0, 0;
      shortcuts := [];
      isNew, tokenModified := true, true;
    }

    /** `updateStreak`, with the clock reading passed in. */
    method UpdateStreak(now: Timestamp)
      modifies this`streakCurrent, this`streakLastActive, this`streakLongest
      ensures StreakOf() == NextStreak(old(StreakOf()), now)
    {
      var lastDay: Option<int> := if streakLastActive.Some? then Some(streakLastActive.value.day) else None;
      if lastDay.None? || lastDay.value < now.day - 1 {
        streakCurrent := 1;
      } else if lastDay.value == now.day {
        return;
      } else {
        streakCurrent := streakCurrent + 1;
      }
      streakLastActive := Some(now);
      streakLongest := Max(streakLongest, streakCurrent);
    }

    /** The schema validators that `save` runs before its hooks. */
    predicate SchemaValid()
      reads this`hashedToken, this`tokenPrefix, this`username, this`shortcuts
    {
      && hashedToken != ""
      && tokenPrefix.Some? && tokenPrefix.value != ""
      && (username.Some? ==> 2 <= |username.value| <= 30)
      && forall i :: 0 <= i < |shortcuts| ==> ShortcutWithinLimits(shortcuts[i])
    }

    /** `save()`: schema validation, then the pre-save hook, then the insert or update.
        The hook replaces the token by its hash only for a new document or after the
        token was modified; `hash` stands for bcrypt with a fresh salt and `keyClash`
        for the store's unique-index check. */
    method Save(hash: string -> string, keyClash: bool) returns (outcome: SaveOutcome)
      modifies this`hashedToken, this`isNew, this`tokenModified
      ensures !old(SchemaValid()) ==> outcome == ValidationFailed && unchanged(this)
      ensures old(SchemaValid()) ==>
                hashedToken == (if old(isNew) || old(tokenModified) then hash(old(hashedToken)) else old(hashedToken))
      ensures old(SchemaValid()) && keyClash ==> outcome == DuplicateKey && isNew == old(isNew)
      ensures old(SchemaValid()) && !keyClash ==> outcome == Saved && !isNew && !tokenModified
    {
      if !SchemaValid() {
        return ValidationFailed;
      }
      if isNew || tokenModified {
        hashedToken := hash(hashedToken);
      }
      if keyClash {
        return DuplicateKey;
      }
      isNew, tokenModified := false, false;
      outcome := Saved;
    }
  }

  /** What `save()` reports. `DuplicateKey` is the store's error code 11000. */
  datatype SaveOutcome = Saved | ValidationFailed | DuplicateKey

  /** The schema limits on one stored shortcut. */
  predicate ShortcutWithinLimits(s: Shortcut)
  {
    |s.key| <= 3 && |s.text| <= 200
  }

  /** The schema setters applied when a shortcut is stored: the key is trimmed and
      upper-cased, the text trimmed. */
  function StoredShortcut(key: string, text: string): (s: Shortcut)
    ensures s.text == Trim(text) && |s.text| <= |text|
    ensures |s.key| == |Trim(key)| && s.key == Upper(s.key)
  {
    UpperIdempotent(Trim(key));
    Shortcut(Upper(Trim(key)), Trim(text))
  }

  /** Applying the setters to an already stored shortcut changes nothing. */
  lemma StoredShortcutStable(key: string, text: string)
    ensures var s := StoredShortcut(key, text); StoredShortcut(s.key, s.text) == s
  {
    TrimOfUpperTrimmed(key);
    TrimIdempotent(text);
    UpperIdempotent(Trim(key));
  }

  /** Upper-casing a trimmed string leaves it trimmed: ASCII case mapping never
      produces or removes white space. */
  lemma TrimOfUpperTrimmed(key: string)
    ensures Trim(Upper(Trim(key))) == Upper(Trim(key))
  {
    var t := Trim(key);
    var u := Upper(t);
    assert forall c :: IsSpace(UpperChar(c)) <==> IsSpace(c);
    if u != [] {
      TrimOfUnpadded(u);
    }
  }
}
