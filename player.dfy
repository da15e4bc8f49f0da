/** The player of frontend/src/pages/PlayerPage.jsx: it walks through a stack's items,
    one countdown per item, records the time spent on each and posts the session at the
    end. Handlers run to completion; the 500 ms delay before moving to the next item is
    folded into the handler that starts it. */
module PlayerPage {
  import opened Wrappers
  import opened UserModel

  /** An entry of `completedItems`. */
  datatype CompletedItem = CompletedItem(text: string, duration: int)

  /** The body of `POST /stacks/sessions`. */
  datatype SessionPost = SessionPost(
    completedItems: seq<CompletedItem>,
    totalDuration: int,
    vibrations: int,
    sound: string,
    duration: int)

  /** `completedItems.reduce((sum, item) => sum + item.duration, 0)`. */
  function Total(entries: seq<CompletedItem>): int
  {
    if entries == [] then 0 else Total(entries[..|entries| - 1]) + entries[|entries| - 1].duration
  }

  /** The total of a concatenation is the sum of the totals. */
  lemma {:induction false} TotalAppend(a: seq<CompletedItem>, b: seq<CompletedItem>)
    ensures Total(a + b) == Total(a) + Total(b)
    decreases |b|
  {
    if b != [] {
      assert (a + b)[..|a + b| - 1] == a + b[..|b| - 1];
      TotalAppend(a, b[..|b| - 1]);
    } else {
      assert a + b == a;
    }
  }

  /** Durations that are never negative give a total that is not negative and at least
      each of them. */
  lemma {:induction false} TotalBounds(entries: seq<CompletedItem>, i: nat)
    requires forall k :: 0 <= k < |entries| ==> entries[k].duration >= 0
    requires i < |entries|
    ensures Total(entries) >= entries[i].duration >= 0
    decreases |entries|
  {
    var init := entries[..|entries| - 1];
    TotalNonNegative(init);
    if i < |entries| - 1 {
      TotalBounds(init, i);
    }
  }

  lemma {:induction false} TotalNonNegative(entries: seq<CompletedItem>)
    requires forall k :: 0 <= k < |entries| ==> entries[k].duration >= 0
    ensures Total(entries) >= 0
    decreases |entries|
  {
    if entries != [] {
      TotalNonNegative(entries[..|entries| - 1]);
    }
  }

  /** Appending one entry adds its duration to the total. */
  lemma TotalSnoc(entries: seq<CompletedItem>, e: CompletedItem)
    ensures Total(entries + [e]) == Total(entries) + e.duration
  {
    assert (entries + [e])[..|entries|] == entries;
  }

  class Player {
    const items: seq<string>
    const vibrations: int
    const sound: string
    var currentIndex: nat
    var isPlaying: bool
    var timeLeft: int
    var totalDuration: int
    var completedItems: seq<CompletedItem>
    var showCompletion: bool
    /** The sessions posted so far, in order. */
    var posts: seq<SessionPost>
    /** `user.stats` as the page holds it. */
    var stats: Option<Stats>

    /** The stack has items and the index points at one of them. */
    predicate Valid()
      reads this
    {
      0 < |items| && currentIndex < |items|
    }

    /** The page once the stack is loaded: paused on the first item with the stack's
        default duration. */
    constructor (texts: seq<string>, defaultDuration: int, prefVibrations: int, prefSound: string,
                 userStats: Option<Stats>)
      requires |texts| > 0
      ensures items == texts && vibrations == prefVibrations && sound == prefSound
      ensures currentIndex == 0 && !isPlaying && completedItems == [] && !showCompletion
      ensures timeLeft == defaultDuration && totalDuration == defaultDuration
      ensures posts == [] && stats == userStats
      ensures Valid()
    {
      items := texts;
      vibrations := prefVibrations;
      sound := prefSound;
      currentIndex := 0;
      isPlaying := false;
      timeLeft := defaultDuration;
      totalDuration := defaultDuration;
      completedItems := [];
      showCompletion := false;
      posts := [];
      stats := userStats;
    }

    /** The entry for the current item when the handler saw `seen` seconds left. */
    function Entry(seen: int): CompletedItem
      requires Valid()
      reads this
    {
      CompletedItem(items[currentIndex], totalDuration - seen)
    }

    /** The move to the next item: the current item is recorded with the time spent on
        it, the index moves up by one and the clock is full again. */
    method Advance(seen: int)
      requires Valid() && currentIndex < |items| - 1
      modifies this
      ensures completedItems == old(completedItems) + [old(Entry(seen))]
      ensures currentIndex == old(currentIndex) + 1 && timeLeft == totalDuration
      ensures totalDuration == old(totalDuration) && isPlaying == old(isPlaying)
      ensures showCompletion == old(showCompletion) && posts == old(posts) && stats == old(stats)
      ensures Valid()
    {
      completedItems := completedItems + [Entry(seen)];
      currentIndex := currentIndex + 1;
      timeLeft := totalDuration;
    }

    /** `finishSession`: stops, and posts the entries so far plus the current item, their
        total and the settings. When the post succeeds (`delivered`) the local stats grow
        by what the server's `saveSession` adds for that body (one session, the posted
        total, one item per entry) and the completion screen shows; when it fails
        nothing else happens. The recorded entries themselves stay as they were. */
    method Finish(seen: int, delivered: bool)
      requires Valid()
      modifies this
      ensures !isPlaying && currentIndex == old(currentIndex) && timeLeft == old(timeLeft)
      ensures totalDuration == old(totalDuration) && completedItems == old(completedItems)
      ensures |posts| == |old(posts)| + 1 && posts[..|old(posts)|] == old(posts)
      ensures posts[|posts| - 1] ==
                SessionPost(old(completedItems) + [CompletedItem(items[currentIndex], totalDuration - seen)],
                            Total(old(completedItems)) + totalDuration - seen, vibrations, sound, totalDuration)
      ensures delivered && old(stats).Some? ==>
                stats == Some(Stats(old(stats).value.totalSessions + 1,
                                    old(stats).value.totalTime + posts[|posts| - 1].totalDuration,
                                    old(stats).value.totalItems + |posts[|posts| - 1].completedItems|))
      ensures !(delivered && old(stats).Some?) ==> stats == old(stats)
      ensures showCompletion == (delivered || old(showCompletion))
      ensures Valid()
    {
      isPlaying := false;
      var entry := Entry(seen);
      var final := completedItems + [entry];
      TotalSnoc(completedItems, entry);
      var post := SessionPost(final, Total(final), vibrations, sound, totalDuration);
      posts := posts + [post];
      if delivered {
        if stats.Some? {
          var s := stats.value;
          stats := Some(Stats(s.totalSessions + 1, s.totalTime + Total(final), s.totalItems + |final|));
        }
        showCompletion := true;
      }
    }

    /** `handleTimerEnd` and `handleSkip`: the next item, or the end of the session on
        the last one, so the index never passes the last item. */
    method EndItem(seen: int, delivered: bool)
      requires Valid()
      modifies this
      ensures old(currentIndex) < |items| - 1 ==>
                && completedItems == old(completedItems) + [old(Entry(seen))]
                && currentIndex == old(currentIndex) + 1 && timeLeft == totalDuration
                && isPlaying == old(isPlaying) && posts == old(posts) && stats == old(stats)
      ensures old(currentIndex) == |items| - 1 ==>
                && !isPlaying && currentIndex == old(currentIndex) && timeLeft == old(timeLeft)
                && completedItems == old(completedItems) && |posts| == |old(posts)| + 1
                && posts[|posts| - 1].completedItems == old(completedItems) + [old(Entry(seen))]
      ensures totalDuration == old(totalDuration) && Valid()
    {
      if currentIndex < |items| - 1 {
        Advance(seen);
      } else {
        Finish(seen, delivered);
      }
    }

    /** `handleSkip`: ends the current item with the time it has been running. */
    method Skip(delivered: bool)
      requires Valid()
      modifies this
      ensures old(currentIndex) < |items| - 1 ==>
                && completedItems == old(completedItems) + [CompletedItem(items[old(currentIndex)], old(totalDuration - timeLeft))]
                && currentIndex == old(currentIndex) + 1 && timeLeft == totalDuration
                && isPlaying == old(isPlaying) && posts == old(posts)
      ensures old(currentIndex) == |items| - 1 ==>
                !isPlaying && |posts| == |old(posts)| + 1
                && posts[|posts| - 1].completedItems ==
                   old(completedItems) + [CompletedItem(items[old(currentIndex)], old(totalDuration - timeLeft))]
      ensures totalDuration == old(totalDuration) && Valid()
    {
      EndItem(timeLeft, delivered);
    }

    /** One firing of the interval as written. The interval's closure was made when one
        second was left, so on the last second the item is recorded with
        `totalDuration - 1` seconds although its clock ran down to zero. */
    method TickAsWritten(delivered: bool)
      requires Valid()
      modifies this
      ensures totalDuration == old(totalDuration) && Valid()
      ensures !(old(isPlaying) && old(timeLeft) > 0) ==>
                timeLeft == old(timeLeft) && currentIndex == old(currentIndex)
                && completedItems == old(completedItems) && posts == old(posts) && isPlaying == old(isPlaying)
      ensures old(isPlaying) && old(timeLeft) > 1 ==>
                timeLeft == old(timeLeft) - 1 && currentIndex == old(currentIndex)
                && completedItems == old(completedItems) && posts == old(posts) && isPlaying
      ensures old(isPlaying) && old(timeLeft) == 1 && old(currentIndex) < |items| - 1 ==>
                && completedItems == old(completedItems) + [CompletedItem(items[old(currentIndex)], totalDuration - 1)]
                && currentIndex == old(currentIndex) + 1 && timeLeft == totalDuration && isPlaying
                && posts == old(posts)
    {
      if isPlaying && timeLeft > 0 {
        if timeLeft <= 1 {
          var seen := timeLeft;
          timeLeft := 0;
          EndItem(seen, delivered);
        } else {
          timeLeft := timeLeft - 1;
        }
      }
    }

    /** One firing of the interval with the item's time taken after its last second:
        an item whose clock ran down is recorded with its whole duration. */
    method Tick(delivered: bool)
      requires Valid()
      modifies this
      ensures totalDuration == old(totalDuration) && Valid()
      ensures !(old(isPlaying) && old(timeLeft) > 0) ==>
                timeLeft == old(timeLeft) && currentIndex == old(currentIndex)
                && completedItems == old(completedItems) && posts == old(posts) && isPlaying == old(isPlaying)
      ensures old(isPlaying) && old(timeLeft) > 1 ==>
                timeLeft == old(timeLeft) - 1 && currentIndex == old(currentIndex)
                && completedItems == old(completedItems) && posts == old(posts) && isPlaying
      ensures old(isPlaying) && old(timeLeft) == 1 && old(currentIndex) < |items| - 1 ==>
                && completedItems == old(completedItems) + [CompletedItem(items[old(currentIndex)], totalDuration)]
                && currentIndex == old(currentIndex) + 1 && timeLeft == totalDuration && isPlaying
                && posts == old(posts)
      ensures old(isPlaying) && old(timeLeft) == 1 && old(currentIndex) == |items| - 1 ==>
                && !isPlaying && timeLeft == 0 && |posts| == |old(posts)| + 1
                && posts[|posts| - 1].completedItems ==
                   old(completedItems) + [CompletedItem(items[old(currentIndex)], totalDuration)]
    {
      if isPlaying && timeLeft > 0 {
        if timeLeft <= 1 {
          timeLeft := 0;
          EndItem(timeLeft, delivered);
        } else {
          timeLeft := timeLeft - 1;
        }
      }
    }

    /** Letting a playing item that is not the last run out with the interval as
        written: it takes `timeLeft` firings, and an item started on a full clock of
        `d` seconds is recorded with `d - 1`. */
    method PlayOutAsWritten() returns (firings: nat)
      requires Valid() && isPlaying && timeLeft > 0 && currentIndex < |items| - 1
      modifies this
      ensures firings == old(timeLeft) && currentIndex == old(currentIndex) + 1
      ensures completedItems == old(completedItems) + [CompletedItem(items[old(currentIndex)], old(totalDuration) - 1)]
      ensures old(timeLeft) == old(totalDuration) ==> completedItems[|completedItems| - 1].duration == firings - 1
      ensures isPlaying && timeLeft == totalDuration == old(totalDuration) && posts == old(posts)
    {
      firings := 0;
      var start := currentIndex;
      while currentIndex == start
        invariant Valid() && isPlaying && totalDuration == old(totalDuration) && posts == old(posts)
        invariant firings <= old(timeLeft)
        invariant currentIndex == start ==>
                    timeLeft == old(timeLeft) - firings >= 1 && completedItems == old(completedItems)
        invariant currentIndex != start ==>
                    && currentIndex == start + 1 && firings == old(timeLeft) && timeLeft == totalDuration
                    && completedItems == old(completedItems) + [CompletedItem(items[start], totalDuration - 1)]
        decreases old(timeLeft) - firings
      {
        TickAsWritten(false);
        firings := firings + 1;
      }
    }

    /** The same run with the corrected interval: the item is recorded with exactly as
        many seconds as the clock counted down. */
    method PlayOut() returns (firings: nat)
      requires Valid() && isPlaying && timeLeft > 0 && currentIndex < |items| - 1
      modifies this
      ensures firings == old(timeLeft) && currentIndex == old(currentIndex) + 1
      ensures completedItems == old(completedItems) + [CompletedItem(items[old(currentIndex)], old(totalDuration))]
      ensures old(timeLeft) == old(totalDuration) ==> completedItems[|completedItems| - 1].duration == firings
      ensures isPlaying && timeLeft == totalDuration == old(totalDuration) && posts == old(posts)
    {
      firings := 0;
      var start := currentIndex;
      while currentIndex == start
        invariant Valid() && isPlaying && totalDuration == old(totalDuration) && posts == old(posts)
        invariant firings <= old(timeLeft)
        invariant currentIndex == start ==>
                    timeLeft == old(timeLeft) - firings >= 1 && completedItems == old(completedItems)
        invariant currentIndex != start ==>
                    && currentIndex == start + 1 && firings == old(timeLeft) && timeLeft == totalDuration
                    && completedItems == old(completedItems) + [CompletedItem(items[start], totalDuration)]
        decreases old(timeLeft) - firings
      {
        Tick(false);
        firings := firings + 1;
      }
    }

    /** `adjustTime`: the time left moves by `seconds` but not below five, while the
        total moves by the full amount. */
    method AdjustTime(seconds: int)
      requires Valid()
      modifies this
      ensures timeLeft == if old(timeLeft) + seconds < 5 then 5 else old(timeLeft) + seconds
      ensures timeLeft >= 5 && timeLeft >= old(timeLeft) + seconds
      ensures totalDuration == old(totalDuration) + seconds
      ensures currentIndex == old(currentIndex) && isPlaying == old(isPlaying)
      ensures completedItems == old(completedItems) && posts == old(posts) && Valid()
    {
      timeLeft := if timeLeft + seconds < 5 then 5 else timeLeft + seconds;
      totalDuration := totalDuration + seconds;
    }

    /** `togglePlay`. */
    method TogglePlay()
      requires Valid()
      modifies this
      ensures isPlaying == !old(isPlaying)
      ensures timeLeft == old(timeLeft) && totalDuration == old(totalDuration)
      ensures currentIndex == old(currentIndex) && completedItems == old(completedItems)
      ensures posts == old(posts) && Valid()
    {
      isPlaying := !isPlaying;
    }

    /** `handleRestart`: back to a paused first item on a full clock with nothing
        recorded; the duration is kept. */
    method Restart()
      requires Valid()
      modifies this
      ensures currentIndex == 0 && completedItems == [] && !isPlaying && !showCompletion
      ensures timeLeft == totalDuration && totalDuration == old(totalDuration)
      ensures posts == old(posts) && stats == old(stats) && Valid()
    {
      currentIndex := 0;
      timeLeft := totalDuration;
      completedItems := [];
      isPlaying := false;
      showCompletion := false;
    }
  }
}
