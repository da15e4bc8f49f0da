/** The arithmetic of the streak card (frontend/src/components/dashboard/StreakCard.jsx):
    the total time split into hours and minutes, the next streak milestone, the
    progress towards it, the motivational message and the 'Today' badge. */
module StreakCard {
  import opened Wrappers

  /** JavaScript's `%`: the remainder takes the sign of the dividend. */
  function JsRem(a: int, b: int): (r: int)
    requires b > 0
    ensures a >= 0 ==> r == a % b && 0 <= r < b
    ensures a < 0 ==> -b < r <= 0 && r == -((-a) % b)
  {
    if a >= 0 then a % b else -((-a) % b)
  }

  /** `Math.floor(totalTime / 3600)`. */
  function TotalHours(totalTime: int): int
  {
    totalTime / 3600
  }

  /** `Math.floor((totalTime % 3600) / 60)`. */
  function TotalMinutes(totalTime: int): int
  {
    JsRem(totalTime, 3600) / 60
  }

  /** For a non-negative total the two fields are whole hours and the remaining whole
      minutes: below an hour of minutes, and together within a minute of the total. */
  lemma TimeSplitBounds(totalTime: int)
    requires totalTime >= 0
    ensures 0 <= TotalMinutes(totalTime) < 60 && TotalHours(totalTime) >= 0
    ensures TotalHours(totalTime) * 3600 + TotalMinutes(totalTime) * 60 <= totalTime
    ensures totalTime < TotalHours(totalTime) * 3600 + TotalMinutes(totalTime) * 60 + 60
  {
    var h := totalTime / 3600;
    var rem := totalTime % 3600;
    assert JsRem(totalTime, 3600) == rem;
    assert h * 3600 + rem == totalTime;
    assert rem / 60 * 60 <= rem < rem / 60 * 60 + 60;
  }

  /** The milestones, in increasing order. */
  const Milestones: seq<int> := [3, 7, 14, 30, 60, 90, 100]

  /** `find(m => m > streak)`: the first entry above the streak. */
  function FirstAbove(ms: seq<int>, streak: int): (r: Option<int>)
    ensures r.Some? ==> r.value in ms && r.value > streak
    ensures r.None? <==> forall i :: 0 <= i < |ms| ==> ms[i] <= streak
    ensures r.Some? ==> exists i :: 0 <= i < |ms| && ms[i] == r.value && forall j :: 0 <= j < i ==> ms[j] <= streak
  {
    if ms == [] then None
    else if ms[0] > streak then Some(ms[0])
    else
      var rest := FirstAbove(ms[1..], streak);
      if rest.Some? then
        var i :| 0 <= i < |ms[1..]| && ms[1..][i] == rest.value && forall j :: 0 <= j < i ==> ms[1..][j] <= streak;
        assert ms[i + 1] == rest.value;
        assert forall j :: 0 <= j < i + 1 ==> ms[j] <= streak by {
          forall j | 0 <= j < i + 1 ensures ms[j] <= streak {
            if j > 0 {
              assert ms[j] == ms[1..][j - 1];
            }
          }
        }
        rest
      else None
  }

  /** `find(...) || 100`. */
  function NextMilestone(streak: int): int
  {
    match FirstAbove(Milestones, streak)
    case Some(m) => m
    case None => 100
  }

  /** In an ascending list the first entry above the streak is the smallest such
      entry. */
  lemma {:induction false} FirstAboveIsSmallest(ms: seq<int>, streak: int, m: int)
    requires forall i, j :: 0 <= i < j < |ms| ==> ms[i] <= ms[j]
    requires m in ms && m > streak
    ensures FirstAbove(ms, streak).Some? && FirstAbove(ms, streak).value <= m
  {
    if ms[0] > streak {
      var k :| 0 <= k < |ms| && ms[k] == m;
      assert ms[0] <= ms[k];
    } else {
      assert m in ms[1..] by {
        var k :| 0 <= k < |ms| && ms[k] == m;
        assert k != 0 && ms[1..][k - 1] == m;
      }
      FirstAboveIsSmallest(ms[1..], streak, m);
    }
  }

  /** The next milestone is the smallest milestone above the streak; from 100 on it
      stays at 100. */
  lemma NextMilestoneIsSmallestAbove(streak: int)
    ensures streak < 100 ==> NextMilestone(streak) in Milestones && NextMilestone(streak) > streak
    ensures streak < 100 ==> forall m :: m in Milestones && m > streak ==> NextMilestone(streak) <= m
    ensures streak >= 100 ==> NextMilestone(streak) == 100
  {
    if streak < 100 {
      assert forall i, j :: 0 <= i < j < |Milestones| ==> Milestones[i] <= Milestones[j];
      assert Milestones[6] == 100;
      FirstAboveIsSmallest(Milestones, streak, 100);
      forall m | m in Milestones && m > streak ensures NextMilestone(streak) <= m {
        FirstAboveIsSmallest(Milestones, streak, m);
      }
    }
  }

  /** `Math.min((streak / nextMilestone) * 100, 100)` for a positive streak, 0 otherwise. */
  function Progress(streak: int): (r: real)
  {
    if streak > 0 then
      var p := (streak as real / NextMilestone(streak) as real) * 100.0;
      if p < 100.0 then p else 100.0
    else 0.0
  }

  /** The progress bar is empty without a streak, never overfull, and full from 100
      days on. */
  lemma ProgressBounds(streak: int)
    ensures 0.0 <= Progress(streak) <= 100.0
    ensures streak <= 0 ==> Progress(streak) == 0.0
    ensures streak > 0 ==> Progress(streak) > 0.0
    ensures streak >= 100 ==> Progress(streak) == 100.0
  {
    NextMilestoneIsSmallestAbove(streak);
    if streak > 0 {
      assert NextMilestone(streak) > 0;
      if streak >= 100 {
        assert streak as real / 100.0 >= 1.0;
      }
    }
  }

  /** The messages of `getMotivation`, from no streak to the longest. */
  const Motivations: seq<string> := [
    "Start your journey today!",
    "Keep going! Consistency is key.",
    "Building momentum!",
    "You're on a roll!",
    "Incredible dedication!",
    "You're unstoppable!"]

  /** Which message `getMotivation` picks. */
  function MotivationLevel(streak: int): (r: nat)
    ensures r < |Motivations|
  {
    if streak == 0 then 0
    else if streak < 3 then 1
    else if streak < 7 then 2
    else if streak < 14 then 3
    else if streak < 30 then 4
    else 5
  }

  function Motivation(streak: int): string
  {
    Motivations[MotivationLevel(streak)]
  }

  /** Over non-negative streaks the message only moves forward, and after the first
      day it changes exactly on reaching one of the first four milestones. */
  lemma MotivationFollowsMilestones(a: int, b: int, s: int)
    ensures 0 <= a <= b ==> MotivationLevel(a) <= MotivationLevel(b)
    ensures s >= 2 ==> (MotivationLevel(s) != MotivationLevel(s - 1) <==> s in Milestones[..4])
  {
    assert Milestones[..4] == [3, 7, 14, 30];
  }

  /** The 'Today' badge shows the on-fire state. */
  predicate OnFire(streak: int)
  {
    streak > 0
  }

  /** For a non-negative streak the badge, the progress bar and the message agree on
      whether there is a streak. */
  lemma BadgeAgrees(streak: int)
    requires streak >= 0
    ensures OnFire(streak) <==> Progress(streak) > 0.0
    ensures OnFire(streak) <==> MotivationLevel(streak) > 0
  {
    ProgressBounds(streak);
  }
}
