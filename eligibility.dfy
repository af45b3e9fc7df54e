/** The eligibility engine: which schedule entry comes next, whether it starts
    soon enough to notify about, and which kind of notification it calls for. */
module Eligibility {
  import opened Store

  /** The notification window: ten minutes, in milliseconds. */
  const NotifyWindowMs: int := 600000

  /** The first entry of `schedule` that starts strictly after `now`. */
  function NextItem(schedule: seq<ScheduleEntry>, now: int): Option<ScheduleEntry> {
    if schedule == [] then None
    else if schedule[0].start > now then Some(schedule[0])
    else NextItem(schedule[1..], now)
  }

  /** Entry `i` starts after `now` and every entry before it does not. */
  ghost predicate IsFirstAfter(schedule: seq<ScheduleEntry>, now: int, i: int) {
    && 0 <= i < |schedule|
    && schedule[i].start > now
    && forall j :: 0 <= j < i ==> schedule[j].start <= now
  }

  /** There is no next item exactly when no entry starts after `now`. */
  lemma {:induction false} NextItemNone(schedule: seq<ScheduleEntry>, now: int)
    ensures NextItem(schedule, now).None? <==> forall i :: 0 <= i < |schedule| ==> schedule[i].start <= now
  {
    if schedule != [] {
      NextItemNone(schedule[1..], now);
      assert forall i :: 1 <= i < |schedule| ==> schedule[i] == schedule[1..][i - 1];
    }
  }

  /** The next item is the first entry that starts after `now`. */
  lemma {:induction false} NextItemFirst(schedule: seq<ScheduleEntry>, now: int, i: int)
    requires IsFirstAfter(schedule, now, i)
    ensures NextItem(schedule, now) == Some(schedule[i])
  {
    if i > 0 {
      NextItemFirst(schedule[1..], now, i - 1);
    }
  }

  /** A next item, when there is one, sits at the first position after `now`. */
  lemma {:induction false} NextItemSound(schedule: seq<ScheduleEntry>, now: int)
    requires NextItem(schedule, now).Some?
    ensures exists i :: IsFirstAfter(schedule, now, i) && schedule[i] == NextItem(schedule, now).value
  {
    if schedule[0].start <= now {
      NextItemSound(schedule[1..], now);
      var i :| IsFirstAfter(schedule[1..], now, i) && schedule[1..][i] == NextItem(schedule[1..], now).value;
      assert IsFirstAfter(schedule, now, i + 1);
    } else {
      assert IsFirstAfter(schedule, now, 0);
    }
  }

  /** Appending an entry changes the next item only if there was none yet. */
  lemma {:induction false} NextItemSnoc(schedule: seq<ScheduleEntry>, e: ScheduleEntry, now: int)
    ensures NextItem(schedule + [e], now) ==
      if NextItem(schedule, now).Some? then NextItem(schedule, now)
      else if e.start > now then Some(e) else None
  {
    if schedule != [] {
      assert (schedule + [e])[1..] == schedule[1..] + [e];
      NextItemSnoc(schedule[1..], e, now);
    }
  }

  /** The scan of `getNextItem`: keep the first entry that starts after `now`. */
  method GetNextItem(schedule: seq<ScheduleEntry>, now: int) returns (next: Option<ScheduleEntry>)
    ensures next == NextItem(schedule, now)
  {
    next := None;
    for k := 0 to |schedule|
      invariant next == NextItem(schedule[..k], now)
    {
      assert schedule[..k + 1] == schedule[..k] + [schedule[k]];
      NextItemSnoc(schedule[..k], schedule[k], now);
      if next.None? && schedule[k].start > now {
        next := Some(schedule[k]);
      }
    }
    assert schedule[..|schedule|] == schedule;
  }

  /** An item five minutes past, one three minutes ahead and one fifty minutes
      ahead: the next item is the one three minutes ahead. */
  lemma NextItemExample(past: ScheduleEntry, soon: ScheduleEntry, later: ScheduleEntry, now: int)
    requires past.start == now - 5 * 60000
    requires soon.start == now + 3 * 60000
    requires later.start == now + 50 * 60000
    ensures NextItem([past, soon, later], now) == Some(soon)
  {
  }

  /** Minutes from `now` until `start`, computed as the source does:
      the millisecond difference divided by 1000, then by 60. */
  function MinutesUntil(start: int, now: int): real {
    (start - now) as real / 1000.0 / 60.0
  }

  /** `shouldNotify`: the item starts in under ten minutes. The store lookup of
      the "already sent" marker is unreachable in the source and plays no part. */
  function ShouldNotify(item: ScheduleEntry, now: int): (notify: bool)
    ensures notify <==> item.start - now < NotifyWindowMs
  {
    MinutesUntil(item.start, now) < 10.0
  }

  /** Nine minutes ahead is inside the window, eleven minutes ahead is not. */
  lemma ShouldNotifyExample(nine: ScheduleEntry, eleven: ScheduleEntry, now: int)
    requires nine.start == now + 9 * 60000
    requires eleven.start == now + 11 * 60000
    ensures ShouldNotify(nine, now) && !ShouldNotify(eleven, now)
  {
  }

  /** The `switch` on the schedule's type: "live", "premiere" and "" select a
      notification kind; every other value is undetermined. */
  function BroadcastType(kind: string): (t: Option<NotifyType>)
    ensures t == Some(Live) <==> kind == "live"
    ensures t == Some(Premiere) <==> kind == "premiere"
    ensures t == Some(Replay) <==> kind == ""
  {
    if kind == "live" then Some(Live)
    else if kind == "premiere" then Some(Premiere)
    else if kind == "" then Some(Replay)
    else None
  }

  /** The schedule's type selects the subscription flag of the same name for
      live and premiere items; replays are announced with an empty type, so a
      schedule type spelled like the replay flag is undetermined. */
  lemma BroadcastTypeFlags()
    ensures BroadcastType(FlagKey(Live)) == Some(Live)
    ensures BroadcastType(FlagKey(Premiere)) == Some(Premiere)
    ensures BroadcastType(FlagKey(Replay)) == None
  {
  }
}
