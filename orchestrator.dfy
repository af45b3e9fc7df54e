/** One run of `check`: register new shows, pick the next item, decide whether
    and how to notify, resolve the recipients, send, and map the stale tokens
    back to their owners for removal. */
module Orchestrator {
  import opened Seqs
  import opened Store
  import opened Eligibility
  import opened Recipients
  import opened Dispatch
  import opened Cleanup
  import opened NewShows

  /** How the notify branch of one run ends. */
  datatype Outcome =
    | NoUpcoming                      // no entry starts after now: nothing is sent
    | NotYet(item: ScheduleEntry)       // the next item starts ten or more minutes from now
    | Undetermined(item: ScheduleEntry) // its type is none of "live", "premiere", ""
    | Notified(item: ScheduleEntry, kind: NotifyType, recipients: seq<string>,
               stale: seq<string>, removals: map<string, string>)

  /** Everything one run decides: the shows registered, the store after
      registering them, the new-show announcements and the notify outcome. */
  datatype Run = Run(added: seq<string>, shows: Dict<Show>, announcements: seq<Announcement>, outcome: Outcome)

  /** New show records carry no subscribers, so registering them never changes
      the tokens a show resolves to. */
  lemma ResolveAfterInsert(shows: Dict<Show>, users: Dict<User>, added: seq<string>, pushKeys: seq<string>,
                           name: string, t: NotifyType)
    requires |added| <= |pushKeys|
    ensures ResolveTokens(shows + NewRecords(added, pushKeys), users, name, t) == ResolveTokens(shows, users, name, t)
  {
    var records := NewRecords(added, pushKeys);
    FindShowAppend(shows, records, name);
    if FindShow(shows, name).None? && FindShow(records, name).Some? {
      FindShowIn(records, name);
      assert FindShow(records, name).value.abos == [];
    }
  }

  /** `check`, with the clock reading `now`, the store contents, the push keys
      the database hands out and the gateway's per-token answers as inputs.
      The notify branch runs only for an upcoming item inside the window whose
      type is determined; it then sends to exactly the resolved tokens and
      marks for removal, per user, the last key holding a stale token. */
  method Check(schedule: seq<ScheduleEntry>, now: int, shows: Dict<Show>, users: Dict<User>,
               pushKeys: seq<string>, gateway: seq<string> -> seq<SendResult>)
    returns (run: Run)
    requires |pushKeys| >= |schedule|
    requires forall ts :: |gateway(ts)| == |ts|
    ensures forall x :: x in run.added <==> x in ShowNames(schedule) && !HasLabel(shows, x)
    ensures NoDuplicates(run.added) && FirstSeenOrder(run.added, ShowNames(schedule))
    ensures run.announcements == Announcements(run.added, OptedInTokens(users))
    ensures |run.added| <= |pushKeys| && run.shows == shows + NewRecords(run.added, pushKeys)
    ensures run.outcome.NoUpcoming? <==> NextItem(schedule, now).None?
    ensures !run.outcome.NoUpcoming? ==> run.outcome.item == NextItem(schedule, now).value
    ensures run.outcome.NotYet? <==> !run.outcome.NoUpcoming? && !ShouldNotify(run.outcome.item, now)
    ensures run.outcome.Undetermined? <==>
      !run.outcome.NoUpcoming? && ShouldNotify(run.outcome.item, now) && BroadcastType(run.outcome.item.kind).None?
    ensures run.outcome.Notified? ==>
      && ShouldNotify(run.outcome.item, now)
      && BroadcastType(run.outcome.item.kind) == Some(run.outcome.kind)
      && run.outcome.recipients == ResolveTokens(shows, users, run.outcome.item.show, run.outcome.kind)
      && run.outcome.stale == (if run.outcome.recipients == [] then []
                               else Pick(run.outcome.recipients, StaleIndices(gateway(run.outcome.recipients))))
      && run.outcome.removals == Owners(users, run.outcome.stale)
  {
    var added, updated, announcements := AddNewShows(shows, users, schedule, pushKeys);
    var next := GetNextItem(schedule, now);
    var outcome: Outcome;
    if next.None? {
      outcome := NoUpcoming;
    } else {
      var item := next.value;
      if !ShouldNotify(item, now) {
        outcome := NotYet(item);
      } else {
        var t := BroadcastType(item.kind);
        if t.None? {
          outcome := Undetermined(item);
        } else {
          var recipients := GetTokensForShow(updated, users, item.show, t.value);
          ResolveAfterInsert(shows, users, added, pushKeys, item.show, t.value);
          var stale := SendNotification(recipients, gateway(recipients));
          var removals := FindUsersAndTokenId(users, stale);
          outcome := Notified(item, t.value, recipients, stale, removals);
        }
      }
    }
    run := Run(added, updated, announcements, outcome);
  }
}
