/** The new-show detector (`addNewShows`): list the shows the schedule names,
    register those the `shows` collection does not know yet and announce each
    one to the users who opted in to new-show alerts. */
module NewShows {
  import opened Seqs
  import opened Store

  /** The show name of every schedule entry, in schedule order. */
  function ShowNames(schedule: seq<ScheduleEntry>): seq<string> {
    seq(|schedule|, i requires 0 <= i < |schedule| => schedule[i].show)
  }

  /** The `indexOf`/`push` loop: each show name once, in first-seen order. */
  method DistinctShows(schedule: seq<ScheduleEntry>) returns (shows: seq<string>)
    ensures NoDuplicates(shows)
    ensures forall x :: x in shows <==> x in ShowNames(schedule)
    ensures FirstSeenOrder(shows, ShowNames(schedule))
    ensures |shows| <= |schedule|
  {
    ghost var names := ShowNames(schedule);
    shows := [];
    for k := 0 to |schedule|
      invariant NoDuplicates(shows)
      invariant forall x :: x in shows <==> x in names[..k]
      invariant forall x :: x in shows ==> x in names && FirstIndex(names, x) < k
      invariant FirstSeenOrder(shows, names)
      invariant |shows| <= k
    {
      var show := schedule[k].show;
      assert names[k] == show;
      assert names[..k + 1] == names[..k] + [show];
      if show !in shows {
        assert FirstIndex(names, show) == k;
        shows := shows + [show];
      }
    }
    assert names[..|schedule|] == names;
  }

  /** Tokens of every user opted in to new-show alerts, user after user, each
      user's tokens in key order. */
  function OptedInTokens(users: Dict<User>): seq<string> {
    if users == [] then []
    else
      var last := users[|users| - 1].value;
      OptedInTokens(users[..|users| - 1]) + (if last.notifynewshows then Values(last.notificationtokens) else [])
  }

  /** A token is announced to exactly when an opted-in user stores it. */
  lemma {:induction false} OptedInTokensExact(users: Dict<User>, tok: string)
    ensures tok in OptedInTokens(users) <==>
      exists i :: 0 <= i < |users| && users[i].value.notifynewshows && tok in Values(users[i].value.notificationtokens)
  {
    if users != [] {
      var init := users[..|users| - 1];
      OptedInTokensExact(init, tok);
      assert forall i :: 0 <= i < |init| ==> init[i] == users[i];
    }
  }

  /** The loops over the opted-in users and their token maps. */
  method NewShowRecipients(users: Dict<User>) returns (tokens: seq<string>)
    ensures tokens == OptedInTokens(users)
  {
    tokens := [];
    for i := 0 to |users|
      invariant tokens == OptedInTokens(users[..i])
    {
      assert users[..i + 1][..i] == users[..i];
      var user := users[i].value;
      if user.notifynewshows {
        var stored := user.notificationtokens;
        ghost var before := tokens;
        for j := 0 to |stored|
          invariant tokens == before + Values(stored[..j])
        {
          assert Values(stored[..j + 1]) == Values(stored[..j]) + [stored[j].value];
          tokens := tokens + [stored[j].value];
        }
        assert stored[..|stored|] == stored;
      }
    }
    assert users[..|users|] == users;
  }

  /** One new-show notification: the show's name and the tokens it goes to. */
  datatype Announcement = Announcement(show: string, recipients: seq<string>)

  /** The names in `names` that no record of `store` carries, in order: the
      shows whose existence check comes back false. */
  function Unknown(store: Dict<Show>, names: seq<string>): seq<string> {
    if names == [] then []
    else
      var last := names[|names| - 1];
      Unknown(store, names[..|names| - 1]) + (if HasLabel(store, last) then [] else [last])
  }

  /** A name is selected exactly when it is one of `names` and no record of
      `store` carries it. */
  lemma {:induction false} UnknownMember(store: Dict<Show>, names: seq<string>, x: string)
    ensures x in Unknown(store, names) <==> x in names && !HasLabel(store, x)
  {
    if names != [] {
      var init := names[..|names| - 1];
      UnknownMember(store, init, x);
      assert names == init + [names[|names| - 1]];
    }
  }

  /** The selection keeps at most as many names as it is given. */
  lemma {:induction false} UnknownLength(store: Dict<Show>, names: seq<string>)
    ensures |Unknown(store, names)| <= |names|
  {
    if names != [] {
      UnknownLength(store, names[..|names| - 1]);
    }
  }

  /** Selecting from duplicate-free names gives duplicate-free names. */
  lemma {:induction false} UnknownNoDuplicates(store: Dict<Show>, names: seq<string>)
    requires NoDuplicates(names)
    ensures NoDuplicates(Unknown(store, names))
  {
    if names != [] {
      var n := |names| - 1;
      var init := names[..n];
      assert forall i :: 0 <= i < n ==> init[i] == names[i];
      UnknownNoDuplicates(store, init);
      UnknownMember(store, init, names[n]);
    }
  }

  /** Selecting keeps the order of first occurrence in `base`. */
  lemma {:induction false} UnknownOrder(store: Dict<Show>, names: seq<string>, base: seq<string>)
    requires FirstSeenOrder(names, base)
    ensures FirstSeenOrder(Unknown(store, names), base)
  {
    if names != [] {
      var n := |names| - 1;
      var init := names[..n];
      assert forall i :: 0 <= i < n ==> init[i] == names[i];
      UnknownOrder(store, init, base);
      var last := names[n];
      forall y | y in Unknown(store, init) ensures FirstIndex(base, y) < FirstIndex(base, last) {
        UnknownMember(store, init, y);
        var m :| 0 <= m < n && init[m] == y;
        assert names[m] == y;
      }
    }
  }

  /** The records `addNewShows` pushes: one per added show, label only, under
      the database's push keys in order. */
  function NewRecords(added: seq<string>, pushKeys: seq<string>): Dict<Show>
    requires |added| <= |pushKeys|
  {
    seq(|added|, k requires 0 <= k < |added| => Entry(pushKeys[k], Show(added[k], [])))
  }

  /** One announcement per added show, each to `recipients`. */
  function Announcements(added: seq<string>, recipients: seq<string>): seq<Announcement> {
    seq(|added|, k requires 0 <= k < |added| => Announcement(added[k], recipients))
  }

  /** Appending records for shows that have none keeps labels unique. */
  lemma KeepsLabelsUnique(store: Dict<Show>, added: seq<string>, pushKeys: seq<string>)
    requires |added| <= |pushKeys|
    requires UniqueLabels(store) && NoDuplicates(added)
    requires forall x :: x in added ==> !HasLabel(store, x)
    ensures UniqueLabels(store + NewRecords(added, pushKeys))
  {
    var updated := store + NewRecords(added, pushKeys);
    forall i, j | 0 <= i < j < |updated| ensures updated[i].value.name != updated[j].value.name {
      if i < |store| <= j {
        assert added[j - |store|] in added;
      }
    }
  }

  /** `addNewShows`: `added` lists, in first-seen order and once each, the
      shows the schedule names that no record of `store` carries; `updated` is
      `store` with one record per added show appended under the database's
      next push keys, the existing records untouched; each added show is
      announced to the opted-in users. Labels stay unique. */
  method AddNewShows(store: Dict<Show>, users: Dict<User>, schedule: seq<ScheduleEntry>, pushKeys: seq<string>)
    returns (added: seq<string>, updated: Dict<Show>, announcements: seq<Announcement>)
    requires |pushKeys| >= |schedule|
    ensures NoDuplicates(added)
    ensures forall x :: x in added <==> x in ShowNames(schedule) && !HasLabel(store, x)
    ensures FirstSeenOrder(added, ShowNames(schedule))
    ensures |added| <= |schedule|
    ensures updated == store + NewRecords(added, pushKeys)
    ensures announcements == Announcements(added, OptedInTokens(users))
    ensures UniqueLabels(store) ==> UniqueLabels(updated)
  {
    var shows := DistinctShows(schedule);
    added, updated, announcements := [], store, [];
    for k := 0 to |shows|
      invariant added == Unknown(store, shows[..k])
      invariant |added| <= k
      invariant updated == store + NewRecords(added, pushKeys)
      invariant announcements == Announcements(added, OptedInTokens(users))
    {
      var show := shows[k];
      assert shows[..k + 1][..k] == shows[..k];
      if !HasLabel(store, show) {
        var recipients := NewShowRecipients(users);
        updated := updated + [Entry(pushKeys[|added|], Show(show, []))];
        announcements := announcements + [Announcement(show, recipients)];
        added := added + [show];
      }
    }
    assert shows[..|shows|] == shows;
    forall x ensures x in added <==> x in ShowNames(schedule) && !HasLabel(store, x) {
      UnknownMember(store, shows, x);
    }
    UnknownLength(store, shows);
    UnknownNoDuplicates(store, shows);
    UnknownOrder(store, shows, ShowNames(schedule));
    if UniqueLabels(store) {
      KeepsLabelsUnique(store, added, pushKeys);
    }
  }
}
