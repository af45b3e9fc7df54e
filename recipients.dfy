/** The recipient resolver: the delivery tokens of the users subscribed to a
    show for one kind of notification (`getTokensForShow`). */
module Recipients {
  import opened Seqs
  import opened Store

  /** Keys of the subscribers in `abos` whose flag for `t` is set, in key order. */
  function Subscribers(abos: Dict<Abo>, t: NotifyType): seq<string> {
    if abos == [] then []
    else
      var last := abos[|abos| - 1];
      Subscribers(abos[..|abos| - 1], t) + (if Wants(last.value, t) then [last.key] else [])
  }

  /** A key is selected exactly when its subscriber record sets the flag for `t`. */
  lemma {:induction false} SubscribersExact(abos: Dict<Abo>, t: NotifyType, u: string)
    ensures u in Subscribers(abos, t) <==> exists i :: 0 <= i < |abos| && abos[i].key == u && Wants(abos[i].value, t)
  {
    if abos != [] {
      var init := abos[..|abos| - 1];
      SubscribersExact(init, t, u);
      assert forall i :: 0 <= i < |init| ==> init[i] == abos[i];
    }
  }

  /** The token values stored for user `uid`; a missing user or a missing
      token map contributes none. */
  function UserTokens(users: Dict<User>, uid: string): seq<string> {
    match Get(users, uid)
    case None => []
    case Some(u) => Values(u.notificationtokens)
  }

  /** The token batch of each user id, in the order of `uids`. */
  function PerUser(users: Dict<User>, uids: seq<string>): seq<seq<string>> {
    seq(|uids|, k requires 0 <= k < |uids| => UserTokens(users, uids[k]))
  }

  /** What `getTokensForShow` resolves to: nothing for an unknown label;
      otherwise, for the first show with that label, the tokens of its
      subscribers for `t`, subscriber after subscriber. */
  function ResolveTokens(shows: Dict<Show>, users: Dict<User>, name: string, t: NotifyType): seq<string> {
    match FindShow(shows, name)
    case None => []
    case Some(s) => Flatten(PerUser(users, Subscribers(s.abos, t)))
  }

  /** The `for..in` loop over the subscriber records that keeps the user ids
      whose flag for `t` is set. */
  method CollectSubscribers(abos: Dict<Abo>, t: NotifyType) returns (userIds: seq<string>)
    ensures userIds == Subscribers(abos, t)
  {
    userIds := [];
    for i := 0 to |abos|
      invariant userIds == Subscribers(abos[..i], t)
    {
      assert abos[..i + 1][..i] == abos[..i];
      if Wants(abos[i].value, t) {
        userIds := userIds + [abos[i].key];
      }
    }
    assert abos[..|abos|] == abos;
  }

  /** The nested `forEach` that pushes every token of every batch, in order. */
  method FlattenBatches(results: seq<seq<string>>) returns (tokens: seq<string>)
    ensures tokens == Flatten(results)
  {
    tokens := [];
    for r := 0 to |results|
      invariant tokens == Flatten(results[..r])
    {
      var batch := results[r];
      for j := 0 to |batch|
        invariant tokens == Flatten(results[..r]) + batch[..j]
      {
        assert batch[..j + 1] == batch[..j] + [batch[j]];
        tokens := tokens + [batch[j]];
      }
      assert batch[..|batch|] == batch;
      assert results[..r + 1] == results[..r] + [batch];
    }
    assert results[..|results|] == results;
  }

  /** `getTokensForShow`: query the show, collect its subscribers for `t`,
      fetch each one's tokens and concatenate the batches. */
  method GetTokensForShow(shows: Dict<Show>, users: Dict<User>, showName: string, t: NotifyType)
    returns (tokens: seq<string>)
    ensures tokens == ResolveTokens(shows, users, showName, t)
  {
    var found := FindShow(shows, showName);
    if found.None? {
      return [];
    }
    var userIds := CollectSubscribers(found.value.abos, t);
    var results: seq<seq<string>> := [];
    for k := 0 to |userIds|
      invariant results == PerUser(users, userIds[..k])
    {
      results := results + [UserTokens(users, userIds[k])];
    }
    assert userIds[..|userIds|] == userIds;
    tokens := FlattenBatches(results);
  }

  /** An unknown label resolves to no tokens, not to an error. */
  lemma ResolveUnknownShow(shows: Dict<Show>, users: Dict<User>, name: string, t: NotifyType)
    requires forall i :: 0 <= i < |shows| ==> shows[i].value.name != name
    ensures ResolveTokens(shows, users, name, t) == []
  {
  }

  /** Only the first show with the label matters: later records with the same
      label are ignored. */
  lemma ResolveUsesFirstShow(shows: Dict<Show>, users: Dict<User>, name: string, t: NotifyType, i: nat)
    requires i < |shows| && shows[i].value.name == name
    requires forall j :: 0 <= j < i ==> shows[j].value.name != name
    ensures ResolveTokens(shows, users, name, t) == Flatten(PerUser(users, Subscribers(shows[i].value.abos, t)))
  {
    FindShowFirst(shows, name, i);
  }

  /** A resolved token belongs to a subscriber of the show whose flag for `t`
      is set, and every token of every such subscriber is resolved. */
  lemma ResolvedTokenOwner(shows: Dict<Show>, users: Dict<User>, name: string, t: NotifyType, s: Show, tok: string)
    requires FindShow(shows, name) == Some(s)
    ensures tok in ResolveTokens(shows, users, name, t) <==>
      exists i :: 0 <= i < |s.abos| && Wants(s.abos[i].value, t) && tok in UserTokens(users, s.abos[i].key)
  {
    var uids := Subscribers(s.abos, t);
    var per := PerUser(users, uids);
    FlattenMember(per, tok);
    if tok in ResolveTokens(shows, users, name, t) {
      var k :| 0 <= k < |per| && tok in per[k];
      SubscribersExact(s.abos, t, uids[k]);
    }
    if exists i :: 0 <= i < |s.abos| && Wants(s.abos[i].value, t) && tok in UserTokens(users, s.abos[i].key) {
      var i :| 0 <= i < |s.abos| && Wants(s.abos[i].value, t) && tok in UserTokens(users, s.abos[i].key);
      SubscribersExact(s.abos, t, s.abos[i].key);
      var k :| 0 <= k < |uids| && uids[k] == s.abos[i].key;
      assert tok in per[k];
    }
  }

  /** The resolved list is as long as all subscribers' token lists together:
      duplicates across users are kept. */
  lemma ResolvedLength(shows: Dict<Show>, users: Dict<User>, name: string, t: NotifyType, s: Show)
    requires FindShow(shows, name) == Some(s)
    ensures |ResolveTokens(shows, users, name, t)| == TotalLength(PerUser(users, Subscribers(s.abos, t)))
  {
    FlattenLength(PerUser(users, Subscribers(s.abos, t)));
  }

  /** A show whose subscribers ask only for other kinds of notification (say,
      live but not premiere) resolves to no tokens for `t`, whatever tokens
      those subscribers have. */
  lemma ResolveNoSubscribers(shows: Dict<Show>, users: Dict<User>, name: string, t: NotifyType, s: Show)
    requires FindShow(shows, name) == Some(s)
    requires forall i :: 0 <= i < |s.abos| ==> !Wants(s.abos[i].value, t)
    ensures ResolveTokens(shows, users, name, t) == []
  {
    var uids := Subscribers(s.abos, t);
    if uids != [] {
      SubscribersExact(s.abos, t, uids[0]);
      assert false;
    }
    assert Flatten(PerUser(users, uids)) == [];
  }
}
