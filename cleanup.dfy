/** Token cleanup: map the stale tokens back to the users that own them, one
    token key per user, as `findUsersAndTokenId` does. */
module Cleanup {
  import opened Store

  /** The key of the last token of `stored`, in scan order, whose value is one
      of `tokens`. */
  function LastMatch(stored: Dict<string>, tokens: seq<string>): Option<string> {
    if stored == [] then None
    else if stored[|stored| - 1].value in tokens then Some(stored[|stored| - 1].key)
    else LastMatch(stored[..|stored| - 1], tokens)
  }

  /** No match exactly when no stored token value is among `tokens`. */
  lemma {:induction false} LastMatchNone(stored: Dict<string>, tokens: seq<string>)
    ensures LastMatch(stored, tokens).None? <==> forall i :: 0 <= i < |stored| ==> stored[i].value !in tokens
  {
    if stored != [] {
      var init := stored[..|stored| - 1];
      LastMatchNone(init, tokens);
      assert forall i :: 0 <= i < |init| ==> init[i] == stored[i];
    }
  }

  /** The match is the last matching position: a later token never matches. */
  lemma {:induction false} LastMatchAt(stored: Dict<string>, tokens: seq<string>, i: nat)
    requires i < |stored| && stored[i].value in tokens
    requires forall j :: i < j < |stored| ==> stored[j].value !in tokens
    ensures LastMatch(stored, tokens) == Some(stored[i].key)
  {
    if i < |stored| - 1 {
      var init := stored[..|stored| - 1];
      assert init[i] == stored[i];
      LastMatchAt(init, tokens, i);
    }
  }

  /** A match names a stored token whose value is among `tokens`, with no
      matching token after it. */
  lemma {:induction false} LastMatchSound(stored: Dict<string>, tokens: seq<string>)
    requires LastMatch(stored, tokens).Some?
    ensures exists i ::
              && 0 <= i < |stored| && stored[i].key == LastMatch(stored, tokens).value
              && stored[i].value in tokens
              && forall j :: i < j < |stored| ==> stored[j].value !in tokens
  {
    var n := |stored| - 1;
    if stored[n].value !in tokens {
      var init := stored[..n];
      LastMatchSound(init, tokens);
      var i :| 0 <= i < |init| && init[i].key == LastMatch(init, tokens).value
        && init[i].value in tokens
        && forall j :: i < j < |init| ==> init[j].value !in tokens;
      assert stored[i] == init[i];
      assert forall j :: i < j < n ==> stored[j] == init[j];
    }
  }

  /** `m` with `k` bound to the found value, or `m` unchanged when nothing was found. */
  function Record(m: map<string, string>, k: string, found: Option<string>): map<string, string> {
    match found
    case None => m
    case Some(v) => m[k := v]
  }

  /** The lookup of `k` in `m`. */
  function Lookup(m: map<string, string>, k: string): Option<string> {
    if k in m then Some(m[k]) else None
  }

  /** The user-to-token-key map the scan over `users` builds. */
  function Owners(users: Dict<User>, tokens: seq<string>): map<string, string> {
    if users == [] then map[]
    else
      var last := users[|users| - 1];
      Record(Owners(users[..|users| - 1], tokens), last.key, LastMatch(last.value.notificationtokens, tokens))
  }

  /** Every user of the map is a user of the store, and each user's entry is
      exactly that user's last matching token key (absent when none matches). */
  lemma {:induction false} OwnersExact(users: Dict<User>, tokens: seq<string>)
    requires DistinctKeys(users)
    ensures forall u :: u in Owners(users, tokens) ==> exists i :: 0 <= i < |users| && users[i].key == u
    ensures forall i :: 0 <= i < |users| ==>
      Lookup(Owners(users, tokens), users[i].key) == LastMatch(users[i].value.notificationtokens, tokens)
  {
    if users != [] {
      var n := |users| - 1;
      var init := users[..n];
      assert DistinctKeys(init);
      OwnersExact(init, tokens);
      forall i | 0 <= i < n
        ensures Lookup(Owners(users, tokens), users[i].key) == LastMatch(users[i].value.notificationtokens, tokens)
      {
        assert init[i] == users[i];
        assert users[i].key != users[n].key;
      }
      forall u | u in Owners(users, tokens) ensures exists i :: 0 <= i < |users| && users[i].key == u {
        if u != users[n].key {
          assert u in Owners(init, tokens);
          var i :| 0 <= i < |init| && init[i].key == u;
          assert users[i].key == u;
        }
      }
    }
  }

  /** Soundness: an entry `u -> k` means user `u` stores a token under key `k`
      whose value is one of `tokens`, and no later token of that user matches. */
  lemma OwnersSound(users: Dict<User>, tokens: seq<string>, u: string)
    requires DistinctKeys(users)
    requires u in Owners(users, tokens)
    ensures exists i ::
              && 0 <= i < |users| && users[i].key == u
              && LastMatch(users[i].value.notificationtokens, tokens) == Some(Owners(users, tokens)[u])
    ensures exists i, j ::
              && 0 <= i < |users| && users[i].key == u
              && 0 <= j < |users[i].value.notificationtokens|
              && users[i].value.notificationtokens[j].key == Owners(users, tokens)[u]
              && users[i].value.notificationtokens[j].value in tokens
  {
    OwnersExact(users, tokens);
    var i :| 0 <= i < |users| && users[i].key == u;
    assert Lookup(Owners(users, tokens), users[i].key) == LastMatch(users[i].value.notificationtokens, tokens);
    LastMatchSound(users[i].value.notificationtokens, tokens);
  }

  /** Completeness: a user storing any of `tokens` gets an entry, and it is
      that user's last matching token key. */
  lemma OwnersComplete(users: Dict<User>, tokens: seq<string>, i: nat, j: nat)
    requires DistinctKeys(users)
    requires i < |users|
    requires j < |users[i].value.notificationtokens| && users[i].value.notificationtokens[j].value in tokens
    requires forall l :: j < l < |users[i].value.notificationtokens| ==> users[i].value.notificationtokens[l].value !in tokens
    ensures users[i].key in Owners(users, tokens)
    ensures Owners(users, tokens)[users[i].key] == users[i].value.notificationtokens[j].key
  {
    OwnersExact(users, tokens);
    LastMatchAt(users[i].value.notificationtokens, tokens, j);
  }

  /** A user with no token among `tokens` (in particular, one with no tokens
      at all) never appears. */
  lemma OwnersSkipsNonOwners(users: Dict<User>, tokens: seq<string>, i: nat)
    requires DistinctKeys(users)
    requires i < |users|
    requires forall j :: 0 <= j < |users[i].value.notificationtokens| ==> users[i].value.notificationtokens[j].value !in tokens
    ensures users[i].key !in Owners(users, tokens)
  {
    OwnersExact(users, tokens);
    LastMatchNone(users[i].value.notificationtokens, tokens);
  }

  /** One user storing two of the stale tokens gets one entry: the key of the
      token scanned last. */
  lemma OwnersExample(u: string, k1: string, k2: string, t1: string, t2: string)
    ensures Owners([Entry(u, User([Entry(k1, t1), Entry(k2, t2)], false))], [t1, t2]) == map[u := k2]
  {
  }

  /** The scan of `findUsersAndTokenId`: for each user, each stored token and
      each stale token, record the user's token key on a match. */
  method FindUsersAndTokenId(users: Dict<User>, tokens: seq<string>) returns (result: map<string, string>)
    ensures result == Owners(users, tokens)
  {
    result := map[];
    for i := 0 to |users|
      invariant result == Owners(users[..i], tokens)
    {
      var userKey := users[i].key;
      var stored := users[i].value.notificationtokens;
      ghost var before := result;
      for j := 0 to |stored|
        invariant result == Record(before, userKey, LastMatch(stored[..j], tokens))
      {
        var tokenKey := stored[j].key;
        for t := 0 to |tokens|
          invariant result == Record(before, userKey,
            if stored[j].value in tokens[..t] then Some(tokenKey) else LastMatch(stored[..j], tokens))
        {
          assert tokens[..t + 1] == tokens[..t] + [tokens[t]];
          if stored[j].value == tokens[t] {
            result := result[userKey := tokenKey];
          }
        }
        assert tokens[..|tokens|] == tokens;
        assert stored[..j + 1][..j] == stored[..j];
      }
      assert stored[..|stored|] == stored;
      assert users[..i + 1][..i] == users[..i];
    }
    assert users[..|users|] == users;
  }
}
