/** The notification dispatcher: after one batched send, pick out the tokens
    the messaging gateway reported as invalid or no longer registered. */
module Dispatch {
  import opened Seqs

  /** Error code of a malformed registration token. */
  const InvalidRegistrationToken: string := "messaging/invalid-registration-token"
  /** Error code of a token whose app installation is gone. */
  const TokenNotRegistered: string := "messaging/registration-token-not-registered"

  /** The gateway's outcome for one token, in the order the tokens were sent. */
  datatype SendResult = Delivered | Failed(code: string)

  /** The outcome says the token will never work again. */
  predicate IsStale(r: SendResult) {
    r.Failed? && (r.code == InvalidRegistrationToken || r.code == TokenNotRegistered)
  }

  /** Positions, in order, whose outcome reports a stale token. */
  function StaleIndices(results: seq<SendResult>): (idx: seq<nat>)
    ensures forall k :: 0 <= k < |idx| ==> idx[k] < |results|
  {
    if results == [] then []
    else
      var n := |results| - 1;
      StaleIndices(results[..n]) + (if IsStale(results[n]) then [n] else [])
  }

  /** The stale positions are exactly the positions with a stale outcome, and
      they are listed in ascending order, so the selection is a subsequence. */
  lemma {:induction false} StaleIndicesExact(results: seq<SendResult>)
    ensures forall n: nat :: n in StaleIndices(results) <==> n < |results| && IsStale(results[n])
    ensures Ascending(StaleIndices(results))
  {
    if results != [] {
      var n := |results| - 1;
      StaleIndicesExact(results[..n]);
      assert forall m :: 0 <= m < n ==> results[..n][m] == results[m];
    }
  }

  /** `sendNotification`'s result processing: an empty token list is a no-op;
      otherwise the tokens whose outcome is stale, in the order sent. */
  method SendNotification(tokens: seq<string>, response: seq<SendResult>) returns (toRemove: seq<string>)
    requires tokens != [] ==> |response| == |tokens|
    ensures toRemove == if tokens == [] then [] else Pick(tokens, StaleIndices(response))
  {
    if |tokens| == 0 {
      return [];
    }
    toRemove := [];
    for index := 0 to |response|
      invariant toRemove == Pick(tokens, StaleIndices(response[..index]))
    {
      assert response[..index + 1][..index] == response[..index];
      if response[index].Failed? {
        var code := response[index].code;
        if code == InvalidRegistrationToken || code == TokenNotRegistered {
          toRemove := toRemove + [tokens[index]];
        }
      }
    }
    assert response[..|response|] == response;
  }

  /** Each returned token is the token sent at a stale position, position by
      position in ascending order. */
  lemma StaleSelection(tokens: seq<string>, response: seq<SendResult>)
    requires |response| == |tokens|
    ensures forall j :: 0 <= j < |StaleIndices(response)| ==>
      Pick(tokens, StaleIndices(response))[j] == tokens[StaleIndices(response)[j]] && IsStale(response[StaleIndices(response)[j]])
  {
    StaleIndicesExact(response);
    var idx := StaleIndices(response);
    forall j | 0 <= j < |idx| ensures IsStale(response[idx[j]]) {
      assert idx[j] in idx;
    }
  }

  /** Two tokens, the second reported as not registered: only the second is
      returned. */
  lemma SendNotificationExample(a: string, b: string)
    ensures Pick([a, b], StaleIndices([Delivered, Failed(TokenNotRegistered)])) == [b]
  {
    assert [Delivered, Failed(TokenNotRegistered)][..1] == [Delivered];
    assert [Delivered][..0] == [];
  }

  /** A token whose outcome is a delivery or an error other than the two
      "stale" codes is not selected; when the tokens sent are distinct, it is
      not returned either. */
  lemma OtherErrorsKept(tokens: seq<string>, response: seq<SendResult>, n: nat)
    requires |response| == |tokens|
    requires n < |response| && !IsStale(response[n])
    ensures n !in StaleIndices(response)
    ensures NoDuplicates(tokens) ==> tokens[n] !in Pick(tokens, StaleIndices(response))
  {
    StaleIndicesExact(response);
    var idx := StaleIndices(response);
    forall j | 0 <= j < |idx| ensures idx[j] != n {
      assert idx[j] in idx;
    }
  }
}
