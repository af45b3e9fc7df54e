# rocketpush notifier: the notification decision and fan-out pipeline

This Dafny project models the decision and data-shaping core of the rocketpush
backend. The backend is a Node.js script. Every ten minutes it polls the
broadcast schedule, registers shows it has not seen before and announces them,
and picks the next broadcast. If that broadcast starts within ten minutes, it
pushes a notification to the users subscribed to that show for that kind of
broadcast (live, premiere or replay). The messaging gateway reports some tokens
as invalid or unregistered; the script then finds which user owns each of them,
so that the token can be removed.

The database snapshots are plain values. A database object is a `Dict<V>`: a
sequence of key/value entries in the order a `for..in` loop visits them. Order
matters here, because the source takes the first matching show, concatenates
tokens in order and lets the last match win. The clock, the database's push
keys and the gateway's per-token answers are inputs.

Modules, one per component:

- `Seqs`: shared sequence vocabulary (first occurrence, selection by positions, concatenation of batches).
- `Store`: the schedule, show and user records, and the label query on `shows`.
- `Eligibility`: `getNextItem`, `shouldNotify` and the type `switch` of `check`.
- `Recipients`: `getTokensForShow`.
- `Dispatch`: result processing of `sendNotification`.
- `Cleanup`: `findUsersAndTokenId`.
- `NewShows`: `addNewShows`, with `doesShowExist` and `getUsersToNotifyAboutNewShows`.
- `Orchestrator`: one run of `check`.

Loops that the source runs are methods with loop invariants. Each method is
proved against a specification function, and the properties are proved about
that function as lemmas.

Semantics chosen where the source is loose:

- **Already-notified marker.** The "already notified" lookup in `shouldNotify`
  sits after a `return`, so it never runs. The model ignores the marker: an
  item inside the window is notified on every run that sees it.
- **Empty token list.** `sendNotification` does not return after
  `resolve([])` on an empty token list. A promise settles only once, so the
  value it produces is still `[]`. The model treats empty input as a no-op
  that returns `[]`.
- **No upcoming item.** When no item starts after now, `shouldNotify(null)`
  throws and the rest of the chain never runs. The model records this as
  outcome `NoUpcoming`, with nothing sent.

## Model

| member | source | states |
|---|---|---|
| `Seqs.FirstIndex` | app.js:230 | the position found is an occurrence of the name, and no earlier position holds it (what `indexOf` reports) |
| `Seqs.FlattenLength` | app.js:62-71 | the concatenated token list is exactly as long as all per-user lists together, so duplicates are kept |
| `Seqs.FlattenMember` | app.js:62-71 | a token is in the concatenation iff it is in some user's list |
| `Seqs.FlattenAppend` | app.js:62-71 | joining two runs of per-user batches gives the two joined token lists one after the other, so the result does not depend on how the batches are grouped |
| `Store.Get` | app.js:48-57 | a user lookup finds nothing iff no record has that id |
| `Store.GetAt` | app.js:48-53 | in a well-formed object, looking up a present key yields that key's value |
| `Store.FindShow` | app.js:23-30 | the label query finds nothing iff no record has that label; a found record has that label |
| `Store.FindShowFirst` | app.js:30 | when several records share the label, the query yields the first one in store order |
| `Store.FindShowIn` | app.js:23-30 | the query's result is one of the stored records |
| `Store.HasLabel` | app.js:207-219 | a show exists iff some record of `shows` carries its label |
| `Store.FindShowAppend` | app.js:246-250 | pushing records onto `shows` never changes an existing label match; without one, the pushed records decide the result |
| `Eligibility.NextItemNone` | app.js:155-168 | there is no next item iff every entry starts at or before now |
| `Eligibility.NextItemFirst` | app.js:159-163 | the next item is the first entry that starts strictly after now |
| `Eligibility.NextItemSound` | app.js:159-163 | a next item, when there is one, is at a position after now with every earlier entry at or before now |
| `Eligibility.NextItemSnoc` | app.js:159-163 | scanning one more entry changes the result only while nothing has been found yet |
| `Eligibility.GetNextItem` | app.js:155-168 | the `forEach` scan returns exactly the first entry that starts after now |
| `Eligibility.NextItemExample` | app.js:155-168 | with entries at now-5m, now+3m and now+50m, the next item is the now+3m entry |
| `Eligibility.ShouldNotify` | app.js:170-199 | the minutes computed as ms/1000/60 fall under 10 iff the item starts less than 600000 ms after now |
| `Eligibility.ShouldNotifyExample` | app.js:177-181 | an item 9 minutes ahead is notified; one 11 minutes ahead is not |
| `Eligibility.BroadcastType` | app.js:297-318 | "live" gives live, "premiere" gives premiere and "" gives replay, each iff; any other type is undetermined |
| `Eligibility.BroadcastTypeFlags` | app.js:297-313 | live and premiere select the subscription flag of the same name; a schedule type spelled "replay" is undetermined |
| `Dispatch.StaleIndices` | app.js:98-108 | every selected position lies inside the gateway's result list |
| `Dispatch.StaleIndicesExact` | app.js:98-108 | a position is selected iff its error code is invalid-registration-token or registration-token-not-registered; positions ascend, so the selection is a subsequence |
| `Dispatch.SendNotification` | app.js:77-113 | empty input gives []; otherwise the result is the tokens at exactly the stale positions, in input order |
| `Dispatch.StaleSelection` | app.js:98-106 | each returned token is the token sent at a position whose result is stale |
| `Dispatch.SendNotificationExample` | app.js:94-110 | for two tokens where the second is reported not registered, only the second is returned |
| `Dispatch.OtherErrorsKept` | app.js:98-108 | in any send, a position that was delivered or failed with any other error code is not selected; with distinct tokens, its token is not returned |
| `Cleanup.LastMatchNone` | app.js:130-136 | a user has no match iff none of their stored token values is among the stale tokens |
| `Cleanup.LastMatchAt` | app.js:130-136 | the match recorded for a user is their last matching token key in scan order |
| `Cleanup.LastMatchSound` | app.js:130-136 | a recorded key stores a stale token, and no later key of that user does |
| `Cleanup.OwnersExact` | app.js:124-143 | every mapped user is in the store, and each user's entry is exactly their last matching key, or absent |
| `Cleanup.OwnersSound` | app.js:124-143 | an entry u -> k means user u stores, under key k, a token from the input list |
| `Cleanup.OwnersComplete` | app.js:124-143 | a user who stores an input token gets exactly one entry, holding the key of the last such token |
| `Cleanup.OwnersSkipsNonOwners` | app.js:128-138 | users who store none of the input tokens, including users without tokens, never appear |
| `Cleanup.OwnersExample` | app.js:130-136 | one user who owns two stale tokens gets one entry, with the key scanned last |
| `Cleanup.FindUsersAndTokenId` | app.js:115-146 | the triple loop builds exactly the user-to-last-matching-key map |
| `Recipients.SubscribersExact` | app.js:34-42 | a user id is collected iff that user's subscriber record sets the flag for the requested type |
| `Recipients.CollectSubscribers` | app.js:32-42 | the `for..in` loop collects exactly the flagged subscribers, in key order |
| `Recipients.FlattenBatches` | app.js:62-71 | the nested `forEach` yields the batches concatenated in order |
| `Recipients.GetTokensForShow` | app.js:17-75 | the resolved tokens are the first matching show's flagged subscribers' tokens, concatenated in subscriber order, or [] for an unknown show |
| `Recipients.ResolveUnknownShow` | app.js:25-28 | an unknown label resolves to [], not to an error |
| `Recipients.ResolveUsesFirstShow` | app.js:30 | only the first record with the label is used; later records with that label are ignored |
| `Recipients.ResolvedTokenOwner` | app.js:34-58 | a token is resolved iff it is stored by a subscriber whose flag for the requested type is set |
| `Recipients.ResolvedLength` | app.js:46-71 | the result length equals the sum of the flagged subscribers' token counts |
| `Recipients.ResolveNoSubscribers` | app.js:38-40 | a show whose subscribers all lack the flag (for example live but not premiere) resolves to [] for that type |
| `NewShows.DistinctShows` | app.js:228-233 | each show named in the schedule appears exactly once, nothing else appears, and the order is first-seen order |
| `NewShows.OptedInTokensExact` | app.js:251-266 | a token is announced to iff a user with the new-show flag set stores it |
| `NewShows.NewShowRecipients` | app.js:251-266 | the loops over opted-in users collect all their tokens, user by user, in key order |
| `NewShows.UnknownMember` | app.js:241-250 | a show is registered iff it is named in the schedule and its existence check is false |
| `NewShows.UnknownLength` | app.js:246-250 | no more shows are registered than were checked |
| `NewShows.UnknownNoDuplicates` | app.js:246-250 | no show is registered twice in one run |
| `NewShows.UnknownOrder` | app.js:246-250 | registration follows the order in which shows first appear in the schedule |
| `NewShows.KeepsLabelsUnique` | app.js:246-250 | appending records only for labels that are absent keeps labels unique |
| `NewShows.AddNewShows` | app.js:225-275 | it registers exactly the unknown shows (once each, in first-seen order) and appends them with no subscribers; existing records are untouched; each added show is announced to the opted-in tokens; unique labels stay unique |
| `Orchestrator.ResolveAfterInsert` | app.js:283-292 | registering new shows (which have no subscribers) never changes the tokens a show resolves to |
| `Orchestrator.Check` | app.js:277-348 | it registers exactly the unknown shows once each in first-seen order and announces each to the opted-in users' tokens; the notify branch runs only for the first upcoming item, only inside the window, and only with a determined type; an undetermined type resolves and sends nothing; when it runs, it sends to exactly the resolved tokens and maps exactly the stale ones to their owners |

## Left out

- Firebase initialisation and credentials (app.js:1-15) are startup configuration with no decision logic.
- The `set(true)` marker write in `setItemNotified` (app.js:202-205, 320) is a database write. The marker is never read on a live path.
- The token-removal writes (app.js:331-339) are database writes. The model stops at the user-to-token-key map they are driven by.
- The database `push` of new show records is modelled as a value: records appended under keys passed in as `pushKeys`. Firebase's key generation is not modelled.
- The `getCurrentPlan` HTTP fetch and JSON parsing (app.js:148-153) are network I/O. The schedule is an input.
- The `sendToDevice` call itself (app.js:94) goes to an external gateway. Its per-token results are an input, one per token in send order. A failed or rejected call is not modelled.
- The new-show announcements are modelled as show name plus recipient tokens. The source sends them and discards the stale tokens they report (app.js:268, 273), so no removal follows from them.
- Promise fan-out and fan-in, the cron trigger and overlapping runs (app.js:62, 241, 273, 350-351) are concurrency. Each run is a sequential composition. Two overlapping runs registering the same show twice is not modelled.
- `moment` date parsing (app.js:160, 174) is replaced by integer millisecond timestamps. The source reads the clock afresh for each schedule entry; the model uses one `now` per run.
- Float rounding is not modelled. `shouldNotify`'s minutes are computed over exact reals.
- The unreachable "already notified" lookup (app.js:183-195) is dead code, and the model ignores it.
- Console logging, the payload (title, body, icon URL, click link) and the type captions "Live", "Premiere" and "Wiederholung" (app.js:78, 85-92, 298-312, 324) are cosmetic.
- Subscription flags and the new-show flag are booleans. The source tests a subscription flag for JavaScript truthiness (`abo[type]`, app.js:38) and selects new-show users by strict equality with `true` (app.js:222); non-boolean flag values, where the two tests differ, are not modelled.
- Database read errors are not modelled: a snapshot always delivers a value.
