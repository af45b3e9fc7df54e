/** The data the notifier reads, as plain values: the broadcast schedule, the
    `shows` collection (label and subscriber flags per show) and the `users`
    collection (delivery tokens and the new-show opt-in per user). */
module Store {

  datatype Option<T> = None | Some(value: T)

  /** One key/value pair of a database object. */
  datatype Entry<V> = Entry(key: string, value: V)

  /** A database object (a snapshot value), its pairs in the order a `for..in`
      loop visits them. */
  type Dict<V> = seq<Entry<V>>

  /** A database object never holds the same key twice. */
  ghost predicate DistinctKeys<V>(d: Dict<V>) {
    forall i, j :: 0 <= i < j < |d| ==> d[i].key != d[j].key
  }

  /** The values of `d`, in key order (`Object.keys(val).map(key => val[key])`). */
  function Values<V>(d: Dict<V>): seq<V> {
    seq(|d|, i requires 0 <= i < |d| => d[i].value)
  }

  /** The value stored under `k`, if any. */
  function Get<V>(d: Dict<V>, k: string): (r: Option<V>)
    ensures r.None? <==> forall i :: 0 <= i < |d| ==> d[i].key != k
  {
    if d == [] then None
    else if d[0].key == k then Some(d[0].value)
    else Get(d[1..], k)
  }

  /** In a well-formed object, looking up a present key yields its value. */
  lemma {:induction false} GetAt<V>(d: Dict<V>, i: nat)
    requires DistinctKeys(d)
    requires i < |d|
    ensures Get(d, d[i].key) == Some(d[i].value)
  {
    if i > 0 {
      GetAt(d[1..], i - 1);
    }
  }

  /** One item of the broadcast schedule; `start` is in milliseconds and
      `kind` is the schedule's `type` field ("live", "premiere", "" or other). */
  datatype ScheduleEntry = ScheduleEntry(
    id: string, show: string, title: string, topic: string, kind: string, start: int)

  /** The kinds of notification a user can subscribe to for a show. */
  datatype NotifyType = Live | Premiere | Replay

  /** The key of the subscription flag for `t` in a subscriber record. */
  function FlagKey(t: NotifyType): string {
    match t
    case Live => "live"
    case Premiere => "premiere"
    case Replay => "replay"
  }

  /** A subscriber record of a show: flag name to flag value; an absent flag
      reads as unset. */
  type Abo = map<string, bool>

  /** The subscriber record asks for notifications of kind `t`. */
  predicate Wants(abo: Abo, t: NotifyType) {
    FlagKey(t) in abo && abo[FlagKey(t)]
  }

  /** A record of the `shows` collection: `name` is its `label` field and
      `abos` maps user ids to their subscription flags. */
  datatype Show = Show(name: string, abos: Dict<Abo>)

  /** A record of the `users` collection. */
  datatype User = User(notificationtokens: Dict<string>, notifynewshows: bool)

  /** The query on `shows` by label, keeping its first result. */
  function FindShow(shows: Dict<Show>, name: string): (r: Option<Show>)
    ensures r.None? <==> forall i :: 0 <= i < |shows| ==> shows[i].value.name != name
    ensures r.Some? ==> r.value.name == name
  {
    if shows == [] then None
    else if shows[0].value.name == name then Some(shows[0].value)
    else FindShow(shows[1..], name)
  }

  /** The query's result is the first record, in store order, with that label. */
  lemma {:induction false} FindShowFirst(shows: Dict<Show>, name: string, i: nat)
    requires i < |shows| && shows[i].value.name == name
    requires forall j :: 0 <= j < i ==> shows[j].value.name != name
    ensures FindShow(shows, name) == Some(shows[i].value)
  {
    if i > 0 {
      FindShowFirst(shows[1..], name, i - 1);
    }
  }

  /** The query's result is one of the records of `shows`. */
  lemma {:induction false} FindShowIn(shows: Dict<Show>, name: string)
    requires FindShow(shows, name).Some?
    ensures exists i :: 0 <= i < |shows| && shows[i].value == FindShow(shows, name).value
  {
    if shows[0].value.name != name {
      FindShowIn(shows[1..], name);
      var i :| 0 <= i < |shows[1..]| && shows[1..][i].value == FindShow(shows[1..], name).value;
      assert shows[i + 1] == shows[1..][i];
    }
  }

  /** Records appended after the first match do not change the query's result;
      without a match in front, the appended records alone decide it. */
  lemma {:induction false} FindShowAppend(front: Dict<Show>, back: Dict<Show>, name: string)
    ensures FindShow(front + back, name) ==
      if FindShow(front, name).Some? then FindShow(front, name) else FindShow(back, name)
  {
    if front != [] {
      assert (front + back)[1..] == front[1..] + back;
      FindShowAppend(front[1..], back, name);
    } else {
      assert front + back == back;
    }
  }

  /** Some record of `shows` has this label (`doesShowExist`). */
  predicate HasLabel(shows: Dict<Show>, name: string): (found: bool)
    ensures found <==> exists i :: 0 <= i < |shows| && shows[i].value.name == name
  {
    FindShow(shows, name).Some?
  }

  /** No two records of `shows` share a label. */
  ghost predicate UniqueLabels(shows: Dict<Show>) {
    forall i, j :: 0 <= i < j < |shows| ==> shows[i].value.name != shows[j].value.name
  }
}
