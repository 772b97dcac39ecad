/** The application-wide notification store of lib/store/useNotificationStore.js:
    a notification list with `loading` and `error` flags. Every operation that
    calls the server is remote-first: the list changes only after the request
    succeeds and is left exactly as it was when the request fails. The outcome
    of the request is a parameter of each transition. */
module FullStore {
  import Seqs
  import opened Results
  import opened Notifications

  datatype State = State(notifications: seq<Notification>, loading: bool, error: Option<string>)

  /** Empty list, not loading, no error. */
  const Initial: State := State([], false, None)

  /** First half of `fetchNotifications`: raise `loading` before the request. */
  function FetchBegin(s: State): (r: State)
    ensures r.loading
    ensures r.notifications == s.notifications && r.error == s.error
  {
    s.(loading := true)
  }

  /** Second half of `fetchNotifications`, once the request has settled. */
  function FetchEnd(s: State, res: Outcome<seq<Notification>>): (r: State)
    ensures !r.loading
    ensures res.Ok? ==> r.notifications == res.value && r.error == s.error
    ensures res.Err? ==> r.notifications == s.notifications && r.error == Some(res.message)
  {
    match res
    case Ok(data) => s.(notifications := data, loading := false)
    case Err(msg) => s.(error := Some(msg), loading := false)
  }

  /** `fetchNotifications`: the server's list replaces the cache wholesale; a
      failure keeps the stale list and records the message. A success does not
      clear an error recorded by an earlier failure. */
  function Fetch(s: State, res: Outcome<seq<Notification>>): (r: State)
    ensures !r.loading
    ensures res.Ok? ==> r.notifications == res.value && r.error == s.error
    ensures res.Err? ==> r.notifications == s.notifications && r.error == Some(res.message)
  {
    FetchEnd(FetchBegin(s), res)
  }

  /** `addNotification`: a pushed notification goes in front, with no check
      for an entry already carrying its identifier. */
  function Add(s: State, n: Notification): (r: State)
    ensures |r.notifications| == |s.notifications| + 1
    ensures r.notifications[0] == n && r.notifications[1..] == s.notifications
    ensures r.loading == s.loading && r.error == s.error
  {
    s.(notifications := [n] + s.notifications)
  }

  /** `markAsRead(id)`. */
  function MarkAsRead(s: State, id: string, ack: Ack): (r: State)
    ensures ack.Err? ==> r == s
    ensures ack.Ok? ==> r.loading == s.loading && r.error == s.error
    ensures ack.Ok? ==> |r.notifications| == |s.notifications|
    ensures ack.Ok? ==> forall i :: 0 <= i < |s.notifications| && s.notifications[i].id == id ==>
                          r.notifications[i] == s.notifications[i].(read := true)
    ensures ack.Ok? ==> forall i :: 0 <= i < |s.notifications| && s.notifications[i].id != id ==>
                          r.notifications[i] == s.notifications[i]
  {
    if ack.Ok? then s.(notifications := MarkRead(s.notifications, id)) else s
  }

  /** `markAllAsRead`. */
  function MarkAllAsRead(s: State, ack: Ack): (r: State)
    ensures ack.Err? ==> r == s
    ensures ack.Ok? ==> r.loading == s.loading && r.error == s.error
    ensures ack.Ok? ==> |r.notifications| == |s.notifications|
    ensures ack.Ok? ==> forall i :: 0 <= i < |s.notifications| ==>
                          r.notifications[i] == s.notifications[i].(read := true)
  {
    if ack.Ok? then s.(notifications := MarkAll(s.notifications)) else s
  }

  /** `reset`, meant for logout; no request is made. No page of the
      front-end calls it: logging out only clears the stored credentials. */
  function Reset(s: State): (r: State)
    ensures r.notifications == [] && !r.loading && r.error.None?
  {
    State([], false, None)
  }

  /** `deleteNotification(id)`. */
  function Delete(s: State, id: string, ack: Ack): (r: State)
    ensures ack.Err? ==> r == s
    ensures ack.Ok? ==> r.loading == s.loading && r.error == s.error
    ensures ack.Ok? ==> forall i :: 0 <= i < |r.notifications| ==> r.notifications[i].id != id
    ensures ack.Ok? ==> forall i :: 0 <= i < |s.notifications| && s.notifications[i].id != id ==>
                          s.notifications[i] in r.notifications
    ensures ack.Ok? ==> Seqs.Subsequence(r.notifications, s.notifications)
    ensures ack.Ok? ==> |r.notifications| == |s.notifications| - Seqs.Count(HasId(id), s.notifications)
  {
    if ack.Ok? then s.(notifications := RemoveId(s.notifications, id)) else s
  }

  /** `clearAll`. */
  function ClearAll(s: State, ack: Ack): (r: State)
    ensures ack.Err? ==> r == s
    ensures ack.Ok? ==> r.notifications == [] && r.loading == s.loading && r.error == s.error
  {
    if ack.Ok? then s.(notifications := []) else s
  }

  /** A value read from local storage counts only when present and non-empty
      (JavaScript truthiness of a string). */
  predicate Truthy(v: Option<string>) {
    v.Some? && v.value != ""
  }

  /** `rehydrate`: re-fetch right after login. Without a stored token or user
      record it makes no request; a failed request is only logged. */
  function Rehydrate(s: State, token: Option<string>, user: Option<string>,
                     res: Outcome<seq<Notification>>): (r: State)
    ensures !(Truthy(token) && Truthy(user)) ==> r == s
    ensures res.Err? ==> r == s
    ensures Truthy(token) && Truthy(user) && res.Ok? ==>
              r.notifications == res.value && !r.loading && r.error.None?
  {
    if !Truthy(token) || !Truthy(user) then s
    else match res
      case Ok(data) => State(data, false, None)
      case Err(_) => s
  }

  /** One store operation with the outcome of its request, if any. */
  datatype Action =
    | FetchAction(fetched: Outcome<seq<Notification>>)
    | AddAction(pushed: Notification)
    | MarkAsReadAction(markId: string, markAck: Ack)
    | MarkAllAsReadAction(markAllAck: Ack)
    | ResetAction
    | DeleteAction(deleteId: string, deleteAck: Ack)
    | ClearAllAction(clearAck: Ack)
    | RehydrateAction(token: Option<string>, user: Option<string>, rehydrated: Outcome<seq<Notification>>)

  function Apply(s: State, a: Action): State {
    match a
    case FetchAction(res) => Fetch(s, res)
    case AddAction(n) => Add(s, n)
    case MarkAsReadAction(id, ack) => MarkAsRead(s, id, ack)
    case MarkAllAsReadAction(ack) => MarkAllAsRead(s, ack)
    case ResetAction => Reset(s)
    case DeleteAction(id, ack) => Delete(s, id, ack)
    case ClearAllAction(ack) => ClearAll(s, ack)
    case RehydrateAction(token, user, res) => Rehydrate(s, token, user, res)
  }

  /** Applies the actions in order. */
  function Run(s: State, actions: seq<Action>): State
    decreases |actions|
  {
    if |actions| == 0 then s else Run(Apply(s, actions[0]), actions[1..])
  }

  /** One push action per delivered notification, in delivery order. */
  function Pushes(ns: seq<Notification>): (r: seq<Action>)
    ensures |r| == |ns|
    ensures forall i :: 0 <= i < |ns| ==> r[i] == AddAction(ns[i])
  {
    if |ns| == 0 then [] else [AddAction(ns[0])] + Pushes(ns[1..])
  }

  /** A run of pushes stacks the delivered notifications newest-first on top
      of the previous list: the length grows by one per push, with no
      de-duplication. */
  lemma {:induction false} PushesPrepend(s: State, ns: seq<Notification>)
    ensures Run(s, Pushes(ns)).notifications == Seqs.Reverse(ns) + s.notifications
    ensures |Run(s, Pushes(ns)).notifications| == |ns| + |s.notifications|
    decreases |ns|
  {
    if |ns| > 0 {
      var pushed := Add(s, ns[0]);
      assert Pushes(ns)[0] == AddAction(ns[0]) && Pushes(ns)[1..] == Pushes(ns[1..]);
      assert Run(s, Pushes(ns)) == Run(pushed, Pushes(ns[1..]));
      PushesPrepend(pushed, ns[1..]);
      assert Seqs.Reverse(ns) == Seqs.Reverse(ns[1..]) + [ns[0]];
      assert Seqs.Reverse(ns[1..]) + pushed.notifications
          == (Seqs.Reverse(ns[1..]) + [ns[0]]) + s.notifications;
    }
  }

  /** The scenario of a fetch returning one notification followed by a push:
      the pushed notification is listed first. */
  lemma FetchThenPushOrder(s: State, n1: Notification, n2: Notification)
    ensures Run(s, [FetchAction(Ok([n1])), AddAction(n2)]).notifications == [n2, n1]
  {
    var actions := [FetchAction(Ok([n1])), AddAction(n2)];
    var fetched := Fetch(s, Ok([n1]));
    assert actions[1..] == [AddAction(n2)];
    assert Run(s, actions) == Run(fetched, [AddAction(n2)]);
    assert Run(fetched, [AddAction(n2)]) == Run(Add(fetched, n2), []);
  }

  /** Applying a confirmed mark-all twice is the same as applying it once. */
  lemma MarkAllAsReadIdempotent(s: State)
    ensures MarkAllAsRead(MarkAllAsRead(s, Ok(())), Ok(())) == MarkAllAsRead(s, Ok(()))
  {
  }

  /** A store that is not loading is not loading after any run of operations:
      every fetch clears the flag it raised, and nothing else raises it. */
  lemma {:induction false} LoadingSettles(s: State, actions: seq<Action>)
    requires !s.loading
    ensures !Run(s, actions).loading
    decreases |actions|
  {
    if |actions| > 0 {
      LoadingSettles(Apply(s, actions[0]), actions[1..]);
    }
  }

  /** With credentials present, a successful rehydrate is a successful fetch
      that also clears the recorded error. */
  lemma RehydrateIsFetchClearingError(s: State, token: string, user: string, data: seq<Notification>)
    requires token != "" && user != ""
    ensures Rehydrate(s, Some(token), Some(user), Ok(data)) == Fetch(s, Ok(data)).(error := None)
  {
  }

  /** A failed rehydrate, unlike a failed fetch, records nothing. */
  lemma RehydrateFailureIsSilent(s: State, token: Option<string>, user: Option<string>, msg: string)
    ensures Rehydrate(s, token, user, Err(msg)) == s
    ensures Fetch(s, Err(msg)).error == Some(msg)
  {
  }

  /** Reset yields the initial state whatever came before. */
  lemma ResetIsInitial(s: State, t: State)
    ensures Reset(s) == Reset(t) == Initial
  {
  }

  /** Only a fetch, a rehydrate or a push can raise the unread count; every
      other operation keeps or lowers it, and a push raises it by at most one. */
  lemma UnreadCountMonotone(s: State, a: Action)
    ensures !a.FetchAction? && !a.RehydrateAction? && !a.AddAction? ==>
              UnreadCount(Apply(s, a).notifications) <= UnreadCount(s.notifications)
    ensures a.AddAction? ==>
              UnreadCount(Apply(s, a).notifications) <= UnreadCount(s.notifications) + 1
  {
    match a
    case MarkAsReadAction(id, ack) =>
      UnreadAfterMarkRead(s.notifications, id);
    case MarkAllAsReadAction(ack) =>
    case DeleteAction(id, ack) =>
      if ack.Ok? {
        RemoveShrinksUnread(s.notifications, id);
      }
    case AddAction(n) =>
      assert Apply(s, a).notifications[1..] == s.notifications;
    case _ =>
  }

  /** Deleting entries cannot add unread ones. */
  lemma {:induction false} RemoveShrinksUnread(ns: seq<Notification>, id: string)
    ensures UnreadCount(RemoveId(ns, id)) <= UnreadCount(ns)
  {
    Seqs.SubsequenceCountMono(IsUnread, RemoveId(ns, id), ns);
  }
}
