/** The second, smaller notification store of lib/store.js, read by the
    notification bell and refreshed by the ticket form. It holds the list
    only: no `loading` or `error` flag. Failures are only logged, so a failed
    request leaves the list as it was. */
module ReducedStore {
  import opened Results
  import opened Notifications

  datatype State = State(notifications: seq<Notification>)

  /** The store starts with an empty list. */
  const Initial: State := State([])

  /** `fetchNotifications`. */
  function Fetch(s: State, res: Outcome<seq<Notification>>): (r: State)
    ensures res.Ok? ==> r.notifications == res.value
    ensures res.Err? ==> r == s
  {
    match res
    case Ok(data) => State(data)
    case Err(_) => s
  }

  /** `markAsRead(id)`. */
  function MarkAsRead(s: State, id: string, ack: Ack): (r: State)
    ensures ack.Err? ==> r == s
    ensures ack.Ok? ==> |r.notifications| == |s.notifications|
    ensures ack.Ok? ==> forall i :: 0 <= i < |s.notifications| && s.notifications[i].id == id ==>
                          r.notifications[i] == s.notifications[i].(read := true)
    ensures ack.Ok? ==> forall i :: 0 <= i < |s.notifications| && s.notifications[i].id != id ==>
                          r.notifications[i] == s.notifications[i]
  {
    if ack.Ok? then State(MarkRead(s.notifications, id)) else s
  }

  datatype Action =
    | FetchAction(fetched: Outcome<seq<Notification>>)
    | MarkAsReadAction(markId: string, markAck: Ack)

  function Apply(s: State, a: Action): State {
    match a
    case FetchAction(res) => Fetch(s, res)
    case MarkAsReadAction(id, ack) => MarkAsRead(s, id, ack)
  }

  /** Applies a series of mark-as-read requests with their outcomes. */
  function MarkSeq(s: State, marks: seq<(string, Ack)>): State
    decreases |marks|
  {
    if |marks| == 0 then s else MarkSeq(MarkAsRead(s, marks[0].0, marks[0].1), marks[1..])
  }

  /** Some confirmed request in the series names the identifier. */
  predicate Confirmed(marks: seq<(string, Ack)>, id: string) {
    exists j :: 0 <= j < |marks| && marks[j].1.Ok? && marks[j].0 == id
  }

  /** Between fetches, the reduced store's list never gains unread entries. */
  lemma {:induction false} UnreadNeverGrowsWithoutFetch(s: State, marks: seq<(string, Ack)>)
    ensures UnreadCount(MarkSeq(s, marks).notifications) <= UnreadCount(s.notifications)
    ensures |MarkSeq(s, marks).notifications| == |s.notifications|
    decreases |marks|
  {
    if |marks| > 0 {
      var next := MarkAsRead(s, marks[0].0, marks[0].1);
      UnreadAfterMarkRead(s.notifications, marks[0].0);
      UnreadNeverGrowsWithoutFetch(next, marks[1..]);
    }
  }

  /** After a series of mark-as-read outcomes, an entry is read exactly when
      it was read before or some confirmed request named its identifier, and
      no entry changes anything but its read flag. */
  lemma {:induction false} MarkSeqReads(s: State, marks: seq<(string, Ack)>)
    ensures |MarkSeq(s, marks).notifications| == |s.notifications|
    ensures forall i :: 0 <= i < |s.notifications| ==>
              MarkSeq(s, marks).notifications[i].(read := s.notifications[i].read) == s.notifications[i]
    ensures forall i :: 0 <= i < |s.notifications| ==>
              (MarkSeq(s, marks).notifications[i].read
               <==> s.notifications[i].read || Confirmed(marks, s.notifications[i].id))
    decreases |marks|
  {
    if |marks| > 0 {
      var next := MarkAsRead(s, marks[0].0, marks[0].1);
      MarkSeqReads(next, marks[1..]);
      var out := MarkSeq(s, marks).notifications;
      assert out == MarkSeq(next, marks[1..]).notifications;
      forall i | 0 <= i < |s.notifications|
        ensures out[i].(read := s.notifications[i].read) == s.notifications[i]
        ensures out[i].read <==> s.notifications[i].read || Confirmed(marks, s.notifications[i].id)
      {
        var id := s.notifications[i].id;
        assert next.notifications[i].(read := s.notifications[i].read) == s.notifications[i];
        assert next.notifications[i].id == id;
        ConfirmedSplit(marks, id);
      }
    }
  }

  /** A series confirms an identifier when its first request does or the rest does. */
  lemma ConfirmedSplit(marks: seq<(string, Ack)>, id: string)
    requires |marks| > 0
    ensures Confirmed(marks, id) <==> (marks[0].1.Ok? && marks[0].0 == id) || Confirmed(marks[1..], id)
  {
    if Confirmed(marks, id) && !(marks[0].1.Ok? && marks[0].0 == id) {
      var j :| 0 <= j < |marks| && marks[j].1.Ok? && marks[j].0 == id;
      assert marks[1..][j - 1] == marks[j];
    }
    if Confirmed(marks[1..], id) {
      var j :| 0 <= j < |marks[1..]| && marks[1..][j].1.Ok? && marks[1..][j].0 == id;
      assert marks[j + 1] == marks[1..][j];
    }
  }
}
