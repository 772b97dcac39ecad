/** The notification bell (components/NotificationCenter.js), reading the
    reduced store: the unread badge, the ticket identifier a notification
    points at, and what a click on a notification does. */
module NotificationCenter {
  import Seqs
  import opened Results
  import opened Notifications
  import ReducedStore
  import FullStore

  /** The badge with the unread count is drawn only when the count is positive. */
  function BadgeShown(ns: seq<Notification>): (shown: bool)
    ensures shown <==> exists i :: 0 <= i < |ns| && !ns[i].read
  {
    Seqs.CountPositive(IsUnread, ns);
    UnreadCount(ns) > 0
  }

  /** Evaluating an expression either yields a value or throws. */
  datatype Eval<+T> = Value(value: T) | Throws

  /** The ticket identifier as the component computes it:
      an object reference yields its `_id` and anything else yields itself.
      JavaScript classifies `null` as an object, so a `null` reference is
      dereferenced and the render throws. */
  function TicketIdAsWritten(ref: TicketRef): (r: Eval<Option<string>>)
    ensures r.Throws? <==> ref.Null?
    ensures ref.Embedded? ==> r == Value(ref.ticket.id)
    ensures ref.BareId? ==> r == Value(Some(ref.id))
  {
    match ref
    case Absent => Value(None)
    case Null => Throws
    case BareId(id) => Value(Some(id))
    case Embedded(t) => Value(t.id)
  }

  /** A notification whose ticket reference is `null` makes the component throw. */
  lemma NullTicketThrows(n: Notification)
    requires n.ticket.Null?
    ensures TicketIdAsWritten(n.ticket).Throws?
  {
  }

  /** The ticket identifier with `null` treated like a missing reference: the
      embedded ticket's `_id` for a populated reference, the bare value
      otherwise. */
  function TicketId(ref: TicketRef): (r: Option<string>)
    ensures ref.Embedded? ==> r == ref.ticket.id
    ensures ref.BareId? ==> r == Some(ref.id)
    ensures ref.Absent? || ref.Null? ==> r.None?
  {
    match ref
    case Embedded(t) => t.id
    case BareId(id) => Some(id)
    case _ => None
  }

  /** The corrected identifier agrees with the component wherever the
      component does not throw. */
  lemma TicketIdAgrees(ref: TicketRef)
    ensures TicketIdAsWritten(ref).Value? ==> TicketIdAsWritten(ref).value == TicketId(ref)
    ensures !ref.Null? ==> TicketIdAsWritten(ref).Value?
  {
  }

  /** What a click requests: mark this notification read in the store and,
      when the notification points at a ticket, navigate to that ticket. */
  datatype ClickEffect = ClickEffect(markId: string, navigateTo: Option<string>)

  /** Click handler. The identifier must be truthy, so an empty one does not
      navigate. It reads the corrected `TicketId`: for a `null` reference it
      marks without navigating, whereas the component as written throws while
      rendering that row, so the row never appears to be clicked. */
  function Click(n: Notification): (e: ClickEffect)
    ensures e.markId == n.id
    ensures e.navigateTo.Some? <==> TicketId(n.ticket).Some? && TicketId(n.ticket).value != ""
    ensures e.navigateTo.Some? ==> e.navigateTo.value == "/tickets/" + TicketId(n.ticket).value
  {
    var tid := TicketId(n.ticket);
    ClickEffect(n.id, if tid.Some? && tid.value != "" then Some("/tickets/" + tid.value) else None)
  }

  /** A click together with the settled mark-as-read request on the reduced
      store. Navigation does not wait for the request. */
  function ClickOnStore(s: ReducedStore.State, n: Notification, ack: Ack): (r: (ReducedStore.State, ClickEffect))
    ensures r.1 == Click(n)
    ensures ack.Err? ==> r.0 == s
    ensures |r.0.notifications| == |s.notifications|
    ensures ack.Ok? ==> forall i :: 0 <= i < |s.notifications| && s.notifications[i].id == n.id ==>
                          r.0.notifications[i] == s.notifications[i].(read := true)
    ensures ack.Ok? ==> forall i :: 0 <= i < |s.notifications| && s.notifications[i].id != n.id ==>
                          r.0.notifications[i] == s.notifications[i]
    ensures ack.Ok? ==> UnreadCount(r.0.notifications) <= UnreadCount(s.notifications)
  {
    var next := ReducedStore.MarkAsRead(s, n.id, ack);
    UnreadAfterMarkRead(s.notifications, n.id);
    (next, Click(n))
  }

  /** The badge predicate applied to the full store's list after a confirmed
      mark-all is false. The bell itself reads the reduced store, which has
      no mark-all; `NoBadgeAfterClickingEach` is the bell's own route. */
  lemma NoBadgeAfterMarkAll(s: FullStore.State)
    ensures UnreadCount(FullStore.MarkAllAsRead(s, Ok(())).notifications) == 0
    ensures !BadgeShown(FullStore.MarkAllAsRead(s, Ok(())).notifications)
  {
  }

  /** The mark-as-read requests of clicking each listed notification once,
      every request succeeding. */
  function ClickEach(ns: seq<Notification>): (marks: seq<(string, Ack)>)
    ensures |marks| == |ns|
    ensures forall i :: 0 <= i < |ns| ==> marks[i] == (ns[i].id, Ok(()))
  {
    if |ns| == 0 then [] else [(ns[0].id, Ok(()))] + ClickEach(ns[1..])
  }

  /** Once every listed notification has been clicked and each request has
      succeeded, the bell shows no badge. */
  lemma NoBadgeAfterClickingEach(s: ReducedStore.State)
    ensures !BadgeShown(ReducedStore.MarkSeq(s, ClickEach(s.notifications)).notifications)
  {
    var marks := ClickEach(s.notifications);
    ReducedStore.MarkSeqReads(s, marks);
    var out := ReducedStore.MarkSeq(s, marks).notifications;
    forall i | 0 <= i < |out| ensures out[i].read {
      assert marks[i].0 == s.notifications[i].id;
    }
  }
}
