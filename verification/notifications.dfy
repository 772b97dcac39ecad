/** Notification records and the list operations both notification stores
    apply once the server has confirmed a change. */
module Notifications {
  import Seqs

  import opened Results

  /** The populated form of a notification's ticket reference. */
  datatype TicketSummary = TicketSummary(id: Option<string>, title: string)

  /** A notification's `ticket` field as delivered in JSON: missing, `null`,
      a bare ticket identifier, or the populated ticket object. */
  datatype TicketRef = Absent | Null | BareId(id: string) | Embedded(ticket: TicketSummary)

  datatype Notification = Notification(
    id: string,
    title: string,
    ticket: TicketRef,
    read: bool,
    createdAt: string)

  predicate IsUnread(n: Notification) {
    !n.read
  }

  /** The entry carries exactly this identifier. */
  function HasId(id: string): Notification -> bool {
    (n: Notification) => n.id == id
  }

  /** Number of entries whose `read` flag is false. */
  function UnreadCount(ns: seq<Notification>): (c: nat)
    ensures c <= |ns|
    ensures c == 0 <==> forall i :: 0 <= i < |ns| ==> ns[i].read
  {
    Seqs.CountPositive(IsUnread, ns);
    Seqs.Count(IsUnread, ns)
  }

  /** Flags every entry with the identifier as read, in place. */
  function MarkRead(ns: seq<Notification>, id: string): (r: seq<Notification>)
    ensures |r| == |ns|
    ensures forall i :: 0 <= i < |ns| ==> r[i].read == (ns[i].read || ns[i].id == id)
    ensures forall i :: 0 <= i < |ns| ==> r[i].(read := ns[i].read) == ns[i]
  {
    if |ns| == 0 then []
    else [if ns[0].id == id then ns[0].(read := true) else ns[0]] + MarkRead(ns[1..], id)
  }

  /** Flags every entry as read, in place. */
  function MarkAll(ns: seq<Notification>): (r: seq<Notification>)
    ensures |r| == |ns|
    ensures forall i :: 0 <= i < |ns| ==> r[i].read
    ensures forall i :: 0 <= i < |ns| ==> r[i].(read := ns[i].read) == ns[i]
  {
    if |ns| == 0 then [] else [ns[0].(read := true)] + MarkAll(ns[1..])
  }

  /** Drops every entry with the identifier, keeping the others in order. */
  function RemoveId(ns: seq<Notification>, id: string): (r: seq<Notification>)
    ensures forall i :: 0 <= i < |r| ==> r[i].id != id
    ensures forall i :: 0 <= i < |ns| && ns[i].id != id ==> ns[i] in r
    ensures Seqs.Subsequence(r, ns)
    ensures |r| == |ns| - Seqs.Count(HasId(id), ns)
  {
    Seqs.CountComplement(HasId(id), ns);
    Seqs.Filter(Seqs.Not(HasId(id)), ns)
  }

  /** The unread count adds up over concatenation. */
  lemma {:induction false} UnreadCountAppend(a: seq<Notification>, b: seq<Notification>)
    ensures UnreadCount(a + b) == UnreadCount(a) + UnreadCount(b)
    decreases |a|
  {
    if |a| == 0 {
      assert a + b == b;
    } else {
      UnreadCountAppend(a[1..], b);
      assert (a + b)[0] == a[0];
      assert (a + b)[1..] == a[1..] + b;
    }
  }

  /** A single entry counts one exactly when it is unread; with
      `UnreadCountAppend`, the count of any list is its number of unread entries. */
  lemma UnreadCountSingle(n: Notification)
    ensures UnreadCount([n]) == (if n.read then 0 else 1)
  {
    assert [n][1..] == [];
  }

  /** Marking the same identifier twice is marking it once. */
  lemma MarkReadIdempotent(ns: seq<Notification>, id: string)
    ensures MarkRead(MarkRead(ns, id), id) == MarkRead(ns, id)
  {
  }

  /** Marks for two identifiers can be confirmed in either order. */
  lemma MarkReadCommutes(ns: seq<Notification>, a: string, b: string)
    ensures MarkRead(MarkRead(ns, a), b) == MarkRead(MarkRead(ns, b), a)
  {
  }

  /** Marking everything read twice is marking it once. */
  lemma MarkAllIdempotent(ns: seq<Notification>)
    ensures MarkAll(MarkAll(ns)) == MarkAll(ns)
  {
  }

  /** A single mark followed by mark-all is just mark-all. */
  lemma MarkAllAbsorbsMarkRead(ns: seq<Notification>, id: string)
    ensures MarkAll(MarkRead(ns, id)) == MarkAll(ns)
  {
  }

  /** After mark-all nothing is left unread. */
  lemma UnreadAfterMarkAll(ns: seq<Notification>)
    ensures UnreadCount(MarkAll(ns)) == 0
  {
  }

  /** After confirming `id` read, the unread entries are exactly the unread
      entries with another identifier. */
  lemma {:induction false} UnreadAfterMarkRead(ns: seq<Notification>, id: string)
    ensures UnreadCount(MarkRead(ns, id)) == UnreadCount(RemoveId(ns, id))
    ensures UnreadCount(MarkRead(ns, id)) <= UnreadCount(ns)
  {
    if |ns| > 0 {
      UnreadAfterMarkRead(ns[1..], id);
      assert MarkRead(ns, id)[1..] == MarkRead(ns[1..], id);
    }
  }

  /** `RemoveId` is the only way to drop exactly the entries with the
      identifier while keeping the others in order: any subsequence without
      the identifier that keeps as many entries equals it. */
  lemma RemoveIdUnique(ns: seq<Notification>, id: string, r: seq<Notification>)
    requires Seqs.Subsequence(r, ns)
    requires forall i :: 0 <= i < |r| ==> r[i].id != id
    requires |r| == |ns| - Seqs.Count(HasId(id), ns)
    ensures r == RemoveId(ns, id)
  {
    Seqs.CountComplement(HasId(id), ns);
    Seqs.FilterUnique(Seqs.Not(HasId(id)), r, ns);
  }
}
