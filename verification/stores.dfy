/** The two notification stores live side by side as independent state
    machines: an operation on one never changes the other. The login page
    rehydrates the full store; the bell and the ticket form use the reduced
    one. */
module Stores {
  import FullStore
  import ReducedStore
  import Results
  import Notifications

  datatype Stores = Stores(full: FullStore.State, reduced: ReducedStore.State)

  const Initial: Stores := Stores(FullStore.Initial, ReducedStore.Initial)

  datatype Event = ToFull(fullAction: FullStore.Action) | ToReduced(reducedAction: ReducedStore.Action)

  /** Routes an operation to the store it was invoked on. */
  function Step(st: Stores, e: Event): (r: Stores)
    ensures e.ToFull? ==> r.reduced == st.reduced && r.full == FullStore.Apply(st.full, e.fullAction)
    ensures e.ToReduced? ==> r.full == st.full && r.reduced == ReducedStore.Apply(st.reduced, e.reducedAction)
  {
    match e
    case ToFull(a) => st.(full := FullStore.Apply(st.full, a))
    case ToReduced(a) => st.(reduced := ReducedStore.Apply(st.reduced, a))
  }

  /** Events addressed to the two stores can be interleaved in any order. */
  lemma StepsCommute(st: Stores, a: FullStore.Action, b: ReducedStore.Action)
    ensures Step(Step(st, ToFull(a)), ToReduced(b)) == Step(Step(st, ToReduced(b)), ToFull(a))
  {
  }

  /** Both stores start empty; the full store is neither loading nor failed. */
  lemma InitialIsEmpty()
    ensures Initial.full.notifications == [] && Initial.reduced.notifications == []
    ensures !Initial.full.loading && Initial.full.error.None?
  {
  }

  /** Both stores apply the same list change when a mark is confirmed. */
  lemma MarkAsReadAgreesWithFullStore(full: FullStore.State, id: string, ack: Results.Ack)
    ensures ReducedStore.MarkAsRead(ReducedStore.State(full.notifications), id, ack).notifications
         == FullStore.MarkAsRead(full, id, ack).notifications
  {
  }

  /** On the same outcome, a fetch gives both stores the same list. */
  lemma FetchAgreesWithFullStore(full: FullStore.State, res: Results.Outcome<seq<Notifications.Notification>>)
    ensures ReducedStore.Fetch(ReducedStore.State(full.notifications), res).notifications
         == FullStore.Fetch(full, res).notifications
  {
  }
}
