/** The ticket creation form (components/TicketForm.js): the form record,
    single-field edits, the assignee list without the current user, and the
    submit sequence that refreshes the reduced notification store. */
module TicketForm {
  import Seqs
  import opened Results
  import opened Notifications
  import ReducedStore

  /** The form object, field name to value. A spread with a computed key can
      add any name, so the record is a map rather than five fixed fields. */
  type Fields = map<string, string>

  /** The defaults the form starts from and returns to after a submit. */
  function InitialFields(): (f: Fields)
    ensures f.Keys == {"title", "description", "priority", "category", "assignedTo"}
    ensures f["priority"] == "medium" && f["category"] == "general"
    ensures f["title"] == "" && f["description"] == "" && f["assignedTo"] == ""
  {
    map["title" := "", "description" := "", "priority" := "medium",
        "category" := "general", "assignedTo" := ""]
  }

  /** A user from the `/users` listing; `_id` may be missing. */
  datatype User = User(id: Option<string>, name: string, role: string)

  datatype FormState = FormState(fields: Fields, error: string, loading: bool, users: seq<User>)

  const Initial: FormState := FormState(InitialFields(), "", false, [])

  /** `handleChange`: clear the error and set exactly the named field. */
  function HandleChange(fs: FormState, name: string, value: string): (r: FormState)
    ensures name in r.fields && r.fields[name] == value
    ensures r.fields.Keys == fs.fields.Keys + {name}
    ensures forall k :: k in fs.fields && k != name ==> r.fields[k] == fs.fields[k]
    ensures r.error == ""
    ensures r.loading == fs.loading && r.users == fs.users
  {
    fs.(error := "", fields := fs.fields[name := value])
  }

  /** The later of two edits to the same field wins. */
  lemma HandleChangeLastWins(fs: FormState, name: string, v1: string, v2: string)
    ensures HandleChange(HandleChange(fs, name, v1), name, v2) == HandleChange(fs, name, v2)
  {
  }

  /** Edits to different fields can happen in either order. */
  lemma HandleChangeCommutes(fs: FormState, a: string, va: string, b: string, vb: string)
    requires a != b
    ensures HandleChange(HandleChange(fs, a, va), b, vb) == HandleChange(HandleChange(fs, b, vb), a, va)
  {
  }

  /** Editing one of the form's own fields keeps the set of fields. */
  lemma HandleChangeKeepsShape(fs: FormState, name: string, value: string)
    requires fs.fields.Keys == InitialFields().Keys
    requires name in InitialFields()
    ensures HandleChange(fs, name, value).fields.Keys == InitialFields().Keys
  {
  }

  /** The user's identifier differs from the current user's. JavaScript's
      strict equality treats two missing identifiers as equal. */
  function NotCurrent(current: Option<string>): User -> bool {
    (u: User) => u.id != current
  }

  /** The assignee choices: the fetched users minus the current user. */
  function ExcludeCurrentUser(users: seq<User>, current: Option<string>): (r: seq<User>)
    ensures forall i :: 0 <= i < |r| ==> r[i].id != current
    ensures forall i :: 0 <= i < |users| && users[i].id != current ==> users[i] in r
    ensures Seqs.Subsequence(r, users)
    ensures |r| == Seqs.Count(NotCurrent(current), users)
  {
    Seqs.Filter(NotCurrent(current), users)
  }

  /** With no stored user record the current identifier is missing, and the
      filter then also drops every fetched user that lacks `_id`. */
  lemma ExcludeWithoutSessionDropsIdless(users: seq<User>, u: User)
    requires u in users && u.id.None?
    ensures u !in ExcludeCurrentUser(users, None)
  {
  }

  /** The assignee list is the only order-preserving selection of the other
      users that keeps every one of them. */
  lemma ExcludeCurrentUserUnique(users: seq<User>, current: Option<string>, r: seq<User>)
    requires Seqs.Subsequence(r, users)
    requires forall i :: 0 <= i < |r| ==> r[i].id != current
    requires |r| == Seqs.Count(NotCurrent(current), users)
    ensures r == ExcludeCurrentUser(users, current)
  {
    Seqs.FilterUnique(NotCurrent(current), r, users);
  }

  /** The filter keeps exactly the other users, so filtering twice is
      filtering once. */
  lemma ExcludeCurrentUserIdempotent(users: seq<User>, current: Option<string>)
    ensures ExcludeCurrentUser(ExcludeCurrentUser(users, current), current)
         == ExcludeCurrentUser(users, current)
  {
    Seqs.FilterIdempotent(NotCurrent(current), users);
  }

  /** `fetchUsers` on mount: a failure is logged and the list stays as it was. */
  function LoadUsers(fs: FormState, current: Option<string>, res: Outcome<seq<User>>): (r: FormState)
    ensures res.Err? ==> r == fs
    ensures res.Ok? ==> r.fields == fs.fields && r.error == fs.error && r.loading == fs.loading
    ensures res.Ok? ==> forall i :: 0 <= i < |r.users| ==> r.users[i].id != current && r.users[i] in res.value
    ensures res.Ok? ==> r.users == ExcludeCurrentUser(res.value, current)
  {
    match res
    case Ok(data) => fs.(users := ExcludeCurrentUser(data, current))
    case Err(_) => fs
  }

  /** Start of `handleSubmit`: clear the error and raise `loading`. */
  function SubmitBegin(fs: FormState): (r: FormState)
    ensures r.error == "" && r.loading
    ensures r.fields == fs.fields && r.users == fs.users
  {
    fs.(error := "", loading := true)
  }

  /** Everything a submit produces: the form afterwards, the reduced store
      afterwards, the body posted to `/tickets` and the page navigated to. */
  datatype Submitted = Submitted(form: FormState, store: ReducedStore.State, body: Fields, navigateTo: Option<string>)

  /** `handleSubmit` once the POST has settled. On success the reduced store is
      refreshed (its own failures are swallowed), the form returns to its
      defaults and the page moves to `/main`; on failure the message is shown
      and the form keeps its values. `loading` always ends false. */
  function Submit(fs: FormState, store: ReducedStore.State, post: Ack,
                  refresh: Outcome<seq<Notification>>): (r: Submitted)
    ensures r.body == fs.fields
    ensures !r.form.loading && r.form.users == fs.users
    ensures post.Ok? ==> r.form.fields == InitialFields() && r.form.error == ""
    ensures post.Ok? ==> r.store == ReducedStore.Fetch(store, refresh) && r.navigateTo == Some("/main")
    ensures post.Err? ==> r.form.fields == fs.fields && r.form.error == post.message
    ensures post.Err? ==> r.store == store && r.navigateTo.None?
  {
    var started := SubmitBegin(fs);
    match post
    case Ok(_) =>
      Submitted(started.(fields := InitialFields(), loading := false),
                ReducedStore.Fetch(store, refresh), started.fields, Some("/main"))
    case Err(msg) =>
      Submitted(started.(error := msg, loading := false), store, started.fields, None)
  }

  /** A successful submit after any edits leaves the form as freshly mounted,
      apart from the fetched users. */
  lemma SubmitResetsForm(fs: FormState, store: ReducedStore.State, refresh: Outcome<seq<Notification>>)
    ensures Submit(fs, store, Ok(()), refresh).form == Initial.(users := fs.users)
  {
  }
}
