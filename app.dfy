/** `App`: the task list, the loading flag and the error message, and the
    three handlers that change them. Each handler is split at its `await`:
    the `Start`/`Begin` half runs before the API call, the `Finish` half
    takes how that call settled. */
module AppState {
  import opened Wrappers
  import opened JsText
  import opened Ui
  import opened TaskFormState

  /** The most tasks the list keeps after a create. */
  const Shown := 5

  /** `[newTask, ...prev].slice(0, 5)`: the new task first, then as many of
      the previous tasks, in order, as fit in five. */
  function PrependCapped(t: UiTask, prev: seq<UiTask>): (r: seq<UiTask>)
    ensures |r| == Min(Shown, |prev| + 1) && |r| <= Shown
    ensures r[0] == t
    ensures r[1..] == prev[..|r| - 1]
    ensures |prev| < Shown ==> r == [t] + prev
  {
    ([t] + prev)[..Min(Shown, |prev| + 1)]
  }

  /** `a` is `b` with some elements left out, the rest in their order. */
  ghost predicate SubsequenceOf<T>(a: seq<T>, b: seq<T>) {
    a == [] || (b != [] && ((a[0] == b[0] && SubsequenceOf(a[1..], b[1..])) || SubsequenceOf(a, b[1..])))
  }

  /** `prev.filter(t => t.id !== id)`: every task with that id is gone, every
      other task stays, and the order is kept. */
  function RemoveById(tasks: seq<UiTask>, id: int): (r: seq<UiTask>)
    ensures forall t :: t in r ==> t in tasks && t.id != id
    ensures forall t :: t in tasks && t.id != id ==> t in r
    ensures forall t :: multiset(r)[t] == if t.id == id then 0 else multiset(tasks)[t]
    ensures SubsequenceOf(r, tasks)
    ensures (forall t :: t in tasks ==> t.id != id) ==> r == tasks
  {
    if tasks == [] then []
    else
      assert tasks == [tasks[0]] + tasks[1..];
      if tasks[0].id != id then
        var rest := RemoveById(tasks[1..], id);
        assert ([tasks[0]] + rest)[1..] == rest;
        [tasks[0]] + rest
      else RemoveById(tasks[1..], id)
  }

  /** Several creates in a row, oldest first. */
  function CreateAll(prev: seq<UiTask>, created: seq<UiTask>): seq<UiTask>
    decreases |created|
  {
    if created == [] then prev else CreateAll(PrependCapped(created[0], prev), created[1..])
  }

  function Reversed<T>(s: seq<T>): (r: seq<T>)
    ensures |r| == |s|
    ensures forall k :: 0 <= k < |s| ==> r[k] == s[|s| - 1 - k]
  {
    if s == [] then [] else Reversed(s[1..]) + [s[0]]
  }

  /** After several creates the list shows the newest tasks first, then the
      tasks it held before, five at most. */
  lemma {:induction false} CreateAllNewest(prev: seq<UiTask>, created: seq<UiTask>)
    requires |prev| <= Shown
    ensures CreateAll(prev, created) == (Reversed(created) + prev)[..Min(Shown, |created| + |prev|)]
    decreases |created|
  {
    if created != [] {
      var p := PrependCapped(created[0], prev);
      CreateAllNewest(p, created[1..]);
      var r := Reversed(created[1..]);
      assert Reversed(created) == r + [created[0]];
      var k := Min(Shown, |created| + |prev|);
      assert Min(Shown, |created[1..]| + |p|) == k;
      assert p == ([created[0]] + prev)[..Min(Shown, |prev| + 1)];
      TruncateTail(r, [created[0]] + prev, Min(Shown, |prev| + 1), k);
      assert r + ([created[0]] + prev) == Reversed(created) + prev;
    }
  }

  /** Cutting the tail before cutting the whole changes nothing when the
      whole is cut at least as short. */
  lemma TruncateTail<T>(a: seq<T>, b: seq<T>, m: nat, k: nat)
    requires m <= |b| && k <= |a| + m
    ensures (a + b[..m])[..k] == (a + b)[..k]
  {
    assert forall i :: 0 <= i < k ==> (a + b[..m])[i] == (a + b)[i];
  }

  class App {
    var tasks: seq<UiTask>
    var loading: bool
    var error: Option<string>

    /** The first render: no tasks, loading, no error. */
    constructor()
      ensures tasks == [] && loading && error == None
    {
      tasks := [];
      loading := true;
      error := None;
    }

    /** `fetchTasks` before `taskApi.getTasks()`. */
    method StartFetch()
      modifies this`loading, this`error
      ensures loading && error == None
    {
      loading := true;
      error := None;
    }

    /** `fetchTasks` after `taskApi.getTasks()`: the fetched list replaces
        the old one, or the error is shown and the list is kept; loading
        ends either way. */
    method FinishFetch(outcome: Settled<seq<UiTask>>)
      modifies this`tasks, this`loading, this`error
      ensures !loading
      ensures outcome.Resolved? ==> tasks == outcome.value && error == old(error)
      ensures outcome.Rejected? ==>
        tasks == old(tasks) && error == Some(ErrorText(outcome.thrown, "An error occurred"))
    {
      match outcome {
        case Resolved(data) =>
          tasks := data;
        case Rejected(e) =>
          error := Some(ErrorText(e, "An error occurred"));
      }
      loading := false;
    }

    /** `handleCreate` and `handleComplete` before their API call. */
    method BeginAction()
      modifies this`error
      ensures error == None
    {
      error := None;
    }

    /** `handleCreate` after `taskApi.createTask`. The handler catches
        every failure, so the promise it returns always resolves. */
    method FinishCreate(outcome: Settled<UiTask>) returns (done: Settled<()>)
      modifies this`tasks, this`error
      ensures done == Resolved(())
      ensures outcome.Resolved? ==> tasks == PrependCapped(outcome.value, old(tasks)) && error == old(error)
      ensures outcome.Rejected? ==>
        tasks == old(tasks) && error == Some(ErrorText(outcome.thrown, "Failed to create task"))
    {
      match outcome {
        case Resolved(t) =>
          tasks := PrependCapped(t, tasks);
        case Rejected(e) =>
          error := Some(ErrorText(e, "Failed to create task"));
      }
      done := Resolved(());
    }

    /** `handleComplete` after `taskApi.completeTask`: the task leaves the
        list, or the error is shown and the list is kept. */
    method FinishComplete(id: int, outcome: Settled<UiTask>)
      modifies this`tasks, this`error
      ensures outcome.Resolved? ==> tasks == RemoveById(old(tasks), id) && error == old(error)
      ensures outcome.Rejected? ==>
        tasks == old(tasks) && error == Some(ErrorText(outcome.thrown, "Failed to complete task"))
    {
      match outcome {
        case Resolved(_) =>
          tasks := RemoveById(tasks, id);
        case Rejected(e) =>
          error := Some(ErrorText(e, "Failed to complete task"));
      }
    }
  }

  /** `{error && <div className="error-message">{error}</div>}`: the
      banner shows only a message that is not empty. */
  predicate BannerShown(error: Option<string>) {
    error.Some? && error.value != []
  }

  /** A failed call shows a banner, unless what was thrown is an `Error`
      with an empty message: its empty text is set as the error and hides
      the banner. */
  lemma FailureBanner(e: Thrown, fallback: string)
    requires fallback != []
    ensures BannerShown(Some(ErrorText(e, fallback))) <==> !(e.ErrorObject? && e.message == [])
  {
  }

  /** The form's `onSubmit` is the app's `handleCreate`. Since that handler
      never rejects, a submission that passes the guard always clears both
      fields, whatever the API answers. */
  method SubmitCreate(app: App, form: TaskForm, response: Settled<UiTask>)
    modifies app`tasks, app`error, form`title, form`description, form`isSubmitting
    ensures Trim(old(form.title)) == [] || Trim(old(form.description)) == [] ==>
      form.title == old(form.title) && form.description == old(form.description)
      && form.isSubmitting == old(form.isSubmitting) && app.tasks == old(app.tasks) && app.error == old(app.error)
    ensures Trim(old(form.title)) != [] && Trim(old(form.description)) != [] ==>
      form.title == [] && form.description == [] && !form.isSubmitting
      && (response.Resolved? ==> app.tasks == PrependCapped(response.value, old(app.tasks)) && app.error == None)
      && (response.Rejected? ==>
            app.tasks == old(app.tasks) && app.error == Some(ErrorText(response.thrown, "Failed to create task")))
  {
    var call := form.Submit();
    if call.Call? {
      app.BeginAction();
      var done := app.FinishCreate(response);
      form.Settle(done);
    }
  }
}
