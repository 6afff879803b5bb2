/** The to-do list operations of `createTodos` in src/lib/stores.ts, each a pure
    transformation of the list.  The fresh id (`crypto.randomUUID()`) and the clock
    (`Date.now()`) are parameters. */
module Todos {
  import opened Wrappers

  /** `Todo`.  Times are whole milliseconds; `timerStart` is `null` as `None`. */
  datatype Todo = Todo(id: string, text: string, completed: bool, timerActive: bool,
                       timerStart: Option<int>, elapsedTime: int)

  /** The timer fields agree: a running timer has a start time, a stopped one has none. */
  predicate TimerConsistent(t: Todo) {
    t.timerActive <==> t.timerStart.Some?
  }

  /** No two items share an id. */
  predicate UniqueIds(todos: seq<Todo>) {
    forall i, j :: 0 <= i < j < |todos| ==> todos[i].id != todos[j].id
  }

  /** The invariant the list keeps under every operation. */
  predicate WellFormed(todos: seq<Todo>) {
    UniqueIds(todos) && forall i :: 0 <= i < |todos| ==> TimerConsistent(todos[i])
  }

  /** The ids of the list, in order. */
  function Ids(todos: seq<Todo>): (ids: seq<string>)
    ensures |ids| == |todos|
    ensures forall i :: 0 <= i < |todos| ==> ids[i] == todos[i].id
  {
    seq(|todos|, i requires 0 <= i < |todos| => todos[i].id)
  }

  // ---------------------------------------------------------------------------
  // add
  // ---------------------------------------------------------------------------

  /** `add`: appends a fresh item with the given id and text, not completed, timer stopped
      and nothing elapsed. */
  function Add(todos: seq<Todo>, id: string, text: string): (r: seq<Todo>)
    ensures |r| == |todos| + 1
    ensures r[..|todos|] == todos
    ensures var t := r[|todos|];
      && t.id == id && t.text == text && !t.completed && !t.timerActive
      && t.timerStart == None && t.elapsedTime == 0
  {
    todos + [Todo(id, text, false, false, None, 0)]
  }

  // ---------------------------------------------------------------------------
  // delete
  // ---------------------------------------------------------------------------

  /** `delete`: `todos.filter(t => t.id !== id)`. */
  function Delete(todos: seq<Todo>, id: string): (r: seq<Todo>)
    ensures |r| <= |todos|
    ensures forall i :: 0 <= i < |r| ==> r[i].id != id
    ensures (forall i :: 0 <= i < |todos| ==> todos[i].id != id) ==> r == todos
    decreases |todos|
  {
    if |todos| == 0 then []
    else
      var rest := Delete(todos[1..], id);
      if todos[0].id == id then rest
      else
        assert todos == [todos[0]] + todos[1..];
        [todos[0]] + rest
  }

  /** Exactly the items with a different id survive a delete. */
  lemma {:induction false} DeleteMembers(todos: seq<Todo>, id: string)
    ensures forall t :: t in Delete(todos, id) <==> t in todos && t.id != id
    decreases |todos|
  {
    if |todos| != 0 {
      DeleteMembers(todos[1..], id);
      assert forall t :: t in todos <==> t == todos[0] || t in todos[1..];
    }
  }

  /** `delete` on a list with a known first item. */
  lemma DeleteCons(x: Todo, rest: seq<Todo>, id: string)
    ensures Delete([x] + rest, id) == if x.id == id then Delete(rest, id) else [x] + Delete(rest, id)
  {
    assert ([x] + rest)[0] == x;
    assert ([x] + rest)[1..] == rest;
  }

  /** Deleting keeps the order of what remains: it distributes over concatenation. */
  lemma {:induction false} DeleteDistributes(a: seq<Todo>, b: seq<Todo>, id: string)
    ensures Delete(a + b, id) == Delete(a, id) + Delete(b, id)
    decreases |a|
  {
    if |a| == 0 {
      assert a + b == b;
    } else {
      var x, tail := a[0], a[1..];
      assert a == [x] + tail;
      assert a + b == [x] + (tail + b);
      DeleteDistributes(tail, b, id);
      if x.id == id {
        calc {
          Delete(a + b, id);
          == { DeleteCons(x, tail + b, id); }
          Delete(tail + b, id);
          == { DeleteCons(x, tail, id); }
          Delete(a, id) + Delete(b, id);
        }
      } else {
        calc {
          Delete(a + b, id);
          == { DeleteCons(x, tail + b, id); }
          [x] + (Delete(tail, id) + Delete(b, id));
          == ([x] + Delete(tail, id)) + Delete(b, id);
          == { DeleteCons(x, tail, id); }
          Delete(a, id) + Delete(b, id);
        }
      }
    }
  }

  /** Deleting twice is deleting once. */
  lemma DeleteIdempotent(todos: seq<Todo>, id: string)
    ensures Delete(Delete(todos, id), id) == Delete(todos, id)
  {
    var r := Delete(todos, id);
    assert forall i :: 0 <= i < |r| ==> r[i] in r;
  }

  /** Deleting an item just added with an id not yet used gives back the list. */
  lemma {:induction false} DeleteUndoesAdd(todos: seq<Todo>, id: string, text: string)
    requires forall i :: 0 <= i < |todos| ==> todos[i].id != id
    ensures Delete(Add(todos, id, text), id) == todos
  {
    DeleteDistributes(todos, [Todo(id, text, false, false, None, 0)], id);
    assert Delete([Todo(id, text, false, false, None, 0)], id) == [];
  }

  // ---------------------------------------------------------------------------
  // toggle, update and toggleTimer: maps over the list
  // ---------------------------------------------------------------------------

  /** `toggle`'s function on one item. */
  function ToggleItem(t: Todo, id: string): Todo {
    if t.id == id then t.(completed := !t.completed) else t
  }

  /** `update`'s function on one item. */
  function UpdateItem(t: Todo, id: string, text: string): Todo {
    if t.id == id then t.(text := text) else t
  }

  /** JavaScript truthiness of `timerStart`: `null` and `0` are falsy. */
  predicate Truthy(start: Option<int>) {
    start.Some? && start.value != 0
  }

  /** `toggleTimer`'s function on one item, `now` being what `Date.now()` returns. */
  function ToggleTimerItem(t: Todo, id: string, now: int): (r: Todo)
    ensures r.id == t.id && r.text == t.text && r.completed == t.completed
    ensures t.id != id ==> r == t
    ensures t.id == id && !t.timerActive ==>
              r.timerActive && r.timerStart == Some(now) && r.elapsedTime == t.elapsedTime
    ensures t.id == id && t.timerActive ==>
              && !r.timerActive && r.timerStart == None
              && r.elapsedTime == t.elapsedTime + (if Truthy(t.timerStart) then now - t.timerStart.value else 0)
  {
    if t.id != id then t
    else if t.timerActive then
      var session := if t.timerStart.Some? && t.timerStart.value != 0 then now - t.timerStart.value else 0;
      t.(timerActive := false, timerStart := None, elapsedTime := t.elapsedTime + session)
    else
      t.(timerActive := true, timerStart := Some(now))
  }

  /** `Array.prototype.map`. */
  function Map(todos: seq<Todo>, f: Todo -> Todo): (r: seq<Todo>)
    ensures |r| == |todos|
    ensures forall i :: 0 <= i < |todos| ==> r[i] == f(todos[i])
  {
    seq(|todos|, i requires 0 <= i < |todos| => f(todos[i]))
  }

  /** `toggle`: flips `completed` of the items with the id; nothing else changes. */
  function Toggle(todos: seq<Todo>, id: string): (r: seq<Todo>)
    ensures |r| == |todos| && Ids(r) == Ids(todos)
    ensures forall i :: 0 <= i < |todos| && todos[i].id != id ==> r[i] == todos[i]
    ensures forall i :: 0 <= i < |todos| && todos[i].id == id ==>
              r[i].completed == !todos[i].completed && r[i].(completed := todos[i].completed) == todos[i]
  {
    Map(todos, t => ToggleItem(t, id))
  }

  /** `update`: replaces the text of the items with the id; nothing else changes. */
  function Update(todos: seq<Todo>, id: string, text: string): (r: seq<Todo>)
    ensures |r| == |todos| && Ids(r) == Ids(todos)
    ensures forall i :: 0 <= i < |todos| && todos[i].id != id ==> r[i] == todos[i]
    ensures forall i :: 0 <= i < |todos| && todos[i].id == id ==>
              r[i].text == text && r[i].(text := todos[i].text) == todos[i]
  {
    Map(todos, t => UpdateItem(t, id, text))
  }

  /** `toggleTimer`: starts or stops the timer of the items with the id. */
  function ToggleTimer(todos: seq<Todo>, id: string, now: int): (r: seq<Todo>)
    ensures |r| == |todos| && Ids(r) == Ids(todos)
    ensures forall i :: 0 <= i < |todos| && todos[i].id != id ==> r[i] == todos[i]
    ensures forall i :: 0 <= i < |todos| ==> r[i] == ToggleTimerItem(todos[i], id, now)
  {
    Map(todos, t => ToggleTimerItem(t, id, now))
  }

  /** Toggling the same id twice changes nothing. */
  lemma ToggleInvolution(todos: seq<Todo>, id: string)
    ensures Toggle(Toggle(todos, id), id) == todos
  {
  }

  /** Updating the same id twice keeps only the second text. */
  lemma UpdateLastWins(todos: seq<Todo>, id: string, a: string, b: string)
    ensures Update(Update(todos, id, a), id, b) == Update(todos, id, b)
  {
  }

  /** Starting a stopped timer at `start` (not 0) and stopping it at `stop` adds exactly
      `stop - start` to the elapsed time and leaves the item otherwise as it was. */
  lemma StartThenStop(todos: seq<Todo>, id: string, start: int, stop: int)
    requires start != 0
    requires forall i :: 0 <= i < |todos| && todos[i].id == id ==> !todos[i].timerActive && todos[i].timerStart == None
    ensures var r := ToggleTimer(ToggleTimer(todos, id, start), id, stop);
      forall i :: 0 <= i < |todos| ==>
        r[i] == if todos[i].id == id then todos[i].(elapsedTime := todos[i].elapsedTime + (stop - start))
                else todos[i]
  {
  }

  /** A timer started when `Date.now()` returned 0 records no time when stopped: `0` is
      falsy, so the session counts as empty. */
  lemma StartAtZeroRecordsNothing(t: Todo, stop: int)
    requires !t.timerActive
    ensures ToggleTimerItem(ToggleTimerItem(t, t.id, 0), t.id, stop).elapsedTime == t.elapsedTime
  {
  }

  // ---------------------------------------------------------------------------
  // The store's operations together
  // ---------------------------------------------------------------------------

  /** One call on the store, with the nondeterministic inputs it consumes. */
  datatype Op =
    | AddOp(newId: string, text: string)
    | DeleteOp(id: string)
    | ToggleOp(id: string)
    | UpdateOp(id: string, text: string)
    | ToggleTimerOp(id: string, now: int)
    | ReorderOp(items: seq<Todo>)

  /** The list after one operation.  `reorder` replaces the list with the given items. */
  function Apply(todos: seq<Todo>, op: Op): seq<Todo> {
    match op
    case AddOp(newId, text) => Add(todos, newId, text)
    case DeleteOp(id) => Delete(todos, id)
    case ToggleOp(id) => Toggle(todos, id)
    case UpdateOp(id, text) => Update(todos, id, text)
    case ToggleTimerOp(id, now) => ToggleTimer(todos, id, now)
    case ReorderOp(items) => items
  }

  /** What an operation needs of its inputs for the invariant to survive: a fresh id for
      `add`, a well-formed list for `reorder`. */
  predicate Admissible(todos: seq<Todo>, op: Op) {
    match op
    case AddOp(newId, _) => forall i :: 0 <= i < |todos| ==> todos[i].id != newId
    case ReorderOp(items) => WellFormed(items)
    case _ => true
  }

  lemma {:induction false} DeletePreservesWellFormed(todos: seq<Todo>, id: string)
    requires WellFormed(todos)
    ensures WellFormed(Delete(todos, id))
    decreases |todos|
  {
    if |todos| != 0 {
      DeletePreservesWellFormed(todos[1..], id);
      if todos[0].id != id {
        DeleteMembers(todos[1..], id);
        HeadIdNotInTail(todos);
        ConsPreservesWellFormed(todos[0], Delete(todos[1..], id));
      }
    }
  }

  /** In a list with unique ids, the first item's id occurs nowhere after it. */
  lemma HeadIdNotInTail(todos: seq<Todo>)
    requires |todos| != 0 && UniqueIds(todos)
    ensures forall t :: t in todos[1..] ==> t.id != todos[0].id
  {
    forall t | t in todos[1..] ensures t.id != todos[0].id {
      var k :| 0 <= k < |todos[1..]| && todos[1..][k] == t;
      assert todos[k + 1] == t;
    }
  }

  /** A consistent item whose id is new keeps a well-formed list well-formed. */
  lemma ConsPreservesWellFormed(x: Todo, rest: seq<Todo>)
    requires WellFormed(rest) && TimerConsistent(x)
    requires forall t :: t in rest ==> t.id != x.id
    ensures WellFormed([x] + rest)
  {
    var r := [x] + rest;
    forall i, j | 0 <= i < j < |r| ensures r[i].id != r[j].id {
      assert r[j] == rest[j - 1];
      if i == 0 {
        assert r[j] in rest;
      } else {
        assert r[i] == rest[i - 1];
      }
    }
    forall i | 0 <= i < |r| ensures TimerConsistent(r[i]) {
      if i > 0 {
        assert r[i] == rest[i - 1];
      }
    }
  }

  /** Every operation on admissible inputs keeps ids unique and timers consistent. */
  lemma ApplyPreservesWellFormed(todos: seq<Todo>, op: Op)
    requires WellFormed(todos)
    requires Admissible(todos, op)
    ensures WellFormed(Apply(todos, op))
  {
    match op
    case AddOp(newId, text) =>
      var r := Add(todos, newId, text);
      assert forall i :: 0 <= i < |todos| ==> r[i] == todos[i];
    case DeleteOp(id) => DeletePreservesWellFormed(todos, id);
    case ToggleOp(id) =>
      var r := Toggle(todos, id);
      assert forall i :: 0 <= i < |todos| ==> r[i].id == Ids(r)[i] == Ids(todos)[i];
    case UpdateOp(id, text) =>
      var r := Update(todos, id, text);
      assert forall i :: 0 <= i < |todos| ==> r[i].id == Ids(r)[i] == Ids(todos)[i];
    case ToggleTimerOp(id, now) =>
      var r := ToggleTimer(todos, id, now);
      assert forall i :: 0 <= i < |todos| ==> r[i].id == Ids(r)[i] == Ids(todos)[i];
    case ReorderOp(items) =>
  }

  /** `reorder` discards the current list: its result depends only on the items given. */
  lemma ReorderReplaces(a: seq<Todo>, b: seq<Todo>, items: seq<Todo>)
    ensures Apply(a, ReorderOp(items)) == Apply(b, ReorderOp(items)) == items
  {
  }
}
