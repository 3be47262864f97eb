/**
 * The request handlers of the task route as transforms of the day file:
 * `POST` appends a new task to a section, `PUT` moves a task to the end of a
 * section, and `DELETE` removes it. Each reads the file with `parseTasks`,
 * changes the three lists, and writes the file back with
 * `generateTasksMarkdown`; `PUT` and `DELETE` write nothing when no section
 * holds the id.
 */
module TaskService {
  import opened Optional
  import opened Tasks
  import opened TaskStore
  import opened Text

  // ---------------------------------------------------------------------------
  // The list transforms

  /** `tasks[status].push(t)`: the task goes last in its section, the other sections and tasks stay. */
  function Added(tasks: Sections, status: Section, t: Task): (r: Sections)
    ensures r.Get(status) == tasks.Get(status) + [t]
    ensures forall s :: s != status ==> r.Get(s) == tasks.Get(s)
    ensures multiset(r.All()) == multiset(tasks.All()) + multiset{t}
  {
    var r := tasks.With(status, tasks.Get(status) + [t]);
    AllMultiset(r);
    AllMultiset(tasks);
    r
  }

  /**
   * The search of `PUT` and `DELETE`: the sections in `Order`, the first one
   * whose `findIndex` finds the id gives up that task with `splice`. The result
   * is the lists after the splice and the task taken out, or `None` when no
   * section holds the id.
   */
  function Take(tasks: Sections, id: string): (r: Option<(Sections, Task)>)
    ensures r.None? <==> forall s :: !HasId(tasks.Get(s), id)
    ensures r.Some? ==> r.value.1.id == id
  {
    match FirstHolder(tasks, id)
    case None => None
    case Some(h) =>
      var l := tasks.Get(h);
      var i := FindIndex(l, id);
      Some((tasks.With(h, RemoveAt(l, i)), l[i]))
  }

  /**
   * The lists `PUT` writes: the task taken out and pushed onto `status`, so it
   * ends up last there; `None`, the 404, exactly when no section holds the id.
   */
  function Moved(tasks: Sections, id: string, status: Section): (r: Option<Sections>)
    ensures r.Some? <==> exists s :: HasId(tasks.Get(s), id)
    ensures r.Some? ==> |r.value.Get(status)| > 0 && r.value.Get(status)[|r.value.Get(status)| - 1].id == id
  {
    match Take(tasks, id)
    case None => None
    case Some((rest, t)) => Some(Added(rest, status, t))
  }

  /** The lists `DELETE` writes: the task taken out; `None`, the 404, exactly when no section holds the id. */
  function Deleted(tasks: Sections, id: string): (r: Option<Sections>)
    ensures r.Some? <==> exists s :: HasId(tasks.Get(s), id)
  {
    match Take(tasks, id)
    case None => None
    case Some((rest, _)) => Some(rest)
  }

  // ---------------------------------------------------------------------------
  // The handlers

  /**
   * `POST`: parses the file, pushes `{id: newId, text, done: false}` onto
   * `status` and writes the file back. `parseNow` is the clock reading
   * `parseTasks` gives to task lines without an id, `newId` the later one that
   * names the new task.
   */
  method Post(content: string, text: string, status: Section, parseNow: string, newId: string)
    returns (newContent: string, task: Task)
    ensures task == Task(newId, text, false, false)
    ensures newContent == Generate(content, Added(Parse(content, parseNow), status, task))
  {
    var tasks := ParseTasks(content, parseNow);
    task := Task(newId, text, false, false);
    tasks := tasks.With(status, tasks.Get(status) + [task]);
    newContent := GenerateTasksMarkdown(content, tasks);
  }

  /**
   * The search loop `PUT` and `DELETE` share: the sections in `Order`, the
   * first `findIndex` hit is spliced out, then the loop breaks.
   */
  method Search(tasks: Sections, taskId: string) returns (found: Option<Task>, rest: Sections)
    ensures found.None? ==> Take(tasks, taskId).None? && rest == tasks
    ensures found.Some? ==> Take(tasks, taskId) == Some((rest, found.value))
  {
    rest := tasks;
    found := None;
    for k := 0 to |Order|
      invariant forall j :: 0 <= j < k ==> !HasId(tasks.Get(Order[j]), taskId)
      invariant found.None? && rest == tasks
    {
      var section := Order[k];
      var taskIndex := FindIndex(rest.Get(section), taskId);
      if taskIndex != -1 {
        found := Some(rest.Get(section)[taskIndex]);
        rest := rest.With(section, RemoveAt(rest.Get(section), taskIndex));
        FirstHolderAt(tasks, taskId, k);
        return;
      }
    }
    NoHolderAt(tasks, taskId);
  }

  /**
   * `PUT`: moves the task to the end of `status` and writes the file, or
   * reports that no section holds the id and leaves the file as it was.
   */
  method Put(content: string, taskId: string, status: Section, now: string)
    returns (success: bool, newContent: string)
    ensures success <==> exists s :: HasId(Parse(content, now).Get(s), taskId)
    ensures success ==> newContent == Generate(content, Moved(Parse(content, now), taskId, status).value)
    ensures !success ==> newContent == content
  {
    var tasks := ParseTasks(content, now);
    var foundTask, rest := Search(tasks, taskId);
    if foundTask.Some? {
      tasks := rest.With(status, rest.Get(status) + [foundTask.value]);
      newContent := GenerateTasksMarkdown(content, tasks);
      success := true;
    } else {
      newContent := content;
      success := false;
    }
  }

  /**
   * `DELETE`: removes the task and writes the file, or reports that no
   * section holds the id and leaves the file as it was.
   */
  method Delete(content: string, taskId: string, now: string)
    returns (success: bool, newContent: string)
    ensures success <==> exists s :: HasId(Parse(content, now).Get(s), taskId)
    ensures success ==> newContent == Generate(content, Deleted(Parse(content, now), taskId).value)
    ensures !success ==> newContent == content
  {
    var tasks := ParseTasks(content, now);
    var found, rest := Search(tasks, taskId);
    if found.Some? {
      newContent := GenerateTasksMarkdown(content, rest);
      success := true;
    } else {
      newContent := content;
      success := false;
    }
  }

  // ---------------------------------------------------------------------------
  // What the transforms do to the board

  /** The board as a multiset is the sum of the three sections. */
  lemma AllMultiset(tasks: Sections)
    ensures multiset(tasks.All()) == multiset(tasks.Get(Backlog)) + multiset(tasks.Get(InProgress)) + multiset(tasks.Get(Done))
  {
  }

  /**
   * Taking a task out is removing the first task with that id from the whole
   * board read in `Order`: the task is that one, and every other task keeps
   * its place.
   */
  lemma TakeFirstOfBoard(tasks: Sections, id: string)
    requires Take(tasks, id).Some?
    ensures var k := FindIndex(tasks.All(), id);
      0 <= k && Take(tasks, id).value.1 == tasks.All()[k]
      && Take(tasks, id).value.0.All() == RemoveAt(tasks.All(), k)
  {
    var h := FirstHolder(tasks, id).value;
    TakeShape(tasks, id, h);
    match h
    case Backlog => TakeFromBacklog(tasks, id);
    case InProgress => TakeFromInProgress(tasks, id);
    case Done => TakeFromDone(tasks, id);
  }

  /** What `Take` returns when `h` is the first holder. */
  lemma TakeShape(tasks: Sections, id: string, h: Section)
    requires FirstHolder(tasks, id) == Some(h)
    ensures var i := FindIndex(tasks.Get(h), id);
      0 <= i && Take(tasks, id) == Some((tasks.With(h, RemoveAt(tasks.Get(h), i)), tasks.Get(h)[i]))
  {
  }

  lemma TakeFromBacklog(tasks: Sections, id: string)
    requires FirstHolder(tasks, id) == Some(Backlog)
    ensures var k := FindIndex(tasks.All(), id);
      0 <= k && Take(tasks, id).value.1 == tasks.All()[k]
      && Take(tasks, id).value.0.All() == RemoveAt(tasks.All(), k)
  {
    var b, p, d := tasks.backlog, tasks.inProgress, tasks.done;
    TakeShape(tasks, id, Backlog);
    var i := FindIndex(b, id);
    var rest := tasks.With(Backlog, RemoveAt(b, i));
    assert tasks.All() == b + (p + d);
    FirstInFront(b, p + d, id);
    assert rest.All() == RemoveAt(b, i) + (p + d);
  }

  lemma TakeFromInProgress(tasks: Sections, id: string)
    requires FirstHolder(tasks, id) == Some(InProgress)
    ensures var k := FindIndex(tasks.All(), id);
      0 <= k && Take(tasks, id).value.1 == tasks.All()[k]
      && Take(tasks, id).value.0.All() == RemoveAt(tasks.All(), k)
  {
    var b, p, d := tasks.backlog, tasks.inProgress, tasks.done;
    TakeShape(tasks, id, InProgress);
    var i := FindIndex(p, id);
    var rest := tasks.With(InProgress, RemoveAt(p, i));
    assert tasks.All() == b + (p + d);
    FirstInFront(p, d, id);
    FirstBehind(b, p + d, id);
    assert rest.All() == b + (RemoveAt(p, i) + d);
  }

  lemma TakeFromDone(tasks: Sections, id: string)
    requires FirstHolder(tasks, id) == Some(Done)
    ensures var k := FindIndex(tasks.All(), id);
      0 <= k && Take(tasks, id).value.1 == tasks.All()[k]
      && Take(tasks, id).value.0.All() == RemoveAt(tasks.All(), k)
  {
    var b, p, d := tasks.backlog, tasks.inProgress, tasks.done;
    TakeShape(tasks, id, Done);
    var i := FindIndex(d, id);
    var rest := tasks.With(Done, RemoveAt(d, i));
    assert tasks.All() == b + (p + d);
    FirstBehind(p, d, id);
    FirstBehind(b, p + d, id);
    assert rest.All() == b + (p + RemoveAt(d, i));
  }

  /** The first match in `a + b`, when `a` holds the id, is the first match in `a`. */
  lemma FirstInFront(a: seq<Task>, b: seq<Task>, id: string)
    requires HasId(a, id)
    ensures var i := FindIndex(a, id); var k := FindIndex(a + b, id);
      k == i && (a + b)[k] == a[i] && RemoveAt(a + b, k) == RemoveAt(a, i) + b
  {
    var i := FindIndex(a, id);
    assert (a + b)[i] == a[i];
    assert forall j :: 0 <= j < i ==> (a + b)[j] == a[j];
    assert (a + b)[..i] == a[..i];
    assert (a + b)[i + 1..] == a[i + 1..] + b;
  }

  /** The first match in `a + b`, when only `b` holds the id, is the first match in `b`, shifted. */
  lemma FirstBehind(a: seq<Task>, b: seq<Task>, id: string)
    requires !HasId(a, id) && HasId(b, id)
    ensures var i := FindIndex(b, id); var k := FindIndex(a + b, id);
      k == |a| + i && (a + b)[k] == b[i] && RemoveAt(a + b, k) == a + RemoveAt(b, i)
  {
    var i := FindIndex(b, id);
    IndexBehind(a, b, id);
    RemoveBehind(a, b, i);
  }

  lemma IndexBehind(a: seq<Task>, b: seq<Task>, id: string)
    requires !HasId(a, id) && HasId(b, id)
    ensures FindIndex(a + b, id) == |a| + FindIndex(b, id)
  {
    var i := FindIndex(b, id);
    assert (a + b)[|a| + i] == b[i];
    assert forall j :: 0 <= j < |a| ==> (a + b)[j] == a[j];
    assert forall j :: |a| <= j < |a| + i ==> (a + b)[j] == b[j - |a|];
  }

  lemma RemoveBehind(a: seq<Task>, b: seq<Task>, i: nat)
    requires i < |b|
    ensures (a + b)[|a| + i] == b[i] && RemoveAt(a + b, |a| + i) == a + RemoveAt(b, i)
  {
    assert (a + b)[..|a| + i] == a + b[..i];
    assert (a + b)[|a| + i + 1..] == b[i + 1..];
  }

  /**
   * `DELETE` removes exactly one task, the first with that id on the board
   * read section by section; every other task keeps its section and order.
   */
  lemma DeleteRemovesFirst(tasks: Sections, id: string)
    requires Deleted(tasks, id).Some?
    ensures var k := FindIndex(tasks.All(), id);
      0 <= k && tasks.All()[k].id == id
      && Deleted(tasks, id).value.All() == RemoveAt(tasks.All(), k)
    ensures var h := FirstHolder(tasks, id).value;
      forall s :: s != h ==> Deleted(tasks, id).value.Get(s) == tasks.Get(s)
  {
    TakeFirstOfBoard(tasks, id);
  }

  /**
   * `PUT` keeps every task: the board after the move is a permutation of the
   * one before, the moved task is the last of `status`, and a section that is
   * neither the holder nor `status` is untouched.
   */
  lemma MoveKeepsTasks(tasks: Sections, id: string, status: Section)
    requires Moved(tasks, id, status).Some?
    ensures var r := Moved(tasks, id, status).value;
      multiset(r.All()) == multiset(tasks.All())
      && |r.Get(status)| > 0 && r.Get(status)[|r.Get(status)| - 1].id == id
    ensures var r := Moved(tasks, id, status).value; var h := FirstHolder(tasks, id).value;
      forall s :: s != h && s != status ==> r.Get(s) == tasks.Get(s)
  {
    var h := FirstHolder(tasks, id).value;
    TakeShape(tasks, id, h);
    var (rest, t) := Take(tasks, id).value;
    TakeKeeps(tasks, id);
  }

  /** Taking a task out keeps every other task: the board loses exactly that one. */
  lemma TakeKeeps(tasks: Sections, id: string)
    requires Take(tasks, id).Some?
    ensures multiset(Take(tasks, id).value.0.All()) + multiset{Take(tasks, id).value.1} == multiset(tasks.All())
  {
    TakeFirstOfBoard(tasks, id);
  }

  /**
   * Moving a task to the section it is in sends it to the end of that section:
   * the section loses its first task with that id and gains it at the end.
   */
  lemma MoveWithinSection(tasks: Sections, id: string)
    requires Take(tasks, id).Some?
    ensures var h := FirstHolder(tasks, id).value; var l := tasks.Get(h); var i := FindIndex(l, id);
      Moved(tasks, id, h).value.Get(h) == l[..i] + l[i + 1..] + [l[i]]
  {
  }

  /** `PUT` and `DELETE` report not-found for the same ids. */
  lemma MoveFindsIff(tasks: Sections, id: string, status: Section)
    ensures Moved(tasks, id, status).Some? <==> Deleted(tasks, id).Some?
  {
  }

  // ---------------------------------------------------------------------------
  // What a later read of the file returns

  /**
   * After a `POST` whose file has each recognised header once, the next read
   * returns the lists with the new task appended, as the rewriter renders them.
   */
  lemma PostThenRead(content: string, text: string, status: Section, parseNow: string, newId: string, now: string)
    requires forall s: Section :: HeaderCount(Split(content, '\n'), s) == 1
    requires AllRenderable(Added(Parse(content, parseNow), status, Task(newId, text, false, false)))
    ensures var tasks := Added(Parse(content, parseNow), status, Task(newId, text, false, false));
      Parse(Generate(content, tasks), now) == Normalize(tasks)
  {
    RoundTrip(content, Added(Parse(content, parseNow), status, Task(newId, text, false, false)), now);
  }
}
