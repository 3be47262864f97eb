/**
 * The board page's task state and how dragging and editing change it. The
 * page keeps the record `{backlog, inProgress, done}` as React state and a copy
 * of it in a ref, `tasksRef.current`, that a drag writes synchronously so that
 * the end of the drag sees the latest lists. A drag over a column or a task
 * moves the dragged task there; the end of the drag deletes it (dropped on the
 * trash) or asks the server to persist its section and index.
 */
module Board {
  import opened Optional
  import opened Text
  import opened Tasks

  // ---------------------------------------------------------------------------
  // Lookups

  /**
   * `findSection(id)`: a section key stands for itself; any other id names the
   * first section, in `Order`, holding a task with that id.
   */
  function FindSection(tasks: Sections, id: string): (r: Option<Section>)
    ensures SectionOfKey(id).Some? ==> r == SectionOfKey(id)
    ensures r.None? <==> SectionOfKey(id).None? && forall s :: !HasId(tasks.Get(s), id)
    ensures SectionOfKey(id).None? && r.Some? ==>
      HasId(tasks.Get(r.value), id) && forall s :: Rank(s) < Rank(r.value) ==> !HasId(tasks.Get(s), id)
  {
    if SectionOfKey(id).Some? then SectionOfKey(id) else FirstHolder(tasks, id)
  }

  /**
   * The `for (const section of ['backlog', 'inProgress', 'done'])` search with
   * `findIndex` and `break` that the drag handlers run: the first section
   * holding the id and the index of its first task with that id.
   */
  method Locate(tasks: Sections, id: string) returns (section: Option<Section>, index: int)
    ensures section == FirstHolder(tasks, id)
    ensures section.Some? ==> 0 <= index < |tasks.Get(section.value)| && index == FindIndex(tasks.Get(section.value), id)
    ensures section.None? ==> index == -1
  {
    section, index := None, -1;
    for k := 0 to |Order|
      invariant forall j :: 0 <= j < k ==> !HasId(tasks.Get(Order[j]), id)
      invariant section.None? && index == -1
    {
      var idx := FindIndex(tasks.Get(Order[k]), id);
      if idx != -1 {
        section, index := Some(Order[k]), idx;
        FirstHolderAt(tasks, id, k);
        return;
      }
    }
    NoHolderAt(tasks, id);
  }

  // ---------------------------------------------------------------------------
  // List operations

  /** `arrayMove(l, from, to)`: the element at `from` taken out and put back at `to`. */
  function ArrayMove(l: seq<Task>, from: nat, to: nat): (r: seq<Task>)
    requires from < |l| && to < |l|
    ensures |r| == |l| && r[to] == l[from]
    ensures multiset(r) == multiset(l)
  {
    Insert(RemoveAt(l, from), to, l[from])
  }

  /** Apart from the moved element, `arrayMove` keeps the others in their order. */
  lemma ArrayMoveKeepsOrder(l: seq<Task>, from: nat, to: nat)
    requires from < |l| && to < |l|
    ensures RemoveAt(ArrayMove(l, from, to), to) == RemoveAt(l, from)
  {
    var r := ArrayMove(l, from, to);
    var m := RemoveAt(l, from);
    assert forall k :: 0 <= k < |m| ==> RemoveAt(r, to)[k] == m[k];
  }

  /** `l.filter(item => item.id !== id)`. */
  function Without(l: seq<Task>, id: string): (r: seq<Task>)
    ensures !HasId(r, id)
    ensures |r| == |l| - Occurrences(l, id)
    ensures multiset(r) <= multiset(l)
    ensures forall t :: t in l && t.id != id ==> t in r
  {
    if l == [] then []
    else
      var rest := Without(l[1..], id);
      assert l == [l[0]] + l[1..];
      if l[0].id == id then rest else [l[0]] + rest
  }

  /** `filter` keeps the order: filtering a concatenation filters each part. */
  lemma {:induction false} WithoutAppend(a: seq<Task>, b: seq<Task>, id: string)
    ensures Without(a + b, id) == Without(a, id) + Without(b, id)
    decreases |a|
  {
    if a == [] {
      assert a + b == b;
      assert Without(a, id) == [];
    } else {
      assert a == [a[0]] + a[1..];
      assert a + b == [a[0]] + (a[1..] + b);
      WithoutAppend(a[1..], b, id);
      WithoutAppendStep(a[0], a[1..], b, id);
    }
  }

  /** The induction step of `WithoutAppend`: one more task in front of the first part. */
  lemma WithoutAppendStep(t: Task, rest: seq<Task>, b: seq<Task>, id: string)
    requires Without(rest + b, id) == Without(rest, id) + Without(b, id)
    ensures Without([t] + (rest + b), id) == Without([t] + rest, id) + Without(b, id)
  {
    WithoutCons(t, rest + b, id);
    WithoutCons(t, rest, id);
    ConcatAssoc(if t.id == id then [] else [t], Without(rest, id), Without(b, id));
  }

  lemma ConcatAssoc(x: seq<Task>, p: seq<Task>, q: seq<Task>)
    ensures x + (p + q) == (x + p) + q
  {
  }

  /** One step of the filter: the head is kept exactly when its id differs. */
  lemma WithoutCons(t: Task, rest: seq<Task>, id: string)
    ensures Without([t] + rest, id) == (if t.id == id then [] else [t]) + Without(rest, id)
  {
    assert ([t] + rest)[1..] == rest;
  }

  // ---------------------------------------------------------------------------
  // handleDragOver

  /**
   * The `setTasks` updater of `handleDragOver`: `None` when it returns `prev`
   * unchanged, otherwise the new record, which it also stores in the ref.
   * `over` is the id of what the task is dragged over, a column key or a task
   * id; `isBelow` is the geometric test that the dragged task is below the
   * task it is over.
   */
  function DragOver(prev: Sections, activeId: string, over: string, isBelow: bool): (r: Option<Sections>)
    ensures r.Some? ==>
      FirstHolder(prev, activeId).Some? && (SectionOfKey(over).Some? || FirstHolder(prev, over).Some?)
    ensures r.Some? ==>
      var from := FirstHolder(prev, activeId).value;
      var to := if SectionOfKey(over).Some? then SectionOfKey(over).value else FirstHolder(prev, over).value;
      forall o :: o != from && o != to ==> r.value.Get(o) == prev.Get(o)
  {
    var column := SectionOfKey(over);
    match FirstHolder(prev, activeId)
    case None => None
    case Some(from) =>
      var overSection := if column.Some? then column else FirstHolder(prev, over);
      match overSection
      case None => None
      case Some(to) =>
        if from == to && column.None? then Reorder(prev, from, activeId, over)
        else Some(Place(prev, from, to, activeId, if column.Some? then None else Some(over), isBelow))
  }

  /**
   * Over another task of the same section: `arrayMove` from the dragged
   * task's index to the other's, or `prev` when the two indices coincide.
   */
  function Reorder(prev: Sections, s: Section, activeId: string, over: string): Option<Sections>
    requires HasId(prev.Get(s), activeId) && HasId(prev.Get(s), over)
  {
    var l := prev.Get(s);
    var activeIndex := FindIndex(l, activeId);
    var overIndex := FindIndex(l, over);
    if activeIndex == overIndex then None
    else Some(prev.With(s, ArrayMove(l, activeIndex, overIndex)))
  }

  /**
   * Into section `to`, at the over task's index (one further when below it) or
   * at the end when `overTask` is `None` (over the column): the dragged task is
   * inserted into a copy of the target; in another section every task with
   * its id also leaves the source, in the same section the source keeps it.
   */
  function Place(prev: Sections, from: Section, to: Section, activeId: string, overTask: Option<string>, isBelow: bool): Sections
    requires HasId(prev.Get(from), activeId)
    requires overTask.Some? ==> HasId(prev.Get(to), overTask.value)
  {
    var source := prev.Get(from);
    var target := prev.Get(to);
    var activeTask := source[FindIndex(source, activeId)];
    var newTarget := Insert(target, PlaceIndex(target, overTask, isBelow), activeTask);
    if from == to then prev.With(from, newTarget)
    else prev.With(from, Without(source, activeId)).With(to, newTarget)
  }

  /** Into another section: the source loses the dragged id, the target gains the task, the third section stays. */
  lemma PlaceAcross(prev: Sections, from: Section, to: Section, activeId: string, overTask: Option<string>, isBelow: bool)
    requires from != to && HasId(prev.Get(from), activeId)
    requires overTask.Some? ==> HasId(prev.Get(to), overTask.value)
    ensures var source := prev.Get(from); var target := prev.Get(to);
      var newIndex := if overTask.None? then |target| else FindIndex(target, overTask.value) + (if isBelow then 1 else 0);
      var r := Place(prev, from, to, activeId, overTask, isBelow);
      r.Get(from) == Without(source, activeId)
      && r.Get(to) == Insert(target, newIndex, source[FindIndex(source, activeId)])
      && forall o :: o != from && o != to ==> r.Get(o) == prev.Get(o)
  {
  }

  /** Where the dragged task goes in the target: after its last task over the column, else at (or just below) the over task. */
  function PlaceIndex(target: seq<Task>, overTask: Option<string>, isBelow: bool): (i: nat)
    requires overTask.Some? ==> HasId(target, overTask.value)
    ensures i <= |target|
  {
    if overTask.None? then |target| else FindIndex(target, overTask.value) + (if isBelow then 1 else 0)
  }

  /** The state change of `handleDragOver`: no `over`, an empty id or the task over itself change nothing. */
  function DragOverEvent(prev: Sections, activeId: string, overId: Option<string>, isBelow: bool): (r: Option<Sections>)
    ensures r.None? <==>
      overId.None? || overId.value == "" || activeId == overId.value
      || (forall s :: !HasId(prev.Get(s), activeId))
      || (SectionOfKey(overId.value).None? && forall s :: !HasId(prev.Get(s), overId.value))
  {
    if overId.None? || overId.value == "" || activeId == overId.value then None
    else
      DragOverUnchangedIff(prev, activeId, overId.value, isBelow);
      DragOver(prev, activeId, overId.value, isBelow)
  }

  /**
   * The updater of `handleDragOver` as the page runs it: two section searches,
   * then either an `arrayMove` within the section, or a `filter` of the source
   * and a `splice` into a copy of the target.
   */
  method DragOverUpdater(prev: Sections, activeId: string, over: string, isBelow: bool)
    returns (next: Option<Sections>)
    ensures next == DragOver(prev, activeId, over, isBelow)
  {
    var column := SectionOfKey(over);
    var activeSection, activeIndex := Locate(prev, activeId);
    if activeSection.None? {
      return None;
    }
    var overSection: Option<Section> := None;
    var overIndex := -1;
    if column.Some? {
      overSection := column;
    } else {
      overSection, overIndex := Locate(prev, over);
    }
    if overSection.None? {
      return None;
    }
    var from, to := activeSection.value, overSection.value;
    if from == to && column.None? {
      next := ReorderStep(prev, from, activeIndex, overIndex, activeId, over);
    } else {
      var placed := PlaceStep(prev, from, to, activeIndex, overIndex, activeId, if column.Some? then None else Some(over), isBelow);
      next := Some(placed);
    }
  }

  /** The `arrayMove` branch of the updater, given the two indices the searches found. */
  method ReorderStep(prev: Sections, s: Section, activeIndex: int, overIndex: int, activeId: string, over: string)
    returns (next: Option<Sections>)
    requires HasId(prev.Get(s), activeId) && HasId(prev.Get(s), over)
    requires activeIndex == FindIndex(prev.Get(s), activeId) && overIndex == FindIndex(prev.Get(s), over)
    ensures next == Reorder(prev, s, activeId, over)
  {
    if activeIndex == overIndex {
      return None;
    }
    var newItems := ArrayMove(prev.Get(s), activeIndex, overIndex);
    next := Some(prev.With(s, newItems));
  }

  /** The `filter` and `splice` branch of the updater, given the indices the searches found. */
  method PlaceStep(prev: Sections, from: Section, to: Section, activeIndex: int, overIndex: int,
                   activeId: string, overTask: Option<string>, isBelow: bool)
    returns (next: Sections)
    requires HasId(prev.Get(from), activeId) && activeIndex == FindIndex(prev.Get(from), activeId)
    requires overTask.Some? ==> HasId(prev.Get(to), overTask.value) && overIndex == FindIndex(prev.Get(to), overTask.value)
    ensures next == Place(prev, from, to, activeId, overTask, isBelow)
  {
    var activeTask := prev.Get(from)[activeIndex];
    var newIndex;
    if overTask.None? {
      newIndex := |prev.Get(to)|;
    } else {
      newIndex := overIndex + (if isBelow then 1 else 0);
    }
    assert newIndex == PlaceIndex(prev.Get(to), overTask, isBelow);
    var newSourceItems := Without(prev.Get(from), activeId);
    var newTargetItems := Insert(prev.Get(to), newIndex, activeTask);
    if from == to {
      return prev.With(from, newTargetItems);
    }
    next := prev.With(from, newSourceItems).With(to, newTargetItems);
  }

  /**
   * The updater returns `prev` exactly when the dragged task is in no section,
   * or `over` is neither a section key nor the id of a task on the board.
   */
  lemma DragOverUnchangedIff(prev: Sections, activeId: string, over: string, isBelow: bool)
    requires activeId != over
    ensures DragOver(prev, activeId, over, isBelow).None? <==>
      (forall s :: !HasId(prev.Get(s), activeId))
      || (SectionOfKey(over).None? && forall s :: !HasId(prev.Get(s), over))
  {
    var from := FirstHolder(prev, activeId);
    var to := FirstHolder(prev, over);
    if from.Some? && SectionOfKey(over).None? && to.Some? && from.value == to.value {
      var l := prev.Get(from.value);
      assert l[FindIndex(l, activeId)].id != l[FindIndex(l, over)].id;
    }
  }

  /**
   * Over another task of the same section, the section is reordered with
   * `arrayMove`: the same tasks, the dragged one now where the other was, the
   * rest in their order; the other sections are untouched.
   */
  lemma DragOverSameSection(prev: Sections, activeId: string, over: string, isBelow: bool)
    requires activeId != over && SectionOfKey(over).None?
    requires FirstHolder(prev, activeId).Some? && FirstHolder(prev, activeId) == FirstHolder(prev, over)
    ensures var s := FirstHolder(prev, activeId).value; var l := prev.Get(s);
      var i := FindIndex(l, activeId); var j := FindIndex(l, over);
      var r := DragOver(prev, activeId, over, isBelow);
      r.Some? && multiset(r.value.Get(s)) == multiset(l) && |r.value.Get(s)| == |l|
      && r.value.Get(s)[j] == l[i] && RemoveAt(r.value.Get(s), j) == RemoveAt(l, i)
      && forall o :: o != s ==> r.value.Get(o) == prev.Get(o)
  {
    var s := FirstHolder(prev, activeId).value;
    var l := prev.Get(s);
    var i, j := FindIndex(l, activeId), FindIndex(l, over);
    assert l[i].id != l[j].id;
    ArrayMoveKeepsOrder(l, i, j);
  }

  /**
   * Into another section: every task with the dragged id leaves the source,
   * the dragged task enters the target at the over task's index (one further
   * when below it, at the end when over the column), and the third section is
   * untouched.
   */
  lemma DragOverAcross(prev: Sections, activeId: string, over: string, isBelow: bool)
    requires activeId != over
    requires FirstHolder(prev, activeId).Some? && FindSection(prev, over).Some?
    requires FirstHolder(prev, activeId) != FindSection(prev, over)
    ensures var from := FirstHolder(prev, activeId).value; var to := FindSection(prev, over).value;
      var source := prev.Get(from); var target := prev.Get(to);
      var newIndex := if SectionOfKey(over).Some? then |target| else FindIndex(target, over) + (if isBelow then 1 else 0);
      var r := DragOver(prev, activeId, over, isBelow);
      r.Some? && r.value.Get(from) == Without(source, activeId)
      && 0 <= newIndex <= |target| && r.value.Get(to) == Insert(target, newIndex, source[FindIndex(source, activeId)])
      && forall o :: o != from && o != to ==> r.value.Get(o) == prev.Get(o)
  {
    var from := FirstHolder(prev, activeId).value;
    var to := FindSection(prev, over).value;
    var overTask := if SectionOfKey(over).Some? then None else Some(over);
    AcrossIsPlace(prev, activeId, over, isBelow);
    PlaceAcross(prev, from, to, activeId, overTask, isBelow);
  }

  /** Into another section, the updater's result is the placement at the column's end or at the over task. */
  lemma AcrossIsPlace(prev: Sections, activeId: string, over: string, isBelow: bool)
    requires FirstHolder(prev, activeId).Some? && FindSection(prev, over).Some?
    requires FirstHolder(prev, activeId) != FindSection(prev, over)
    ensures FindSection(prev, over).value != FirstHolder(prev, activeId).value
    ensures SectionOfKey(over).None? ==> HasId(prev.Get(FindSection(prev, over).value), over)
    ensures DragOver(prev, activeId, over, isBelow)
      == Some(Place(prev, FirstHolder(prev, activeId).value, FindSection(prev, over).value, activeId,
                    if SectionOfKey(over).Some? then None else Some(over), isBelow))
  {
  }

  /**
   * With the dragged id on one task only, a move into another section keeps
   * the number of tasks on the board.
   */
  lemma DragOverAcrossKeepsCount(prev: Sections, activeId: string, over: string, isBelow: bool)
    requires activeId != over
    requires FirstHolder(prev, activeId).Some? && FindSection(prev, over).Some?
    requires FirstHolder(prev, activeId) != FindSection(prev, over)
    requires Occurrences(prev.Get(FirstHolder(prev, activeId).value), activeId) == 1
    ensures |DragOver(prev, activeId, over, isBelow).value.All()| == |prev.All()|
  {
    var from := FirstHolder(prev, activeId).value;
    var to := FindSection(prev, over).value;
    DragOverAcross(prev, activeId, over, isBelow);
    var r := DragOver(prev, activeId, over, isBelow).value;
    CountKept(prev, r, from, to, activeId);
  }

  /** Filtering one task out of one section and inserting one into another keeps the board's size. */
  lemma CountKept(prev: Sections, r: Sections, from: Section, to: Section, activeId: string)
    requires from != to && Occurrences(prev.Get(from), activeId) == 1
    requires r.Get(from) == Without(prev.Get(from), activeId) && |r.Get(to)| == |prev.Get(to)| + 1
    requires forall o :: o != from && o != to ==> r.Get(o) == prev.Get(o)
    ensures |r.All()| == |prev.All()|
  {
    AllLength(r);
    AllLength(prev);
  }

  lemma AllLength(x: Sections)
    ensures |x.All()| == |x.Get(Backlog)| + |x.Get(InProgress)| + |x.Get(Done)|
  {
  }

  /**
   * Over its own column's empty area the dragged task is inserted a second
   * time at the end of its section, and the original stays where it was.
   */
  lemma DragOverOwnColumnDuplicates(prev: Sections, activeId: string, isBelow: bool)
    requires FirstHolder(prev, activeId).Some?
    ensures var s := FirstHolder(prev, activeId).value; var l := prev.Get(s);
      var r := DragOver(prev, activeId, Key(s), isBelow);
      r.Some? && r.value.Get(s) == l + [l[FindIndex(l, activeId)]]
      && Occurrences(r.value.Get(s), activeId) == Occurrences(l, activeId) + 1
  {
    var s := FirstHolder(prev, activeId).value;
    var l := prev.Get(s);
    var t := l[FindIndex(l, activeId)];
    OverColumn(prev, activeId, s, isBelow);
    assert Place(prev, s, s, activeId, None, isBelow).Get(s) == Insert(l, |l|, t);
    assert Insert(l, |l|, t) == l + [t];
    OccurrencesSnoc(l, t, activeId);
  }

  /**
   * The updater with its same-section column branch doing what its comment
   * says, "just move to end": the dragged task leaves its place and is put
   * once at the end of its own section.
   */
  function DragOverCorrected(prev: Sections, activeId: string, over: string, isBelow: bool): Option<Sections>
  {
    var from := FirstHolder(prev, activeId);
    if from.Some? && SectionOfKey(over) == from then
      var l := prev.Get(from.value);
      Some(prev.With(from.value, Without(l, activeId) + [l[FindIndex(l, activeId)]]))
    else DragOver(prev, activeId, over, isBelow)
  }

  /**
   * Corrected, a drag over the task's own column leaves exactly one task with
   * its id, at the end of the section; with the id on one task only the
   * section keeps the same tasks, and the other sections are untouched.
   */
  lemma OwnColumnMovesToEnd(prev: Sections, activeId: string, isBelow: bool)
    requires FirstHolder(prev, activeId).Some?
    ensures var s := FirstHolder(prev, activeId).value; var l := prev.Get(s);
      var r := DragOverCorrected(prev, activeId, Key(s), isBelow);
      r.Some? && |r.value.Get(s)| > 0 && r.value.Get(s)[|r.value.Get(s)| - 1] == l[FindIndex(l, activeId)]
      && Occurrences(r.value.Get(s), activeId) == 1
      && (Occurrences(l, activeId) == 1 ==> multiset(r.value.Get(s)) == multiset(l))
      && forall o :: o != s ==> r.value.Get(o) == prev.Get(o)
  {
    var s := FirstHolder(prev, activeId).value;
    var l := prev.Get(s);
    var t := l[FindIndex(l, activeId)];
    KeyIsColumn(s);
    OccurrencesSnoc(Without(l, activeId), t, activeId);
    if Occurrences(l, activeId) == 1 {
      WithoutSingle(l, activeId);
    }
  }

  /** Filtering out the only task with an id leaves the rest of the list. */
  lemma {:induction false} WithoutSingle(l: seq<Task>, id: string)
    requires Occurrences(l, id) == 1
    ensures FindIndex(l, id) >= 0
    ensures multiset(Without(l, id)) + multiset{l[FindIndex(l, id)]} == multiset(l)
  {
    assert l == [l[0]] + l[1..];
    if l[0].id == id {
      assert Occurrences(l[1..], id) == 0;
      assert Without(l[1..], id) == l[1..] by {
        WithoutNone(l[1..], id);
      }
    } else {
      WithoutSingle(l[1..], id);
    }
  }

  lemma {:induction false} WithoutNone(l: seq<Task>, id: string)
    requires !HasId(l, id)
    ensures Without(l, id) == l
  {
    if l != [] {
      assert l[0].id != id;
      assert !HasId(l[1..], id) by {
        forall i | 0 <= i < |l[1..]| ensures l[1..][i].id != id {
          assert l[1..][i] == l[i + 1];
        }
      }
      WithoutNone(l[1..], id);
    }
  }

  lemma {:induction false} OccurrencesSnoc(l: seq<Task>, t: Task, id: string)
    ensures Occurrences(l + [t], id) == Occurrences(l, id) + (if t.id == id then 1 else 0)
  {
    if l != [] {
      assert (l + [t])[1..] == l[1..] + [t];
      OccurrencesSnoc(l[1..], t, id);
    }
  }

  // ---------------------------------------------------------------------------
  // handleDragEnd

  /** What the end of a drag asks the server to do. */
  datatype DropAction =
    | DeleteTask(taskId: string)
    | Persist(taskId: string, status: Section, newIndex: nat)
    | NotFoundInRef

  /**
   * `handleDragEnd`: a drop on `trash` deletes the task; otherwise the first
   * section of the ref's record holding the task, with its index there, is
   * sent to be persisted.
   */
  function DragEnd(current: Sections, activeId: string, overId: Option<string>): (a: DropAction)
    ensures a.DeleteTask? <==> overId == Some("trash")
    ensures a.Persist? ==> (a.taskId == activeId && a.newIndex < |current.Get(a.status)|
      && current.Get(a.status)[a.newIndex].id == activeId
      && (forall s :: Rank(s) < Rank(a.status) ==> !HasId(current.Get(s), activeId))
      && (forall k :: 0 <= k < a.newIndex ==> current.Get(a.status)[k].id != activeId))
    ensures a.NotFoundInRef? <==> overId != Some("trash") && forall s :: !HasId(current.Get(s), activeId)
  {
    if overId == Some("trash") then DeleteTask(activeId)
    else
      match FirstHolder(current, activeId)
      case None => NotFoundInRef
      case Some(s) => Persist(activeId, s, FindIndex(current.Get(s), activeId))
  }

  // ---------------------------------------------------------------------------
  // saveEdit and toggleFlag

  /** `l.map(t => t.id === id ? {...t, text} : t)`. */
  function Retext(l: seq<Task>, id: string, text: string): (r: seq<Task>)
    ensures |r| == |l|
    ensures forall i :: 0 <= i < |l| ==> r[i] == (if l[i].id == id then l[i].(text := text) else l[i])
  {
    if l == [] then [] else [if l[0].id == id then l[0].(text := text) else l[0]] + Retext(l[1..], id, text)
  }

  /**
   * The `saveEdit` updater. Saving an edit changes only the text, and only of
   * the tasks with that id in the named section; lengths, order, ids and the
   * other fields stay, and a text that is blank after trimming changes nothing.
   */
  function SaveEdited(prev: Sections, taskId: string, newText: string, section: Section): (r: Sections)
    ensures forall s :: (|r.Get(s)| == |prev.Get(s)|
      && forall i :: 0 <= i < |prev.Get(s)| ==>
        var t, u := prev.Get(s)[i], r.Get(s)[i];
        u.id == t.id && u.done == t.done && u.flagged == t.flagged
        && u.text == (if s == section && t.id == taskId && Trim(newText) != [] then newText else t.text))
  {
    if Trim(newText) == [] then prev
    else prev.With(section, Retext(prev.Get(section), taskId, newText))
  }

  /** Saving the same edit twice is saving it once. */
  lemma SaveEditIdempotent(prev: Sections, taskId: string, newText: string, section: Section)
    ensures SaveEdited(SaveEdited(prev, taskId, newText, section), taskId, newText, section)
      == SaveEdited(prev, taskId, newText, section)
  {
    var once := SaveEdited(prev, taskId, newText, section);
    var twice := SaveEdited(once, taskId, newText, section);
    forall s ensures twice.Get(s) == once.Get(s) {
    }
    SameSections(twice, once);
  }

  /** `l.map(t => t.id === id ? {...t, flagged: !t.flagged} : t)`. */
  function Reflag(l: seq<Task>, id: string): (r: seq<Task>)
    ensures |r| == |l|
    ensures forall i :: 0 <= i < |l| ==> r[i] == (if l[i].id == id then l[i].(flagged := !l[i].flagged) else l[i])
  {
    if l == [] then [] else [if l[0].id == id then l[0].(flagged := !l[0].flagged) else l[0]] + Reflag(l[1..], id)
  }

  /** The `toggleFlag` updater: it negates `flagged` on the tasks with that id in the named section and changes nothing else. */
  function Toggled(prev: Sections, taskId: string, section: Section): (r: Sections)
    ensures forall s :: (|r.Get(s)| == |prev.Get(s)|
      && forall i :: 0 <= i < |prev.Get(s)| ==>
        var t, u := prev.Get(s)[i], r.Get(s)[i];
        u.id == t.id && u.text == t.text && u.done == t.done
        && u.flagged == (if s == section && t.id == taskId then !t.flagged else t.flagged))
  {
    prev.With(section, Reflag(prev.Get(section), taskId))
  }

  /** Toggling twice gives back the record. */
  lemma ToggleTwice(prev: Sections, taskId: string, section: Section)
    ensures Toggled(Toggled(prev, taskId, section), taskId, section) == prev
  {
    var twice := Toggled(Toggled(prev, taskId, section), taskId, section);
    forall s ensures twice.Get(s) == prev.Get(s) {
      if s == section {
        assert twice.Get(s) == Reflag(Reflag(prev.Get(s), taskId), taskId);
      }
    }
    SameSections(twice, prev);
  }

  /** Two records with the same three lists are the same. */
  lemma SameSections(a: Sections, b: Sections)
    requires forall s :: a.Get(s) == b.Get(s)
    ensures a == b
  {
    assert a.Get(Backlog) == b.Get(Backlog);
    assert a.Get(InProgress) == b.Get(InProgress);
    assert a.Get(Done) == b.Get(Done);
  }

  // ---------------------------------------------------------------------------
  // The page's state

  /**
   * The page's `tasks` state and `tasksRef.current`. Updates of the state go
   * through `setTasks` updaters applied to the latest state; the ref is written
   * by the drag and flag updaters, and by the effect that copies the state
   * after a render.
   */
  class Page {
    var tasks: Sections
    var current: Sections

    /** `useState({backlog: [], inProgress: [], done: []})` and `useRef(tasks)`. */
    constructor ()
      ensures tasks == Empty && current == Empty
    {
      tasks := Empty;
      current := Empty;
    }

    /** The effect that keeps `tasksRef.current` in step with the state after a render. */
    method SyncRef()
      modifies this
      ensures tasks == old(tasks) && current == tasks
    {
      current := tasks;
    }

    /**
     * `handleDragOver`: without an `over` id, or over itself, nothing happens;
     * otherwise the updater runs, and a new record goes to both the state and
     * the ref.
     */
    method HandleDragOver(activeId: string, overId: Option<string>, isBelow: bool)
      modifies this
      ensures var r := DragOverEvent(old(tasks), activeId, overId, isBelow);
        tasks == (if r.Some? then r.value else old(tasks))
        && current == (if r.Some? then r.value else old(current))
    {
      if overId.None? || overId.value == "" || activeId == overId.value {
        return;
      }
      var next := DragOverUpdater(tasks, activeId, overId.value, isBelow);
      if next.Some? {
        current := next.value;
        tasks := next.value;
      }
    }

    /** `handleDragEnd`: reads the ref with the section search. */
    method HandleDragEnd(activeId: string, overId: Option<string>) returns (action: DropAction)
      ensures action == DragEnd(current, activeId, overId)
    {
      if overId == Some("trash") {
        return DeleteTask(activeId);
      }
      var endSection, endIndex := Locate(current, activeId);
      if endSection.Some? && endIndex != -1 {
        action := Persist(activeId, endSection.value, endIndex);
      } else {
        action := NotFoundInRef;
      }
    }

    /** `saveEdit`'s optimistic update. */
    method SaveEdit(taskId: string, newText: string, section: Section)
      modifies this
      ensures tasks == SaveEdited(old(tasks), taskId, newText, section) && current == old(current)
    {
      if Trim(newText) == [] {
        return;
      }
      tasks := tasks.With(section, Retext(tasks.Get(section), taskId, newText));
    }

    /** `toggleFlag`'s optimistic update, which also writes the ref. */
    method ToggleFlag(taskId: string, section: Section)
      modifies this
      ensures tasks == Toggled(old(tasks), taskId, section) && current == tasks
    {
      var newTasks := tasks.With(section, Reflag(tasks.Get(section), taskId));
      current := newTasks;
      tasks := newTasks;
    }
  }

  // ---------------------------------------------------------------------------
  // A drag followed by its drop

  /**
   * A drag over another section's column, then the drop: with the dragged id
   * on no task of the target or of the sections searched before it, the end
   * of the drag persists the target section and the index at its end.
   */
  lemma DropOnColumnPersistsEnd(prev: Sections, activeId: string, to: Section, isBelow: bool)
    requires FirstHolder(prev, activeId).Some? && FirstHolder(prev, activeId).value != to
    requires !HasId(prev.Get(to), activeId)
    requires forall s :: Rank(s) < Rank(to) && s != FirstHolder(prev, activeId).value ==> !HasId(prev.Get(s), activeId)
    ensures var r := DragOver(prev, activeId, Key(to), isBelow);
      r.Some? && DragEnd(r.value, activeId, Some(Key(to))) == Persist(activeId, to, |prev.Get(to)|)
  {
    var from := FirstHolder(prev, activeId).value;
    var l := prev.Get(from);
    var t := l[FindIndex(l, activeId)];
    var r := Place(prev, from, to, activeId, None, isBelow);
    OverColumn(prev, activeId, to, isBelow);
    AppendAcross(prev, from, to, activeId, isBelow, r);
    DroppedAtEnd(prev, r, from, to, t, activeId);
  }

  /** Over another section's column, the dragged task is appended to that section and filtered out of its own. */
  lemma AppendAcross(prev: Sections, from: Section, to: Section, activeId: string, isBelow: bool, r: Sections)
    requires from != to && HasId(prev.Get(from), activeId)
    requires r == Place(prev, from, to, activeId, None, isBelow)
    ensures var l := prev.Get(from);
      r.Get(from) == Without(l, activeId) && r.Get(to) == prev.Get(to) + [l[FindIndex(l, activeId)]]
      && forall o :: o != from && o != to ==> r.Get(o) == prev.Get(o)
  {
    var l := prev.Get(from);
    PlaceAcross(prev, from, to, activeId, None, isBelow);
    assert Insert(prev.Get(to), |prev.Get(to)|, l[FindIndex(l, activeId)]) == prev.Get(to) + [l[FindIndex(l, activeId)]];
  }

  /** Over a section's column, the updater places the dragged task at that column's end. */
  lemma OverColumn(prev: Sections, activeId: string, to: Section, isBelow: bool)
    requires FirstHolder(prev, activeId).Some?
    ensures DragOver(prev, activeId, Key(to), isBelow) == Some(Place(prev, FirstHolder(prev, activeId).value, to, activeId, None, isBelow))
  {
    KeyIsColumn(to);
  }

  /** The drop after the dragged task was appended to `to` and filtered out of its source persists that end. */
  lemma DroppedAtEnd(prev: Sections, r: Sections, from: Section, to: Section, t: Task, activeId: string)
    requires from != to && t.id == activeId && !HasId(prev.Get(to), activeId)
    requires r.Get(from) == Without(prev.Get(from), activeId) && r.Get(to) == prev.Get(to) + [t]
    requires forall o :: o != from && o != to ==> r.Get(o) == prev.Get(o)
    requires forall s :: Rank(s) < Rank(to) && s != from ==> !HasId(prev.Get(s), activeId)
    ensures DragEnd(r, activeId, Some(Key(to))) == Persist(activeId, to, |prev.Get(to)|)
  {
    EarlierWithout(prev, r, from, to, activeId);
    EndHolder(r, to, prev.Get(to), t, activeId);
    KeyIsColumn(to);
  }

  /** Sections searched before `to` lack the id once the source has been filtered. */
  lemma EarlierWithout(prev: Sections, r: Sections, from: Section, to: Section, activeId: string)
    requires r.Get(from) == Without(prev.Get(from), activeId)
    requires forall o :: o != from && o != to ==> r.Get(o) == prev.Get(o)
    requires forall s :: Rank(s) < Rank(to) && s != from ==> !HasId(prev.Get(s), activeId)
    ensures forall s :: Rank(s) < Rank(to) ==> !HasId(r.Get(s), activeId)
  {
  }

  /** A section ending in the only task with an id, after sections without it, is where the search stops. */
  lemma EndHolder(r: Sections, to: Section, target: seq<Task>, t: Task, activeId: string)
    requires r.Get(to) == target + [t] && t.id == activeId && !HasId(target, activeId)
    requires forall s :: Rank(s) < Rank(to) ==> !HasId(r.Get(s), activeId)
    ensures FirstHolder(r, activeId) == Some(to) && FindIndex(r.Get(to), activeId) == |target|
  {
    FirstAtEnd(target, t, activeId);
    assert Rank(Order[0]) == 0 && Rank(Order[1]) == 1;
    FirstHolderAt(r, activeId, Rank(to));
  }

  /** A section's key names that section's column, and it is not the trash. */
  lemma KeyIsColumn(s: Section)
    ensures SectionOfKey(Key(s)) == Some(s) && Key(s) != "trash"
  {
  }

  lemma FirstAtEnd(l: seq<Task>, t: Task, id: string)
    requires !HasId(l, id) && t.id == id
    ensures FindIndex(l + [t], id) == |l|
  {
    assert (l + [t])[|l|] == t;
    assert forall k :: 0 <= k < |l| ==> (l + [t])[k].id != id;
  }
}
