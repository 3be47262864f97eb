/**
 * The board's data: a task, the three sections, and the record
 * `{backlog, inProgress, done}` of ordered task lists that both the Markdown
 * store and the page's state use, with the searches both run over it.
 */
module Tasks {
  import opened Optional

  datatype Section = Backlog | InProgress | Done

  /** The fixed order in which every search visits the sections. */
  const Order: seq<Section> := [Backlog, InProgress, Done]

  /** Position of a section in `Order`. */
  function Rank(s: Section): (r: nat)
    ensures r < |Order| && Order[r] == s
  {
    match s
    case Backlog => 0
    case InProgress => 1
    case Done => 2
  }

  /** The section's property name in the JSON record. */
  function Key(s: Section): string
  {
    match s
    case Backlog => "backlog"
    case InProgress => "inProgress"
    case Done => "done"
  }

  /** `id in tasks` for the record's three own keys. */
  function SectionOfKey(k: string): (r: Option<Section>)
    ensures r.Some? ==> Key(r.value) == k
    ensures r.None? ==> forall s: Section :: Key(s) != k
  {
    if k == "backlog" then Some(Backlog)
    else if k == "inProgress" then Some(InProgress)
    else if k == "done" then Some(Done)
    else None
  }

  /** A task; `flagged` is false for a task that never had the property. */
  datatype Task = Task(id: string, text: string, done: bool, flagged: bool)

  datatype Sections = Sections(backlog: seq<Task>, inProgress: seq<Task>, done: seq<Task>)
  {
    /** `tasks[Key(s)]`. */
    function Get(s: Section): seq<Task>
    {
      match s
      case Backlog => backlog
      case InProgress => inProgress
      case Done => done
    }

    /** `{...tasks, [Key(s)]: l}`: only section `s` changes. */
    function With(s: Section, l: seq<Task>): (r: Sections)
      ensures r.Get(s) == l
      ensures forall o :: o != s ==> r.Get(o) == Get(o)
    {
      match s
      case Backlog => this.(backlog := l)
      case InProgress => this.(inProgress := l)
      case Done => this.(done := l)
    }

    /** Every task of the board, section by section. */
    function All(): seq<Task>
    {
      backlog + inProgress + done
    }
  }

  const Empty: Sections := Sections([], [], [])

  predicate HasId(l: seq<Task>, id: string)
  {
    exists i | 0 <= i < |l| :: l[i].id == id
  }

  /** `l.findIndex(t => t.id === id)`: the first index holding `id`, or -1. */
  function FindIndex(l: seq<Task>, id: string): (r: int)
    ensures -1 <= r < |l|
    ensures r == -1 <==> !HasId(l, id)
    ensures r >= 0 ==> l[r].id == id && forall i :: 0 <= i < r ==> l[i].id != id
  {
    if l == [] then -1
    else if l[0].id == id then 0
    else
      var k := FindIndex(l[1..], id);
      assert forall i :: 1 <= i < |l| ==> l[i] == l[1..][i - 1];
      if k == -1 then -1 else k + 1
  }

  /** The first section, in `Order`, that holds a task with this id. */
  function FirstHolder(tasks: Sections, id: string): (r: Option<Section>)
    ensures r.None? <==> forall s :: !HasId(tasks.Get(s), id)
    ensures r.Some? ==> HasId(tasks.Get(r.value), id)
    ensures r.Some? ==> forall s :: Rank(s) < Rank(r.value) ==> !HasId(tasks.Get(s), id)
  {
    if HasId(tasks.Get(Backlog), id) then Some(Backlog)
    else if HasId(tasks.Get(InProgress), id) then Some(InProgress)
    else if HasId(tasks.Get(Done), id) then Some(Done)
    else None
  }

  /** A search that visits the sections in `Order` and stops at the first hit stops at the first holder. */
  lemma FirstHolderAt(tasks: Sections, id: string, k: nat)
    requires k < |Order| && HasId(tasks.Get(Order[k]), id)
    requires forall j :: 0 <= j < k ==> !HasId(tasks.Get(Order[j]), id)
    ensures FirstHolder(tasks, id) == Some(Order[k])
  {
  }

  /** A search that visits every section in `Order` without a hit finds no holder. */
  lemma NoHolderAt(tasks: Sections, id: string)
    requires forall j :: 0 <= j < |Order| ==> !HasId(tasks.Get(Order[j]), id)
    ensures FirstHolder(tasks, id).None?
  {
    forall s: Section
      ensures !HasId(tasks.Get(s), id)
    {
      assert Order[Rank(s)] == s;
    }
  }

  /** `l.splice(i, 1)`: `l` without its element at `i`. */
  function RemoveAt(l: seq<Task>, i: nat): (r: seq<Task>)
    requires i < |l|
    ensures |r| == |l| - 1
    ensures forall k :: 0 <= k < i ==> r[k] == l[k]
    ensures forall k :: i <= k < |r| ==> r[k] == l[k + 1]
    ensures multiset(r) + multiset{l[i]} == multiset(l)
  {
    assert l == l[..i] + [l[i]] + l[i + 1..];
    l[..i] + l[i + 1..]
  }

  /** `l.splice(i, 0, x)`: `l` with `x` inserted before index `i`. */
  function Insert(l: seq<Task>, i: nat, x: Task): (r: seq<Task>)
    requires i <= |l|
    ensures |r| == |l| + 1 && r[i] == x
    ensures forall k :: 0 <= k < i ==> r[k] == l[k]
    ensures forall k :: i < k < |r| ==> r[k] == l[k - 1]
    ensures multiset(r) == multiset(l) + multiset{x}
  {
    assert l == l[..i] + l[i..];
    l[..i] + [x] + l[i..]
  }

  /** Number of tasks in `l` carrying `id`. */
  function Occurrences(l: seq<Task>, id: string): (n: nat)
    ensures n <= |l|
    ensures n == 0 <==> !HasId(l, id)
  {
    if l == [] then 0
    else
      assert forall i :: 1 <= i < |l| ==> l[i] == l[1..][i - 1];
      (if l[0].id == id then 1 else 0) + Occurrences(l[1..], id)
  }
}
