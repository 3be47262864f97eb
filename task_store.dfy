/**
 * The Markdown day file of the task tracker and its two passes: reading the
 * three task lists out of it and rewriting it with new lists, keeping every
 * other line. A line is a header when it starts with one of three header
 * texts; a line starting with `- [` after a header is a task of the most
 * recent header. Task lines are written as `- [ ] [#id] text` (or `- [x]`
 * under Done).
 */
module TaskStore {
  import opened Optional
  import opened Text
  import opened Tasks

  const BacklogHeader: string := "## 📋 Backlog"
  const InProgressHeader: string := "## 🚀 In Progress"
  const DoneHeader: string := "## ✅ Done"
  /** Written by the skeleton, but neither the parser nor the rewriter recognises it. */
  const SleepHeader: string := "## 💤 睡眠后台任务"
  const TaskPrefix: string := "- ["
  const CheckedBox: string := "- [x]"

  function Header(s: Section): string
  {
    match s
    case Backlog => BacklogHeader
    case InProgress => InProgressHeader
    case Done => DoneHeader
  }

  /** The recognised header a line starts with, checked in Backlog, In Progress, Done order. */
  function HeaderOf(line: string): Option<Section>
  {
    if StartsWith(line, Header(Backlog)) then Some(Backlog)
    else if StartsWith(line, Header(InProgress)) then Some(InProgress)
    else if StartsWith(line, Header(Done)) then Some(Done)
    else None
  }

  /** A line is a header of the section found, and no header at all when none is found. */
  lemma HeaderOfMeans(line: string)
    ensures HeaderOf(line).Some? ==> StartsWith(line, Header(HeaderOf(line).value))
    ensures HeaderOf(line).None? <==> forall s: Section :: !StartsWith(line, Header(s))
  {
  }


  // ---------------------------------------------------------------------------
  // The section cursor

  /** The cursor after reading `line`: a recognised header moves it, any other line leaves it. */
  function NextCursor(cursor: Option<Section>, line: string): Option<Section>
  {
    if HeaderOf(line).Some? then HeaderOf(line) else cursor
  }

  function CursorAfter(cursor: Option<Section>, lines: seq<string>): Option<Section>
    decreases |lines|
  {
    if lines == [] then cursor else CursorAfter(NextCursor(cursor, lines[0]), lines[1..])
  }

  /** The last recognised header among `lines`, if any. */
  function LastHeader(lines: seq<string>): Option<Section>
  {
    if lines == [] then None
    else if HeaderOf(lines[|lines| - 1]).Some? then HeaderOf(lines[|lines| - 1])
    else LastHeader(lines[..|lines| - 1])
  }

  /** A task line: starts with `- [`, is no header, and some header came before it. */
  predicate IsTaskLine(cursor: Option<Section>, line: string)
  {
    HeaderOf(line).None? && StartsWith(line, TaskPrefix) && cursor.Some?
  }

  lemma {:induction false} CursorAfterAppend(cursor: Option<Section>, a: seq<string>, b: seq<string>)
    ensures CursorAfter(cursor, a + b) == CursorAfter(CursorAfter(cursor, a), b)
    decreases |a|
  {
    if a == [] {
      assert a + b == b;
    } else {
      assert (a + b)[1..] == a[1..] + b;
      CursorAfterAppend(NextCursor(cursor, a[0]), a[1..], b);
    }
  }

  /** The cursor is the most recently seen recognised header, or where it started when there was none. */
  lemma {:induction false} CursorIsLastHeader(cursor: Option<Section>, lines: seq<string>)
    ensures CursorAfter(cursor, lines) == if LastHeader(lines).Some? then LastHeader(lines) else cursor
    decreases |lines|
  {
    if lines != [] {
      var init := lines[..|lines| - 1];
      var last := lines[|lines| - 1];
      assert lines == init + [last];
      CursorAfterAppend(cursor, init, [last]);
      CursorIsLastHeader(cursor, init);
    }
  }

  // ---------------------------------------------------------------------------
  // Fields of a task line

  predicate IsIdChar(c: char)
  {
    ('a' <= c <= 'z') || ('A' <= c <= 'Z') || ('0' <= c <= '9') || c == '_' || c == '-'
  }

  /** An id the pattern `[a-zA-Z0-9_-]+` accepts. */
  predicate ValidId(id: string)
  {
    |id| >= 1 && forall i | 0 <= i < |id| :: IsIdChar(id[i])
  }

  /** Length of the run of id characters starting at `j`. */
  function IdRun(s: string, j: nat): (k: nat)
    requires j <= |s|
    ensures j + k <= |s|
    ensures forall i | j <= i < j + k :: IsIdChar(s[i])
    ensures j + k == |s| || !IsIdChar(s[j + k])
    decreases |s| - j
  {
    if j < |s| && IsIdChar(s[j]) then 1 + IdRun(s, j + 1) else 0
  }

  /**
   * The pattern `\[#([a-zA-Z0-9_-]+)\]` matches at `i`. Its greedy run of id
   * characters can only be followed by `]` at the run's full length, since
   * `]` is no id character, so backtracking finds no other match.
   */
  predicate MarkerAt(s: string, i: nat)
  {
    i + 2 <= |s| && s[i] == '[' && s[i + 1] == '#'
    && var k := IdRun(s, i + 2); k >= 1 && i + 2 + k < |s| && s[i + 2 + k] == ']'
  }

  /** The leftmost match of the id marker at or after `from`. */
  function FindMarker(s: string, from: nat): (r: Option<nat>)
    requires from <= |s|
    ensures r.Some? ==> from <= r.value < |s| && MarkerAt(s, r.value)
    ensures forall i | from <= i < (if r.Some? then r.value else |s|) :: !MarkerAt(s, i)
    decreases |s| - from
  {
    if from == |s| then None
    else if MarkerAt(s, from) then Some(from)
    else FindMarker(s, from + 1)
  }

  /** `id` is what the marker at `i` captures: the id characters between `[#` and the `]` that closes them. */
  predicate MarkerCapture(line: string, i: nat, id: string)
  {
    ValidId(id) && i + 2 + |id| < |line| && line[i] == '[' && line[i + 1] == '#'
    && line[i + 2..i + 2 + |id|] == id && line[i + 2 + |id|] == ']'
  }

  /** The id inside the first `[#id]` marker, or the timestamp `now` when there is none. */
  function ExtractId(line: string, now: string): (id: string)
    ensures FindMarker(line, 0).None? ==> id == now
    ensures FindMarker(line, 0).Some? ==> MarkerCapture(line, FindMarker(line, 0).value, id)
  {
    match FindMarker(line, 0)
    case Some(i) => line[i + 2..i + 2 + IdRun(line, i + 2)]
    case None => now
  }

  /** `p` is what `^- \[[ x]\] \[#([a-zA-Z0-9_-]+)\] ` matches: a box, a space, an id marker and a space. */
  predicate IsBoxMarker(p: string)
  {
    |p| >= 11 && p[..3] == TaskPrefix && (p[3] == ' ' || p[3] == 'x') && p[4..8] == "] [#"
    && ValidId(p[8..|p| - 2]) && p[|p| - 2] == ']' && p[|p| - 1] == ' '
  }

  /** Some prefix of `line` is a box and an id marker. */
  predicate StartsWithBoxMarker(line: string)
  {
    exists n | 0 <= n <= |line| :: IsBoxMarker(line[..n])
  }

  /**
   * `line.replace(/^- \[[ x]\] \[#([a-zA-Z0-9_-]+)\] /, '')`: a box and
   * marker at the start of the line are dropped; any other line, in
   * particular one without an id marker, is kept whole.
   */
  function StripTaskPrefix(line: string): (r: string)
    ensures forall n | 0 <= n <= |line| && IsBoxMarker(line[..n]) :: r == line[n..]
    ensures !StartsWithBoxMarker(line) ==> r == line
    ensures FindMarker(line, 0).None? ==> r == line
  {
    BoxMarkerRun(line);
    if 8 <= |line| && line[..3] == TaskPrefix && (line[3] == ' ' || line[3] == 'x') && line[4..8] == "] [#" then
      var k := IdRun(line, 8);
      if k >= 1 && 10 + k <= |line| && line[8 + k] == ']' && line[9 + k] == ' ' then
        assert IsBoxMarker(line[..10 + k]) by {
          assert line[..10 + k][8..10 + k - 2] == line[8..8 + k];
        }
        assert MarkerAt(line, 6) by {
          assert line[6] == line[4..8][2] && line[7] == line[4..8][3];
        }
        line[10 + k..]
      else line
    else
      line
  }

  /** A box marker at the start of a line is the one the greedy id run finds. */
  lemma BoxMarkerRun(line: string)
    ensures forall n | 0 <= n <= |line| && IsBoxMarker(line[..n]) ::
      8 <= |line| && line[..3] == TaskPrefix && (line[3] == ' ' || line[3] == 'x') && line[4..8] == "] [#"
      && IdRun(line, 8) == n - 10 && line[n - 2] == ']' && line[n - 1] == ' '
  {
    forall n | 0 <= n <= |line| && IsBoxMarker(line[..n])
      ensures 8 <= |line| && line[..3] == TaskPrefix && (line[3] == ' ' || line[3] == 'x') && line[4..8] == "] [#"
      && IdRun(line, 8) == n - 10 && line[n - 2] == ']' && line[n - 1] == ' '
    {
      var p := line[..n];
      assert p[..3] == line[..3] && p[4..8] == line[4..8];
      var k := IdRun(line, 8);
      assert forall i | 8 <= i < n - 2 :: IsIdChar(line[i]) by {
        forall i | 8 <= i < n - 2 ensures IsIdChar(line[i]) {
          assert line[i] == p[8..n - 2][i - 8];
        }
      }
      assert !IsIdChar(line[n - 2]);
    }
  }

  /**
   * One task line as `parseTasks` reads it: the id of its first marker, or
   * `now` when it has none; its text without the leading box and marker,
   * trimmed, or the whole trimmed line when it has no marker; done when
   * `- [x]` occurs anywhere in the line.
   */
  function ParseTaskLine(line: string, now: string): (t: Task)
    ensures FindMarker(line, 0).None? ==> t.id == now && t.text == Trim(line)
    ensures FindMarker(line, 0).Some? ==> MarkerCapture(line, FindMarker(line, 0).value, t.id)
    ensures forall n | 0 <= n <= |line| && IsBoxMarker(line[..n]) :: t.text == Trim(line[n..])
    ensures !StartsWithBoxMarker(line) ==> t.text == Trim(line)
    ensures t.done <==> Includes(line, CheckedBox)
    ensures !t.flagged
  {
    Task(ExtractId(line, now), Trim(StripTaskPrefix(line)), Includes(line, CheckedBox), false)
  }

  // ---------------------------------------------------------------------------
  // Parsing

  /** Sections holding `l` in section `s` and nothing else. */
  function Only(s: Section, l: seq<Task>): Sections
  {
    Empty.With(s, l)
  }

  /** Section-wise concatenation. */
  function Concat(a: Sections, b: Sections): Sections
  {
    Sections(a.backlog + b.backlog, a.inProgress + b.inProgress, a.done + b.done)
  }

  /** What one line contributes when the cursor is `cursor`. */
  function LineTasks(cursor: Option<Section>, line: string, now: string): Sections
  {
    if IsTaskLine(cursor, line) then Only(cursor.value, [ParseTaskLine(line, now)]) else Empty
  }

  function ParseFrom(cursor: Option<Section>, lines: seq<string>, now: string): Sections
    decreases |lines|
  {
    if lines == [] then Empty
    else Concat(LineTasks(cursor, lines[0], now), ParseFrom(NextCursor(cursor, lines[0]), lines[1..], now))
  }

  /** The three task lists of a day file; `now` is the id given to a task line without a marker. */
  function Parse(content: string, now: string): Sections
  {
    ParseFrom(None, Split(content, '\n'), now)
  }

  lemma ConcatAssoc(x: Sections, y: Sections, z: Sections)
    ensures Concat(x, Concat(y, z)) == Concat(Concat(x, y), z)
  {
    assert x.backlog + (y.backlog + z.backlog) == (x.backlog + y.backlog) + z.backlog;
    assert x.inProgress + (y.inProgress + z.inProgress) == (x.inProgress + y.inProgress) + z.inProgress;
    assert x.done + (y.done + z.done) == (x.done + y.done) + z.done;
  }

  lemma ConcatGet(a: Sections, b: Sections, s: Section)
    ensures Concat(a, b).Get(s) == a.Get(s) + b.Get(s)
  {
  }

  lemma OnlyGet(h: Section, l: seq<Task>, s: Section)
    ensures Only(h, l).Get(s) == if h == s then l else []
  {
  }

  lemma LineTasksGet(cursor: Option<Section>, line: string, s: Section, now: string)
    ensures LineTasks(cursor, line, now).Get(s)
         == if IsTaskLine(cursor, line) && cursor == Some(s) then [ParseTaskLine(line, now)] else []
  {
    if IsTaskLine(cursor, line) {
      OnlyGet(cursor.value, [ParseTaskLine(line, now)], s);
    }
  }


  /** Adding one line's contribution is pushing its task onto the current section. */
  lemma ParseStep(acc: Sections, cursor: Option<Section>, line: string, now: string)
    ensures Concat(acc, LineTasks(cursor, line, now))
         == if IsTaskLine(cursor, line)
            then acc.With(cursor.value, acc.Get(cursor.value) + [ParseTaskLine(line, now)])
            else acc
  {
    if IsTaskLine(cursor, line) {
      PushOnto(acc, cursor.value, ParseTaskLine(line, now));
    } else {
      ConcatEmpty(acc);
    }
  }

  lemma PushOnto(acc: Sections, s: Section, t: Task)
    ensures Concat(acc, Only(s, [t])) == acc.With(s, acc.Get(s) + [t])
  {
  }

  lemma ConcatEmpty(x: Sections)
    ensures Concat(Empty, x) == x && Concat(x, Empty) == x
  {
    assert x.backlog + [] == x.backlog && x.inProgress + [] == x.inProgress && x.done + [] == x.done;
  }

  lemma ParseOne(cursor: Option<Section>, line: string, now: string)
    ensures ParseFrom(cursor, [line], now) == LineTasks(cursor, line, now)
    ensures CursorAfter(cursor, [line]) == NextCursor(cursor, line)
  {
    assert [line][1..] == [];
    ConcatEmpty(LineTasks(cursor, line, now));
  }

  lemma {:induction false} ParseAppend(cursor: Option<Section>, a: seq<string>, b: seq<string>, now: string)
    ensures ParseFrom(cursor, a + b, now)
         == Concat(ParseFrom(cursor, a, now), ParseFrom(CursorAfter(cursor, a), b, now))
    decreases |a|
  {
    if a == [] {
      assert a + b == b;
      ConcatEmpty(ParseFrom(cursor, b, now));
    } else {
      var next := NextCursor(cursor, a[0]);
      var head := LineTasks(cursor, a[0], now);
      assert (a + b)[0] == a[0];
      assert (a + b)[1..] == a[1..] + b;
      ParseAppend(next, a[1..], b, now);
      assert CursorAfter(cursor, a) == CursorAfter(next, a[1..]);
      ConcatAssoc(head, ParseFrom(next, a[1..], now), ParseFrom(CursorAfter(next, a[1..]), b, now));
    }
  }

  /** Parsing one more line adds that line's task, read with the cursor of the lines before it. */
  lemma ParseSnoc(cursor: Option<Section>, init: seq<string>, line: string, now: string)
    ensures ParseFrom(cursor, init + [line], now)
         == Concat(ParseFrom(cursor, init, now), LineTasks(CursorAfter(cursor, init), line, now))
    ensures CursorAfter(cursor, init + [line]) == NextCursor(CursorAfter(cursor, init), line)
  {
    ParseAppend(cursor, init, [line], now);
    CursorAfterAppend(cursor, init, [line]);
    ParseOne(CursorAfter(cursor, init), line, now);
  }

  /**
   * The task lists by the rule "a line starting with `- [` that is no header
   * belongs to the last recognised header above it": the tasks of section `s`.
   */
  function TasksUnder(lines: seq<string>, s: Section, now: string): seq<Task>
    decreases |lines|
  {
    if lines == [] then []
    else
      var init := lines[..|lines| - 1];
      var line := lines[|lines| - 1];
      TasksUnder(init, s, now)
      + (if HeaderOf(line).None? && StartsWith(line, TaskPrefix) && LastHeader(init) == Some(s)
         then [ParseTaskLine(line, now)] else [])
  }

  /**
   * Parsing follows the last-header rule: lines before the first recognised
   * header are never tasks, and a line that is no recognised header (such as
   * the sleep section's header) does not move the cursor.
   */
  lemma {:induction false} ParseIsLastHeaderRule(lines: seq<string>, s: Section, now: string)
    ensures ParseFrom(None, lines, now).Get(s) == TasksUnder(lines, s, now)
    decreases |lines|
  {
    if lines != [] {
      var init := lines[..|lines| - 1];
      var line := lines[|lines| - 1];
      assert lines == init + [line];
      ParseIsLastHeaderRule(init, s, now);
      ParseSnoc(None, init, line, now);
      CursorIsLastHeader(None, init);
      ConcatGet(ParseFrom(None, init, now), LineTasks(LastHeader(init), line, now), s);
      LineTasksGet(LastHeader(init), line, s, now);
    }
  }

  /**
   * `parseTasks`: one pass over the lines with a section cursor, pushing each
   * task line onto the list of the current section.
   */
  method ParseTasks(content: string, now: string) returns (sections: Sections)
    ensures sections == Parse(content, now)
  {
    var lines := Split(content, '\n');
    sections := Empty;
    var current: Option<Section> := None;
    for i := 0 to |lines|
      invariant current == CursorAfter(None, lines[..i])
      invariant sections == ParseFrom(None, lines[..i], now)
    {
      ParseIndexStep(lines, i, now);
      sections, current := ReadLine(sections, current, lines[i], now);
    }
    assert lines[..|lines|] == lines;
  }

  /** The loop body of `parseTasks`: a header moves the cursor, a task line under a header is appended to its section. */
  method ReadLine(sections: Sections, current: Option<Section>, line: string, now: string)
    returns (after: Sections, next: Option<Section>)
    ensures after == Concat(sections, LineTasks(current, line, now))
    ensures next == NextCursor(current, line)
  {
    ParseStep(sections, current, line, now);
    after, next := sections, current;
    if StartsWith(line, BacklogHeader) {
      next := Some(Backlog);
    } else if StartsWith(line, InProgressHeader) {
      next := Some(InProgress);
    } else if StartsWith(line, DoneHeader) {
      next := Some(Done);
    } else if StartsWith(line, TaskPrefix) && current.Some? {
      var task := ParseTaskLine(line, now);
      after := sections.With(current.value, sections.Get(current.value) + [task]);
    }
  }

  lemma ParseIndexStep(lines: seq<string>, i: nat, now: string)
    requires i < |lines|
    ensures ParseFrom(None, lines[..i + 1], now) == Concat(ParseFrom(None, lines[..i], now), LineTasks(CursorAfter(None, lines[..i]), lines[i], now))
    ensures CursorAfter(None, lines[..i + 1]) == NextCursor(CursorAfter(None, lines[..i]), lines[i])
  {
    assert lines[..i + 1] == lines[..i] + [lines[i]];
    ParseSnoc(None, lines[..i], lines[i], now);
  }


  // ---------------------------------------------------------------------------
  // Rewriting

  /**
   * `- [ ] [#id] text`, or `- [x] [#id] text` under Done, whatever the task's
   * own `done` field says: a task line whose box and marker, for a valid id,
   * are exactly what the parser strips, followed by the text.
   */
  function RenderLine(t: Task, s: Section): (line: string)
    ensures |line| == 10 + |t.id| + |t.text| && StartsWith(line, TaskPrefix)
    ensures ValidId(t.id) ==> IsBoxMarker(line[..10 + |t.id|]) && line[10 + |t.id|..] == t.text
    ensures s == Done ==> Includes(line, CheckedBox)
  {
    var box: string := if s == Done then "- [x] [#" else "- [ ] [#";
    var line := box + t.id + "] " + t.text;
    var p := line[..10 + |t.id|];
    assert p[..3] == TaskPrefix && p[4..8] == "] [#" && p[8..8 + |t.id|] == t.id;
    assert s == Done ==> OccursAt(line, CheckedBox, 0);
    line
  }

  function RenderSection(l: seq<Task>, s: Section): (r: seq<string>)
    ensures |r| == |l|
    ensures forall i | 0 <= i < |l| :: r[i] == RenderLine(l[i], s)
  {
    if l == [] then [] else [RenderLine(l[0], s)] + RenderSection(l[1..], s)
  }

  /**
   * What the rewriter writes for one line: a header, an empty line and the
   * section's rendered tasks for a recognised header; nothing for an old task
   * line; the line itself otherwise.
   */
  function Chunk(cursor: Option<Section>, line: string, tasks: Sections): seq<string>
  {
    match HeaderOf(line)
    case Some(h) => [line, ""] + RenderSection(tasks.Get(h), h)
    case None => if IsTaskLine(cursor, line) then [] else [line]
  }

  function RewriteFrom(cursor: Option<Section>, lines: seq<string>, tasks: Sections): seq<string>
    decreases |lines|
  {
    if lines == [] then []
    else Chunk(cursor, lines[0], tasks) + RewriteFrom(NextCursor(cursor, lines[0]), lines[1..], tasks)
  }

  /** The day file rewritten with new task lists, everything else kept. */
  function Generate(content: string, tasks: Sections): string
  {
    Join(RewriteFrom(None, Split(content, '\n'), tasks), '\n')
  }

  lemma {:induction false} RewriteAppend(cursor: Option<Section>, a: seq<string>, b: seq<string>, tasks: Sections)
    ensures RewriteFrom(cursor, a + b, tasks)
         == RewriteFrom(cursor, a, tasks) + RewriteFrom(CursorAfter(cursor, a), b, tasks)
    decreases |a|
  {
    if a == [] {
      assert a + b == b;
    } else {
      var next := NextCursor(cursor, a[0]);
      assert (a + b)[0] == a[0];
      assert (a + b)[1..] == a[1..] + b;
      RewriteAppend(next, a[1..], b, tasks);
    }
  }

  lemma RewriteSnoc(cursor: Option<Section>, init: seq<string>, line: string, tasks: Sections)
    ensures RewriteFrom(cursor, init + [line], tasks)
         == RewriteFrom(cursor, init, tasks) + Chunk(CursorAfter(cursor, init), line, tasks)
  {
    RewriteAppend(cursor, init, [line], tasks);
    assert [line][1..] == [];
    CursorAfterAppend(cursor, init, [line]);
  }

  lemma CursorSnoc(cursor: Option<Section>, init: seq<string>, line: string)
    ensures CursorAfter(cursor, init + [line]) == NextCursor(CursorAfter(cursor, init), line)
  {
    CursorAfterAppend(cursor, init, [line]);
    assert [line][1..] == [];
  }

  lemma RenderSnoc(l: seq<Task>, t: Task, h: Section)
    ensures RenderSection(l + [t], h) == RenderSection(l, h) + [RenderLine(t, h)]
  {
    var a := RenderSection(l + [t], h);
    var b := RenderSection(l, h) + [RenderLine(t, h)];
    assert |a| == |b|;
    forall i | 0 <= i < |a| ensures a[i] == b[i] {
      assert (l + [t])[i] == if i < |l| then l[i] else t;
    }
  }

  /** The branches of the rewriter's loop body, spelled as the loop spells them. */
  lemma ChunkBranches(c: Option<Section>, line: string, tasks: Sections)
    ensures Chunk(c, line, tasks) ==
      if StartsWith(line, BacklogHeader) then [line, ""] + RenderSection(tasks.backlog, Backlog)
      else if StartsWith(line, InProgressHeader) then [line, ""] + RenderSection(tasks.inProgress, InProgress)
      else if StartsWith(line, DoneHeader) then [line, ""] + RenderSection(tasks.done, Done)
      else if StartsWith(line, TaskPrefix) && c.Some? then []
      else [line]
    ensures NextCursor(c, line) ==
      if StartsWith(line, BacklogHeader) then Some(Backlog)
      else if StartsWith(line, InProgressHeader) then Some(InProgress)
      else if StartsWith(line, DoneHeader) then Some(Done)
      else c
  {
  }

  /** The inner loop of one header branch: push the section's tasks as rendered lines. */
  method PushSection(output: seq<string>, l: seq<Task>, h: Section) returns (out: seq<string>)
    ensures out == output + RenderSection(l, h)
  {
    out := output;
    for k := 0 to |l|
      invariant out == output + RenderSection(l[..k], h)
    {
      var line := RenderLine(l[k], h);
      assert l[..k + 1] == l[..k] + [l[k]];
      RenderSnoc(l[..k], l[k], h);
      assert (output + RenderSection(l[..k], h)) + [line] == output + (RenderSection(l[..k], h) + [line]);
      out := out + [line];
    }
    assert l[..|l|] == l;
  }

  lemma RewriteStep(lines: seq<string>, i: nat, tasks: Sections)
    requires i < |lines|
    ensures RewriteFrom(None, lines[..i + 1], tasks)
         == RewriteFrom(None, lines[..i], tasks) + Chunk(CursorAfter(None, lines[..i]), lines[i], tasks)
    ensures CursorAfter(None, lines[..i + 1]) == NextCursor(CursorAfter(None, lines[..i]), lines[i])
  {
    assert lines[..i + 1] == lines[..i] + [lines[i]];
    RewriteSnoc(None, lines[..i], lines[i], tasks);
    CursorSnoc(None, lines[..i], lines[i]);
  }

  /** The loop body of the rewriter: what one old line becomes, and the new section cursor. */
  method RewriteLine(current: Option<Section>, line: string, sections: Sections)
    returns (written: seq<string>, next: Option<Section>)
    ensures written == Chunk(current, line, sections)
    ensures next == NextCursor(current, line)
  {
    ChunkBranches(current, line, sections);
    next := current;
    if StartsWith(line, BacklogHeader) {
      next := Some(Backlog);
      written := PushSection([line, ""], sections.backlog, Backlog);
    } else if StartsWith(line, InProgressHeader) {
      next := Some(InProgress);
      written := PushSection([line, ""], sections.inProgress, InProgress);
    } else if StartsWith(line, DoneHeader) {
      next := Some(Done);
      written := PushSection([line, ""], sections.done, Done);
    } else if StartsWith(line, TaskPrefix) && current.Some? {
      // an old task line: the header branches above write the new ones
      written := [];
    } else {
      written := [line];
    }
  }

  /**
   * `generateTasksMarkdown`: one pass over the old lines with a section cursor;
   * the old task lines are dropped and each recognised header is followed by
   * an empty line and the freshly rendered tasks of its section.
   */
  method GenerateTasksMarkdown(content: string, sections: Sections) returns (r: string)
    ensures r == Generate(content, sections)
  {
    var lines := Split(content, '\n');
    var output: seq<string> := [];
    var current: Option<Section> := None;
    for i := 0 to |lines|
      invariant current == CursorAfter(None, lines[..i])
      invariant output == RewriteFrom(None, lines[..i], sections)
    {
      var line := lines[i];
      RewriteStep(lines, i, sections);
      var written;
      written, current := RewriteLine(current, line, sections);
      output := output + written;
    }
    assert lines[..|lines|] == lines;
    r := Join(output, '\n');
  }

  // ---------------------------------------------------------------------------
  // Round trip: the lists written by the rewriter are the lists read back

  /** A task the file format can carry unchanged: an id of id characters, a trimmed one-line text without a checked box. */
  predicate Renderable(t: Task)
  {
    ValidId(t.id) && IsTrimmed(t.text) && '\n' !in t.text && !Includes(t.text, CheckedBox)
  }

  predicate AllRenderable(tasks: Sections)
  {
    forall s: Section, i | 0 <= i < |tasks.Get(s)| :: Renderable(tasks.Get(s)[i])
  }

  /** What survives a write and a read: `done` follows the section and `flagged` is not stored. */
  function Normal(t: Task, s: Section): Task
  {
    Task(t.id, t.text, s == Done, false)
  }

  function NormalList(l: seq<Task>, s: Section): (r: seq<Task>)
    ensures |r| == |l|
    ensures forall i | 0 <= i < |l| :: r[i] == Normal(l[i], s)
  {
    if l == [] then [] else [Normal(l[0], s)] + NormalList(l[1..], s)
  }

  function Normalize(tasks: Sections): Sections
  {
    Sections(NormalList(tasks.backlog, Backlog), NormalList(tasks.inProgress, InProgress), NormalList(tasks.done, Done))
  }

  lemma {:induction false} IdRunOf(line: string, j: nat, id: string)
    requires j + |id| < |line| && line[j..j + |id|] == id
    requires forall i | 0 <= i < |id| :: IsIdChar(id[i])
    requires !IsIdChar(line[j + |id|])
    ensures IdRun(line, j) == |id|
    decreases |id|
  {
    if id != [] {
      assert line[j] == id[0];
      assert line[j + 1..j + 1 + |id[1..]|] == id[1..];
      IdRunOf(line, j + 1, id[1..]);
    }
  }

  /** The box-and-marker prefix of a rendered line. */
  lemma RenderShape(t: Task, s: Section)
    ensures var line := RenderLine(t, s);
      |line| == 10 + |t.id| + |t.text|
      && line[..3] == TaskPrefix && line[3] == (if s == Done then 'x' else ' ')
      && line[0] == '-' && line[1] == ' ' && line[2] == '[' && line[4] == ']' && line[5] == ' '
      && line[4..8] == "] [#" && line[6] == '[' && line[7] == '#'
      && line[8..8 + |t.id|] == t.id && line[8 + |t.id|] == ']' && line[9 + |t.id|] == ' '
      && line[10 + |t.id|..] == t.text
  {
  }

  /** Any line made of a box, an id marker and a text yields that id and that text. */
  lemma ShapedLine(line: string, id: string, now: string)
    requires ValidId(id) && 10 + |id| <= |line|
    requires line[..3] == TaskPrefix && (line[3] == ' ' || line[3] == 'x') && line[4..8] == "] [#"
    requires line[8..8 + |id|] == id && line[8 + |id|] == ']' && line[9 + |id|] == ' '
    ensures ExtractId(line, now) == id
    ensures StripTaskPrefix(line) == line[10 + |id|..]
  {
    IdRunOf(line, 8, id);
    assert line[..3][0] == '-' && line[..3][2] == '[' && line[4..8][0] == ']' && line[4..8][2] == '[';
    assert line[4..8][3] == '#';
    FirstMarkerAtSix(line);
  }

  lemma FirstMarkerAtSix(line: string)
    requires MarkerAt(line, 6)
    requires line[0] != '[' && line[1] != '[' && line[2] == '[' && line[3] != '#' && line[4] != '[' && line[5] != '['
    ensures FindMarker(line, 0) == Some(6)
  {
    assert !MarkerAt(line, 0) && !MarkerAt(line, 1) && !MarkerAt(line, 2);
    assert !MarkerAt(line, 3) && !MarkerAt(line, 4) && !MarkerAt(line, 5);
    assert FindMarker(line, 5) == Some(6);
    assert FindMarker(line, 3) == FindMarker(line, 5);
    assert FindMarker(line, 0) == FindMarker(line, 3);
  }


  lemma RenderedId(t: Task, s: Section, now: string)
    requires ValidId(t.id)
    ensures ExtractId(RenderLine(t, s), now) == t.id
    ensures StripTaskPrefix(RenderLine(t, s)) == t.text
  {
    RenderShape(t, s);
    ShapedLine(RenderLine(t, s), t.id, now);
  }

  /** An unchecked box, an id and a text free of `- [x]` leave no `- [x]` anywhere in the line. */
  lemma UncheckedLine(line: string, id: string, text: string)
    requires line == "- [ ] [#" + id + "] " + text
    requires ValidId(id) && !Includes(text, CheckedBox)
    ensures !Includes(line, CheckedBox)
  {
    var box := "- [ ] [#";
    assert line[..8] == box && line[8..8 + |id|] == id && line[8 + |id|] == ']' && line[10 + |id|..] == text;
    forall i | 0 <= i <= |line| - |CheckedBox| ensures !OccursAt(line, CheckedBox, i) {
      var window := line[i..i + |CheckedBox|];
      if 10 + |id| <= i {
        var j := i - 10 - |id|;
        assert window == text[j..j + |CheckedBox|];
        assert !OccursAt(text, CheckedBox, j);
      } else if i == 0 {
        assert window[3] == box[3] != CheckedBox[3];
      } else if i < 8 {
        assert window[0] == box[i] != CheckedBox[0];
      } else if i + 1 < 8 + |id| {
        assert window[1] == id[i + 1 - 8] != CheckedBox[1];
      } else {
        var first, second := window[0], window[1];
        assert first != CheckedBox[0] || second != CheckedBox[1];
      }
    }
  }


  /** `- [x]` occurs in a rendered line exactly when it was rendered under Done. */
  lemma RenderedChecked(t: Task, s: Section)
    requires Renderable(t)
    ensures Includes(RenderLine(t, s), CheckedBox) <==> s == Done
  {
    var line := RenderLine(t, s);
    if s == Done {
      assert line[..5] == CheckedBox;
      assert OccursAt(line, CheckedBox, 0);
    } else {
      UncheckedLine(line, t.id, t.text);
    }
  }

  /** Reading a rendered line gives back the task, normalised to its section. */
  lemma RenderedLineParses(t: Task, s: Section, now: string)
    requires Renderable(t)
    ensures ParseTaskLine(RenderLine(t, s), now) == Normal(t, s)
  {
    RenderedId(t, s, now);
    RenderedChecked(t, s);
  }

  lemma TaskLineIsNoHeader(line: string)
    requires StartsWith(line, TaskPrefix)
    ensures HeaderOf(line).None?
  {
    assert line[0] == '-';
    assert Header(Backlog)[0] == Header(InProgress)[0] == Header(Done)[0] == '#';
  }


  lemma ConcatOnly(h: Section, a: seq<Task>, b: seq<Task>)
    ensures Concat(Only(h, a), Only(h, b)) == Only(h, a + b)
  {
    var none: seq<Task> := [];
    assert none + none == none;
  }

  /** A rendered line is a task line of the section it was rendered under. */
  lemma RenderedLineTasks(t: Task, h: Section, c: Section, now: string)
    requires Renderable(t)
    ensures LineTasks(Some(c), RenderLine(t, h), now) == Only(c, [Normal(t, h)])
    ensures NextCursor(Some(c), RenderLine(t, h)) == Some(c)
  {
    var line := RenderLine(t, h);
    assert line[..3] == TaskPrefix;
    TaskLineIsNoHeader(line);
    RenderedLineParses(t, h, now);
  }

  /** A section's rendered lines, read under its header, give back the normalised list. */
  lemma {:induction false} ParseRendered(h: Section, l: seq<Task>, now: string)
    requires forall i | 0 <= i < |l| :: Renderable(l[i])
    ensures ParseFrom(Some(h), RenderSection(l, h), now) == Only(h, NormalList(l, h))
    ensures CursorAfter(Some(h), RenderSection(l, h)) == Some(h)
    decreases |l|
  {
    var r := RenderSection(l, h);
    if l == [] {
      assert r == [];
    } else {
      ParseRendered(h, l[1..], now);
      RenderedLineTasks(l[0], h, h, now);
      assert r[0] == RenderLine(l[0], h);
      assert r[1..] == RenderSection(l[1..], h);
      ConcatOnly(h, [Normal(l[0], h)], NormalList(l[1..], h));
      assert NormalList(l, h) == [Normal(l[0], h)] + NormalList(l[1..], h);
    }
  }

  /** The tasks a line's chunk of output yields when read back. */
  function HeaderTasks(line: string, tasks: Sections): Sections
  {
    match HeaderOf(line)
    case Some(h) => Only(h, NormalList(tasks.Get(h), h))
    case None => Empty
  }

  /** A line that neither moves the cursor nor holds a task adds nothing when read. */
  lemma ParseSkip(c: Option<Section>, line: string, rest: seq<string>, now: string)
    requires !IsTaskLine(c, line)
    ensures ParseFrom(c, [line] + rest, now) == ParseFrom(NextCursor(c, line), rest, now)
    ensures CursorAfter(c, [line] + rest) == CursorAfter(NextCursor(c, line), rest)
  {
    assert ([line] + rest)[0] == line && ([line] + rest)[1..] == rest;
    ConcatEmpty(ParseFrom(NextCursor(c, line), rest, now));
  }

  /** A header, an empty line, then lines that keep the cursor on that header. */
  lemma HeaderThenBlank(c: Option<Section>, line: string, h: Section, rest: seq<string>, now: string)
    requires HeaderOf(line) == Some(h)
    ensures ParseFrom(c, [line] + ([""] + rest), now) == ParseFrom(Some(h), rest, now)
    ensures CursorAfter(c, [line] + ([""] + rest)) == CursorAfter(Some(h), rest)
  {
    ParseSkip(Some(h), "", rest, now);
    ParseSkip(c, line, [""] + rest, now);
  }

  lemma HeaderChunkParse(c: Option<Section>, line: string, h: Section, tasks: Sections, now: string)
    requires HeaderOf(line) == Some(h)
    requires forall i | 0 <= i < |tasks.Get(h)| :: Renderable(tasks.Get(h)[i])
    ensures ParseFrom(c, Chunk(c, line, tasks), now) == Only(h, NormalList(tasks.Get(h), h))
    ensures CursorAfter(c, Chunk(c, line, tasks)) == Some(h)
  {
    var rendered := RenderSection(tasks.Get(h), h);
    assert Chunk(c, line, tasks) == [line] + ([""] + rendered);
    ParseRendered(h, tasks.Get(h), now);
    HeaderThenBlank(c, line, h, rendered, now);
  }


  lemma ChunkParse(c: Option<Section>, line: string, tasks: Sections, now: string)
    requires AllRenderable(tasks)
    ensures ParseFrom(c, Chunk(c, line, tasks), now) == HeaderTasks(line, tasks)
    ensures CursorAfter(c, Chunk(c, line, tasks)) == NextCursor(c, line)
  {
    match HeaderOf(line)
    case Some(h) =>
      HeaderChunkParse(c, line, h, tasks, now);
    case None =>
      ParseOne(c, line, now);
      if IsTaskLine(c, line) {
        assert Chunk(c, line, tasks) == [];
      } else {
        assert Chunk(c, line, tasks) == [line];
      }
  }

  /** Everything the recognised headers of `lines` contribute, in line order. */
  function HeaderSum(lines: seq<string>, tasks: Sections): Sections
  {
    if lines == [] then Empty else Concat(HeaderTasks(lines[0], tasks), HeaderSum(lines[1..], tasks))
  }

  /** How many lines are a recognised header of section `s`. */
  function HeaderCount(lines: seq<string>, s: Section): (n: nat)
    ensures n <= |lines|
  {
    if lines == [] then 0 else (if HeaderOf(lines[0]) == Some(s) then 1 else 0) + HeaderCount(lines[1..], s)
  }

  /** `n` copies of `l`, one after the other. */
  function Repeat(l: seq<Task>, n: nat): seq<Task>
  {
    if n == 0 then [] else l + Repeat(l, n - 1)
  }

  /** Reading the rewritten lines gives what the headers contribute, and leaves the cursor where the old lines did. */
  lemma {:induction false} ParseRewrite(c: Option<Section>, lines: seq<string>, tasks: Sections, now: string)
    requires AllRenderable(tasks)
    ensures ParseFrom(c, RewriteFrom(c, lines, tasks), now) == HeaderSum(lines, tasks)
    ensures CursorAfter(c, RewriteFrom(c, lines, tasks)) == CursorAfter(c, lines)
    decreases |lines|
  {
    if lines != [] {
      var chunk := Chunk(c, lines[0], tasks);
      var next := NextCursor(c, lines[0]);
      var rest := RewriteFrom(next, lines[1..], tasks);
      ChunkParse(c, lines[0], tasks, now);
      ParseRewrite(next, lines[1..], tasks, now);
      ParseAppend(c, chunk, rest, now);
      CursorAfterAppend(c, chunk, rest);
    }
  }

  /** Each header of `s` contributes the normalised list of `s` once. */
  lemma HeaderTasksGet(line: string, tasks: Sections, s: Section)
    ensures HeaderTasks(line, tasks).Get(s) == if HeaderOf(line) == Some(s) then NormalList(tasks.Get(s), s) else []
  {
    if HeaderOf(line).Some? {
      var h := HeaderOf(line).value;
      OnlyGet(h, NormalList(tasks.Get(h), h), s);
    }
  }

  lemma {:induction false} HeaderSumGet(lines: seq<string>, tasks: Sections, s: Section)
    ensures HeaderSum(lines, tasks).Get(s) == Repeat(NormalList(tasks.Get(s), s), HeaderCount(lines, s))
    decreases |lines|
  {
    if lines != [] {
      HeaderSumGet(lines[1..], tasks, s);
      ConcatGet(HeaderTasks(lines[0], tasks), HeaderSum(lines[1..], tasks), s);
      HeaderTasksGet(lines[0], tasks, s);
      SumStep(NormalList(tasks.Get(s), s), HeaderOf(lines[0]) == Some(s), HeaderCount(lines[1..], s));
    }
  }

  lemma SumStep(own: seq<Task>, isHeader: bool, n: nat)
    ensures (if isHeader then own else []) + Repeat(own, n) == Repeat(own, (if isHeader then 1 else 0) + n)
  {
    if !isHeader {
      assert [] + Repeat(own, n) == Repeat(own, n);
    }
  }




  lemma {:induction false} RewriteLinesHaveNoNewline(c: Option<Section>, lines: seq<string>, tasks: Sections)
    requires forall i | 0 <= i < |lines| :: '\n' !in lines[i]
    requires AllRenderable(tasks)
    ensures forall i | 0 <= i < |RewriteFrom(c, lines, tasks)| :: '\n' !in RewriteFrom(c, lines, tasks)[i]
    decreases |lines|
  {
    if lines != [] {
      RewriteLinesHaveNoNewline(NextCursor(c, lines[0]), lines[1..], tasks);
      var chunk := Chunk(c, lines[0], tasks);
      forall i | 0 <= i < |chunk| ensures '\n' !in chunk[i] {
        if HeaderOf(lines[0]).Some? && i >= 2 {
          var h := HeaderOf(lines[0]).value;
          RenderedLineHasNoNewline(tasks.Get(h)[i - 2], h);
        }
      }
    }
  }

  lemma RenderedLineHasNoNewline(t: Task, h: Section)
    requires Renderable(t)
    ensures '\n' !in RenderLine(t, h)
  {
    var line := RenderLine(t, h);
    RenderShape(t, h);
    forall i | 0 <= i < |line| ensures line[i] != '\n' {
      if 8 <= i < 8 + |t.id| {
        assert line[i] == t.id[i - 8];
      } else if 10 + |t.id| <= i {
        assert line[i] == t.text[i - 10 - |t.id|];
      }
    }
  }

  lemma RewriteNonEmpty(c: Option<Section>, lines: seq<string>, tasks: Sections)
    requires lines != [] && c.None?
    ensures |RewriteFrom(c, lines, tasks)| >= 1
  {
    assert |Chunk(c, lines[0], tasks)| >= 1;
  }

  lemma SectionsEqual(a: Sections, b: Sections)
    requires forall s: Section :: a.Get(s) == b.Get(s)
    ensures a == b
  {
    assert a.Get(Backlog) == b.Get(Backlog);
    assert a.Get(InProgress) == b.Get(InProgress);
    assert a.Get(Done) == b.Get(Done);
  }

  /** The file text produced by the rewriter splits back into the rewritten lines. */
  lemma GenerateSplits(content: string, tasks: Sections)
    requires AllRenderable(tasks)
    ensures Split(Generate(content, tasks), '\n') == RewriteFrom(None, Split(content, '\n'), tasks)
  {
    var lines := Split(content, '\n');
    RewriteLinesHaveNoNewline(None, lines, tasks);
    RewriteNonEmpty(None, lines, tasks);
    SplitJoin(RewriteFrom(None, lines, tasks), '\n');
  }

  lemma ReadBackLines(lines: seq<string>, tasks: Sections, now: string)
    requires forall s: Section :: HeaderCount(lines, s) == 1
    requires AllRenderable(tasks)
    ensures ParseFrom(None, RewriteFrom(None, lines, tasks), now) == Normalize(tasks)
  {
    ParseRewrite(None, lines, tasks, now);
    var sum := HeaderSum(lines, tasks);
    forall s: Section ensures sum.Get(s) == Normalize(tasks).Get(s) {
      HeaderSumGet(lines, tasks, s);
      var own := NormalList(tasks.Get(s), s);
      assert Repeat(own, 1) == own + [];
    }
    SectionsEqual(sum, Normalize(tasks));
  }

  /**
   * Round trip of a write and a read: when each section's header occurs once,
   * the rewritten file reads back as the lists written, with `done` set by the
   * section and the flag dropped.
   */
  lemma RoundTrip(content: string, tasks: Sections, now: string)
    requires forall s: Section :: HeaderCount(Split(content, '\n'), s) == 1
    requires AllRenderable(tasks)
    ensures Parse(Generate(content, tasks), now) == Normalize(tasks)
  {
    GenerateSplits(content, tasks);
    ReadBackLines(Split(content, '\n'), tasks, now);
  }

  // ---------------------------------------------------------------------------
  // What the rewriter keeps: every line that is not a task line

  /** The lines of a file that are not task lines, in order. */
  function Furniture(c: Option<Section>, lines: seq<string>): seq<string>
    decreases |lines|
  {
    if lines == [] then []
    else (if IsTaskLine(c, lines[0]) then [] else [lines[0]]) + Furniture(NextCursor(c, lines[0]), lines[1..])
  }

  /** `lines` with an empty line inserted after each recognised header. */
  function BlankAfterHeaders(lines: seq<string>): seq<string>
  {
    if lines == [] then []
    else (if HeaderOf(lines[0]).Some? then [lines[0], ""] else [lines[0]]) + BlankAfterHeaders(lines[1..])
  }

  lemma {:induction false} FurnitureAppend(c: Option<Section>, a: seq<string>, b: seq<string>)
    ensures Furniture(c, a + b) == Furniture(c, a) + Furniture(CursorAfter(c, a), b)
    decreases |a|
  {
    if a == [] {
      assert a + b == b;
    } else {
      assert (a + b)[0] == a[0];
      assert (a + b)[1..] == a[1..] + b;
      FurnitureAppend(NextCursor(c, a[0]), a[1..], b);
    }
  }

  lemma {:induction false} BlankAfterHeadersAppend(a: seq<string>, b: seq<string>)
    ensures BlankAfterHeaders(a + b) == BlankAfterHeaders(a) + BlankAfterHeaders(b)
    decreases |a|
  {
    if a == [] {
      assert a + b == b;
    } else {
      assert (a + b)[0] == a[0];
      assert (a + b)[1..] == a[1..] + b;
      BlankAfterHeadersAppend(a[1..], b);
    }
  }

  /** Rendered lines are all task lines of their section: none of them is furniture. */
  lemma {:induction false} RenderedFurniture(h: Section, l: seq<Task>)
    ensures Furniture(Some(h), RenderSection(l, h)) == []
    ensures CursorAfter(Some(h), RenderSection(l, h)) == Some(h)
    decreases |l|
  {
    if l != [] {
      var r := RenderSection(l, h);
      assert r[0] == RenderLine(l[0], h) && r[0][..3] == TaskPrefix;
      TaskLineIsNoHeader(r[0]);
      assert r[1..] == RenderSection(l[1..], h);
      RenderedFurniture(h, l[1..]);
    }
  }

  lemma ChunkFurniture(c: Option<Section>, line: string, tasks: Sections)
    ensures Furniture(c, Chunk(c, line, tasks)) == BlankAfterHeaders(if IsTaskLine(c, line) then [] else [line])
    ensures CursorAfter(c, Chunk(c, line, tasks)) == NextCursor(c, line)
  {
    match HeaderOf(line)
    case Some(h) =>
      var rendered := RenderSection(tasks.Get(h), h);
      assert Chunk(c, line, tasks) == [line, ""] + rendered;
      RenderedFurniture(h, tasks.Get(h));
      FurnitureAppend(c, [line, ""], rendered);
      CursorAfterAppend(c, [line, ""], rendered);
      assert [line, ""][1..] == [""];
      assert BlankAfterHeaders([line]) == [line, ""] + BlankAfterHeaders([]);
    case None =>
      if !IsTaskLine(c, line) {
        assert Chunk(c, line, tasks) == [line];
        assert BlankAfterHeaders([line]) == [line] + BlankAfterHeaders([]);
      }
  }

  /**
   * The rewriter keeps every line that is not a task line, in order, and adds
   * one empty line after each recognised header: rewriting a file twice leaves
   * two empty lines there, three times three.
   */
  lemma {:induction false} RewriteKeepsFurniture(c: Option<Section>, lines: seq<string>, tasks: Sections)
    ensures Furniture(c, RewriteFrom(c, lines, tasks)) == BlankAfterHeaders(Furniture(c, lines))
    ensures CursorAfter(c, RewriteFrom(c, lines, tasks)) == CursorAfter(c, lines)
    decreases |lines|
  {
    if lines != [] {
      var chunk := Chunk(c, lines[0], tasks);
      var next := NextCursor(c, lines[0]);
      var rest := RewriteFrom(next, lines[1..], tasks);
      var kept := if IsTaskLine(c, lines[0]) then [] else [lines[0]];
      ChunkFurniture(c, lines[0], tasks);
      RewriteKeepsFurniture(next, lines[1..], tasks);
      FurnitureAppend(c, chunk, rest);
      CursorAfterAppend(c, chunk, rest);
      BlankAfterHeadersAppend(kept, Furniture(next, lines[1..]));
    }
  }

  // ---------------------------------------------------------------------------
  // The day file

  /** The lines of the file written for a day that has none yet: a title, then the four section headers, each followed by an empty line. */
  function SkeletonLines(date: string): seq<string>
  {
    ["# " + date + " 任务追踪", "", BacklogHeader, "", InProgressHeader, "", DoneHeader, "", SleepHeader, ""]
  }

  function Skeleton(date: string): string
  {
    Join(SkeletonLines(date), '\n')
  }

  /**
   * `initTasksFile`: the day file's content after the call; `existing` is the
   * file when it is already there, and is kept untouched.
   */
  function InitTasksFile(existing: Option<string>, date: string): (content: string)
    ensures existing.Some? ==> content == existing.value
    ensures existing.None? ==> content == Skeleton(date)
  {
    if existing.Some? then existing.value else Skeleton(date)
  }

  lemma SkeletonSplits(date: string)
    requires '\n' !in date
    ensures Split(Skeleton(date), '\n') == SkeletonLines(date)
  {
    var ls := SkeletonLines(date);
    forall i | 0 <= i < |ls| ensures '\n' !in ls[i] {
      if i == 0 {
        assert ls[0] == "# " + date + " 任务追踪";
      }
    }
    SplitJoin(ls, '\n');
  }

  lemma {:induction false} NoTaskLines(c: Option<Section>, lines: seq<string>, now: string)
    requires forall i | 0 <= i < |lines| :: !StartsWith(lines[i], TaskPrefix)
    ensures ParseFrom(c, lines, now) == Empty
    decreases |lines|
  {
    if lines != [] {
      NoTaskLines(NextCursor(c, lines[0]), lines[1..], now);
      ConcatEmpty(Empty);
    }
  }

  /** The headers of the skeleton, line by line. */
  lemma SkeletonHeaderLines(date: string)
    ensures var ls := SkeletonLines(date);
      HeaderOf(ls[0]) == None && HeaderOf(ls[2]) == Some(Backlog) && HeaderOf(ls[4]) == Some(InProgress)
      && HeaderOf(ls[6]) == Some(Done) && HeaderOf(ls[8]) == None
      && forall i | 0 <= i < 5 :: ls[2 * i + 1] == ""
  {
    var ls := SkeletonLines(date);
    assert ls[0][1] == ' ';
    assert Header(Backlog)[1] == Header(InProgress)[1] == Header(Done)[1] == '#';
    HeadersAreTheirOwn();
    SleepIsNoHeader();
  }

  /** Each section header line is recognised as its own section. */
  lemma HeadersAreTheirOwn()
    ensures HeaderOf(BacklogHeader) == Some(Backlog)
    ensures HeaderOf(InProgressHeader) == Some(InProgress)
    ensures HeaderOf(DoneHeader) == Some(Done)
  {
    assert StartsWith(BacklogHeader, Header(Backlog));
    assert InProgressHeader[3] != BacklogHeader[3] && StartsWith(InProgressHeader, Header(InProgress));
    assert DoneHeader[3] != BacklogHeader[3] && DoneHeader[3] != InProgressHeader[3] && StartsWith(DoneHeader, Header(Done));
  }


  lemma HashIsNoTask(line: string)
    requires line == [] || line[0] == '#'
    ensures !StartsWith(line, TaskPrefix)
  {
    if line != [] {
      assert TaskPrefix[0] == '-';
    }
  }

  lemma SkeletonLinesHoldNoTask(date: string)
    ensures forall i | 0 <= i < |SkeletonLines(date)| :: !StartsWith(SkeletonLines(date)[i], TaskPrefix)
  {
    var ls := SkeletonLines(date);
    forall i | 0 <= i < |ls| ensures !StartsWith(ls[i], TaskPrefix) {
      assert ls[i] == [] || ls[i][0] == '#';
      HashIsNoTask(ls[i]);
    }
  }

  lemma SkeletonHasNoTasks(date: string, now: string)
    requires '\n' !in date
    ensures Parse(Skeleton(date), now) == Empty
  {
    SkeletonSplits(date);
    SkeletonLinesHoldNoTask(date);
    NoTaskLines(None, SkeletonLines(date), now);
  }


  /**
   * A fresh day file holds no task and names each section once, in board
   * order, so it meets the condition of the round trip.
   */
  lemma FreshFile(date: string, now: string)
    requires '\n' !in date
    ensures Parse(InitTasksFile(None, date), now) == Empty
    ensures forall s: Section :: HeaderCount(Split(InitTasksFile(None, date), '\n'), s) == 1
    ensures var ls := Split(InitTasksFile(None, date), '\n');
      |ls| == 10 && HeaderOf(ls[2]) == Some(Backlog) && HeaderOf(ls[4]) == Some(InProgress) && HeaderOf(ls[6]) == Some(Done)
  {
    SkeletonSplits(date);
    SkeletonHasNoTasks(date, now);
    SkeletonHeaderLines(date);
    forall s: Section ensures HeaderCount(SkeletonLines(date), s) == 1 {
      SkeletonHeaderCount(date, s);
    }
  }

  lemma HeaderCountFront(lines: seq<string>, k: nat, s: Section)
    requires k < |lines|
    ensures HeaderCount(lines[k..], s) == (if HeaderOf(lines[k]) == Some(s) then 1 else 0) + HeaderCount(lines[k + 1..], s)
  {
    assert lines[k..][1..] == lines[k + 1..];
  }

  lemma SkeletonHeaderCount(date: string, s: Section)
    ensures HeaderCount(SkeletonLines(date), s) == 1
  {
    var ls := SkeletonLines(date);
    SkeletonHeaderLines(date);
    EmptyIsNoHeader();
    assert HeaderLayout(ls);
    HeaderCountOfLayout(ls, s, 0);
    assert ls[0..] == ls;
  }

  /** Ten lines whose only headers are Backlog, In Progress and Done at 2, 4 and 6. */
  predicate HeaderLayout(ls: seq<string>)
  {
    |ls| == 10
    && forall k | 0 <= k < 10 :: HeaderOf(ls[k]) == if k == 2 then Some(Backlog) else if k == 4 then Some(InProgress)
                                                   else if k == 6 then Some(Done) else None
  }

  lemma {:induction false} HeaderCountOfLayout(ls: seq<string>, s: Section, k: nat)
    requires HeaderLayout(ls) && k <= 10
    ensures HeaderCount(ls[k..], s) == if k <= 2 * Rank(s) + 2 then 1 else 0
    decreases 10 - k
  {
    if k < 10 {
      HeaderCountOfLayout(ls, s, k + 1);
      HeaderCountFront(ls, k, s);
      assert HeaderOf(ls[k]) == Some(s) <==> k == 2 * Rank(s) + 2;
    }
  }


  lemma EmptyIsNoHeader()
    ensures HeaderOf("") == None
  {
  }

  lemma SleepIsNoHeader()
    ensures HeaderOf(SleepHeader) == None
    ensures !StartsWith(SleepHeader, TaskPrefix)
  {
    assert SleepHeader[3] != Header(Backlog)[3];
    assert SleepHeader[3] != Header(InProgress)[3];
    assert SleepHeader[3] != Header(Done)[3];
    HashIsNoTask(SleepHeader);
  }


  /** Writing task lists into a fresh day file and reading it back gives the lists, normalised. */
  lemma FreshFileRoundTrip(date: string, tasks: Sections, now: string)
    requires '\n' !in date
    requires AllRenderable(tasks)
    ensures Parse(Generate(InitTasksFile(None, date), tasks), now) == Normalize(tasks)
  {
    FreshFile(date, now);
    RoundTrip(InitTasksFile(None, date), tasks, now);
  }

  /**
   * The sleep header is no section header, so it leaves the cursor where it
   * was: a task written below it, after the Done header, is read as a Done
   * task (its `done` flag still taken from its own box).
   */
  lemma SleepTasksJoinDone(t: Task, now: string)
    requires Renderable(t)
    ensures ParseFrom(None, [DoneHeader, SleepHeader, RenderLine(t, Backlog)], now)
         == Only(Done, [Task(t.id, t.text, false, false)])
  {
    RenderedLineTasks(t, Backlog, Done, now);
    AfterDoneAndSleep(RenderLine(t, Backlog), now);
  }

  lemma AfterDoneAndSleep(line: string, now: string)
    ensures ParseFrom(None, [DoneHeader, SleepHeader, line], now) == LineTasks(Some(Done), line, now)
  {
    HeadersAreTheirOwn();
    SleepIsNoHeader();
    assert [DoneHeader, SleepHeader, line] == [DoneHeader] + ([SleepHeader] + [line]);
    ParseSkip(None, DoneHeader, [SleepHeader] + [line], now);
    ParseSkip(Some(Done), SleepHeader, [line], now);
    ParseOne(Some(Done), line, now);
  }
}
