/**
 The lines the `list` command prints. An empty store prints one notice; a
 non-empty one prints a header and then one line per task in stored order,
 `<id>. <title> [<label>]`. `ParseListing` reads such output back, which
 shows that every line determines its task's id, title and completion.
 */
module Listing {
  import opened Options
  import opened Decimal
  import opened Tasks

  const EmptyNotice: string := "No tasks found."
  const Header: string := "Tasks:"

  /** The trailing part of a line, label included, for each completion state. */
  const CompletedTag: string := " [Completed]"
  const OpenTag: string := " [Not completed]"

  /** The bracketed label of a task line: one of two texts, "Completed"
      exactly for a completed task. */
  function StatusLabel(status: bool): (text: string)
    ensures text == "Completed" || text == "Not completed"
    ensures status <==> text == "Completed"
  {
    if status then "Completed" else "Not completed"
  }

  /** The line printed for one task: the id in decimal, ". ", the title
      verbatim, and the bracketed label of its completion state. */
  function TaskLine(t: Task): (line: string)
    ensures var digits := IntToString(t.id);
      var tag := if t.status then CompletedTag else OpenTag;
      && |line| == |digits| + 2 + |t.title| + |tag|
      && line[..|digits| + 2] == digits + ". "
      && line[|digits| + 2..|line| - |tag|] == t.title
      && line[|line| - |tag|..] == tag
  {
    var line := IntToString(t.id) + ". " + t.title + " [" + StatusLabel(t.status) + "]";
    var tag := if t.status then CompletedTag else OpenTag;
    assert line == (IntToString(t.id) + ". ") + t.title + tag;
    line
  }

  /** The lines printed for the tasks, one per task, in order. */
  function TaskLines(tasks: seq<Task>): (lines: seq<string>)
    ensures |lines| == |tasks|
    ensures forall i :: 0 <= i < |tasks| ==> lines[i] == TaskLine(tasks[i])
  {
    if tasks == [] then []
    else [TaskLine(tasks[0])] + TaskLines(tasks[1..])
  }

  /** Everything the `list` command prints, one element per printed line. */
  function Render(tasks: seq<Task>): (lines: seq<string>)
    ensures tasks == [] <==> lines == [EmptyNotice]
    ensures tasks != [] ==> |lines| == |tasks| + 1 && lines[0] == Header
    ensures tasks != [] ==> forall i :: 0 <= i < |tasks| ==> lines[i + 1] == TaskLine(tasks[i])
  {
    if tasks == [] then [EmptyNotice]
    else [Header] + TaskLines(tasks)
  }

  /** What a printed task line tells its reader. */
  datatype LineView = LineView(id: int, title: string, completed: bool)

  function View(t: Task): LineView {
    LineView(t.id, t.title, t.status)
  }

  function Views(tasks: seq<Task>): (r: seq<LineView>)
    ensures |r| == |tasks|
    ensures forall i :: 0 <= i < |tasks| ==> r[i] == View(tasks[i])
  {
    if tasks == [] then []
    else [View(tasks[0])] + Views(tasks[1..])
  }

  predicate HasSuffix(s: string, suffix: string) {
    |suffix| <= |s| && s[|s| - |suffix|..] == suffix
  }

  /** The first position of `c` in `s`. */
  function IndexOf(s: string, c: char): (r: Option<nat>)
    ensures r.Some? ==> r.value < |s| && s[r.value] == c
    ensures r.Some? ==> forall j :: 0 <= j < r.value ==> s[j] != c
    ensures r.None? <==> c !in s
  {
    if s == [] then None
    else if s[0] == c then Some(0)
    else match IndexOf(s[1..], c)
      case None => None
      case Some(k) => Some(k + 1)
  }

  /** Reads a task line: the id runs up to the first '.', the label is
      recognised from the end, and the title is what lies between. */
  function ParseLine(line: string): Option<LineView> {
    match IndexOf(line, '.')
    case None => None
    case Some(k) =>
      if k + 2 > |line| || line[k + 1] != ' ' then None
      else match ParseInt(line[..k])
        case None => None
        case Some(id) =>
          match ReadLabel(line[k + 2..])
          case None => None
          case Some((title, completed)) => Some(LineView(id, title, completed))
  }

  /** Splits a title followed by one of the two labels into both parts. */
  function ReadLabel(rest: string): Option<(string, bool)> {
    if HasSuffix(rest, CompletedTag) then Some((rest[..|rest| - |CompletedTag|], true))
    else if HasSuffix(rest, OpenTag) then Some((rest[..|rest| - |OpenTag|], false))
    else None
  }

  function ParseLines(lines: seq<string>): Option<seq<LineView>> {
    if lines == [] then Some([])
    else match (ParseLine(lines[0]), ParseLines(lines[1..]))
      case (Some(v), Some(vs)) => Some([v] + vs)
      case _ => None
  }

  /** Reads the whole output of the `list` command. */
  function ParseListing(lines: seq<string>): Option<seq<LineView>> {
    if lines == [EmptyNotice] then Some([])
    else if |lines| >= 2 && lines[0] == Header then ParseLines(lines[1..])
    else None
  }

  /** No text ends with both labels. */
  lemma TagsExclusive(s: string)
    ensures HasSuffix(s, CompletedTag) ==> !HasSuffix(s, OpenTag)
  {
    if HasSuffix(s, CompletedTag) {
      assert s[|s| - 10] == s[|s| - |CompletedTag|..][2] == 'C';
    }
  }

  /** The trailing part of a task line is fixed by the completion state. */
  lemma TaskLineSplit(t: Task)
    ensures TaskLine(t) == IntToString(t.id) + ". " + (t.title + (if t.status then CompletedTag else OpenTag))
  {
  }

  lemma HasSuffixOfAppend(s: string, tag: string)
    ensures HasSuffix(s + tag, tag)
  {
  }

  /** A task line carries the task's id first and ends with the label that
      matches its completion state, and with no other label. */
  lemma TaskLineShape(t: Task)
    ensures var line := TaskLine(t);
      && line[..|IntToString(t.id)|] == IntToString(t.id)
      && (t.status <==> HasSuffix(line, CompletedTag))
      && (!t.status <==> HasSuffix(line, OpenTag))
  {
    var line := TaskLine(t);
    var digits := IntToString(t.id);
    var tag := if t.status then CompletedTag else OpenTag;
    assert line[..|digits|] == line[..|digits| + 2][..|digits|];
    assert HasSuffix(line, tag);
    TagsExclusive(line);
  }

  lemma NoDotInIntToString(i: int)
    ensures '.' !in IntToString(i)
  {
  }

  lemma IndexOfAfterPrefix(prefix: string, rest: string)
    requires '.' !in prefix
    ensures IndexOf(prefix + ". " + rest, '.') == Some(|prefix|)
  {
    var line := prefix + ". " + rest;
    assert line[|prefix|] == '.';
    assert forall j :: 0 <= j < |prefix| ==> line[j] == prefix[j];
  }

  /** Reading the part of a line after "<id>. " recovers title and state. */
  lemma ReadLabelOfTagged(title: string, status: bool)
    ensures ReadLabel(title + (if status then CompletedTag else OpenTag)) == Some((title, status))
  {
    var tag := if status then CompletedTag else OpenTag;
    var rest := title + tag;
    HasSuffixOfAppend(title, tag);
    TagsExclusive(rest);
    assert rest[..|rest| - |tag|] == title;
  }

  /** A line assembled from a dot-free id text, ". " and a labelled title
      reads back as those parts. */
  lemma ParseLineOfParts(digits: string, id: int, title: string, status: bool)
    requires '.' !in digits
    requires ParseInt(digits) == Some(id)
    ensures ParseLine(digits + ". " + (title + (if status then CompletedTag else OpenTag)))
      == Some(LineView(id, title, status))
  {
    var rest := title + (if status then CompletedTag else OpenTag);
    var line := digits + ". " + rest;
    IndexOfAfterPrefix(digits, rest);
    assert line[..|digits|] == digits;
    assert line[|digits| + 1] == ' ';
    assert line[|digits| + 2..] == rest;
    ReadLabelOfTagged(title, status);
  }

  /** Reading a printed task line back recovers the task's id, title and
      completion state. */
  lemma ParseLineOfTaskLine(t: Task)
    ensures ParseLine(TaskLine(t)) == Some(View(t))
  {
    TaskLineSplit(t);
    NoDotInIntToString(t.id);
    ParseIntOfIntToString(t.id);
    ParseLineOfParts(IntToString(t.id), t.id, t.title, t.status);
  }

  lemma {:induction false} ParseLinesOfTaskLines(tasks: seq<Task>)
    ensures ParseLines(TaskLines(tasks)) == Some(Views(tasks))
  {
    if tasks != [] {
      var lines := TaskLines(tasks);
      assert lines[1..] == TaskLines(tasks[1..]);
      ParseLinesOfTaskLines(tasks[1..]);
      ParseLineOfTaskLine(tasks[0]);
    }
  }

  /** Reading the `list` output back recovers every task's id, title and
      completion state, in stored order; an empty store reads back as empty. */
  lemma ParseListingOfRender(tasks: seq<Task>)
    ensures ParseListing(Render(tasks)) == Some(Views(tasks))
  {
    if tasks != [] {
      var lines := Render(tasks);
      assert lines[1..] == TaskLines(tasks);
      ParseLinesOfTaskLines(tasks);
    }
  }
}
