/** The checks the goal form's save handler makes before anything is
    written: trimming the title and the task lines, dropping blank lines,
    requiring a deadline, defaulting the start to today and refusing a start
    after the deadline. */
module GoalSetup {

  import opened Wrappers
  import opened Dates
  import opened Records

  /** The characters `String.prototype.trim` removes: the ECMAScript white
      space and line terminator characters. */
  predicate IsSpace(c: char) {
    || c == ' ' || c == '\t' || c == '\n' || c == '\r'
    || c == '\U{000B}' || c == '\U{000C}' || c == '\U{00A0}' || c == '\U{1680}'
    || ('\U{2000}' <= c <= '\U{200A}')
    || c == '\U{2028}' || c == '\U{2029}' || c == '\U{202F}' || c == '\U{205F}'
    || c == '\U{3000}' || c == '\U{FEFF}'
  }

  predicate AllSpace(s: string) {
    forall k :: 0 <= k < |s| ==> IsSpace(s[k])
  }

  /** `s` without its leading white space. */
  function TrimStart(s: string): (r: string)
    ensures |r| <= |s| && r == s[|s| - |r|..]
    ensures AllSpace(s[..|s| - |r|])
    ensures r == [] || !IsSpace(r[0])
  {
    if s != [] && IsSpace(s[0]) then TrimStart(s[1..]) else s
  }

  /** `s` without its trailing white space. */
  function TrimEnd(s: string): (r: string)
    ensures |r| <= |s| && r == s[..|r|]
    ensures AllSpace(s[|r|..])
    ensures r == [] || !IsSpace(r[|r| - 1])
  {
    if s != [] && IsSpace(s[|s| - 1]) then TrimEnd(s[..|s| - 1]) else s
  }

  /** `s.trim()`: the part of `s` between its leading and trailing white
      space. It is empty exactly when `s` is all white space. */
  function Trim(s: string): (r: string)
    ensures r == [] || (!IsSpace(r[0]) && !IsSpace(r[|r| - 1]))
    ensures r == [] <==> AllSpace(s)
  {
    var t := TrimStart(s);
    assert s == s[..|s| - |t|] + t;
    TrimEnd(t)
  }

  /** A non-empty string with no white space at either end. */
  predicate Trimmed(t: string) {
    t != [] && !IsSpace(t[0]) && !IsSpace(t[|t| - 1])
  }

  /** Trimming an already trimmed string changes nothing. */
  lemma TrimIdempotent(s: string)
    ensures Trim(Trim(s)) == Trim(s)
  {
  }

  /** `s.split("\n")`: the pieces of `s` between line feeds; there is always
      at least one. */
  function SplitLines(s: string): (lines: seq<string>)
    ensures |lines| >= 1
    ensures forall k :: 0 <= k < |lines| ==> '\n' !in lines[k]
  {
    if s == [] then [[]]
    else
      var rest := SplitLines(s[1..]);
      if s[0] == '\n' then [[]] + rest
      else [[s[0]] + rest[0]] + rest[1..]
  }

  /** `lines.join("\n")`. */
  function JoinLines(lines: seq<string>): string
    requires |lines| >= 1
  {
    if |lines| == 1 then lines[0] else lines[0] + "\n" + JoinLines(lines[1..])
  }

  /** Joining the pieces of a split gives back the text. */
  lemma {:induction false} JoinSplitLines(s: string)
    ensures JoinLines(SplitLines(s)) == s
  {
    if s != [] {
      var rest := SplitLines(s[1..]);
      JoinSplitLines(s[1..]);
      if s[0] == '\n' {
        assert SplitLines(s) == [[]] + rest;
        assert SplitLines(s)[1..] == rest;
        assert [s[0]] + s[1..] == s;
      } else if |rest| == 1 {
        assert [s[0]] + s[1..] == s;
      } else {
        var lines := SplitLines(s);
        assert lines[1..] == rest[1..];
        assert JoinLines(rest) == rest[0] + "\n" + JoinLines(rest[1..]);
        assert [s[0]] + s[1..] == s;
      }
    }
  }

  /** Every line is white space only. */
  predicate AllBlank(lines: seq<string>) {
    forall k :: 0 <= k < |lines| ==> AllSpace(lines[k])
  }

  lemma AllSpaceConcat(a: string, b: string)
    ensures AllSpace(a + b) <==> AllSpace(a) && AllSpace(b)
  {
    if AllSpace(a) && AllSpace(b) {
      forall k | 0 <= k < |a + b| ensures IsSpace((a + b)[k]) {
        if k >= |a| {
          assert (a + b)[k] == b[k - |a|];
        }
      }
    }
    if AllSpace(a + b) {
      forall k | 0 <= k < |a| ensures IsSpace(a[k]) {
        assert (a + b)[k] == a[k];
      }
      forall k | 0 <= k < |b| ensures IsSpace(b[k]) {
        assert (a + b)[|a| + k] == b[k];
      }
    }
  }

  lemma AllBlankCons(line: string, lines: seq<string>)
    ensures AllBlank([line] + lines) <==> AllSpace(line) && AllBlank(lines)
  {
    if AllSpace(line) && AllBlank(lines) {
      forall k | 1 <= k < |lines| + 1 ensures AllSpace(([line] + lines)[k]) {
        assert ([line] + lines)[k] == lines[k - 1];
      }
    }
    if AllBlank([line] + lines) {
      assert AllSpace(([line] + lines)[0]);
      forall k | 0 <= k < |lines| ensures AllSpace(lines[k]) {
        assert ([line] + lines)[k + 1] == lines[k];
      }
    }
  }

  /** Every piece of the split is blank exactly when the text is all white
      space (the line feeds themselves are white space). */
  lemma {:induction false} SplitLinesBlank(s: string)
    ensures AllBlank(SplitLines(s)) <==> AllSpace(s)
  {
    if s != [] {
      var rest := SplitLines(s[1..]);
      SplitLinesBlank(s[1..]);
      assert s == [s[0]] + s[1..];
      AllSpaceConcat([s[0]], s[1..]);
      if s[0] == '\n' {
        AllBlankCons([], rest);
      } else {
        assert rest == [rest[0]] + rest[1..];
        AllBlankCons(rest[0], rest[1..]);
        AllBlankCons([s[0]] + rest[0], rest[1..]);
        AllSpaceConcat([s[0]], rest[0]);
      }
    }
  }

  /** `lines.map(s => s.trim()).filter(Boolean)`. */
  function NonBlankTrimmed(lines: seq<string>): (tasks: seq<string>)
    ensures |tasks| <= |lines|
  {
    if lines == [] then []
    else
      var t := Trim(lines[0]);
      (if t == [] then [] else [t]) + NonBlankTrimmed(lines[1..])
  }

  lemma {:induction false} NonBlankTrimmedEmpty(lines: seq<string>)
    ensures NonBlankTrimmed(lines) == [] <==> AllBlank(lines)
  {
    if lines != [] {
      NonBlankTrimmedEmpty(lines[1..]);
      AllBlankCons(lines[0], lines[1..]);
      assert lines == [lines[0]] + lines[1..];
    }
  }

  lemma {:induction false} NonBlankTrimmedTasks(lines: seq<string>, k: nat)
    requires k < |NonBlankTrimmed(lines)|
    ensures Trimmed(NonBlankTrimmed(lines)[k])
  {
    var t := Trim(lines[0]);
    var rest := NonBlankTrimmed(lines[1..]);
    if t == [] {
      assert NonBlankTrimmed(lines) == rest;
      NonBlankTrimmedTasks(lines[1..], k);
    } else {
      assert NonBlankTrimmed(lines) == [t] + rest;
      if k > 0 {
        NonBlankTrimmedTasks(lines[1..], k - 1);
      }
    }
  }

  /** The task list the form's text yields: one trimmed task per non-blank
      line. It is empty exactly when the text is all white space. */
  function TaskList(text: string): (tasks: seq<string>)
    ensures forall k :: 0 <= k < |tasks| ==> Trimmed(tasks[k])
    ensures tasks == [] <==> AllSpace(text)
  {
    var tasks := NonBlankTrimmed(SplitLines(text));
    SplitLinesBlank(text);
    NonBlankTrimmedEmpty(SplitLines(text));
    forall k | 0 <= k < |tasks| ensures Trimmed(tasks[k]) {
      NonBlankTrimmedTasks(SplitLines(text), k);
    }
    tasks
  }

  /** A trimmed string is its own trim. */
  lemma TrimOfTrimmed(t: string)
    requires Trimmed(t)
    ensures Trim(t) == t
  {
  }

  datatype SaveError =
    | MissingFields       // empty title, no task, or no deadline
    | StartAfterDeadline  // the start (given or defaulted) is after the deadline

  /** The validation of the save handler. `startInput` and `deadlineInput`
      are `None` when the date field is empty; `today` is the current day. */
  function ValidateGoal(titleInput: string, tasksInput: string, startInput: Option<Day>,
                        deadlineInput: Option<Day>, today: Day): (r: Result<Goal, SaveError>)
    ensures r == Failure(MissingFields) <==>
      AllSpace(titleInput) || AllSpace(tasksInput) || deadlineInput == None
    ensures r == Failure(StartAfterDeadline) <==>
      !AllSpace(titleInput) && !AllSpace(tasksInput) && deadlineInput.Some?
      && startInput.GetOr(today) > deadlineInput.value
    ensures r.Success? ==>
      && r.value.title == Trim(titleInput)
      && r.value.tasks == TaskList(tasksInput)
      && r.value.startDate == startInput.GetOr(today)
      && r.value.deadline == deadlineInput.value
      && !r.value.completed
      && ValidGoal(r.value)
  {
    var title := Trim(titleInput);
    var tasks := TaskList(tasksInput);
    if title == [] || tasks == [] || deadlineInput.None? then
      Failure(MissingFields)
    else
      var start := startInput.GetOr(today);
      if start > deadlineInput.value then
        Failure(StartAfterDeadline)
      else
        Success(Goal(title, tasks, start, deadlineInput.value, false))
  }
}
