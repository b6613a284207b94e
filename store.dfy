/** The task store: the storage file, how each operation reads it, what each
    operation does to it and prints, and the store object whose methods carry
    those steps out. */
module Store {
  import opened Outcomes
  import opened Dates
  import opened Tasks

  /** The storage file as the store finds it: not there, there but not
      openable for reading (no permission, a directory at the path), there but
      empty, there with text that does not decode, or holding a list of
      records. */
  datatype StoredFile =
    | Absent
    | Unopenable(reason: string)
    | Blank
    | Unreadable(reason: string)
    | Written(tasks: seq<TaskRecord>)

  /** How loading for a listing reads the file: a missing or empty file is the
      empty list; text that does not decode raises a value error; any other
      failure to open the file is not caught and is an unexpected error. */
  function LoadTasks(f: StoredFile): (r: Outcome<seq<TaskRecord>>)
    ensures r.Ok? <==> !f.Unreadable? && !f.Unopenable?
    ensures f == Absent || f == Blank ==> r == Ok([])
    ensures f.Written? ==> r == Ok(f.tasks)
    ensures f.Unreadable? ==> r == InvalidInput(f.reason)
    ensures f.Unopenable? ==> r == Unexpected(f.reason)
  {
    match f
    case Absent => Ok([])
    case Unopenable(reason) => Unexpected(reason)
    case Blank => Ok([])
    case Unreadable(reason) => InvalidInput(reason)
    case Written(tasks) => Ok(tasks)
  }

  /** How adding and deleting read the file: they open it for reading without
      the missing-file fallback, so a missing file is an error for them and
      every other file reads as it loads. */
  function ReadForUpdate(f: StoredFile): (r: Outcome<seq<TaskRecord>>)
    ensures f == Absent ==> r == FileMissing
    ensures f != Absent ==> r == LoadTasks(f)
  {
    if f == Absent then FileMissing else LoadTasks(f)
  }

  /** One wrapped operation's effect: the file afterwards, the outcome the
      wrapper saw, and the lines printed on the console. */
  datatype Effect = Effect(file: StoredFile, outcome: Outcome<()>, console: seq<string>)

  function AddedMessage(title: string): string
  {
    "Task '" + title + "' added successfully."
  }

  function DeletedMessage(title: string): string
  {
    "Task '" + title + "' deleted successfully."
  }

  const NotFoundMessage: string := "Task not found"
  const NoTasksMessage: string := "No tasks found"

  /** Adding a task: the new record goes at the end of the records read, and
      the whole list is written back. A file that cannot be read is left as
      it was. */
  function AddEffect(f: StoredFile, title: string, dueDate: string, createdAt: string): (e: Effect)
    ensures ReadForUpdate(f).Ok? ==>
      var s := ReadForUpdate(f).value;
      && e.outcome == Ok(())
      && e.console == [AddedMessage(title)]
      && e.file.Written?
      && |e.file.tasks| == |s| + 1
      && e.file.tasks[..|s|] == s
      && e.file.tasks[|s|] == TaskRecord(title, dueDate, createdAt)
    ensures !ReadForUpdate(f).Ok? ==>
      && e.file == f
      && e.outcome == Failure(ReadForUpdate(f))
      && e.console == Console(e.outcome, [])
  {
    var read := ReadForUpdate(f);
    if read.Ok? then
      Effect(Written(read.value + [TaskRecord(title, dueDate, createdAt)]), Ok(()), [AddedMessage(title)])
    else
      var o := Failure(read);
      Effect(f, o, Console(o, []))
  }

  /** Deleting a title: every record with that title goes; when none has it
      the file is not written and the store says the task was not found. A
      file that cannot be read is left as it was. */
  function DeleteEffect(f: StoredFile, title: string): (e: Effect)
    ensures ReadForUpdate(f).Ok? && !HasTitle(ReadForUpdate(f).value, title) ==>
      e == Effect(f, Ok(()), [NotFoundMessage])
    ensures ReadForUpdate(f).Ok? && HasTitle(ReadForUpdate(f).value, title) ==>
      e == Effect(Written(RemoveTitle(ReadForUpdate(f).value, title)), Ok(()), [DeletedMessage(title)])
    ensures !ReadForUpdate(f).Ok? ==>
      && e.file == f
      && e.outcome == Failure(ReadForUpdate(f))
      && e.console == Console(e.outcome, [])
  {
    var read := ReadForUpdate(f);
    if read.Ok? then
      var updated := RemoveTitle(read.value, title);
      RemoveTitleMiss(read.value, title);
      if |updated| == |read.value| then Effect(f, Ok(()), [NotFoundMessage])
      else Effect(Written(updated), Ok(()), [DeletedMessage(title)])
    else
      var o := Failure(read);
      Effect(f, o, Console(o, []))
  }

  /** The lines a listing prints before it stops, and how it stops. */
  datatype Listing = Listing(lines: seq<string>, outcome: Outcome<()>)

  /** Renders the records in order: the status line of each, until a due
      date fails to parse, which ends the listing with that value error. */
  function Render(tasks: seq<TaskRecord>, today: Date): Listing
  {
    if tasks == [] then Listing([], Ok(()))
    else
      var line := StatusLine(tasks[0], today);
      if line.Ok? then
        var rest := Render(tasks[1..], today);
        Listing([line.value] + rest.lines, rest.outcome)
      else Listing([], Failure(line))
  }

  /** What a rendering is: the status lines of a prefix of the records, in
      order; either the whole list, or the prefix is followed by a record
      whose due date raises the value error the rendering ends with. */
  lemma {:induction false} RenderPrefix(tasks: seq<TaskRecord>, today: Date)
    ensures var r := Render(tasks, today);
      && |r.lines| <= |tasks|
      && (forall i :: 0 <= i < |r.lines| ==> StatusLine(tasks[i], today) == Ok(r.lines[i]))
      && (r.outcome.Ok? ==> |r.lines| == |tasks| && r.outcome == Ok(()))
      && (!r.outcome.Ok? ==>
            && |r.lines| < |tasks|
            && !StatusLine(tasks[|r.lines|], today).Ok?
            && r.outcome == InvalidInput(DateFormatError(tasks[|r.lines|].dueDate)))
  {
    if tasks != [] {
      RenderPrefix(tasks[1..], today);
    }
  }

  /** Rendering from record i on: its status line, then the rest, or the
      stop at its value error. */
  lemma RenderFrom(tasks: seq<TaskRecord>, i: nat, today: Date)
    requires i < |tasks|
    ensures var line, rest := StatusLine(tasks[i], today), Render(tasks[i + 1..], today);
      Render(tasks[i..], today)
      == if line.Ok? then Listing([line.value] + rest.lines, rest.outcome) else Listing([], Failure(line))
  {
  }

  /** Listing the tasks: one line per record, or the single notice that there
      are none. Listing never writes the file. */
  function ListEffect(f: StoredFile, today: Date): (e: Effect)
    ensures e.file == f
  {
    var loaded := LoadTasks(f);
    if !loaded.Ok? then
      var o := Failure(loaded);
      Effect(f, o, Console(o, []))
    else if loaded.value == [] then Effect(f, Ok(()), [NoTasksMessage])
    else
      var r := Render(loaded.value, today);
      Effect(f, r.outcome, Console(r.outcome, r.lines))
  }

  /** When every due date parses, the listing prints exactly one status line
      per record, in stored order; with no records it prints only the
      notice. */
  lemma ListShowsEveryTask(f: StoredFile, today: Date)
    requires LoadTasks(f).Ok?
    requires forall i :: 0 <= i < |LoadTasks(f).value| ==> StatusLine(LoadTasks(f).value[i], today).Ok?
    ensures ListEffect(f, today).outcome == Ok(())
    ensures LoadTasks(f).value == [] ==> ListEffect(f, today).console == [NoTasksMessage]
    ensures LoadTasks(f).value != [] ==>
      var tasks, lines := LoadTasks(f).value, ListEffect(f, today).console;
      |lines| == |tasks| && forall i :: 0 <= i < |tasks| ==> Ok(lines[i]) == StatusLine(tasks[i], today)
  {
    RenderPrefix(LoadTasks(f).value, today);
  }

  /** A record whose due date does not parse stops the listing: the lines of
      the records before it stay printed, then the wrapper reports the value
      error. */
  lemma ListStopsAtBadDate(f: StoredFile, today: Date, k: nat)
    requires LoadTasks(f).Ok? && k < |LoadTasks(f).value|
    requires forall i :: 0 <= i < k ==> StatusLine(LoadTasks(f).value[i], today).Ok?
    requires !StatusLine(LoadTasks(f).value[k], today).Ok?
    ensures var tasks, e := LoadTasks(f).value, ListEffect(f, today);
      && e.outcome == InvalidInput(DateFormatError(tasks[k].dueDate))
      && |e.console| == k + 1
      && (forall i :: 0 <= i < k ==> Ok(e.console[i]) == StatusLine(tasks[i], today))
      && e.console[k] == InvalidInputPrefix + DateFormatError(tasks[k].dueDate)
  {
    var tasks := LoadTasks(f).value;
    RenderPrefix(tasks, today);
    assert |Render(tasks, today).lines| == k;
  }

  /** Adding a task and then listing: the listing ends with the new task's
      line, whose status says whether its due date is before today. */
  lemma ListAfterAdd(f: StoredFile, title: string, due: Date, createdAt: string, today: Date)
    requires IsValid(due)
    requires ReadForUpdate(f).Ok?
    requires forall i :: 0 <= i < |ReadForUpdate(f).value| ==> StatusLine(ReadForUpdate(f).value[i], today).Ok?
    ensures var e := ListEffect(AddEffect(f, title, FormatIsoDate(due), createdAt).file, today);
      && e.outcome == Ok(())
      && |e.console| == |ReadForUpdate(f).value| + 1
      && (forall i :: 0 <= i < |ReadForUpdate(f).value| ==>
            Ok(e.console[i]) == StatusLine(ReadForUpdate(f).value[i], today))
      && e.console[|e.console| - 1]
         == "- " + title + " (Due: " + FormatIsoDate(due) + ") -> " + StatusText(Before(due, today))
  {
    var s := ReadForUpdate(f).value;
    var rec := TaskRecord(title, FormatIsoDate(due), createdAt);
    var g := AddEffect(f, title, FormatIsoDate(due), createdAt).file;
    assert g.tasks == s + [rec];
    OverdueIffBefore(title, due, createdAt, today);
    ListShowsEveryTask(g, today);
  }

  /** Deleting the same title twice leaves the same file as deleting it once;
      the second delete reports that the task was not found. */
  lemma DeleteTwice(f: StoredFile, title: string)
    requires ReadForUpdate(f).Ok?
    ensures var once := DeleteEffect(f, title);
      DeleteEffect(once.file, title) == Effect(once.file, Ok(()), [NotFoundMessage])
  {
  }

  /** After a delete of a readable file, hit or miss, the file reads as the
      records without that title. */
  lemma DeleteReadsFiltered(f: StoredFile, title: string)
    requires ReadForUpdate(f).Ok?
    ensures ReadForUpdate(DeleteEffect(f, title).file) == Ok(RemoveTitle(ReadForUpdate(f).value, title))
  {
    RemoveTitleMiss(ReadForUpdate(f).value, title);
  }

  /** An operation that fails leaves the file exactly as it found it; a file
      that exists but cannot be opened is an unexpected error for all three
      operations, and text that does not decode is a value error for the
      listing too. */
  lemma FailureLeavesFile(f: StoredFile, title: string, dueDate: string, createdAt: string, today: Date)
    ensures !AddEffect(f, title, dueDate, createdAt).outcome.Ok? ==> AddEffect(f, title, dueDate, createdAt).file == f
    ensures !DeleteEffect(f, title).outcome.Ok? ==> DeleteEffect(f, title).file == f
    ensures f == Absent ==> AddEffect(f, title, dueDate, createdAt).outcome == FileMissing
    ensures f == Absent ==> DeleteEffect(f, title).outcome == FileMissing
    ensures f.Unopenable? ==> AddEffect(f, title, dueDate, createdAt).outcome == Unexpected(f.reason)
    ensures f.Unopenable? ==> DeleteEffect(f, title).outcome == Unexpected(f.reason)
    ensures f.Unopenable? ==> ListEffect(f, today).outcome == Unexpected(f.reason)
    ensures f.Unreadable? ==> ListEffect(f, today).outcome == InvalidInput(f.reason)
  {
  }

  /** The loop of a listing: the status line of each record in turn, until a
      due date raises a value error, which ends the loop. */
  method PrintStatusLines(tasks: seq<TaskRecord>, today: Date) returns (outcome: Outcome<()>, printed: seq<string>)
    ensures Listing(printed, outcome) == Render(tasks, today)
  {
    printed := [];
    outcome := Ok(());
    var i := 0;
    while i < |tasks|
      invariant 0 <= i <= |tasks|
      invariant outcome == Ok(())
      invariant Render(tasks, today)
                == Listing(printed + Render(tasks[i..], today).lines, Render(tasks[i..], today).outcome)
    {
      var line := StatusLine(tasks[i], today);
      RenderFrom(tasks, i, today);
      if !line.Ok? {
        outcome := Failure(line);
        break;
      }
      printed := printed + [line.value];
      i := i + 1;
    }
  }

  /** The task store, bound to its storage file. */
  class TaskStore {
    var file: StoredFile

    constructor (initial: StoredFile)
      ensures file == initial
    {
      file := initial;
    }

    /** Loads the records for reading, without the lock-protected update. */
    method Load() returns (r: Outcome<seq<TaskRecord>>)
      ensures r == LoadTasks(file)
    {
      r := LoadTasks(file);
    }

    /** Reads the records, appends the new one and writes the list back. */
    method AddTask(title: string, dueDate: string, createdAt: string) returns (outcome: Outcome<()>, console: seq<string>)
      modifies this
      ensures Effect(file, outcome, console) == AddEffect(old(file), title, dueDate, createdAt)
    {
      var read := ReadForUpdate(file);
      if !read.Ok? {
        outcome := Failure(read);
        console := Console(outcome, []);
        return;
      }
      var tasks := read.value;
      tasks := tasks + [TaskRecord(title, dueDate, createdAt)];
      file := Written(tasks);
      outcome := Ok(());
      console := Console(outcome, [AddedMessage(title)]);
    }

    /** Prints one status line per record, or the notice when there are
        none. */
    method ListTasks(today: Date) returns (outcome: Outcome<()>, console: seq<string>)
      ensures Effect(file, outcome, console) == ListEffect(file, today)
    {
      var loaded := Load();
      if !loaded.Ok? {
        outcome := Failure(loaded);
        console := Console(outcome, []);
      } else if loaded.value == [] {
        outcome := Ok(());
        console := [NoTasksMessage];
      } else {
        var printed;
        outcome, printed := PrintStatusLines(loaded.value, today);
        console := Console(outcome, printed);
      }
    }

    /** Reads the records, drops every one with the title and writes the rest
        back, unless nothing was dropped. */
    method DeleteTask(title: string) returns (outcome: Outcome<()>, console: seq<string>)
      modifies this
      ensures Effect(file, outcome, console) == DeleteEffect(old(file), title)
    {
      var read := ReadForUpdate(file);
      if !read.Ok? {
        outcome := Failure(read);
        console := Console(outcome, []);
        return;
      }
      var tasks := read.value;
      var updated := RemoveTitle(tasks, title);
      if |updated| == |tasks| {
        outcome := Ok(());
        console := [NotFoundMessage];
        return;
      }
      file := Written(updated);
      outcome := Ok(());
      console := Console(outcome, [DeletedMessage(title)]);
    }
  }
}
