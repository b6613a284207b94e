/** The task record, its overdue status, the console line that shows it, and
    the filter that deletion applies to the stored records. */
module Tasks {
  import opened Outcomes
  import opened Dates

  /** One to-do item. The creation time is the text the store was given when
      the record was made; it is never parsed. */
  datatype TaskRecord = TaskRecord(title: string, dueDate: string, createdAt: string)

  /** The error text of a due date the parser rejects. */
  function DateFormatError(s: string): string
  {
    "time data '" + s + "' does not match format '%Y-%m-%d'"
  }

  /** Whether the task is overdue on `today`: its due date is strictly before
      today. A due date that does not parse is a value error, not a boolean. */
  function IsOverdue(t: TaskRecord, today: Date): (r: Outcome<bool>)
    ensures r.Ok? <==> ParseIsoDate(t.dueDate).Some?
    ensures !r.Ok? ==> r == InvalidInput(DateFormatError(t.dueDate))
  {
    match ParseIsoDate(t.dueDate)
    case None => InvalidInput(DateFormatError(t.dueDate))
    case Some(due) => Ok(Before(due, today))
  }

  /** A task whose due date is written from a calendar date is overdue exactly
      when that date is before today. */
  lemma OverdueIffBefore(title: string, due: Date, createdAt: string, today: Date)
    requires IsValid(due)
    ensures IsOverdue(TaskRecord(title, FormatIsoDate(due), createdAt), today) == Ok(Before(due, today))
  {
    ParseFormatted(due);
  }

  /** The boundary: a task due today is on track, one due yesterday is
      overdue. */
  lemma OverdueBoundary(title: string, createdAt: string, today: Date)
    requires IsValid(today) && today != Date(1, 1, 1)
    ensures IsOverdue(TaskRecord(title, FormatIsoDate(today), createdAt), today) == Ok(false)
    ensures IsOverdue(TaskRecord(title, FormatIsoDate(PreviousDay(today)), createdAt), today) == Ok(true)
  {
    OverdueIffBefore(title, today, createdAt, today);
    OverdueIffBefore(title, PreviousDay(today), createdAt, today);
  }

  const OverdueStatus: string := "!! Overdue"
  const OnTrackStatus: string := "On track"

  function StatusText(overdue: bool): string
  {
    if overdue then OverdueStatus else OnTrackStatus
  }

  /** The listing line of one task, `- <title> (Due: <due date>) -> <status>`,
      or the value error its due date raises. */
  function StatusLine(t: TaskRecord, today: Date): (r: Outcome<string>)
    ensures r.Ok? <==> IsOverdue(t, today).Ok?
    ensures r.Ok? ==> r.value == "- " + t.title + " (Due: " + t.dueDate + ") -> " + StatusText(IsOverdue(t, today).value)
    ensures !r.Ok? ==> r == InvalidInput(DateFormatError(t.dueDate))
  {
    match IsOverdue(t, today)
    case Ok(overdue) => Ok("- " + t.title + " (Due: " + t.dueDate + ") -> " + StatusText(overdue))
    case _ => InvalidInput(DateFormatError(t.dueDate))
  }

  /** The records that survive deleting `title`: every record with a
      different title, in the order they were stored. */
  function RemoveTitle(tasks: seq<TaskRecord>, title: string): (r: seq<TaskRecord>)
    ensures |r| <= |tasks|
    ensures forall t :: t in r <==> t in tasks && t.title != title
  {
    if tasks == [] then []
    else if tasks[0].title == title then RemoveTitle(tasks[1..], title)
    else [tasks[0]] + RemoveTitle(tasks[1..], title)
  }

  predicate HasTitle(tasks: seq<TaskRecord>, title: string)
  {
    exists t :: t in tasks && t.title == title
  }

  /** Filtering a concatenation filters each part in place: together with the
      one-record case this says that the survivors keep their relative order. */
  lemma {:induction false} RemoveTitleAppend(a: seq<TaskRecord>, b: seq<TaskRecord>, title: string)
    ensures RemoveTitle(a + b, title) == RemoveTitle(a, title) + RemoveTitle(b, title)
  {
    if a != [] {
      assert (a + b)[1..] == a[1..] + b;
      RemoveTitleAppend(a[1..], b, title);
    } else {
      assert a + b == b;
    }
  }

  /** Every record keeps its multiplicity unless it carries the title, in
      which case none of its copies remain. */
  lemma {:induction false} RemoveTitleCounts(tasks: seq<TaskRecord>, title: string, t: TaskRecord)
    ensures multiset(RemoveTitle(tasks, title))[t] == if t.title == title then 0 else multiset(tasks)[t]
  {
    if tasks != [] {
      RemoveTitleCounts(tasks[1..], title, t);
      assert tasks == [tasks[0]] + tasks[1..];
    }
  }

  /** The source's test for "not found" compares lengths; the filter keeps
      the length exactly when nothing carries the title, which is exactly when
      the records come back unchanged. */
  lemma {:induction false} RemoveTitleMiss(tasks: seq<TaskRecord>, title: string)
    ensures |RemoveTitle(tasks, title)| == |tasks| <==> !HasTitle(tasks, title)
    ensures RemoveTitle(tasks, title) == tasks <==> !HasTitle(tasks, title)
  {
    if tasks != [] {
      RemoveTitleMiss(tasks[1..], title);
      assert tasks == [tasks[0]] + tasks[1..];
    }
  }

  /** Deleting a title a second time changes nothing. */
  lemma {:induction false} RemoveTitleIdempotent(tasks: seq<TaskRecord>, title: string)
    ensures RemoveTitle(RemoveTitle(tasks, title), title) == RemoveTitle(tasks, title)
  {
    RemoveTitleMiss(RemoveTitle(tasks, title), title);
  }

  /** Deleting two titles gives the same records in either order. */
  lemma {:induction false} RemoveTitleCommutes(tasks: seq<TaskRecord>, x: string, y: string)
    ensures RemoveTitle(RemoveTitle(tasks, x), y) == RemoveTitle(RemoveTitle(tasks, y), x)
  {
    if tasks != [] {
      RemoveTitleCommutes(tasks[1..], x, y);
    }
  }

  /** The records whose titles are outside a set: what survives deleting every
      title of the set. */
  function RemoveTitles(tasks: seq<TaskRecord>, titles: set<string>): (r: seq<TaskRecord>)
    ensures forall t :: t in r <==> t in tasks && t.title !in titles
  {
    if tasks == [] then []
    else if tasks[0].title in titles then RemoveTitles(tasks[1..], titles)
    else [tasks[0]] + RemoveTitles(tasks[1..], titles)
  }

  /** Filtering a concatenation by a set of titles filters each part in
      place: the survivors keep their stored order. */
  lemma {:induction false} RemoveTitlesAppend(a: seq<TaskRecord>, b: seq<TaskRecord>, titles: set<string>)
    ensures RemoveTitles(a + b, titles) == RemoveTitles(a, titles) + RemoveTitles(b, titles)
  {
    if a != [] {
      assert (a + b)[1..] == a[1..] + b;
      RemoveTitlesAppend(a[1..], b, titles);
    } else {
      assert a + b == b;
    }
  }

  /** Deleting one title and then a set of titles is deleting their union. */
  lemma {:induction false} RemoveTitleThenTitles(tasks: seq<TaskRecord>, title: string, titles: set<string>)
    ensures RemoveTitles(RemoveTitle(tasks, title), titles) == RemoveTitles(tasks, {title} + titles)
  {
    if tasks != [] {
      RemoveTitleThenTitles(tasks[1..], title, titles);
    }
  }

  lemma {:induction false} RemoveNoTitles(tasks: seq<TaskRecord>)
    ensures RemoveTitles(tasks, {}) == tasks
  {
    if tasks != [] {
      RemoveNoTitles(tasks[1..]);
    }
  }
}
