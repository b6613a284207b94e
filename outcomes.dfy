/** Outcomes of store operations and the error-to-report wrapper that every
    public operation of the task store goes through. */
module Outcomes {

  datatype Option<+T> = None | Some(value: T)

  /** What an operation ends with: its result, or the class of the exception
      it raised (a missing file, a value error, anything else). */
  datatype Outcome<+T> =
    | Ok(value: T)
    | FileMissing
    | InvalidInput(msg: string)
    | Unexpected(msg: string)

  /** What the wrapper hands back: the returned value (None on failure) and
      the line it prints on the console, if any. */
  datatype Reported<+T> = Reported(result: Option<T>, message: Option<string>)

  const FileMissingMessage: string := "Error: Task file not found."
  const InvalidInputPrefix: string := "Invalid input: "
  const UnexpectedPrefix: string := "Unexpected error: "

  /** The wrapper: total, so nothing ever propagates to the caller. A success
      passes its value through silently; each failure class becomes None and
      its own console message. */
  function SafeOperation<T>(o: Outcome<T>): (r: Reported<T>)
    ensures r.result.Some? <==> o.Ok?
    ensures r.message.None? <==> o.Ok?
    ensures o.Ok? ==> r.result == Some(o.value)
  {
    match o
    case Ok(v) => Reported(Some(v), None)
    case FileMissing => Reported(None, Some(FileMissingMessage))
    case InvalidInput(m) => Reported(None, Some(InvalidInputPrefix + m))
    case Unexpected(m) => Reported(None, Some(UnexpectedPrefix + m))
  }

  /** The console of a wrapped operation: what the operation printed itself,
      then the wrapper's message for a failure. */
  function Console<T>(o: Outcome<T>, printed: seq<string>): (lines: seq<string>)
    ensures o.Ok? ==> lines == printed
    ensures !o.Ok? ==> |lines| == |printed| + 1 && lines[..|printed|] == printed
    ensures !o.Ok? ==> Some(lines[|printed|]) == SafeOperation(o).message
  {
    match SafeOperation(o).message
    case None => printed
    case Some(m) => printed + [m]
  }

  /** Carries a failure of one result type over to another, keeping its class
      and its message. */
  function Failure<T, U>(o: Outcome<T>): (r: Outcome<U>)
    requires !o.Ok?
    ensures !r.Ok?
    ensures SafeOperation(r).message == SafeOperation(o).message
  {
    match o
    case FileMissing => FileMissing
    case InvalidInput(m) => InvalidInput(m)
    case Unexpected(m) => Unexpected(m)
  }

  /** The wrapper loses no information: two outcomes that are reported alike
      are the same outcome, so the console line alone tells the failure
      classes (and their messages) apart. */
  lemma SafeOperationInjective<T>(a: Outcome<T>, b: Outcome<T>)
    requires SafeOperation(a) == SafeOperation(b)
    ensures a == b
  {
    if !a.Ok? && !b.Ok? {
      var ma, mb := SafeOperation(a).message.value, SafeOperation(b).message.value;
      assert ma[0] == FirstLetter(a) && mb[0] == FirstLetter(b);
      if a.InvalidInput? && b.InvalidInput? {
        assert a.msg == ma[|InvalidInputPrefix|..] && b.msg == mb[|InvalidInputPrefix|..];
      } else if a.Unexpected? && b.Unexpected? {
        assert a.msg == ma[|UnexpectedPrefix|..] && b.msg == mb[|UnexpectedPrefix|..];
      }
    }
  }

  /** The letter each failure class's console message starts with. */
  function FirstLetter<T>(o: Outcome<T>): char
  {
    match o
    case Ok(_) => ' '
    case FileMissing => 'E'
    case InvalidInput(_) => 'I'
    case Unexpected(_) => 'U'
  }

  /** The behaviour the wrapper's own test pins down: a wrapped operation that
      raises a value error returns None and does not raise. */
  lemma ValueErrorIsSwallowed()
    ensures SafeOperation<()>(InvalidInput("Intentional Error"))
            == Reported(None, Some("Invalid input: Intentional Error"))
  {
    assert InvalidInputPrefix + "Intentional Error" == "Invalid input: Intentional Error";
  }
}
