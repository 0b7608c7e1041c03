/** The crate's single error type and the result of every fallible step. */
module Errors {

  /** `LoadError`: the (approximate) line the scanner had reached and a message. */
  datatype LoadError = LoadError(line: nat, info: string)

  /** `Result<T, LoadError>`, usable with `:-`. */
  datatype Result<+T> = Ok(value: T) | Err(error: LoadError) {

    predicate IsFailure() {
      Err?
    }

    function PropagateFailure<U>(): Result<U>
      requires Err?
    {
      Err(error)
    }

    function Extract(): T
      requires Ok?
    {
      value
    }
  }

  /** Message of a block that never reached its `$end`. */
  function MissingEnd(command: string): string {
    command + " missing an $end"
  }

  /** Message of a second block for a command allowed only once. */
  function Multiple(command: string): string {
    "Multiple " + command + " commands is invalid"
  }

  /** An error message tells which of the two errors happened and for which
      command: the two forms never coincide, and each names its command. */
  lemma MessagesIdentifyCommand(a: string, b: string)
    ensures MissingEnd(a) != Multiple(b)
    ensures MissingEnd(a) == MissingEnd(b) <==> a == b
    ensures Multiple(a) == Multiple(b) <==> a == b
  {
    var m, n := MissingEnd(a), Multiple(b);
    assert m[|m| - 2] == 'n' && n[|n| - 2] == 'i';
    if MissingEnd(a) == MissingEnd(b) {
      assert a == MissingEnd(a)[..|a|] && b == MissingEnd(b)[..|b|];
    }
    if Multiple(a) == Multiple(b) {
      assert a == Multiple(a)[9..9 + |a|] && b == Multiple(b)[9..9 + |b|];
    }
  }
}
