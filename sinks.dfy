/** The output sink a generator writes its blobs to: the process's standard
    output by default, or the adapter that turns each blob into one info-level
    record of a structured logger. */
module Sinks {
  import opened Common

  /** Which destination a sink stands for; a logger is known only by identity. */
  datatype Writer = Stdout | LogWriter(logger: nat)

  class Sink {
    const kind: Writer
    /** Every blob this sink has received, in order. */
    var records: seq<seq<byte>>

    constructor (kind: Writer)
      ensures this.kind == kind && records == []
    {
      this.kind := kind;
      records := [];
    }

    /** Hands one blob to the destination. The logger adapter reports zero
        bytes written and never an error, whatever it is given. */
    method WriteString(s: seq<byte>) returns (n: int, err: Option<Error>)
      modifies this
      ensures records == old(records) + [s]
      ensures kind.LogWriter? ==> n == 0 && err == None
    {
      records := records + [s];
      match kind
      case LogWriter(_) =>
        n, err := 0, None;
      case Stdout =>
        n, err := |s|, None;
    }
  }
}
