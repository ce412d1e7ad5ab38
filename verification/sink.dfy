/** The sinks: accepting a transaction is one thing, making it durable is another. */
module Sinks {
  import opened Prelude
  import opened Transactions

  /** One event is one line, and it is never torn. */
  type Line = ChangeEvent

  /**
   Where the lines are: synchronised to the device, handed to the kernel, or still in the
   writer's buffer. The file in order is the three one after the other.
   */
  datatype SinkState = SinkState(device: seq<Line>, kernel: seq<Line>, buffer: seq<Line>, pending: Option<Lsn>) {

    function Contents(): seq<Line> {
      device + kernel + buffer
    }

    /** `tx` was accepted in full and nothing was lost; how much of it is buffered is open. */
    predicate Accepts(tx: Transaction, after: SinkState) {
      && after.device == device
      && after.Contents() == Contents() + tx.changes
      && after.pending == Some(tx.endLsn)
    }

    /** The barrier. Nothing accepted since the last one means there is nothing to report. */
    function Barrier(): (SinkState, Option<Lsn>) {
      if pending.None? then (this, None) else (SinkState(Contents(), [], [], None), pending)
    }

    /** A barrier after an accepted transaction keeps every line and leaves none behind. */
    lemma BarrierCoversAccepted(tx: Transaction, after: SinkState)
      requires Accepts(tx, after)
      ensures after.Barrier().1 == Some(tx.endLsn)
      ensures after.Barrier().0.device == Contents() + tx.changes == after.Barrier().0.Contents()
    {
      assert after.Contents() + [] + [] == after.Contents();
    }

    /** A second barrier right after the first has nothing new to report. */
    lemma BarrierTwice()
      ensures Barrier().0.Barrier() == (Barrier().0, None)
      ensures Barrier().0.Contents() == Contents()
    {
      assert Contents() + [] + [] == Contents();
    }
  }

  /** What the operating system does with one line: it stays in the buffer, the buffer overflows
      into the kernel first, or the write fails. */
  datatype LineOutcome = Buffered | Spilled | Failed

  class FileSink {
    var device: seq<Line>
    var kernel: seq<Line>
    var buffer: seq<Line>
    var pending: Option<Lsn>

    ghost function View(): SinkState
      reads this
    {
      SinkState(device, kernel, buffer, pending)
    }

    /** Opens a file that may hold lines already; appending is all it does. */
    constructor (device: seq<Line>, kernel: seq<Line>)
      ensures View() == SinkState(device, kernel, [], None)
    {
      this.device, this.kernel, this.buffer, this.pending := device, kernel, [], None;
    }

    /** One line for each change, in order. */
    method WriteChanges(tx: Transaction, io: nat -> LineOutcome) returns (r: Result<()>)
      modifies this`kernel, this`buffer
      ensures r.Ok? <==> forall i :: 0 <= i < |tx.changes| ==> io(i) != Failed
      ensures r.Ok? ==> View().Contents() == old(View().Contents()) + tx.changes
      ensures r.Err? ==> r.error == Error.Sink
      ensures old(kernel) <= kernel
      ensures r.Err? ==> exists k :: 0 <= k < |tx.changes| && View().Contents() == old(View().Contents()) + tx.changes[..k]
    {
      ghost var before := View().Contents();
      var i := 0;
      while i < |tx.changes|
        invariant 0 <= i <= |tx.changes|
        invariant forall k :: 0 <= k < i ==> io(k) != Failed
        invariant View().Contents() == before + tx.changes[..i]
        invariant old(kernel) <= kernel
      {
        match io(i) {
          case Failed => return Err(Error.Sink);
          case Spilled => kernel, buffer := kernel + buffer, [tx.changes[i]];
          case Buffered => buffer := buffer + [tx.changes[i]];
        }
        assert before + tx.changes[..i] + [tx.changes[i]] == before + tx.changes[..i + 1];
        i := i + 1;
      }
      assert tx.changes[..i] == tx.changes;
      return Ok(());
    }

    /** Remembers the position of the transaction accepted last, even when it is a lower one. */
    method WriteTransaction(tx: Transaction, io: nat -> LineOutcome) returns (r: Result<()>)
      modifies this
      ensures r.Ok? <==> forall i :: 0 <= i < |tx.changes| ==> io(i) != Failed
      ensures r.Ok? ==> old(View()).Accepts(tx, View()) && old(kernel) <= kernel
      ensures r.Err? ==> r.error == Error.Sink && device == old(device) && pending == old(pending)
      ensures r.Err? ==> exists k :: 0 <= k < |tx.changes| && View().Contents() == old(View().Contents()) + tx.changes[..k]
    {
      var _ :- WriteChanges(tx, io);
      pending := Some(tx.endLsn);
      return Ok(());
    }

    /** Flushes, then synchronises, and only then gives the position up. */
    method Flush(flushOk: bool, syncOk: bool, flushed: nat) returns (r: Result<Option<Lsn>>)
      modifies this
      ensures r.Ok? <==> old(pending).None? || (flushOk && syncOk)
      ensures r.Ok? ==> (View(), r.value) == old(View()).Barrier()
      ensures r.Err? ==> r.error == Error.Sink && pending == old(pending) && device == old(device)
      ensures View().Contents() == old(View().Contents())
    {
      if pending.None? {
        return Ok(None);
      }
      if !flushOk {
        var n := if flushed < |buffer| then flushed else |buffer|;
        assert buffer == buffer[..n] + buffer[n..];
        kernel, buffer := kernel + buffer[..n], buffer[n..];
        return Err(Error.Sink);
      }
      kernel, buffer := kernel + buffer, [];
      if !syncOk {
        return Err(Error.Sink);
      }
      device, kernel := device + kernel, [];
      assert device == old(View().Contents());
      r := Ok(pending);
      pending := None;
    }
  }

  /** Lines on a pipe: a barrier hands them over and says so, but nothing here is durable. */
  class StdoutSink {
    var pipe: seq<Line>
    var buffer: seq<Line>
    var pending: Option<Lsn>

    method WriteTransaction(tx: Transaction, io: nat -> LineOutcome) returns (r: Result<()>)
      modifies this
      ensures r.Ok? <==> forall i :: 0 <= i < |tx.changes| ==> io(i) != Failed
      ensures r.Ok? ==> pipe + buffer == old(pipe + buffer) + tx.changes && pending == Some(tx.endLsn)
      ensures r.Err? ==> r.error == Error.Sink && pending == old(pending)
      ensures r.Err? ==> exists k :: 0 <= k < |tx.changes| && pipe + buffer == old(pipe + buffer) + tx.changes[..k]
    {
      ghost var before := pipe + buffer;
      for i := 0 to |tx.changes|
        invariant pipe + buffer == before + tx.changes[..i] && pending == old(pending)
        invariant forall k :: 0 <= k < i ==> io(k) != Failed
      {
        match io(i) {
          case Failed => return Err(Error.Sink);
          case Spilled => pipe, buffer := pipe + buffer, [tx.changes[i]];
          case Buffered => buffer := buffer + [tx.changes[i]];
        }
        assert before + tx.changes[..i] + [tx.changes[i]] == before + tx.changes[..i + 1];
      }
      assert tx.changes[..|tx.changes|] == tx.changes;
      pending := Some(tx.endLsn);
      return Ok(());
    }

    /** Unlike the file sink, flushes even when nothing is pending. */
    method Flush(flushOk: bool) returns (r: Result<Option<Lsn>>)
      modifies this
      ensures r == if flushOk then Ok(old(pending)) else Err(Error.Sink)
      ensures pipe + buffer == old(pipe + buffer)
      ensures r.Ok? ==> buffer == [] && pending == None
      ensures r.Err? ==> pending == old(pending)
    {
      if !flushOk {
        return Err(Error.Sink);
      }
      pipe, buffer := pipe + buffer, [];
      r := Ok(pending);
      pending := None;
    }
  }
}
