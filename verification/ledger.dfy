/** The books of the sink: what it accepted, what of that waits for a barrier, and what it reports. */
module Books {
  import opened Prelude
  import opened Transactions
  import opened Sinks
  import opened Protocol
  import opened Output

  function Highest(txs: seq<Transaction>): Lsn {
    if txs == [] then 0 else Max(Highest(txs[..|txs| - 1]), txs[|txs| - 1].endLsn)
  }

  /**
   The ledger. The file holds what it held at the start and then every accepted transaction, in
   order; when none is waiting for a barrier all of it is on the device. What the sink would
   report is the position of the one accepted last, while `processed` is the highest of all.
   */
  ghost predicate Ledger(atStart: SinkState, accepted: seq<Transaction>, waiting: seq<Transaction>, disk: SinkState,
      processed: Lsn)
  {
    && processed == Highest(accepted)
    && disk.Contents() == atStart.Contents() + Events(accepted)
    && (accepted == [] ==> disk == atStart)
    && |waiting| <= |accepted| && waiting == accepted[|accepted| - |waiting|..]
    && disk.pending == (if waiting == [] then None else Some(waiting[|waiting| - 1].endLsn))
    && (waiting == [] && accepted != [] ==> disk.device == disk.Contents())
  }

  lemma LedgerAtFirst(disk: SinkState)
    requires disk.pending == None
    ensures Ledger(disk, [], [], disk, 0)
  {
    assert disk.Contents() + Events([]) == disk.Contents();
  }

  lemma LedgerAccepts(atStart: SinkState, accepted: seq<Transaction>, waiting: seq<Transaction>, disk: SinkState,
      processed: Lsn, tx: Transaction, after: SinkState)
    requires Ledger(atStart, accepted, waiting, disk, processed) && disk.Accepts(tx, after)
    ensures Ledger(atStart, accepted + [tx], waiting + [tx], after, Max(processed, tx.endLsn))
  {
    EventsOfLonger(accepted, tx, |accepted|);
    assert Events(accepted + [tx]) == Events(accepted) + tx.changes;
    assert atStart.Contents() + Events(accepted) + tx.changes == atStart.Contents() + (Events(accepted) + tx.changes);
    assert (accepted + [tx])[..|accepted|] == accepted;
    assert (accepted + [tx])[|accepted| - |waiting|..] == waiting + [tx];
  }

  lemma LedgerSettles(atStart: SinkState, accepted: seq<Transaction>, waiting: seq<Transaction>, disk: SinkState,
      processed: Lsn)
    requires Ledger(atStart, accepted, waiting, disk, processed)
    ensures Ledger(atStart, accepted, [], disk.Barrier().0, processed)
  {
    disk.BarrierTwice();
  }

  lemma NothingOwed(atStart: SinkState, accepted: seq<Transaction>, waiting: seq<Transaction>, disk: SinkState,
      processed: Lsn)
    requires Ledger(atStart, accepted, waiting, disk, processed) && disk.pending.None?
    ensures disk.device == disk.Contents() || disk == atStart
  {
  }

  /** After accepting `tx` the sink reports the highest position accepted since the last barrier
      exactly when `tx` is not below the highest before. */
  lemma ReportsHighestIff(waiting: seq<Transaction>, disk: SinkState, tx: Transaction, after: SinkState)
    requires disk.Accepts(tx, after)
    ensures after.pending == Some(Highest(waiting + [tx])) <==> Highest(waiting) <= tx.endLsn
  {
    assert (waiting + [tx])[..|waiting|] == waiting;
  }

  /** At every moment since the last barrier the position accepted last is the highest. */
  predicate AlwaysHighest(waiting: seq<Transaction>) {
    waiting != [] ==>
      waiting[|waiting| - 1].endLsn == Highest(waiting) && AlwaysHighest(waiting[..|waiting| - 1])
  }

  /** That is so exactly when the positions accepted since then never went down. */
  lemma {:induction false} AlwaysHighestIff(waiting: seq<Transaction>)
    ensures AlwaysHighest(waiting) <==> forall i, j :: 0 <= i <= j < |waiting| ==> waiting[i].endLsn <= waiting[j].endLsn
    ensures forall i :: 0 <= i < |waiting| ==> waiting[i].endLsn <= Highest(waiting)
  {
    if waiting != [] {
      var front := waiting[..|waiting| - 1];
      AlwaysHighestIff(front);
      HighestIsReached(front);
      assert forall i :: 0 <= i < |front| ==> front[i] == waiting[i];
    }
  }

  lemma {:induction false} HighestIsReached(txs: seq<Transaction>)
    ensures Highest(txs) == 0 || exists i :: 0 <= i < |txs| && txs[i].endLsn == Highest(txs)
  {
    if txs != [] {
      var front := txs[..|txs| - 1];
      HighestIsReached(front);
      if Highest(txs) == Highest(front) && Highest(txs) != 0 {
        var i :| 0 <= i < |front| && front[i].endLsn == Highest(front);
        assert txs[i].endLsn == Highest(txs);
      } else {
        assert txs[|txs| - 1].endLsn == Highest(txs);
      }
    }
  }
}
