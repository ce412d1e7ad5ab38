/** The four positions of a running process and the rule that guards acknowledgement. */
module Tracker {
  import opened Prelude

  /** The value of an LsnTracker. */
  datatype Positions = Positions(received: Lsn, durable: Lsn, acked: Lsn, processed: Lsn) {

    function NoteReceived(lsn: Lsn): Positions {
      this.(received := Max(received, lsn))
    }

    function NoteDurable(lsn: Lsn): Positions {
      this.(durable := Max(durable, lsn))
    }

    function NoteProcessed(lsn: Lsn): Positions {
      this.(processed := Max(processed, lsn))
    }

    /** Mark `lsn` durable and then acknowledge it. */
    function Acknowledge(lsn: Lsn): Positions {
      this.(durable := Max(durable, lsn), acked := Max(acked, lsn))
    }

    /** The one ordering between positions that the code enforces. */
    predicate Valid() {
      acked <= durable
    }

    /** No position is behind where it is in `p`. */
    predicate NotBehind(p: Positions) {
      p.received <= received && p.durable <= durable && p.acked <= acked && p.processed <= processed
    }
  }

  const ZERO := Positions(0, 0, 0, 0)

  class LsnTracker {
    var received: Lsn
    var durable: Lsn
    var acked: Lsn
    var processed: Lsn

    ghost function View(): Positions
      reads this
    {
      Positions(received, durable, acked, processed)
    }

    constructor ()
      ensures View() == ZERO
    {
      received, durable, acked, processed := 0, 0, 0, 0;
    }

    method NoteReceived(lsn: Lsn)
      modifies this
      ensures View() == old(View()).NoteReceived(lsn)
      ensures received == (if old(received) < lsn then lsn else old(received))
      ensures durable == old(durable) && acked == old(acked) && processed == old(processed)
      ensures View().NotBehind(old(View()))
    {
      if lsn > received {
        received := lsn;
      }
    }

    method NoteDurable(lsn: Lsn)
      modifies this
      ensures View() == old(View()).NoteDurable(lsn)
      ensures durable == (if old(durable) < lsn then lsn else old(durable))
      ensures received == old(received) && acked == old(acked) && processed == old(processed)
      ensures View().NotBehind(old(View()))
    {
      if lsn > durable {
        durable := lsn;
      }
    }

    method NoteProcessed(lsn: Lsn)
      modifies this
      ensures View() == old(View()).NoteProcessed(lsn)
      ensures processed == (if old(processed) < lsn then lsn else old(processed))
      ensures received == old(received) && durable == old(durable) && acked == old(acked)
      ensures View().NotBehind(old(View()))
    {
      if lsn > processed {
        processed := lsn;
      }
    }

    /** Refuses exactly the positions beyond durable, and then leaves every position alone. */
    method TryAck(lsn: Lsn) returns (r: Result<()>)
      modifies this
      ensures r.Err? <==> lsn > old(durable)
      ensures r.Err? ==> r.error == AckBeyondDurable(lsn, durable) && View() == old(View())
      ensures r.Ok? ==> View() == old(View()).(acked := Max(old(acked), lsn))
      ensures r.Ok? ==> acked == if old(acked) < lsn then lsn else old(acked)
      ensures old(View()).Valid() ==> View().Valid()
    {
      if lsn > durable {
        return Err(AckBeyondDurable(lsn, durable));
      }
      if lsn > acked {
        acked := lsn;
      }
      return Ok(());
    }
  }
}
