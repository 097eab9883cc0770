/** The service counters. */
module Metrics {

  datatype Counters = Counters(
    receivedTotal: nat, insertedTotal: nat, insertErrorTotal: nat,
    batchCount: nat, batchSum: nat, flushDurationUsTotal: int)

  const ZERO := Counters(0, 0, 0, 0, 0, 0)

  function IncReceived(c: Counters): Counters {
    c.(receivedTotal := c.receivedTotal + 1)
  }

  function AddInserted(c: Counters, n: nat): Counters {
    c.(insertedTotal := c.insertedTotal + n)
  }

  function IncInsertError(c: Counters): Counters {
    c.(insertErrorTotal := c.insertErrorTotal + 1)
  }

  function ObserveBatch(c: Counters, size: nat, durationUs: int): Counters {
    c.(batchCount := c.batchCount + 1, batchSum := c.batchSum + size,
       flushDurationUsTotal := c.flushDurationUsTotal + durationUs)
  }

  /** The atomic counters as one object updated in place. */
  class Recorder {
    var counters: Counters

    constructor ()
      ensures counters == ZERO
    {
      counters := ZERO;
    }

    method Received()
      modifies this
      ensures counters == IncReceived(old(counters))
    {
      counters := counters.(receivedTotal := counters.receivedTotal + 1);
    }

    method Inserted(n: nat)
      modifies this
      ensures counters == AddInserted(old(counters), n)
    {
      counters := counters.(insertedTotal := counters.insertedTotal + n);
    }

    method InsertError()
      modifies this
      ensures counters == IncInsertError(old(counters))
    {
      counters := counters.(insertErrorTotal := counters.insertErrorTotal + 1);
    }

    method Batch(size: nat, durationUs: int)
      modifies this
      ensures counters == ObserveBatch(old(counters), size, durationUs)
    {
      counters := counters.(batchCount := counters.batchCount + 1);
      counters := counters.(batchSum := counters.batchSum + size);
      counters := counters.(flushDurationUsTotal := counters.flushDurationUsTotal + durationUs);
    }
  }
}
