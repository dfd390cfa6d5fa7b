/** The order-entry vocabulary every venue and the order tracker share
    (internal/carry/venue.go). A decimal is an exact real number, an instant is an
    integer, and a time.Time that may be zero is an Option. */
module Orders {

  import opened Options

  type OrderId = string

  /** The five states a report may carry, the tracker's own PENDING, and any string
      outside the vocabulary. */
  datatype ExecState = Pending | New | Partial | Filled | Canceled | Rejected | Unruled(name: string)
  {
    predicate Terminal() {
      Filled? || Canceled? || Rejected?
    }
  }

  /** A report as the client keeps it. `receivedAt` is None when the venue stamped no receipt
      time. */
  datatype ExecReport = ExecReport(
    clOrdID: OrderId,
    venueID: string,
    execID: string,
    state: ExecState,
    cumQty: real,
    leavesQty: real,
    avgPx: real,
    reason: string,
    at: int,
    receivedAt: Option<int>)

  /** What the submitter knows about an order, reduced to what the tracker reads. */
  datatype Order = Order(clOrdID: OrderId, leg: string, qty: real)

  /** The venue's synchronous answer to a submission. */
  datatype Ack = Ack(venueID: string, at: int)
}
