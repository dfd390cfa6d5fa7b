/** The simulator's matching engine (internal/fix/engine.go): the book of live orders as a
    value, the step each input takes it through, and the engine that holds it. */
module Matching {
  import opened Options
  import opened Decimals
  import opened FillModel
  import Ids

  datatype Tif = Gtc | Ioc | OtherTif

  datatype OrdStatus = StatusNew | PartiallyFilled | StatusFilled | StatusCanceled | StatusRejected
  {
    predicate Ends() { StatusFilled? || StatusCanceled? || StatusRejected? }
  }

  /** A parsed NewOrderSingle. A tag with no value is a session-level reject, so a ClOrdID
      that reaches the engine is not empty. */
  datatype Submission = Submission(
    clOrdID: string, symbol: string, side: Side, tif: Tif, limitOrder: bool,
    qty: real, limitPx: real, at: int)

  datatype CancelRequest = CancelRequest(clOrdID: string, origClOrdID: string, at: int)

  datatype VenueReport = VenueReport(
    orderID: string, execID: string, clOrdID: string, origClOrdID: string,
    ordStatus: OrdStatus, lastQty: real, lastPx: real, cumQty: real, leavesQty: real,
    avgPx: real, orderQty: real, text: string, at: int)

  datatype CancelReject = CancelReject(clOrdID: string, origClOrdID: string, ordStatus: OrdStatus, tooLate: bool)

  datatype LiveOrder = LiveOrder(
    clOrdID: string, orderID: string, side: Side, tif: Tif, qty: real, limitPx: real,
    slices: seq<real>, next: nat, cumQty: real, notional: real, readyAt: int, execSeq: nat)
  {
    function Leaves(): real { qty - cumQty }

    predicate Done() { next >= |slices| }

    function AvgPx(): real { Average(notional, cumQty) }
  }

  function Average(notional: real, cumQty: real): real {
    if cumQty == 0.0 then 0.0 else Div(notional, cumQty)
  }

  datatype Config = Config(
    product: string, start: int, latency: int, slippageBps: real, partialThreshold: real,
    partialSlices: int, bookPoll: int, bookMaxAge: int)

  /** One read of the recorded market. */
  datatype BookRead = ReadFailed | NoSnapshot | Snapshot(b: Book)

  /** What an accepted order was, kept beside the book so that a finished order can still
      be spoken of: its serial is the one its OrderID renders. */
  datatype Terms = Terms(serial: nat, side: Side, limitPx: real, qty: real)

  /** The engine's state, with everything it has published. `stamps` names the execution id
      of each published report; `failed` says the last one could not be recorded, which
      stops the engine before that report is sent. */
  datatype Venue = Venue(
    live: map<string, LiveOrder>, final: map<string, OrdStatus>, orders: nat, execs: nat,
    book: Option<Book>, nextBookRead: int,
    published: seq<VenueReport>, stamps: seq<Ids.Stamp>, terms: map<string, Terms>, failed: bool)
  {
    /** What reached the wire. */
    function Sent(): seq<VenueReport> {
      if failed && published != [] then published[..|published| - 1] else published
    }
  }

  const REJECT_DUPLICATE := "duplicate ClOrdID"
  const REJECT_UNKNOWN_SYMBOL := "unknown symbol"
  const REJECT_ORD_TYPE := "only limit orders are accepted"
  const REJECT_TIF := "unsupported TimeInForce"
  const REJECT_QTY := "OrderQty must be a positive whole number of contracts"
  const REJECT_PRICE := "Price must be positive"
  const REJECT_NO_MARKET := "no market data"
  const CANCEL_REQUESTED := "canceled on request"
  const CANCEL_IOC_REMAINDER := "IOC remainder canceled"
  const CANCEL_NO_MARKET := "IOC canceled: no market data"

  /** The configured latency spread over [d/2, 3d/2) by a draw from [0, d). */
  function Jitter(d: int, draw: int): int {
    if d <= 0 then 0 else d / 2 + draw
  }

  predicate BookFresh(cfg: Config, book: Option<Book>, now: int) {
    book.Some? && now - book.value.ts <= cfg.bookMaxAge
  }

  function Unsupported(cfg: Config, s: Submission): string {
    if s.symbol != cfg.product then REJECT_UNKNOWN_SYMBOL
    else if !s.limitOrder then REJECT_ORD_TYPE
    else if s.tif.OtherTif? then REJECT_TIF
    else if s.qty <= 0.0 || !Whole(s.qty) then REJECT_QTY
    else if s.limitPx <= 0.0 then REJECT_PRICE
    else ""
  }

  function Refusal(cfg: Config, v: Venue, s: Submission): string {
    if s.clOrdID in v.live || s.clOrdID in v.final then REJECT_DUPLICATE
    else if Unsupported(cfg, s) != "" then Unsupported(cfg, s)
    else if !BookFresh(cfg, v.book, s.at) then REJECT_NO_MARKET
    else ""
  }

  function Publish(v: Venue, r: VenueReport, stamp: Ids.Stamp, recorded: bool): Venue {
    v.(published := v.published + [r], stamps := v.stamps + [stamp], failed := r.lastQty > 0.0 && !recorded)
  }

  function Refuse(cfg: Config, v: Venue, s: Submission, reason: string): Venue {
    var stamp := Ids.Counted(v.execs + 1);
    Publish(v.(orders := v.orders + 1, execs := v.execs + 1),
            VenueReport(Ids.OrderId(cfg.start, v.orders + 1), Ids.ExecId(cfg.start, stamp), s.clOrdID, "",
                        StatusRejected, 0.0, 0.0, 0.0, 0.0, 0.0, s.qty, reason, s.at), stamp, true)
  }

  function Enter(cfg: Config, v: Venue, s: Submission, draw: int): LiveOrder {
    LiveOrder(s.clOrdID, Ids.OrderId(cfg.start, v.orders + 1), s.side, s.tif, s.qty, s.limitPx,
              SliceSizes(s.qty, cfg.partialThreshold, cfg.partialSlices), 0, 0.0, 0.0,
              s.at + Jitter(cfg.latency, draw), 0)
  }

  /** The order enters the book, acknowledged. */
  function Admit(cfg: Config, v: Venue, s: Submission, draw: int): Venue {
    var o := Enter(cfg, v, s, draw);
    var stamp := Ids.Counted(v.execs + 1);
    Publish(v.(live := v.live[s.clOrdID := o], orders := v.orders + 1, execs := v.execs + 1,
               terms := v.terms[s.clOrdID := Terms(v.orders + 1, s.side, s.limitPx, s.qty)]),
            VenueReport(o.orderID, Ids.ExecId(cfg.start, stamp), s.clOrdID, "",
                        StatusNew, 0.0, 0.0, 0.0, s.qty, 0.0, s.qty, "", s.at), stamp, true)
  }

  function Accept(cfg: Config, v: Venue, s: Submission, draw: int): Venue {
    var reason := Refusal(cfg, v, s);
    if reason != "" then Refuse(cfg, v, s, reason) else Admit(cfg, v, s, draw)
  }

  /** The order after its next slice prints at `px`. */
  function AfterSlice(o: LiveOrder, px: real): LiveOrder
    requires o.next < |o.slices|
  {
    var qty := o.slices[o.next];
    o.(next := o.next + 1, cumQty := o.cumQty + qty, notional := o.notional + Times(px, qty), execSeq := o.execSeq + 1)
  }

  /** The k-th execution id of an order is its OrderID and the count. */
  function OrderExecId(o: LiveOrder): string {
    o.orderID + "-" + Ids.FormatNat(o.execSeq, 10)
  }

  function FillReport(o: LiveOrder, px: real, qty: real, now: int): VenueReport {
    VenueReport(o.orderID, OrderExecId(o), o.clOrdID, "", if o.Done() then StatusFilled else PartiallyFilled,
                qty, px, o.cumQty, o.Leaves(), o.AvgPx(), o.qty, "", now)
  }

  function SerialOf(v: Venue, id: string): nat {
    if id in v.terms then v.terms[id].serial else 0
  }

  function PrintSlice(cfg: Config, v: Venue, id: string, now: int, recorded: bool): Venue
    requires id in v.live && v.live[id].next < |v.live[id].slices| && v.book.Some?
  {
    var o := v.live[id];
    var px := ExecPx(o.side, o.limitPx, v.book.value, cfg.slippageBps);
    var o' := AfterSlice(o, px);
    var v' := if o'.Done() then v.(live := v.live - {id}, final := v.final[id := StatusFilled])
              else v.(live := v.live[id := o']);
    Publish(v', FillReport(o', px, o.slices[o.next], now), Ids.OfOrder(SerialOf(v, id), o'.execSeq), recorded)
  }

  function Finish(v: Venue, id: string, at: int, cancelID: string, reason: string): Venue
    requires id in v.live
  {
    var o := v.live[id].(execSeq := v.live[id].execSeq + 1);
    var r := VenueReport(o.orderID, OrderExecId(o),
                         if cancelID == "" then id else cancelID, if cancelID == "" then "" else id,
                         StatusCanceled, 0.0, 0.0, o.cumQty, 0.0, o.AvgPx(), o.qty, reason, at);
    Publish(v.(live := v.live - {id}, final := v.final[id := StatusCanceled]), r,
            Ids.OfOrder(SerialOf(v, id), o.execSeq), true)
  }

  function Defer(v: Venue, id: string, readyAt: int): Venue
    requires id in v.live
  {
    v.(live := v.live[id := v.live[id].(readyAt := readyAt)])
  }

  /** What becomes of an order with something left: an IOC is finished, any other waits until
      `readyAt`. */
  function Settle(v: Venue, id: string, readyAt: int, now: int): Venue
    requires id in v.live
  {
    var v' := Defer(v, id, readyAt);
    if v.live[id].tif.Ioc? then Finish(v', id, now, "", CANCEL_IOC_REMAINDER) else v'
  }

  function Evaluate(cfg: Config, v: Venue, id: string, now: int, draw: int, recorded: bool): Venue
    requires id in v.live && v.live[id].next < |v.live[id].slices|
  {
    var o := v.live[id];
    if !BookFresh(cfg, v.book, now) then
      if o.tif.Ioc? then Finish(v, id, now, "", CANCEL_NO_MARKET) else Defer(v, id, v.nextBookRead)
    else if Marketable(o.side, o.limitPx, v.book.value) then
      var v' := PrintSlice(cfg, v, id, now, recorded);
      if v'.failed || id !in v'.live then v' else Settle(v', id, now + Jitter(cfg.latency, draw), now)
    else
      Settle(v, id, v.nextBookRead, now)
  }

  /** What the outside decides during one tick: the latency drawn for each order and the
      orders whose fill the writer would refuse. */
  datatype Chance = Chance(draws: map<string, int>, refused: set<string>)
  {
    function Draw(id: string): int { if id in draws then draws[id] else 0 }

    predicate Records(id: string) { id !in refused }
  }

  predicate Due(v: Venue, id: string, now: int) {
    id in v.live && v.live[id].next < |v.live[id].slices| && v.live[id].readyAt <= now
  }

  /** Evaluates every due order among `ids`, in turn, until one fill cannot be recorded. */
  function EvaluateAll(cfg: Config, v: Venue, ids: seq<string>, now: int, chance: Chance): Venue {
    if ids == [] then v
    else
      var n := |ids| - 1;
      var v' := EvaluateAll(cfg, v, ids[..n], now, chance);
      if v'.failed || !Due(v', ids[n], now) then v'
      else Evaluate(cfg, v', ids[n], now, chance.Draw(ids[n]), chance.Records(ids[n]))
  }

  function ReadBook(cfg: Config, v: Venue, readAt: int, read: BookRead): Venue {
    v.(nextBookRead := readAt + cfg.bookPoll, book := if read.Snapshot? then Some(read.b) else v.book)
  }

  function Refresh(cfg: Config, v: Venue, now: int, readAt: int, read: BookRead): Venue {
    if now >= v.nextBookRead then ReadBook(cfg, v, readAt, read) else v
  }

  function Cancel(v: Venue, c: CancelRequest): Venue {
    if c.origClOrdID in v.live then Finish(v, c.origClOrdID, c.at, c.clOrdID, CANCEL_REQUESTED) else v
  }

  function CancelAnswer(v: Venue, c: CancelRequest): Option<CancelReject> {
    if c.origClOrdID in v.live then None
    else if c.origClOrdID in v.final then Some(CancelReject(c.clOrdID, c.origClOrdID, v.final[c.origClOrdID], true))
    else Some(CancelReject(c.clOrdID, c.origClOrdID, StatusRejected, false))
  }

  /** One turn of the engine's loop. A tick reads the clock at `now`, and again at `readAt`
      when the book is due; `ids` is the order in which it walks the live orders. */
  datatype Input =
    | Submit(s: Submission, draw: int)
    | CancelOrder(c: CancelRequest)
    | Tick(now: int, readAt: int, read: BookRead, ids: seq<string>, chance: Chance)

  function Step(cfg: Config, v: Venue, input: Input): Venue {
    if v.failed then v
    else match input
      case Submit(s, draw) => Accept(cfg, v, s, draw)
      case CancelOrder(c) => Cancel(v, c)
      case Tick(now, readAt, read, ids, chance) =>
        EvaluateAll(cfg, Refresh(cfg, v, now, readAt, read), ids, now, chance)
  }

  function Opened(cfg: Config, readAt: int, read: BookRead): Venue {
    ReadBook(cfg, Venue(map[], map[], 0, 0, None, 0, [], [], map[], false), readAt, read)
  }

  function Run(cfg: Config, v: Venue, inputs: seq<Input>): Venue {
    if inputs == [] then v
    else Step(cfg, Run(cfg, v, inputs[..|inputs| - 1]), inputs[|inputs| - 1])
  }
}
