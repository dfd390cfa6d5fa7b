/** Small runs of the venue, worked out: one order, a market quoted at the order's own limit,
    and a tick. They are the inputs at which the engine's conditions fail. */
module EngineRuns {
  import opened Decimals
  import opened FillModel
  import opened Matching
  import opened EngineBook
  import Ids

  /** A venue without slippage that cuts an order of more than one contract in two and reads
      the market every ten units. */
  function PlainVenue(latency: int): Config {
    Config("P", 0, latency, 0.0, 1.0, 2, 10, 100)
  }

  function AnOrder(side: Side, qty: real, limitPx: real): Submission {
    Submission("A", "P", side, Gtc, true, qty, limitPx, 0)
  }

  /** The market as it opens, quoted at one price on both sides. */
  function LockedAt(px: real): BookRead {
    Snapshot(Book(0, px, px))
  }

  /** A tick at the opening instant that walks the one order, draws nothing and refuses
      nothing. */
  function TheTick(): Input {
    Tick(0, 0, ReadFailed, ["A"], Chance(map[], {}))
  }

  function Resting(latency: int, side: Side, qty: real, px: real): Venue {
    Admit(PlainVenue(latency), Opened(PlainVenue(latency), 0, LockedAt(px)), AnOrder(side, qty, px), 0)
  }

  lemma TheOrderRests(latency: int, side: Side, qty: real, px: real)
    requires qty > 0.0 && Whole(qty) && px > 0.0
    ensures var cfg := PlainVenue(latency);
            Run(cfg, Opened(cfg, 0, LockedAt(px)), [Submit(AnOrder(side, qty, px), 0)])
              == Resting(latency, side, qty, px)
  {
    var cfg, s := PlainVenue(latency), AnOrder(side, qty, px);
    var v := Opened(cfg, 0, LockedAt(px));
    RefusedExactlyWhenUnacceptable(cfg, v, s);
    assert [Submit(s, 0)][..0] == [];
    assert Run(cfg, v, []) == v;
    assert Run(cfg, v, [Submit(s, 0)]) == Step(cfg, v, Submit(s, 0));
  }

  /** What the venue looks like once the order's first slice has printed at its limit. */
  function Printed(latency: int, side: Side, qty: real, px: real): Venue {
    PrintSlice(PlainVenue(latency), Resting(latency, side, qty, px), "A", 0, true)
  }

  lemma TheLimitIsThePrice(side: Side, px: real)
    ensures ExecPx(side, px, Book(0, px, px), 0.0) == px
  {
    assert px * (1.0 + 0.0) == px && px * (1.0 - 0.0) == px;
  }

  lemma OneToEvaluate(cfg: Config, v: Venue)
    requires !v.failed && v.nextBookRead > 0 && Due(v, "A", 0)
    ensures Step(cfg, v, TheTick()) == Evaluate(cfg, v, "A", 0, 0, true)
  {
    var chance: Chance := Chance(map[], {});
    assert ["A"][..0] == [];
    assert EvaluateAll(cfg, v, [], 0, chance) == v;
  }

  lemma TheTickPrints(latency: int, side: Side, qty: real, px: real)
    requires qty > 0.0 && Whole(qty) && px > 0.0 && latency < 2
    ensures var p := Printed(latency, side, qty, px);
            Step(PlainVenue(latency), Resting(latency, side, qty, px), TheTick())
            == if "A" in p.live then Defer(p, "A", 0) else p
  {
    var cfg, v := PlainVenue(latency), Resting(latency, side, qty, px);
    assert Jitter(latency, 0) == 0;
    OneToEvaluate(cfg, v);
    EvaluationIs(cfg, v, "A", 0, 0, true);
  }

  /** One submission and one tick. */
  function Inputs(side: Side, qty: real, px: real): seq<Input> {
    [Submit(AnOrder(side, qty, px), 0), TheTick()]
  }

  lemma TheRun(latency: int, side: Side, qty: real, px: real)
    requires qty > 0.0 && Whole(qty) && px > 0.0 && latency < 2
    ensures var cfg, p := PlainVenue(latency), Printed(latency, side, qty, px);
            Run(cfg, Opened(cfg, 0, LockedAt(px)), Inputs(side, qty, px))
            == if "A" in p.live then Defer(p, "A", 0) else p
  {
    var cfg := PlainVenue(latency);
    TheOrderRests(latency, side, qty, px);
    TheTickPrints(latency, side, qty, px);
    assert Inputs(side, qty, px)[..1] == [Submit(AnOrder(side, qty, px), 0)];
  }

  /** A single contract is filled at its limit. */
  lemma ASingleContractFills(side: Side, px: real)
    requires px > 0.0
    ensures var cfg := PlainVenue(0);
            var v := Run(cfg, Opened(cfg, 0, LockedAt(px)), Inputs(side, 1.0, px));
            && "A" in v.terms && v.terms["A"] == Terms(1, side, px, 1.0) && "A" in v.final && v.final["A"].StatusFilled?
            && |v.published| == 2
            && var r := v.published[1];
               Owns("A", r) && r.ordStatus.StatusFilled? && r.cumQty == 1.0 && r.avgPx == Round16(px)
  {
    TheRun(0, side, 1.0, px);
    TheLimitIsThePrice(side, px);
    assert SliceSizes(1.0, 1.0, 2) == [1.0];
    assert Times(px, 1.0) == px;
  }

  /** Two contracts print one and leave the other, ready again at the same instant. */
  lemma TwoContractsLeaveOne(latency: int, side: Side, px: real)
    requires px > 0.0 && latency < 2
    ensures var cfg := PlainVenue(latency);
            var v := Run(cfg, Opened(cfg, 0, LockedAt(px)), Inputs(side, 2.0, px));
            !v.failed && "A" in v.live && v.live["A"].readyAt == 0
  {
    TheRun(latency, side, 2.0, px);
    assert (2.0).Floor == 2;
    assert |SliceSizes(2.0, 1.0, 2)| == 2;
  }
}
