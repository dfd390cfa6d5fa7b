/** What the engine knows of the market and when (internal/fix/engine.go): every read it has made,
    and the last snapshot among them. */
module EngineMarket {
  import opened Options
  import opened FillModel
  import opened Matching
  import opened EngineBook
  import opened EngineProgress

  /** One read of the recorded market, and when it was made. */
  datatype Read = Read(at: int, read: BookRead)

  /** The reads a run makes: one on opening, and one at each tick that comes a poll or more after
      the last. */
  function Reads(cfg: Config, readAt: int, read: BookRead, inputs: seq<Input>): (made: seq<Read>)
    ensures made != []
  {
    if inputs == [] then [Read(readAt, read)]
    else
      var n := |inputs| - 1;
      var before := Reads(cfg, readAt, read, inputs[..n]);
      if inputs[n].Tick? && inputs[n].now >= before[|before| - 1].at + cfg.bookPoll
      then before + [Read(inputs[n].readAt, inputs[n].read)] else before
  }

  function LastSnapshot(made: seq<Read>): Option<Book> {
    if made == [] then None
    else if made[|made| - 1].read.Snapshot? then Some(made[|made| - 1].read.b)
    else LastSnapshot(made[..|made| - 1])
  }

  /** A snapshot there is, and one no older than the venue allows. */
  predicate Recent(cfg: Config, b: Option<Book>, at: int) {
    b.Some? && at - b.value.ts <= cfg.bookMaxAge
  }

  /** The venue prices on the last snapshot read, and reads again a poll after its last read. */
  predicate KnowsTheMarket(cfg: Config, v: Venue, made: seq<Read>)
    requires made != []
  {
    v.book == LastSnapshot(made) && v.nextBookRead == made[|made| - 1].at + cfg.bookPoll
  }

  lemma OneMoreRead(cfg: Config, v: Venue, made: seq<Read>, at: int, read: BookRead)
    requires made != [] && KnowsTheMarket(cfg, v, made)
    ensures KnowsTheMarket(cfg, ReadBook(cfg, v, at, read), made + [Read(at, read)])
  {
    assert (made + [Read(at, read)])[..|made|] == made;
  }

  lemma TheFirstRead(cfg: Config, readAt: int, read: BookRead)
    ensures KnowsTheMarket(cfg, Opened(cfg, readAt, read), [Read(readAt, read)])
  {
    assert [Read(readAt, read)][..0] == [];
  }

  /** The market a tick prices on, once it has reread it or not. */
  lemma ATickReads(cfg: Config, v: Venue, readAt: int, read: BookRead, inputs: seq<Input>, tick: Input)
    requires KnowsTheMarket(cfg, v, Reads(cfg, readAt, read, inputs)) && tick.Tick?
    ensures KnowsTheMarket(cfg, Refresh(cfg, v, tick.now, tick.readAt, tick.read),
                           Reads(cfg, readAt, read, inputs + [tick]))
  {
    assert (inputs + [tick])[..|inputs|] == inputs;
    OneMoreRead(cfg, v, Reads(cfg, readAt, read, inputs), tick.readAt, tick.read);
  }

  lemma ATickKeepsKnowing(cfg: Config, v: Venue, readAt: int, read: BookRead, inputs: seq<Input>, tick: Input)
    requires KnowsTheMarket(cfg, v, Reads(cfg, readAt, read, inputs)) && tick.Tick? && !v.failed
    ensures KnowsTheMarket(cfg, Step(cfg, v, tick), Reads(cfg, readAt, read, inputs + [tick]))
  {
    ATickReads(cfg, v, readAt, read, inputs, tick);
    EvaluatingKeepsTheMarket(cfg, Refresh(cfg, v, tick.now, tick.readAt, tick.read), tick.ids, tick.now, tick.chance);
  }

  lemma OtherInputsReadNothing(cfg: Config, v: Venue, input: Input)
    requires !input.Tick?
    ensures Step(cfg, v, input).book == v.book && Step(cfg, v, input).nextBookRead == v.nextBookRead
  {
  }

  /** On every run the writer has not stopped, the market is the last snapshot read. */
  lemma {:induction false} TheMarketIsTheLastSnapshot(cfg: Config, readAt: int, read: BookRead, inputs: seq<Input>)
    requires !Run(cfg, Opened(cfg, readAt, read), inputs).failed
    ensures KnowsTheMarket(cfg, Run(cfg, Opened(cfg, readAt, read), inputs), Reads(cfg, readAt, read, inputs))
  {
    if inputs == [] {
      TheFirstRead(cfg, readAt, read);
    } else {
      var n := |inputs| - 1;
      var v, input := Run(cfg, Opened(cfg, readAt, read), inputs[..n]), inputs[n];
      TheMarketIsTheLastSnapshot(cfg, readAt, read, inputs[..n]);
      assert inputs[..n] + [input] == inputs;
      if input.Tick? {
        ATickKeepsKnowing(cfg, v, readAt, read, inputs[..n], input);
      } else {
        OtherInputsReadNothing(cfg, v, input);
      }
    }
  }
}
