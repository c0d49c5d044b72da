/** The two ways a stream is read whole (`read_stream`, src/parallel.rs), and what the image read may rely on. */
module StreamReading {
  import opened Basics
  import opened Deliveries
  import opened Streams
  import opened Images
  import opened FastRead
  import opened Pipeline
  import opened PipelineOutcome
  import opened ThreadPlans

  /** How a finished pipelined read ends for its caller. */
  function EndOf(v: Option<Fault>): Option<Error> {
    match v
    case None => None
    case Some(Own(e)) => Some(e)
    case Some(OfBevy(_)) => Some(Unreadable)
    case Some(Short) => Some(ShortStream)
  }

  /** A pipelined read of this storage that has joined its threads. */
  ghost predicate Pipelined(st: ImageStream, bevies: Bevies, plan: ThreadPlan, pinned: bool, s: Setup, run: seq<Action>) {
    && AsPlanned(s, plan, pinned) && s.st == st && s.bevies == bevies && s.steady
    && Feasible(s, Init(s), run) && Joined(After(s, Init(s), run))
  }

  /** What `read_stream` may hand over: a pipelined read of a long enough stream, the serial read of any other. */
  ghost predicate MayRead(st: ImageStream, bevies: Bevies, plan: ThreadPlan, pinned: bool, wr: WholeRead)
    requires st.Openable()
  {
    if plan.IsParallel() && st.BevyCount() > INLINE_BEVY_MAX then
      exists s, run :: Pipelined(st, bevies, plan, pinned, s, run)
        && wr.Bytes() == After(s, Init(s), run).out && wr.error == EndOf(Verdict(s, After(s, Init(s), run)))
    else
      wr.Bytes() == SerialRead(st, bevies).bytes && wr.error == SerialRead(st, bevies).error
  }

  /** Whatever the interleaving, a pipelined read that ends well has handed over the serial read, and else a beginning. */
  lemma PipelinedReadFits(s: Setup, run: seq<Action>, wr: WholeRead)
    requires s.st.Openable() && s.steady && Feasible(s, Init(s), run)
    requires wr.Bytes() == After(s, Init(s), run).out && wr.error == EndOf(Verdict(s, After(s, Init(s), run)))
    ensures FromBevies(s.st, s.bevies, wr)
  {
    DeliversInStreamOrder(s, run);
    SteadyRun(s, Init(s), run);
    if Verdict(s, After(s, Init(s), run)).None? {
      SuccessIsSerial(s, run);
    }
  }

  /**
   Under any plan, pipelined or not, in any interleaving and any slicing, `read_stream` hands over a beginning of
   what the serial read delivers, and ends well only after all of it.
   */
  lemma ReadStreamFits(st: ImageStream, bevies: Bevies, plan: ThreadPlan, pinned: bool, wr: WholeRead)
    requires st.Openable() && MayRead(st, bevies, plan, pinned, wr)
    ensures FromBevies(st, bevies, wr)
  {
    if plan.IsParallel() && st.BevyCount() > INLINE_BEVY_MAX {
      var s, run :| Pipelined(st, bevies, plan, pinned, s, run)
        && wr.Bytes() == After(s, Init(s), run).out && wr.error == EndOf(Verdict(s, After(s, Init(s), run)));
      PipelinedReadFits(s, run, wr);
    } else {
      assert SerialRead(st, bevies).Honest();
    }
  }
}
