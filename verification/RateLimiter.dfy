/**
  The request limiter: a ticker goroutine that, each second, fills a channel of capacity rps with up to
  rps tokens, and callers that drain it. A tick's loop is interleaved with the callers between its
  length check and its send.
 */
module RateLimiter {

  /** Where the ticker goroutine is: `left` iterations of the loop remain, the current one included. */
  datatype Ticker = Waiting | Checking(left: nat) | Sending(left: nat)

  datatype State = State(stored: nat, ticker: Ticker)

  datatype Step = Tick | Check | Send | Request

  const INITIAL := State(0, Waiting)

  /** Whether the step can happen now; a send into a full channel and a request from an empty one block. */
  predicate Enabled(rps: nat, s: State, step: Step) {
    match step
    case Tick => s.ticker.Waiting?
    case Check => s.ticker.Checking?
    case Send => s.ticker.Sending? && s.stored < rps
    case Request => s.stored > 0
  }

  function Next(rps: nat, s: State, step: Step): State
    requires Enabled(rps, s, step)
  {
    match step
    case Tick => s.(ticker := Checking(rps))
    case Check =>
      if s.ticker.left == 0 then s.(ticker := Waiting)
      else if s.stored < rps then s.(ticker := Sending(s.ticker.left))
      else s.(ticker := Checking(s.ticker.left - 1))
    case Send => State(s.stored + 1, Checking(if s.ticker.left == 0 then 0 else s.ticker.left - 1))
    case Request => s.(stored := s.stored - 1)
  }

  ghost predicate IsRun(rps: nat, s: State, steps: seq<Step>)
    decreases |steps|
  {
    steps == [] || (Enabled(rps, s, steps[0]) && IsRun(rps, Next(rps, s, steps[0]), steps[1..]))
  }

  function Run(rps: nat, s: State, steps: seq<Step>): State
    requires IsRun(rps, s, steps)
    decreases |steps|
  {
    if steps == [] then s else Run(rps, Next(rps, s, steps[0]), steps[1..])
  }

  /** How many more tokens the running burst can still send. */
  function Pending(s: State): nat {
    if s.ticker.Waiting? then 0 else s.ticker.left
  }

  predicate Inv(rps: nat, s: State) {
    && s.stored <= rps && Pending(s) <= rps
    && (s.ticker.Sending? ==> s.stored < rps && s.ticker.left > 0)
  }

  lemma {:induction false} RunsKeepInv(rps: nat, s: State, steps: seq<Step>)
    requires Inv(rps, s) && IsRun(rps, s, steps)
    ensures Inv(rps, Run(rps, s, steps))
    decreases |steps|
  {
    if steps != [] {
      RunsKeepInv(rps, Next(rps, s, steps[0]), steps[1..]);
    }
  }

  /** From the start, the channel never holds more than rps tokens, and whenever the ticker is about to send, it can. */
  lemma SendNeverBlocks(rps: nat, steps: seq<Step>)
    requires IsRun(rps, INITIAL, steps)
    ensures Run(rps, INITIAL, steps).stored <= rps
    ensures Run(rps, INITIAL, steps).ticker.Sending? ==> Enabled(rps, Run(rps, INITIAL, steps), Send)
  {
    RunsKeepInv(rps, INITIAL, steps);
  }

  function Count(steps: seq<Step>, step: Step): nat {
    if steps == [] then 0 else (if steps[0] == step then 1 else 0) + Count(steps[1..], step)
  }

  lemma {:induction false} GrantsAreCovered(rps: nat, s: State, steps: seq<Step>)
    requires Inv(rps, s) && IsRun(rps, s, steps)
    ensures var s' := Run(rps, s, steps);
            && Count(steps, Request) + s'.stored == s.stored + Count(steps, Send)
            && Count(steps, Send) + Pending(s') <= Pending(s) + rps * Count(steps, Tick)
    decreases |steps|
  {
    if steps != [] {
      GrantsAreCovered(rps, Next(rps, s, steps[0]), steps[1..]);
      if steps[0] == Tick {
        var k := Count(steps[1..], Tick);
        assert rps * (1 + k) == rps + rps * k;
      }
    }
  }

  /** The ticks a stretch overlaps: those that start in it, and the one that is running when it begins. */
  function Overlapped(s: State, steps: seq<Step>): nat {
    Count(steps, Tick) + if s.ticker.Waiting? then 0 else 1
  }

  /** In every interleaving, a stretch that overlaps k ticks grants at most (k+1)·rps requests. */
  lemma GrantsPerStretch(rps: nat, before: seq<Step>, stretch: seq<Step>)
    requires IsRun(rps, INITIAL, before) && IsRun(rps, Run(rps, INITIAL, before), stretch)
    ensures Count(stretch, Request) <= (Overlapped(Run(rps, INITIAL, before), stretch) + 1) * rps
  {
    var s := Run(rps, INITIAL, before);
    RunsKeepInv(rps, INITIAL, before);
    GrantsAreCovered(rps, s, stretch);
    var t := Count(stretch, Tick);
    assert (t + 1) * rps == rps * t + rps && (t + 2) * rps == rps * t + 2 * rps;
  }

  lemma {:induction false} OneMoreStep(rps: nat, s: State, steps: seq<Step>, step: Step)
    requires IsRun(rps, s, steps) && Enabled(rps, Run(rps, s, steps), step)
    ensures IsRun(rps, s, steps + [step]) && Run(rps, s, steps + [step]) == Next(rps, Run(rps, s, steps), step)
    decreases |steps|
  {
    if steps == [] {
      assert [step][1..] == [];
    } else {
      assert (steps + [step])[1..] == steps[1..] + [step];
      OneMoreStep(rps, Next(rps, s, steps[0]), steps[1..], step);
    }
  }

  /** The limiter as an object. The channel is its length; rps not above zero means that nothing is limited. */
  class Limiter {
    const rps: int
    var stored: nat

    ghost predicate Valid()
      reads this
    {
      rps > 0 ==> stored <= rps
    }

    constructor (rps: int)
      ensures this.rps == rps && stored == 0 && Valid()
    {
      this.rps := rps;
      stored := 0;
    }

    /** One tick with no caller in between, as steps of the machine: the channel is full afterwards, and no send blocked. */
    method Fill() returns (ghost steps: seq<Step>)
      requires Valid() && rps > 0
      modifies this
      ensures Valid() && stored == rps
      ensures var s := State(old(stored), Waiting); IsRun(rps, s, steps) && Run(rps, s, steps) == State(stored, Waiting)
      ensures |steps| > 0 && steps[0] == Tick && forall i :: 0 < i < |steps| ==> steps[i] == Check || steps[i] == Send
    {
      ghost var s := State(stored, Waiting);
      steps := [];
      OneMoreStep(rps, s, steps, Tick);
      steps := steps + [Tick];
      for i := 0 to rps
        invariant stored <= rps && (stored >= i || stored == rps)
        invariant IsRun(rps, s, steps) && Run(rps, s, steps) == State(stored, Checking(rps - i))
        invariant |steps| > 0 && steps[0] == Tick && forall j :: 0 < j < |steps| ==> steps[j] == Check || steps[j] == Send
      {
        OneMoreStep(rps, s, steps, Check);
        steps := steps + [Check];
        if stored < rps {
          OneMoreStep(rps, s, steps, Send);
          steps := steps + [Send];
          stored := stored + 1;
        }
      }
      OneMoreStep(rps, s, steps, Check);
      steps := steps + [Check];
    }

    /** A caller that does not have to wait; without a limit nothing is taken. */
    method Request()
      requires Valid() && (rps > 0 ==> stored > 0)
      modifies this
      ensures Valid()
      ensures rps <= 0 ==> stored == old(stored)
      ensures rps > 0 ==> forall ticker :: Enabled(rps, State(old(stored), ticker), Step.Request) && State(stored, ticker) == Next(rps, State(old(stored), ticker), Step.Request)
    {
      if rps > 0 {
        stored := stored - 1;
      }
    }
  }
}
