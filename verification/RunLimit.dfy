/** The job limit of the local runner's loop, which reads keepRunning twice in a pass. */
module RunLimit {

  /** Where the loop stands: at its first read of keepRunning, between the two reads, or waiting for a claim. */
  datatype Position = Top | Between(room: bool) | Asking

  datatype Loop = Loop(at: Position, keepRunning: bool, availJobs: int, claimed: nat)

  /** The loop's next statement, or the signal handler clearing keepRunning. A step that is not enabled does nothing. */
  datatype Step =
    | FirstRead(drain: bool, room: bool)
    | SecondRead
    | Answer(got: bool, keep: bool)
    | Signal

  function Next(s: Loop, step: Step): Loop {
    match step
    case Signal => s.(keepRunning := false)
    case FirstRead(drain, room) => if s.at.Top? && s.keepRunning && !drain then s.(at := Between(room)) else s
    case SecondRead =>
      if !s.at.Between? then s
      else if s.keepRunning && s.availJobs == 0 then s.(at := Top, keepRunning := false)
      else s.(at := if s.at.room then Asking else Top)
    case Answer(got, keep) =>
      if !s.at.Asking? then s else
        var left := if got && s.availJobs > 0 then s.availJobs - 1 else s.availJobs;
        Loop(Top, s.keepRunning && keep, left, if got then s.claimed + 1 else s.claimed)
  }

  function Run(limit: int, steps: seq<Step>): Loop {
    if steps == [] then Loop(Top, true, limit, 0) else Next(Run(limit, steps[..|steps| - 1]), steps[|steps| - 1])
  }

  /** The limit is used up, and the loop has read keepRunning once in this pass and found it set. */
  predicate Window(s: Loop) { s.at.Between? && s.availJobs == 0 && s.keepRunning }

  /** A signal fell into the window. */
  predicate Raced(limit: int, steps: seq<Step>) {
    steps != [] && (Raced(limit, steps[..|steps| - 1])
      || (Window(Run(limit, steps[..|steps| - 1])) && steps[|steps| - 1].Signal?))
  }

  /** A job arrived although the limit was used up. */
  predicate OneTooMany(limit: int, steps: seq<Step>) {
    steps != [] && (OneTooMany(limit, steps[..|steps| - 1])
      || (Run(limit, steps[..|steps| - 1]).at.Asking? && Run(limit, steps[..|steps| - 1]).availJobs == 0
          && steps[|steps| - 1].Answer? && steps[|steps| - 1].got))
  }

  ghost predicate Inv(limit: int, s: Loop, raced: bool, extra: bool) {
    && s.availJobs >= 0
    && (if extra then s.claimed == limit + 1 && s.availJobs == 0 && !s.keepRunning && s.at.Top? && raced
        else s.claimed + s.availJobs == limit)
    && (s.availJobs == 0 && !s.at.Top? && !s.keepRunning ==> raced)
    && (s.availJobs == 0 && s.at.Asking? ==> !s.keepRunning)
  }

  lemma {:induction false} RunsKeepInv(limit: nat, steps: seq<Step>)
    ensures Inv(limit, Run(limit, steps), Raced(limit, steps), OneTooMany(limit, steps))
  {
    if steps != [] { RunsKeepInv(limit, steps[..|steps| - 1]); }
  }

  /** In every interleaving at most one job more than the limit is received, and exactly when a job arrived after a
      signal had fallen into the window. */
  lemma LimitExactly(limit: nat, steps: seq<Step>)
    ensures Run(limit, steps).claimed <= limit + 1
    ensures Run(limit, steps).claimed == limit + 1 <==> OneTooMany(limit, steps)
    ensures OneTooMany(limit, steps) ==> Raced(limit, steps)
  {
    RunsKeepInv(limit, steps);
  }

  lemma Then(limit: int, steps: seq<Step>, step: Step)
    ensures Run(limit, steps + [step]) == Next(Run(limit, steps), step)
  {
    assert (steps + [step])[..|steps|] == steps;
  }

  /** From inside the window with room, a signal before the second read leads to the extra job. */
  lemma SignalInWindow(limit: nat, steps: seq<Step>) returns (more: seq<Step>)
    requires Window(Run(limit, steps)) && Run(limit, steps).at.room && Run(limit, steps).claimed == limit
    ensures Run(limit, more).claimed == limit + 1
  {
    Then(limit, steps, Signal);
    Then(limit, steps + [Signal], SecondRead);
    Then(limit, steps + [Signal] + [SecondRead], Answer(true, true));
    more := steps + [Signal] + [SecondRead] + [Answer(true, true)];
  }

  /** Without it, the second read closes the loop and nothing more is ever received. */
  lemma {:induction false} ReadInWindow(limit: nat, steps: seq<Step>, after: seq<Step>)
    requires Window(Run(limit, steps))
    ensures var s := Run(limit, steps + [SecondRead] + after);
      s.at.Top? && !s.keepRunning && s.claimed == Run(limit, steps).claimed
  {
    if after == [] {
      Then(limit, steps, SecondRead);
      assert steps + [SecondRead] + after == steps + [SecondRead];
    } else {
      var init, last := after[..|after| - 1], after[|after| - 1];
      ReadInWindow(limit, steps, init);
      Then(limit, steps + [SecondRead] + init, last);
      assert steps + [SecondRead] + after == steps + [SecondRead] + init + [last];
    }
  }

  /** k jobs received, one pass each. */
  lemma {:induction false} Fill(limit: nat, k: nat) returns (steps: seq<Step>)
    requires k <= limit
    ensures Run(limit, steps) == Loop(Top, true, limit - k, k)
  {
    steps := [];
    if k > 0 {
      steps := Fill(limit, k - 1);
      Then(limit, steps, FirstRead(false, true));
      Then(limit, steps + [FirstRead(false, true)], SecondRead);
      Then(limit, steps + [FirstRead(false, true)] + [SecondRead], Answer(true, true));
      steps := steps + [FirstRead(false, true)] + [SecondRead] + [Answer(true, true)];
    }
  }

  /** Whatever the limit, some run exceeds it by one. */
  lemma SomeRunExceeds(limit: nat) returns (steps: seq<Step>)
    ensures Run(limit, steps).claimed == limit + 1
  {
    steps := Fill(limit, limit);
    Then(limit, steps, FirstRead(false, true));
    steps := SignalInWindow(limit, steps + [FirstRead(false, true)]);
  }
}
