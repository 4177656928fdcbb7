/** The shutdown handshake: any number of request threads against any number of shutdown triggers. */
module Drain {
  import opened Collections

  /** Where a request stands in the activity middleware. */
  datatype Request = Counted | Admitted | Refusing | Refused | Served

  /** Who asks for a shutdown: the idle monitor, a signal, admin or ownership check, or a caller of Shutdown. */
  datatype Kind = IdleMonitor | Forced | Caller

  /** Where a trigger stands in shutdown. Waiting is before the mutex, Returned after it; the phases in between hold
      it. */
  datatype Phase =
    | Waiting
    | Entered
    | Announced
    | Loaded(busy: bool)
    | StopHttp(drainFirst: bool)
    | AwaitHttp(drainFirst: bool)
    | CloseDb(drainFirst: bool)
    | Leaving
    | Returned

  datatype Trigger = Trigger(kind: Kind, phase: Phase)

  datatype Flags = Flags(draining: bool, started: bool, httpDown: bool, linked: bool, dbOpen: bool,
                         busyCommit: bool, cutShort: bool, acceptFailed: bool, closes: nat)
  // busyCommit: the committed shutdown had seen requests in flight. cutShort: its drain ran out of time.

  datatype Server = Server(requests: map<int, Request>, inFlight: int, triggers: map<int, Trigger>, holder: Option<int>,
                           flags: Flags, worked: set<int>, broken: set<int>)
  // worked and broken: the requests whose handler used the database while it was open, or after it was closed.

  const FRESH := Server(map[], 0, map[], None, Flags(false, false, false, true, true, false, false, false, 0), {}, {})

  /** The atomic steps. A step that is not enabled does nothing. */
  datatype Step =
    | Arrive(r: int)
    | Check(r: int)
    | Refuse(r: int)
    | Work(r: int)
    | Finish(r: int)
    | Ask(t: int, kind: Kind)
    | Advance(t: int, expired: bool)
    | AcceptError
    | ServeReturns
    | Unlink(t: int)

  predicate InRequest(s: Server, r: int, q: Request) { r in s.requests && s.requests[r] == q }

  function Move(s: Server, r: int, q: Request, inFlight: int): Server {
    s.(requests := s.requests[r := q], inFlight := inFlight)
  }

  predicate Holds(phase: Phase) { !phase.Waiting? && !phase.Returned? }

  /** One statement of shutdown: where the trigger goes and what becomes of the flags.
      expired says that the context ran out while waiting for handlers. */
  function Statement(phase: Phase, kind: Kind, f: Flags, free: bool, inFlight: int, quiet: bool,
                     expired: bool): (Phase, Flags) {
    match phase
    case Waiting => (if free then Entered else Waiting, f)
    case Entered => if f.started then (Returned, f) else (Announced, f.(draining := true))
    case Announced => (Loaded(inFlight > 0), f)
    case Loaded(busy) =>
      if busy && kind.IdleMonitor? then (Returned, f.(draining := false))
      else (if busy then StopHttp(true) else CloseDb(false), f.(started := true, busyCommit := busy))
    case StopHttp(drainFirst) => (AwaitHttp(drainFirst), f.(httpDown := true))
    case AwaitHttp(drainFirst) =>
      if !expired && !quiet then (phase, f)
      else if drainFirst then (CloseDb(true), f.(cutShort := f.cutShort || expired))
      else (Leaving, f)
    case CloseDb(drainFirst) =>
      (if drainFirst then Leaving else StopHttp(false), f.(dbOpen := false, closes := f.closes + 1))
    case Leaving => (Returned, f)
    case Returned => (Returned, f)
  }

  function Shutdown(s: Server, t: int, expired: bool): Server
    requires t in s.triggers
  {
    var Trigger(kind, phase) := s.triggers[t];
    var quiet := forall r :: r in s.requests ==> !s.requests[r].Admitted?;
    var (next, flags) := Statement(phase, kind, s.flags, s.holder.None?, s.inFlight, quiet, expired);
    s.(triggers := s.triggers[t := Trigger(kind, next)],
       holder := if Holds(next) then Some(t) else if Holds(phase) then None else s.holder,
       flags := flags)
  }

  function Next(s: Server, step: Step): Server {
    match step
    case Arrive(r) => if r in s.requests then s else Move(s, r, Counted, s.inFlight + 1)
    case Check(r) =>
      if InRequest(s, r, Counted) then Move(s, r, if s.flags.draining then Refusing else Admitted, s.inFlight) else s
    case Refuse(r) => if InRequest(s, r, Refusing) then Move(s, r, Refused, s.inFlight - 1) else s
    case Work(r) =>
      if InRequest(s, r, Admitted)
      then (if s.flags.dbOpen then s.(worked := s.worked + {r}) else s.(broken := s.broken + {r}))
      else s
    case Finish(r) => if InRequest(s, r, Admitted) then Move(s, r, Served, s.inFlight - 1) else s
    case Ask(t, kind) => if t in s.triggers then s else s.(triggers := s.triggers[t := Trigger(kind, Waiting)])
    case Advance(t, expired) => if t in s.triggers then Shutdown(s, t, expired) else s
    case AcceptError => s.(flags := s.flags.(acceptFailed := true))
    case ServeReturns =>
      if s.flags.httpDown || s.flags.acceptFailed then s.(flags := s.flags.(linked := false)) else s
    case Unlink(t) =>
      if t in s.triggers && s.triggers[t] == Trigger(Caller, Returned)
      then s.(flags := s.flags.(linked := false))
      else s
  }

  function Run(steps: seq<Step>): Server {
    if steps == [] then FRESH else Next(Run(steps[..|steps| - 1]), steps[|steps| - 1])
  }

  // ----- The invariant -----------------------------------------------------

  predicate TearingDown(phase: Phase) {
    phase.StopHttp? || phase.AwaitHttp? || phase.CloseDb? || phase.Leaving?
  }

  /** The committed shutdown has not closed the database yet. */
  predicate BeforeClose(phase: Phase) {
    phase.CloseDb? || ((phase.StopHttp? || phase.AwaitHttp?) && phase.drainFirst)
  }

  predicate InFlight(q: Request) { q.Counted? || q.Admitted? || q.Refusing? }

  function Counts(requests: map<int, Request>): set<int> {
    set r | r in requests && InFlight(requests[r])
  }

  ghost predicate Quiet(s: Server) { forall r :: r in s.requests ==> !s.requests[r].Admitted? }

  /** The phase of the mutex holder; Waiting if the mutex is free. */
  function Held(s: Server): Phase {
    if s.holder.Some? && s.holder.value in s.triggers then s.triggers[s.holder.value].phase else Waiting
  }

  /** The counter counts the requests that announced themselves and have not left. */
  ghost predicate CounterExact(s: Server) { s.inFlight == |Counts(s.requests)| }

  /** One trigger at a time. */
  ghost predicate Exclusive(s: Server) {
    && (s.holder.Some? ==> s.holder.value in s.triggers)
    && forall t :: t in s.triggers ==> (Holds(s.triggers[t].phase) <==> s.holder == Some(t))
  }

  /** What the flags say, given the phase of the mutex holder. */
  ghost predicate FlagsAgree(held: Phase, f: Flags) {
    && (f.draining <==> f.started || held.Announced? || held.Loaded?)
    && (held.Announced? || held.Loaded? ==> !f.started)
    && (TearingDown(held) ==> f.started)
    && (f.started && f.dbOpen <==> BeforeClose(held))
    && (!f.dbOpen ==> f.started)
    && f.closes == if f.dbOpen then 0 else 1
  }

  /** Which path the commit took, and what that allows. */
  ghost predicate PathsAgree(held: Phase, f: Flags) {
    && (BeforeClose(held) ==> (f.busyCommit <==> held.drainFirst))
    && (held.AwaitHttp? || (held.CloseDb? && held.drainFirst) ==> f.httpDown)
    && (f.cutShort ==> f.busyCommit)
    && (f.busyCommit ==> f.started)
    && (f.httpDown && f.dbOpen ==> f.busyCommit)
    && (!f.linked && f.dbOpen ==> f.busyCommit || f.acceptFailed)
  }

  /** A caller of Shutdown gets control back only when the database is closed. */
  ghost predicate CallersWaited(s: Server) {
    forall t :: t in s.triggers && s.triggers[t] == Trigger(Caller, Returned) ==> !s.flags.dbOpen
  }

  /** When no handler may be running any more. */
  predicate Sealed(held: Phase, f: Flags) {
    || held == Loaded(false)
    || (f.started && !f.busyCommit)
    || (!f.cutShort && (!f.dbOpen || held == CloseDb(true)))
  }

  ghost predicate WorkAgrees(s: Server) {
    && (s.broken != {} ==> s.flags.cutShort && !s.flags.dbOpen)
    && forall r :: r in s.worked || r in s.broken ==> InRequest(s, r, Admitted) || InRequest(s, r, Served)
  }

  ghost predicate Inv(s: Server) {
    && CounterExact(s) && Exclusive(s) && FlagsAgree(Held(s), s.flags) && PathsAgree(Held(s), s.flags)
    && CallersWaited(s) && (Sealed(Held(s), s.flags) ==> Quiet(s)) && WorkAgrees(s)
  }

  // ----- Every step keeps it -----------------------------------------------

  lemma MoveCounts(requests: map<int, Request>, r: int, q: Request)
    ensures var before, after := Counts(requests), Counts(requests[r := q]);
      if InFlight(q) then after == before + {r} else after == before - {r}
  {}

  /** Moving one request on keeps the invariant if the counter follows and admission respects the seal. */
  lemma MoveKeepsInv(s: Server, r: int, q: Request, inFlight: int)
    requires Inv(s)
    requires inFlight == s.inFlight + (if InFlight(q) then 1 else 0) - (if r in Counts(s.requests) then 1 else 0)
    requires q.Admitted? ==> !Sealed(Held(s), s.flags)
    requires r in s.worked || r in s.broken ==> q.Served?
    ensures Inv(Move(s, r, q, inFlight))
  {
    var n := Move(s, r, q, inFlight);
    MoveKeepsCounter(s, r, q, inFlight);
    assert CallersWaited(n) && WorkAgrees(n);
  }

  lemma MoveKeepsCounter(s: Server, r: int, q: Request, inFlight: int)
    requires Inv(s)
    requires inFlight == s.inFlight + (if InFlight(q) then 1 else 0) - (if r in Counts(s.requests) then 1 else 0)
    ensures var n := Move(s, r, q, inFlight); CounterExact(n) && Exclusive(n) && Held(n) == Held(s)
  {
    var n := Move(s, r, q, inFlight);
    MoveCounts(s.requests, r, q);
    assert n.triggers == s.triggers && n.holder == s.holder;
    assert Held(n) == Held(s);
  }

  lemma RequestStep(s: Server, step: Step)
    requires Inv(s) && (step.Arrive? || step.Check? || step.Refuse? || step.Finish?)
    ensures Inv(Next(s, step))
  {
    var r := step.r;
    match step
    case Arrive(_) => if r !in s.requests { MoveKeepsInv(s, r, Counted, s.inFlight + 1); }
    case Check(_) =>
      if InRequest(s, r, Counted) { MoveKeepsInv(s, r, if s.flags.draining then Refusing else Admitted, s.inFlight); }
    case Refuse(_) => if InRequest(s, r, Refusing) { MoveKeepsInv(s, r, Refused, s.inFlight - 1); }
    case Finish(_) => if InRequest(s, r, Admitted) { MoveKeepsInv(s, r, Served, s.inFlight - 1); }
  }

  /** Nothing in flight after draining was stored: nobody was admitted, and nobody will be. */
  lemma NothingInFlight(s: Server)
    requires CounterExact(s) && s.inFlight <= 0
    ensures Quiet(s)
  {
    assert Counts(s.requests) == {};
    forall r | r in s.requests ensures !s.requests[r].Admitted? {
      assert r !in Counts(s.requests);
    }
  }

  /** The holder's next phase and flags agree, whatever it executes. */
  lemma StatementAgrees(phase: Phase, kind: Kind, f: Flags, free: bool, inFlight: int, quiet: bool, expired: bool)
    requires FlagsAgree(phase, f) && PathsAgree(phase, f) && (Sealed(phase, f) ==> quiet)
    requires inFlight <= 0 ==> quiet
    ensures var (next, after) := Statement(phase, kind, f, free, inFlight, quiet, expired);
      && FlagsAgree(if Holds(next) then next else Waiting, after)
      && PathsAgree(if Holds(next) then next else Waiting, after)
      && (Sealed(if Holds(next) then next else Waiting, after) ==> quiet)
      && (next.Returned? && !kind.IdleMonitor? && Holds(phase) ==> !after.dbOpen)
      && (f.cutShort ==> after.cutShort) && (!f.dbOpen ==> !after.dbOpen)
  {}

  /** One statement of a trigger, read off Shutdown. */
  lemma Executes(s: Server, t: int, expired: bool) returns (next: Phase, flags: Flags)
    requires t in s.triggers
    ensures var Trigger(kind, phase) := s.triggers[t];
      (next, flags) == Statement(phase, kind, s.flags, s.holder.None?, s.inFlight, Quiet(s), expired)
    ensures var Trigger(kind, phase) := s.triggers[t];
      Shutdown(s, t, expired) ==
        s.(triggers := s.triggers[t := Trigger(kind, next)],
           holder := if Holds(next) then Some(t) else if Holds(phase) then None else s.holder,
           flags := flags)
  {
    hide Statement;
    var kind, phase := s.triggers[t].kind, s.triggers[t].phase;
    var quiet := forall r :: r in s.requests ==> !s.requests[r].Admitted?;
    var st := Statement(phase, kind, s.flags, s.holder.None?, s.inFlight, quiet, expired);
    next, flags := st.0, st.1;
  }

  /** The holder executes a statement. */
  lemma HolderStep(s: Server, t: int, expired: bool)
    requires Inv(s) && t in s.triggers && s.holder == Some(t)
    ensures Inv(Shutdown(s, t, expired))
  {
    var n := Shutdown(s, t, expired);
    var next, flags := Executes(s, t, expired);
    if s.inFlight <= 0 { NothingInFlight(s); }
    StatementAgrees(s.triggers[t].phase, s.triggers[t].kind, s.flags, false, s.inFlight, Quiet(s), expired);
    hide Statement, Shutdown;
    assert Held(n) == if Holds(next) then next else Waiting;
    assert Quiet(n) == Quiet(s);
  }

  /** A trigger that does not hold the mutex enters if it is free and waits otherwise. */
  lemma OutsiderStep(s: Server, t: int, expired: bool)
    requires Inv(s) && t in s.triggers && s.holder != Some(t)
    ensures Inv(Shutdown(s, t, expired))
  {
    var n := Shutdown(s, t, expired);
    var next, flags := Executes(s, t, expired);
    assert !Holds(s.triggers[t].phase);
    assert flags == s.flags && Quiet(n) == Quiet(s);
    if !Holds(next) { assert n == s; }
  }

  lemma TriggerStep(s: Server, t: int, expired: bool)
    requires Inv(s) && t in s.triggers
    ensures Inv(Shutdown(s, t, expired))
  {
    hide Inv, Shutdown;
    if s.holder == Some(t) { HolderStep(s, t, expired); } else { OutsiderStep(s, t, expired); }
  }

  lemma StepKeepsInv(s: Server, step: Step)
    requires Inv(s)
    ensures Inv(Next(s, step))
  {
    match step
    case Advance(t, expired) => if t in s.triggers { TriggerStep(s, t, expired); }
    case Arrive(_) => RequestStep(s, step);
    case Check(_) => RequestStep(s, step);
    case Refuse(_) => RequestStep(s, step);
    case Finish(_) => RequestStep(s, step);
    case _ =>
  }

  lemma {:induction false} RunsKeepInv(steps: seq<Step>)
    ensures Inv(Run(steps))
  {
    if steps == [] {
      assert Counts(FRESH.requests) == {};
    } else {
      RunsKeepInv(steps[..|steps| - 1]);
      StepKeepsInv(Run(steps[..|steps| - 1]), steps[|steps| - 1]);
    }
  }

  // ----- What the handshake promises ---------------------------------------

  /** No handler ever meets a closed database, unless a shutdown committed with requests in flight and its drain ran
      out of time. */
  lemma NoHandlerAfterClose(steps: seq<Step>)
    ensures var s := Run(steps);
      !s.flags.cutShort ==> s.broken == {} && (!s.flags.dbOpen ==> Quiet(s))
  {
    RunsKeepInv(steps);
  }

  /** After a commit that read inFlight == 0, no handler runs at all. */
  lemma IdleCommitSilences(steps: seq<Step>)
    ensures var s := Run(steps);
      s.flags.started && !s.flags.busyCommit ==>
        Quiet(s) && s.broken == {} && (!s.flags.linked && !s.flags.acceptFailed ==> !s.flags.dbOpen)
  {
    RunsKeepInv(steps);
  }

  /** A rejected request did no work. */
  lemma RejectedDidNothing(steps: seq<Step>, r: int)
    ensures var s := Run(steps);
      InRequest(s, r, Refused) || InRequest(s, r, Refusing) ==> r !in s.worked && r !in s.broken
  {
    RunsKeepInv(steps);
  }

  /** With the mutex free, draining says exactly that a shutdown committed: an aborted cull reopened admission. */
  lemma AbortReopens(steps: seq<Step>)
    ensures var s := Run(steps);
      s.holder.None? ==> (s.flags.draining <==> s.flags.started) && (s.flags.started <==> !s.flags.dbOpen)
  {
    RunsKeepInv(steps);
  }

  // ----- An idle cull gives way to requests --------------------------------

  /** The next statement of the mutex holder, or of a trigger before the mutex, in words that do not name it. */
  lemma Executed(steps: seq<Step>, t: int, expired: bool) returns (next: Phase, flags: Flags)
    requires t in Run(steps).triggers
    ensures var s, n := Run(steps), Run(steps + [Advance(t, expired)]);
      && (next, flags) == Statement(s.triggers[t].phase, s.triggers[t].kind, s.flags, s.holder.None?, s.inFlight,
                                    Quiet(s), expired)
      && n.triggers == s.triggers[t := Trigger(s.triggers[t].kind, next)] && n.flags == flags
      && n.requests == s.requests && n.inFlight == s.inFlight && n.worked == s.worked && n.broken == s.broken
      && n.holder == if Holds(next) then Some(t) else if Holds(s.triggers[t].phase) then None else s.holder
  {
    Then(steps, Advance(t, expired));
    next, flags := Executes(Run(steps), t, expired);
    hide Statement;
  }

  ghost predicate IdleTriggers(s: Server) { forall t :: t in s.triggers ==> s.triggers[t].kind.IdleMonitor? }

  lemma IdleStatement(phase: Phase, f: Flags, free: bool, inFlight: int, quiet: bool, expired: bool)
    ensures f.busyCommit || !Statement(phase, IdleMonitor, f, free, inFlight, quiet, expired).1.busyCommit
  {}

  lemma IdleStep(s: Server, step: Step)
    requires IdleTriggers(s) && !s.flags.busyCommit && (step.Ask? ==> step.kind.IdleMonitor?)
    ensures IdleTriggers(Next(s, step)) && !Next(s, step).flags.busyCommit
  {
    if step.Advance? && step.t in s.triggers {
      var next, flags := Executes(s, step.t, step.expired);
      IdleStatement(s.triggers[step.t].phase, s.flags, s.holder.None?, s.inFlight, Quiet(s), step.expired);
      hide Statement, Shutdown;
      assert Next(s, step).flags == flags;
    }
  }

  /** Where only the idle monitor asks for a shutdown, none ever commits with requests in flight, and so no handler is
      ever running when the database is closed. */
  lemma {:induction false} IdleRunsNeverBusy(steps: seq<Step>)
    requires forall i :: 0 <= i < |steps| && steps[i].Ask? ==> steps[i].kind.IdleMonitor?
    ensures IdleTriggers(Run(steps)) && !Run(steps).flags.busyCommit
    ensures Run(steps).broken == {} && (!Run(steps).flags.dbOpen ==> Quiet(Run(steps)))
  {
    RunsKeepInv(steps);
    if steps != [] {
      var init, last := steps[..|steps| - 1], steps[|steps| - 1];
      assert forall i :: 0 <= i < |init| ==> init[i] == steps[i];
      IdleRunsNeverBusy(init);
      IdleStep(Run(init), last);
    }
  }

  /** An idle trigger with the mutex announces itself, reads the counter, and commits exactly if it read nothing in
      flight; otherwise it returns with draining cleared and the database untouched. */
  lemma IdleDecides(steps: seq<Step>, t: int, expired: bool)
    requires t in Run(steps).triggers && Run(steps).triggers[t].kind.IdleMonitor?
    ensures var s, n := Run(steps), Run(steps + [Advance(t, expired)]);
      match s.triggers[t].phase
      case Entered => !s.flags.started ==> n.triggers[t].phase == Announced && n.flags == s.flags.(draining := true)
      case Announced => n.triggers[t].phase == Loaded(s.inFlight > 0) && n.flags == s.flags
      case Loaded(true) => n.triggers[t].phase == Returned && n.holder == None && n.flags == s.flags.(draining := false)
      case Loaded(false) => n.flags == s.flags.(started := true, busyCommit := false)
      case _ => true
  {
    var next, flags := Executed(steps, t, expired);
  }

  /** So an idle trigger that enters while a request is in flight gives up: nothing is committed, the database is open,
      and a request that has announced itself is admitted. */
  lemma IdleCullGivesWay(steps: seq<Step>, t: int, r: int)
    requires t in Run(steps).triggers && Run(steps).triggers[t] == Trigger(IdleMonitor, Entered)
    requires !Run(steps).flags.started && Run(steps).inFlight > 0
    ensures var n := Run(steps + [Advance(t, false)] + [Advance(t, false)] + [Advance(t, false)]);
      && t in n.triggers && n.triggers[t].phase == Returned && n.holder == None
      && !n.flags.draining && !n.flags.started && n.flags.dbOpen && n.flags.linked == Run(steps).flags.linked
      && (InRequest(Run(steps), r, Counted) ==> InRequest(Next(n, Check(r)), r, Admitted))
  {
    RunsKeepInv(steps);
    var next, flags := Executed(steps, t, false);
    var one := steps + [Advance(t, false)];
    next, flags := Executed(one, t, false);
    next, flags := Executed(one + [Advance(t, false)], t, false);
  }

  /** Anybody else commits even then, stops the listener first, waits for the handlers, and only then closes the
      database; with nothing in flight the database comes first. */
  lemma OthersCommit(steps: seq<Step>, t: int, expired: bool)
    requires t in Run(steps).triggers && !Run(steps).triggers[t].kind.IdleMonitor?
    ensures var s, n := Run(steps), Run(steps + [Advance(t, expired)]);
      match s.triggers[t].phase
      case Loaded(busy) =>
        && n.flags == s.flags.(started := true, busyCommit := busy)
        && n.triggers[t].phase == if busy then StopHttp(true) else CloseDb(false)
      case StopHttp(first) => n.flags == s.flags.(httpDown := true) && n.triggers[t].phase == AwaitHttp(first)
      case AwaitHttp(true) =>
        if expired || Quiet(s) then n.triggers[t].phase == CloseDb(true) && n.flags.dbOpen == s.flags.dbOpen
        else n.triggers[t].phase == AwaitHttp(true) && n.flags == s.flags
      case CloseDb(first) => !n.flags.dbOpen && n.triggers[t].phase == if first then Leaving else StopHttp(false)
      case Leaving => n.triggers[t].phase == Returned && n.holder == None && n.flags == s.flags
      case _ => true
  {
    var next, flags := Executed(steps, t, expired);
  }

  /** At the door: a request that meets draining is turned away, any other is admitted. */
  lemma DoorDecides(s: Server, r: int)
    requires InRequest(s, r, Counted)
    ensures InRequest(Next(s, Check(r)), r, Admitted) <==> !s.flags.draining
    ensures InRequest(Next(s, Check(r)), r, Refusing) <==> s.flags.draining
  {}

  // ----- Once committed ----------------------------------------------------

  /** A committed shutdown stays committed, on the path it took. */
  ghost predicate StillCommitted(s: Server, n: Server) {
    n.flags.started && n.flags.draining && n.flags.busyCommit == s.flags.busyCommit && n.flags.closes <= 1
  }

  /** After a commit no holder is where draining could be cleared or the path chosen. */
  lemma StatementIsFinal(phase: Phase, kind: Kind, f: Flags, free: bool, inFlight: int, quiet: bool, expired: bool)
    requires f.started && f.draining && (Holds(phase) ==> FlagsAgree(phase, f))
    ensures var flags := Statement(phase, kind, f, free, inFlight, quiet, expired).1;
      flags.started && flags.draining && flags.busyCommit == f.busyCommit
  {}

  lemma CommitIsFinal(s: Server, step: Step)
    requires Inv(s) && s.flags.started
    ensures StillCommitted(s, Next(s, step))
  {
    StepKeepsInv(s, step);
    assert s.flags.draining && Next(s, step).flags.closes <= 1;
    match step
    case Advance(t, expired) =>
      if t in s.triggers {
        var next, flags := Executes(s, t, expired);
        assert Holds(s.triggers[t].phase) ==> s.holder == Some(t) && Held(s) == s.triggers[t].phase;
        hide Statement, Shutdown, Inv;
        StatementIsFinal(s.triggers[t].phase, s.triggers[t].kind, s.flags, s.holder.None?, s.inFlight, Quiet(s),
                         expired);
      }
    case _ =>
  }

  /** Once committed, draining is never cleared, the commit never changes, and the database is closed once. */
  lemma {:induction false} CommittedForever(before: seq<Step>, after: seq<Step>)
    requires Run(before).flags.started
    ensures StillCommitted(Run(before), Run(before + after))
  {
    if after == [] {
      assert before + after == before;
      RunsKeepInv(before);
    } else {
      var init, last := before + after[..|after| - 1], after[|after| - 1];
      CommittedForever(before, after[..|after| - 1]);
      RunsKeepInv(init);
      CommitIsFinal(Run(init), last);
      Then(init, last);
      assert before + after == init + [last];
    }
  }

  lemma Then(steps: seq<Step>, step: Step)
    ensures Run(steps + [step]) == Next(Run(steps), step)
  {
    assert (steps + [step])[..|steps|] == steps;
  }

  // ----- When a handler meets a closed database ----------------------------

  /** After a commit nobody is admitted any more, and without a handler nothing can break. */
  lemma StaysQuiet(s: Server, step: Step)
    requires Inv(s) && s.flags.started && Quiet(s) && s.broken == {}
    ensures Quiet(Next(s, step)) && Next(s, step).broken == {}
  {
    if step.Advance? && step.t in s.triggers {
      var next, flags := Executes(s, step.t, step.expired);
      hide Shutdown, Statement;
      assert Next(s, step).requests == s.requests && Next(s, step).broken == s.broken;
    }
  }

  lemma {:induction false} QuietForever(before: seq<Step>, more: seq<Step>)
    requires Run(before).flags.started && Run(before).flags.dbOpen && Quiet(Run(before))
    ensures Quiet(Run(before + more)) && Run(before + more).broken == {}
  {
    if more == [] {
      assert before + more == before;
      RunsKeepInv(before);
    } else {
      var init, last := more[..|more| - 1], more[|more| - 1];
      QuietForever(before, init);
      CommittedForever(before, init);
      RunsKeepInv(before + init);
      StaysQuiet(Run(before + init), last);
      Then(before + init, last);
      assert before + more == before + init + [last];
    }
  }

  /** The committed shutdown is on its way to the database, and a handler runs. */
  ghost predicate Approaching(s: Server, t: int, r: int) {
    && Inv(s) && s.holder == Some(t) && t in s.triggers && InRequest(s, r, Admitted)
    && (s.triggers[t].phase == StopHttp(true) || s.triggers[t].phase == AwaitHttp(true)
        || s.triggers[t].phase == CloseDb(true))
  }

  /** The holder's next statement, the wait for handlers running out of time. */
  lemma Approaches(steps: seq<Step>, t: int, r: int)
    requires Approaching(Run(steps), t, r)
    ensures var s, n := Run(steps), Run(steps + [Advance(t, true)]);
      match s.triggers[t].phase
      case StopHttp(_) => Approaching(n, t, r) && n.triggers[t].phase == AwaitHttp(true)
      case AwaitHttp(_) => Approaching(n, t, r) && n.triggers[t].phase == CloseDb(true)
      case _ => InRequest(n, r, Admitted) && !n.flags.dbOpen
  {
    var s := Run(steps);
    Then(steps, Advance(t, true));
    RunsKeepInv(steps + [Advance(t, true)]);
    var next, flags := Executes(s, t, true);
  }

  lemma {:induction false} HandlerBreaks(steps: seq<Step>, t: int, r: int) returns (more: seq<Step>)
    requires Approaching(Run(steps), t, r)
    ensures Run(steps + more).broken != {}
    decreases match Run(steps).triggers[t].phase case StopHttp(_) => 2 case AwaitHttp(_) => 1 case _ => 0
  {
    Approaches(steps, t, r);
    var next := steps + [Advance(t, true)];
    if Run(steps).triggers[t].phase == CloseDb(true) {
      Then(next, Work(r));
      assert r in Run(next + [Work(r)]).broken;
      more := [Advance(t, true)] + [Work(r)];
      assert steps + more == next + [Work(r)];
    } else {
      var rest := HandlerBreaks(next, t, r);
      more := [Advance(t, true)] + rest;
      assert steps + more == next + rest;
    }
  }

  /** Once a shutdown has committed and before the database is closed, a handler can still meet a closed database
      exactly if one is running now. */
  lemma HandlerBreaksExactly(steps: seq<Step>)
    requires Run(steps).flags.started && Run(steps).flags.dbOpen
    ensures (exists more :: Run(steps + more).broken != {}) <==> !Quiet(Run(steps))
  {
    RunsKeepInv(steps);
    var s := Run(steps);
    if Quiet(s) {
      forall more ensures Run(steps + more).broken == {} { QuietForever(steps, more); }
    } else {
      var r :| r in s.requests && s.requests[r].Admitted?;
      assert InRequest(s, r, Admitted);
      assert Approaching(s, s.holder.value, r);
      var more := HandlerBreaks(steps, s.holder.value, r);
    }
  }

  // ----- The socket --------------------------------------------------------

  /** The socket is given up only after the database, unless a commit was busy or accepting failed. */
  lemma SocketOutlivesDatabase(steps: seq<Step>)
    ensures var s := Run(steps);
      !s.flags.linked && !s.flags.busyCommit && !s.flags.acceptFailed ==> !s.flags.dbOpen
  {
    RunsKeepInv(steps);
  }

  /** The listener does not fail. */
  ghost predicate Accepting(steps: seq<Step>) { forall i :: 0 <= i < |steps| ==> !steps[i].AcceptError? }

  lemma StatementAccepts(phase: Phase, kind: Kind, f: Flags, free: bool, inFlight: int, quiet: bool, expired: bool)
    ensures Statement(phase, kind, f, free, inFlight, quiet, expired).1.acceptFailed == f.acceptFailed
  {}

  lemma OnlyAcceptErrorFails(s: Server, step: Step)
    requires !step.AcceptError?
    ensures Next(s, step).flags.acceptFailed == s.flags.acceptFailed
  {
    hide Statement;
    match step
    case Advance(t, expired) =>
      if t in s.triggers {
        var Trigger(kind, phase) := s.triggers[t];
        var quiet := forall r :: r in s.requests ==> !s.requests[r].Admitted?;
        StatementAccepts(phase, kind, s.flags, s.holder.None?, s.inFlight, quiet, expired);
      }
    case _ =>
  }

  lemma {:induction false} AcceptingStays(before: seq<Step>, more: seq<Step>)
    requires Accepting(more)
    ensures Run(before + more).flags.acceptFailed == Run(before).flags.acceptFailed
  {
    if more == [] {
      assert before + more == before;
    } else {
      var init, last := more[..|more| - 1], more[|more| - 1];
      AcceptingStays(before, init);
      OnlyAcceptErrorFails(Run(before + init), last);
      Then(before + init, last);
      assert before + more == before + init + [last];
    }
  }

  lemma SocketCanGo(steps: seq<Step>) returns (more: seq<Step>)
    requires Run(steps).flags.started && Run(steps).flags.dbOpen
    requires Run(steps).flags.busyCommit || Run(steps).flags.acceptFailed
    ensures Accepting(more) && !Run(steps + more).flags.linked && Run(steps + more).flags.dbOpen
  {
    RunsKeepInv(steps);
    var s := Run(steps);
    if s.flags.acceptFailed || s.flags.httpDown {
      Then(steps, ServeReturns);
      more := [ServeReturns];
    } else {
      var t := s.holder.value;
      assert s.triggers[t].phase == StopHttp(true);
      var next, flags := Executes(s, t, false);
      Then(steps, Advance(t, false));
      Then(steps + [Advance(t, false)], ServeReturns);
      more := [Advance(t, false), ServeReturns];
      assert steps + more == steps + [Advance(t, false)] + [ServeReturns];
    }
  }

  /** Once a shutdown has committed and before the database is closed, the socket can still go first, with a working
      listener, exactly if the commit was busy (or accepting had failed before). */
  lemma SocketFirstExactly(steps: seq<Step>)
    requires Run(steps).flags.started && Run(steps).flags.dbOpen
    ensures (exists more :: Accepting(more) && !Run(steps + more).flags.linked && Run(steps + more).flags.dbOpen)
      <==> Run(steps).flags.busyCommit || Run(steps).flags.acceptFailed
  {
    if Run(steps).flags.busyCommit || Run(steps).flags.acceptFailed {
      var more := SocketCanGo(steps);
    } else {
      forall more | Accepting(more) ensures !Run(steps + more).flags.linked ==> !Run(steps + more).flags.dbOpen {
        CommittedForever(steps, more);
        AcceptingStays(steps, more);
        SocketOutlivesDatabase(steps + more);
      }
    }
  }

  // ----- What it does not promise ------------------------------------------

  /** One trigger in phase, one request being handled. */
  ghost predicate Standoff(s: Server, phase: Phase, flags: Flags) {
    && s.triggers == map[0 := Trigger(Forced, phase)] && s.holder == (if Holds(phase) then Some(0) else None)
    && s.requests == map[0 := Admitted] && s.inFlight == 1 && s.flags == flags
  }

  lemma OneHandlerRuns() returns (steps: seq<Step>)
    ensures Standoff(Run(steps), Waiting, FRESH.flags)
  {
    Then([], Arrive(0));
    Then([] + [Arrive(0)], Check(0));
    Then([] + [Arrive(0)] + [Check(0)], Ask(0, Forced));
    steps := [] + [Arrive(0)] + [Check(0)] + [Ask(0, Forced)];
  }

  lemma Later(before: seq<Step>, phase: Phase, flags: Flags) returns (steps: seq<Step>, next: Phase, after: Flags)
    requires Standoff(Run(before), phase, flags)
    requires !phase.Returned? && !phase.Leaving? && !(phase.Entered? && flags.started)
    ensures (next, after) == Statement(phase, Forced, flags, !Holds(phase), 1, false, false)
    ensures Standoff(Run(steps), next, after)
  {
    Then(before, Advance(0, false));
    steps := before + [Advance(0, false)];
    assert InRequest(Run(before), 0, Admitted) && !Quiet(Run(before));
    assert Run(before).triggers[0] == Trigger(Forced, phase);
    assert Run(steps) == Shutdown(Run(before), 0, false);
    next, after := Run(steps).triggers[0].phase, Run(steps).flags;
  }

  /** A shutdown that finds a handler running gets as far as waiting for it. */
  lemma BusyDrainBegins() returns (steps: seq<Step>, flags: Flags)
    ensures Standoff(Run(steps), AwaitHttp(true), flags)
    ensures flags.httpDown && flags.linked && flags.dbOpen && !flags.acceptFailed
  {
    steps := OneHandlerRuns();
    flags := FRESH.flags;
    var phase := Waiting;
    steps, phase, flags := Later(steps, phase, flags);
    steps, phase, flags := Later(steps, phase, flags);
    steps, phase, flags := Later(steps, phase, flags);
    steps, phase, flags := Later(steps, phase, flags);
    steps, phase, flags := Later(steps, phase, flags);
  }

  /** A busy shutdown lets Serve return, and so the socket go, while the database is still open. */
  lemma BusyShutdownMayUnlinkFirst()
    ensures exists steps :: var s := Run(steps); !s.flags.linked && s.flags.dbOpen && !s.flags.acceptFailed
  {
    var steps, _ := BusyDrainBegins();
    Then(steps, ServeReturns);
    var s := Run(steps + [ServeReturns]);
    assert !s.flags.linked && s.flags.dbOpen && !s.flags.acceptFailed;
  }

  /** A busy shutdown whose drain runs out of time closes the database under a running handler. */
  lemma TimedOutDrainMayBreakHandlers()
    ensures exists steps :: Run(steps).broken != {}
  {
    var steps, _ := BusyDrainBegins();
    Then(steps, Advance(0, true));
    var late := steps + [Advance(0, true)];
    Then(late, Advance(0, false));
    var closed := late + [Advance(0, false)];
    Then(closed, Work(0));
    assert InRequest(Run(closed), 0, Admitted) && !Run(closed).flags.dbOpen;
    assert 0 in Run(closed + [Work(0)]).broken;
  }
}
