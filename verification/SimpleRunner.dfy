/** The local runner's books: processors, memory and counted resources reserved by running jobs. */
module SimpleRunner {
  import opened Collections
  import opened Text
  import opened Jobs
  import opened Claims

  /** A job handed out by the server. */
  datatype Offer = Offer(id: Id, job: Job)

  /** A started job, with what its completion will give back. */
  datatype Process = Process(id: Id, details: map<string, string>, procs: int, mem: int)

  function Positive(n: int): nat { if n > 0 then n else 0 }

  function ProcsOf(p: Process): nat { Positive(p.procs) }
  function MemOf(p: Process): nat { Positive(p.mem) }

  /** How much of a counted resource a job asks for. */
  function NeedOf(details: map<string, string>, name: string): nat {
    if RESOURCE_PREFIX + name in details
    then match Atoi(details[RESOURCE_PREFIX + name]) case Some(n) => Positive(n) case None => 0
    else 0
  }

  function Needs(name: string): Process -> nat { (p: Process) => NeedOf(p.details, name) }

  function Total(running: seq<Process>, weight: Process -> nat): nat {
    if running == [] then 0 else Total(running[..|running| - 1], weight) + weight(running[|running| - 1])
  }

  function Without(running: seq<Process>, id: Id): seq<Process> {
    if running == [] then []
    else
      var rest, last := Without(running[..|running| - 1], id), running[|running| - 1];
      if last.id == id then rest else rest + [last]
  }

  ghost predicate UniqueIds(running: seq<Process>) {
    forall i, j :: 0 <= i < j < |running| ==> running[i].id != running[j].id
  }

  // ----- Sums over the running jobs ----------------------------------------

  lemma TotalAppend(running: seq<Process>, p: Process, weight: Process -> nat)
    ensures Total(running + [p], weight) == Total(running, weight) + weight(p)
  {
    assert (running + [p])[..|running|] == running;
  }

  lemma {:induction false} WithoutAbsent(running: seq<Process>, id: Id)
    requires forall i :: 0 <= i < |running| ==> running[i].id != id
    ensures Without(running, id) == running
  {
    if running != [] {
      WithoutAbsent(running[..|running| - 1], id);
    }
  }

  lemma {:induction false} TotalWithout(running: seq<Process>, k: nat, weight: Process -> nat)
    requires UniqueIds(running) && k < |running|
    ensures Total(Without(running, running[k].id), weight) == Total(running, weight) - weight(running[k])
  {
    var init, last := running[..|running| - 1], running[|running| - 1];
    if k == |running| - 1 {
      WithoutAbsent(init, last.id);
    } else {
      TotalWithout(init, k, weight);
      TotalAppend(Without(init, running[k].id), last, weight);
    }
  }

  lemma {:induction false} WithoutKeeps(running: seq<Process>, id: Id)
    requires UniqueIds(running)
    ensures UniqueIds(Without(running, id))
    ensures forall p :: p in Without(running, id) ==> p in running && p.id != id
  {
    if running != [] { WithoutKeeps(running[..|running| - 1], id); }
  }

  // ----- What must hold at every release of the lock -----------------------

  datatype Books = Books(running: seq<Process>, availProcs: int, availMem: int)

  /** With a positive maximum, what is available and what is reserved add up to it, and neither is negative;
      a runner without a maximum keeps the marker -1. */
  ghost predicate Conserved(max: int, avail: int, reserved: nat) {
    && (max > 0 ==> 0 <= avail && avail + reserved == max)
    && (max == -1 ==> avail == -1)
  }

  /** Requests for this resource can draw on nothing but its own count: it is typed, or no typed variant has any. */
  predicate OnePool(resources: map<string, string>, name: string) {
    Free(name, ':') ==> forall v :: v in TypedVariants(resources, name) ==> CountIn(resources, v) == 0
  }

  ghost predicate Balanced(maxProcs: int, maxMem: int, resources: map<string, string>, b: Books) {
    && Conserved(maxProcs, b.availProcs, Total(b.running, ProcsOf))
    && Conserved(maxMem, b.availMem, Total(b.running, MemOf))
    && forall name :: OnePool(resources, name) ==> Total(b.running, Needs(name)) <= CountIn(resources, name)
  }

  ghost predicate AlwaysBalanced(maxProcs: int, maxMem: int, resources: map<string, string>, trace: seq<Books>) {
    forall k :: 0 <= k < |trace| ==> Balanced(maxProcs, maxMem, resources, trace[k])
  }

  lemma StillBalanced(maxProcs: int, maxMem: int, resources: map<string, string>, trace: seq<Books>, b: Books)
    requires AlwaysBalanced(maxProcs, maxMem, resources, trace) && Balanced(maxProcs, maxMem, resources, b)
    ensures AlwaysBalanced(maxProcs, maxMem, resources, trace + [b])
  {}

  /** Completions only: what is available grows, what is demanded shrinks. */
  ghost predicate Freed(before: Books, after: Books) {
    && before.availProcs <= after.availProcs && before.availMem <= after.availMem
    && (forall name :: Total(after.running, Needs(name)) <= Total(before.running, Needs(name)))
    && (forall p :: p in after.running ==> p in before.running)
  }

  lemma FreedTransitive(a: Books, b: Books, c: Books)
    requires Freed(a, b) && Freed(b, c)
    ensures Freed(a, c)
  {
    forall name ensures Total(c.running, Needs(name)) <= Total(a.running, Needs(name)) {
      assert Total(b.running, Needs(name)) <= Total(a.running, Needs(name));
    }
  }

  /** What a completion returns to one counter: nothing if the counter stands at the marker. */
  function Returned(avail: int, amount: int): int { if avail != -1 && amount > 0 then avail + amount else avail }
  function Reserved(avail: int, amount: int): int { if avail != -1 && amount > 0 then avail - amount else avail }

  function Completed(b: Books, p: Process): Books {
    Books(Without(b.running, p.id), Returned(b.availProcs, p.procs), Returned(b.availMem, p.mem))
  }

  lemma CompletionKeepsBooks(maxProcs: int, maxMem: int, resources: map<string, string>, b: Books, k: nat)
    requires Balanced(maxProcs, maxMem, resources, b) && UniqueIds(b.running) && k < |b.running|
    ensures Balanced(maxProcs, maxMem, resources, Completed(b, b.running[k]))
    ensures Freed(b, Completed(b, b.running[k])) && UniqueIds(Completed(b, b.running[k]).running)
  {
    TotalWithout(b.running, k, ProcsOf);
    TotalWithout(b.running, k, MemOf);
    WithoutKeeps(b.running, b.running[k].id);
    forall name ensures Total(Without(b.running, b.running[k].id), Needs(name)) <= Total(b.running, Needs(name)) {
      TotalWithout(b.running, k, Needs(name));
    }
  }

  /** The state may run another job, and offers at most what is free. */
  ghost predicate FitsNow(maxProcs: int, maxMem: int, resources: map<string, string>, b: Books, procs: int, mem: int,
                          details: map<string, string>) {
    && (maxProcs > 0 ==> procs <= b.availProcs)
    && (maxMem > 0 ==> mem <= b.availMem)
    && forall name :: OnePool(resources, name) ==>
         NeedOf(details, name) == 0 || Total(b.running, Needs(name)) + NeedOf(details, name) <= CountIn(resources, name)
  }

  /** A size detail as startJob reads it: -1 when absent, nothing when malformed. */
  function Size(job: Job, key: string): Option<int> {
    if job.Detail(key) == "" then Some(-1) else Atoi(job.Detail(key))
  }

  predicate Sized(offer: Offer) { Size(offer.job, "procs").Some? && Size(offer.job, "mem").Some? }

  /** The process an offer with well-formed sizes becomes. */
  function Launched(offer: Offer): Process {
    var size := (o: Option<int>) => if o.Some? then o.value else -1;
    Process(offer.id, offer.job.details, size(Size(offer.job, "procs")), size(Size(offer.job, "mem")))
  }

  function Started(b: Books, p: Process): Books {
    Books(b.running + [p], Reserved(b.availProcs, p.procs), Reserved(b.availMem, p.mem))
  }

  lemma StartKeepsBooks(maxProcs: int, maxMem: int, resources: map<string, string>, b: Books, p: Process)
    requires Balanced(maxProcs, maxMem, resources, b)
    requires FitsNow(maxProcs, maxMem, resources, b, p.procs, p.mem, p.details)
    requires UniqueIds(b.running) && forall q :: q in b.running ==> q.id != p.id
    ensures Balanced(maxProcs, maxMem, resources, Started(b, p)) && UniqueIds(Started(b, p).running)
  {
    TotalAppend(b.running, p, ProcsOf);
    TotalAppend(b.running, p, MemOf);
    forall name | OnePool(resources, name)
      ensures Total(b.running + [p], Needs(name)) <= CountIn(resources, name)
    {
      TotalAppend(b.running, p, Needs(name));
    }
  }

  // ----- The pool offered with a claim -------------------------------------

  /** What availableResources computes: each count less the running demand, but not below zero; labels unchanged. */
  ghost predicate Offered(resources: map<string, string>, running: seq<Process>, pool: map<string, string>) {
    && pool.Keys == resources.Keys
    && forall name :: name in resources ==>
         pool[name] == match ParseCount(resources[name])
                       case Some(n) => Itoa(Positive(n - Total(running, Needs(name))))
                       case None => resources[name]
  }

  /** A job that fits the offered pool still fits when it starts: demand has only shrunk since. */
  lemma OfferFits(resources: map<string, string>, before: seq<Process>, now: seq<Process>, pool: map<string, string>,
                  job: Job,
                  name: string)
    requires Offered(resources, before, pool) && FitsResources(job, pool) && OnePool(resources, name)
    requires Total(now, Needs(name)) <= Total(before, Needs(name))
    ensures NeedOf(job.details, name) == 0 ||
      Total(now, Needs(name)) + NeedOf(job.details, name) <= CountIn(resources, name)
  {
    hide Supply, NeedOf, CountIn;
    if NeedOf(job.details, name) > 0 {
      NeedIsProvided(job, pool, name);
      PoolSupplies(resources, before, pool, name);
    }
  }

  lemma NeedIsProvided(job: Job, pool: map<string, string>, name: string)
    requires FitsResources(job, pool) && NeedOf(job.details, name) > 0
    ensures NeedOf(job.details, name) <= Supply(pool, name)
  {
    var need := job.details[RESOURCE_PREFIX + name];
    assert Provides(pool, name, need);
    assert ParseCount(need) == Some(NeedOf(job.details, name));
  }

  /** What is left of a count is what the offered pool says. Labels and names not advertised count nothing. */
  lemma PoolCount(resources: map<string, string>, running: seq<Process>, pool: map<string, string>, name: string)
    requires Offered(resources, running, pool)
    ensures CountIn(pool, name) == Positive(CountIn(resources, name) - Total(running, Needs(name)))
  {
    hide Atoi;
    if name in resources && ParseCount(resources[name]).Some? {
      CountIsInt(resources[name]);
      CountReads(Positive(ParseCount(resources[name]).value - Total(running, Needs(name))));
    }
  }

  lemma CountIsInt(text: string)
    ensures ParseCount(text).Some? ==> ParseCount(text).value <= MAX_INT
  {
  }

  lemma CountReads(n: nat)
    requires n <= MAX_INT
    ensures ParseCount(Itoa(n)) == Some(n)
  {
    AtoiItoa(n);
  }

  lemma PoolSupplies(resources: map<string, string>, running: seq<Process>, pool: map<string, string>, name: string)
    requires Offered(resources, running, pool) && OnePool(resources, name)
    ensures Supply(pool, name) == Positive(CountIn(resources, name) - Total(running, Needs(name)))
  {
    PoolCount(resources, running, pool, name);
    if Free(name, ':') {
      forall v | v in TypedVariants(pool, name) ensures CountIn(pool, v) == 0 {
        assert v in TypedVariants(resources, name);
        PoolCount(resources, running, pool, v);
      }
      SumOverNothing(TypedVariants(pool, name), u => CountIn(pool, u));
    }
  }

  lemma {:induction false} SumOverNothing(s: set<string>, weight: string -> int)
    requires forall x :: x in s ==> weight(x) == 0
    ensures SumOver(s, weight) == 0
    decreases s
  {
    if s != {} {
      var x :| x in s;
      SumOverPick(s, weight, x);
      SumOverNothing(s - {x}, weight);
    }
  }

  lemma {:induction false} SumOverAtLeast(s: set<string>, weight: string -> int, v: string)
    requires v in s && forall x :: x in s ==> weight(x) >= 0
    ensures SumOver(s, weight) >= weight(v)
    decreases s
  {
    SumOverPick(s, weight, v);
    var rest := s - {v};
    if rest != {} {
      var u :| u in rest;
      SumOverAtLeast(rest, weight, u);
    }
  }

  /** Untyped requests are never charged to typed variants: however many are running, a variant is offered whole. */
  lemma VariantsNeverCharged(resources: map<string, string>, running: seq<Process>, pool: map<string, string>,
                             name: string,
                             v: string)
    requires Offered(resources, running, pool) && Free(name, ':') && v in TypedVariants(resources, name)
    requires forall i :: 0 <= i < |running| ==> NeedOf(running[i].details, v) == 0
    ensures Supply(pool, name) >= CountIn(resources, v)
  {
    hide Supply, CountIn, ParseCount;
    NothingNeeded(running, v);
    PoolCount(resources, running, pool, v);
    SupplyCountsVariants(pool, name, v);
  }

  lemma SupplyCountsVariants(pool: map<string, string>, name: string, v: string)
    requires Free(name, ':') && v in TypedVariants(pool, name)
    ensures Supply(pool, name) >= CountIn(pool, v)
  {
    SumOverAtLeast(TypedVariants(pool, name), u => CountIn(pool, u), v);
  }

  lemma {:induction false} NothingNeeded(running: seq<Process>, name: string)
    requires forall i :: 0 <= i < |running| ==> NeedOf(running[i].details, name) == 0
    ensures Total(running, Needs(name)) == 0
  {
    if running != [] { NothingNeeded(running[..|running| - 1], name); }
  }

  // ----- When demand can exceed supply -------------------------------------

  /** Whether the snapshot has room for another job. single: no maximum is set, so one job at a time. */
  predicate FindJob(single: bool, running: nat, availProcs: int, availMem: int) {
    if single then running < 1
    else (availMem > 0 && availProcs > 0) || (availMem > 0 && availProcs == -1) || (availProcs > 0 && availMem == -1)
  }

  /** What a runner is set up with; a negative maximum is none. */
  datatype Setup = Setup(maxProcs: int, maxMem: int, maxWalltime: int, maxJobs: int, resources: map<string, string>)
  {
    predicate Single() { maxProcs <= 0 && maxMem <= 0 }
  }

  /** What happens at the runner: a claimed job starts, or the k-th running one ends. */
  datatype Event = Starts(p: Process) | Ends(k: nat)

  function After(r: Setup, events: seq<Event>): Books {
    if events == [] then Books([], r.maxProcs, r.maxMem) else
      var before := After(r, events[..|events| - 1]);
      match events[|events| - 1]
      case Starts(p) => Started(before, p)
      case Ends(k) => if k < |before.running| then Completed(before, before.running[k]) else before
  }

  function Received(events: seq<Event>): nat {
    if events == [] then 0
    else Received(events[..|events| - 1]) + if events[|events| - 1].Starts? then 1 else 0
  }

  /** The process comes from a job that fits the limits and the pool offered with the claim. */
  ghost predicate Claimable(r: Setup, b: Books, p: Process) {
    exists pool, job: Job :: Offered(r.resources, b.running, pool) && ClaimedAs(r, b, p, pool, job)
  }

  ghost predicate ClaimedAs(r: Setup, b: Books, p: Process, pool: map<string, string>, job: Job) {
    && FitsLimits(job, Limits(b.availProcs, b.availMem, r.maxWalltime, pool)) && FitsResources(job, pool)
    && Sized(Offer(p.id, job)) && p == Launched(Offer(p.id, job))
  }

  /** The loop looks for a job, has not received more than its limit, and is handed one it does not have. */
  ghost predicate CanStart(r: Setup, b: Books, received: nat, p: Process) {
    && FindJob(r.Single(), |b.running|, b.availProcs, b.availMem) && (r.maxJobs < 0 || received <= r.maxJobs)
    && (forall q :: q in b.running ==> q.id != p.id) && Claimable(r, b, p)
  }

  ghost predicate Legal(r: Setup, events: seq<Event>) {
    events == [] || (
      var init := events[..|events| - 1];
      && Legal(r, init)
      && (events[|events| - 1].Starts? ==> CanStart(r, After(r, init), Received(init), events[|events| - 1].p)))
  }

  lemma Snoc(r: Setup, events: seq<Event>, p: Process)
    requires Legal(r, events) && CanStart(r, After(r, events), Received(events), p)
    ensures Legal(r, events + [Starts(p)]) && After(r, events + [Starts(p)]) == Started(After(r, events), p)
    ensures Received(events + [Starts(p)]) == Received(events) + 1
  {
    assert (events + [Starts(p)])[..|events|] == events;
  }

  lemma StartFits(r: Setup, b: Books, received: nat, p: Process)
    requires Balanced(r.maxProcs, r.maxMem, r.resources, b) && CanStart(r, b, received, p)
    ensures FitsNow(r.maxProcs, r.maxMem, r.resources, b, p.procs, p.mem, p.details)
  {
    var pool, job: Job :| Offered(r.resources, b.running, pool) && ClaimedAs(r, b, p, pool, job);
    forall name | OnePool(r.resources, name)
      ensures NeedOf(p.details, name) == 0 ||
        Total(b.running, Needs(name)) + NeedOf(p.details, name) <= CountIn(r.resources, name)
    {
      OfferFits(r.resources, b.running, b.running, pool, job, name);
    }
    hide Balanced, OnePool, Offered, FitsResources;
  }

  /** So the books balance after any sequence of claims and completions, and a resource that is a single pool is never
      overcommitted. */
  lemma {:induction false} LegalStaysWithin(r: Setup, events: seq<Event>)
    requires Legal(r, events)
    ensures Balanced(r.maxProcs, r.maxMem, r.resources, After(r, events)) && UniqueIds(After(r, events).running)
  {
    if events != [] {
      var init := events[..|events| - 1];
      LegalStaysWithin(r, init);
      var b := After(r, init);
      match events[|events| - 1]
      case Starts(p) =>
        StartFits(r, b, Received(init), p);
        StartKeepsBooks(r.maxProcs, r.maxMem, r.resources, b, p);
      case Ends(k) =>
        if k < |b.running| { CompletionKeepsBooks(r.maxProcs, r.maxMem, r.resources, b, k); }
    }
  }

  // ----- A runner that may hold two jobs -----------------------------------

  /** The guard of the claim holds for a second job, and the limit leaves one. */
  predicate MayHoldTwo(r: Setup) {
    FindJob(r.Single(), 1, r.maxProcs, r.maxMem) && r.maxJobs != 0
  }

  /** A job that asks for n units of a resource and nothing else. */
  function Asking(name: string, n: nat): map<string, string> { map[RESOURCE_PREFIX + name := Itoa(n)] }

  lemma AskingNeeds(name: string, n: nat, v: string)
    requires n <= MAX_INT
    ensures NeedOf(Asking(name, n), name) == n && (v != name ==> NeedOf(Asking(name, n), v) == 0)
  {
    AtoiItoa(n);
    assert RESOURCE_PREFIX + v == RESOURCE_PREFIX + name ==> v == name by {
      assert (RESOURCE_PREFIX + v)[|RESOURCE_PREFIX|..] == v && (RESOURCE_PREFIX + name)[|RESOURCE_PREFIX|..] == name;
    }
  }

  lemma PoolExists(resources: map<string, string>, running: seq<Process>) returns (pool: map<string, string>)
    ensures Offered(resources, running, pool)
  {
    pool := map name | name in resources ::
      match ParseCount(resources[name])
      case Some(n) => Itoa(Positive(n - Total(running, Needs(name))))
      case None => resources[name];
  }

  lemma AskingFits(pool: map<string, string>, name: string, n: nat, job: Job)
    requires n <= Supply(pool, name) && n <= MAX_INT && job.details == Asking(name, n)
    ensures FitsResources(job, pool)
  {
    AtoiItoa(n);
    forall other | RESOURCE_PREFIX + other in job.details
      ensures Provides(pool, other, job.details[RESOURCE_PREFIX + other])
    {
      assert (RESOURCE_PREFIX + other)[|RESOURCE_PREFIX|..] == other &&
        (RESOURCE_PREFIX + name)[|RESOURCE_PREFIX|..] == name;
    }
  }

  /** Such a job reserves no processor and no memory, and any limits admit it. */
  lemma AskingIsFree(name: string, n: nat, id: Id, job: Job, limits: Limits)
    requires job.details == Asking(name, n)
    ensures FitsLimits(job, limits) && Sized(Offer(id, job))
    ensures Launched(Offer(id, job)) == Process(id, Asking(name, n), -1, -1)
  {
    assert (RESOURCE_PREFIX + name)[0] == 'r';
    assert "procs" !in job.details && "mem" !in job.details && "walltime" !in job.details;
  }

  lemma AskingIsClaimable(r: Setup, b: Books, name: string, n: nat, id: Id, pool: map<string, string>)
    requires Offered(r.resources, b.running, pool) && n <= Supply(pool, name) && n <= MAX_INT
    ensures Claimable(r, b, Process(id, Asking(name, n), -1, -1))
  {
    hide Offered, FitsResources, FitsLimits, Sized, Launched, Supply, Asking;
    var job := Job(Queued, 0, 0, {}, Asking(name, n));
    AskingFits(pool, name, n, job);
    AskingIsFree(name, n, id, job, Limits(b.availProcs, b.availMem, r.maxWalltime, pool));
    assert ClaimedAs(r, b, Process(id, Asking(name, n), -1, -1), pool, job);
  }

  /** n units of a resource are running in jobs that reserve nothing else. */
  ghost predicate Piled(r: Setup, name: string, v: string, n: nat, events: seq<Event>) {
    var b := After(r, events);
    && Legal(r, events) && Total(b.running, Needs(name)) == n && Received(events) == |b.running|
    && b.availProcs == r.maxProcs && b.availMem == r.maxMem
    && forall i :: 0 <= i < |b.running| ==> NeedOf(b.running[i].details, v) == 0 && 0 <= b.running[i].id < |b.running|
  }

  lemma PileStep(r: Setup, name: string, v: string, n: nat, before: seq<Event>, d: nat, pool: map<string, string>)
    returns (events: seq<Event>)
    requires Piled(r, name, v, n, before) && v != name && FindJob(r.Single(), Received(before), r.maxProcs, r.maxMem)
    requires r.maxJobs < 0 || Received(before) <= r.maxJobs
    requires Offered(r.resources, After(r, before).running, pool) && d <= Supply(pool, name) && d <= MAX_INT
    ensures Piled(r, name, v, n + d, events) && Received(events) == Received(before) + 1
  {
    hide Offered, Supply, FindJob, Asking, NeedOf, Claimable;
    var b := After(r, before);
    var p := Process(|b.running|, Asking(name, d), -1, -1);
    AskingIsClaimable(r, b, name, d, |b.running|, pool);
    Snoc(r, before, p);
    events := before + [Starts(p)];
    AskingNeeds(name, d, v);
    TotalAppend(b.running, p, Needs(name));
    assert Needs(name)(p) == NeedOf(Asking(name, d), name);
  }

  /** One more unit, whatever is running: the variant is offered whole. */
  lemma OneMoreUnit(r: Setup, name: string, v: string, n: nat, before: seq<Event>) returns (events: seq<Event>)
    requires Free(name, ':') && v in TypedVariants(r.resources, name) && CountIn(r.resources, v) > 0
    requires Piled(r, name, v, n, before) && FindJob(r.Single(), 1, r.maxProcs, r.maxMem)
    requires r.maxJobs < 0 || Received(before) <= r.maxJobs
    ensures Piled(r, name, v, n + 1, events)
  {
    var running := After(r, before).running;
    var pool := PoolExists(r.resources, running);
    VariantsNeverCharged(r.resources, running, pool, name, v);
    assert v != name by { assert v[..|name| + 1] == name + ":"; }
    hide Supply, Offered, Piled, TypedVariants, CountIn;
    events := PileStep(r, name, v, n, before, 1, pool);
  }

  /** n units, one job each. */
  lemma {:induction false} UnitsPileUp(r: Setup, name: string, v: string, n: nat) returns (events: seq<Event>)
    requires Free(name, ':') && v in TypedVariants(r.resources, name) && CountIn(r.resources, v) > 0
    requires MayHoldTwo(r) && r.maxJobs < 0
    ensures Piled(r, name, v, n, events)
  {
    events := [];
    if n > 0 {
      events := UnitsPileUp(r, name, v, n - 1);
      events := OneMoreUnit(r, name, v, n - 1, events);
    }
  }

  /** Everything that is advertised, in one job. */
  lemma TakeAll(r: Setup, name: string, v: string) returns (events: seq<Event>)
    requires Free(name, ':') && v in TypedVariants(r.resources, name) && MayHoldTwo(r)
    requires 0 <= Supply(r.resources, name) <= MAX_INT
    ensures Piled(r, name, v, Supply(r.resources, name), events) && Received(events) == 1
  {
    var pool := PoolExists(r.resources, []);
    WholePool(r.resources, pool, name);
    SupplyCountsOwn(r.resources, name);
    assert v != name by { assert v[..|name| + 1] == name + ":"; }
    assert Piled(r, name, v, 0, []);
    hide Supply, Offered, Piled, TypedVariants;
    events := PileStep(r, name, v, 0, [], Supply(r.resources, name), pool);
  }

  /** With nothing running the pool is offered as it is advertised. */
  lemma WholePool(resources: map<string, string>, pool: map<string, string>, name: string)
    requires Offered(resources, [], pool)
    ensures Supply(pool, name) == Supply(resources, name)
  {
    hide ParseCount;
    forall u ensures CountIn(pool, u) == CountIn(resources, u) { PoolCount(resources, [], pool, u); }
    assert TypedVariants(pool, name) == TypedVariants(resources, name);
    SumOverSame(TypedVariants(pool, name), u => CountIn(pool, u), u => CountIn(resources, u));
  }

  // ----- A runner that never does ------------------------------------------

  /** At most one job is running, and it was claimed from the whole pool. */
  ghost predicate Alone(r: Setup, name: string, events: seq<Event>) {
    var b := After(r, events);
    && |b.running| <= 1 && |b.running| <= Received(events)
    && (b.running != [] ==> NeedOf(b.running[0].details, name) <= Supply(r.resources, name))
    && (!r.Single() && !FindJob(false, 1, r.maxProcs, r.maxMem) ==> b == Books([], r.maxProcs, r.maxMem))
  }

  lemma AloneStep(r: Setup, b: Books, received: nat, p: Process, name: string)
    requires b.running == [] && CanStart(r, b, received, p)
    ensures NeedOf(p.details, name) <= Supply(r.resources, name)
  {
    var pool, job: Job :| Offered(r.resources, b.running, pool) && ClaimedAs(r, b, p, pool, job);
    WholePool(r.resources, pool, name);
    SupplyCountsOwn(r.resources, name);
    hide Offered, Supply;
    if NeedOf(job.details, name) > 0 { NeedIsProvided(job, pool, name); }
  }

  lemma {:induction false} StaysAlone(r: Setup, name: string, events: seq<Event>)
    requires Legal(r, events) && !MayHoldTwo(r)
    ensures Alone(r, name, events)
  {
    if events != [] {
      var init := events[..|events| - 1];
      StaysAlone(r, name, init);
      var b := After(r, init);
      match events[|events| - 1]
      case Starts(p) =>
        assert b.running == [];
        AloneStep(r, b, Received(init), p, name);
      case Ends(k) =>
        if k < |b.running| { assert b.running == [b.running[0]] && Without(b.running[..0], b.running[0].id) == []; }
    }
  }

  /** More of a resource is in use than everything advertised for it, variants included. */
  ghost predicate Overcommitted(r: Setup, name: string, events: seq<Event>) {
    Legal(r, events) && Total(After(r, events).running, Needs(name)) > Supply(r.resources, name)
  }

  lemma NeverOvercommits(r: Setup, name: string, events: seq<Event>)
    requires OnePool(r.resources, name) || !MayHoldTwo(r)
    ensures !Overcommitted(r, name, events)
  {
    if Legal(r, events) {
      SupplyCountsOwn(r.resources, name);
      if OnePool(r.resources, name) {
        LegalStaysWithin(r, events);
      } else {
        StaysAlone(r, name, events);
        var running := After(r, events).running;
        if running != [] { TotalAppend([], running[0], Needs(name)); assert running == [] + [running[0]]; }
      }
    }
  }

  lemma VariantsOvercommit(r: Setup, name: string, v: string) returns (events: seq<Event>)
    requires Free(name, ':') && v in TypedVariants(r.resources, name) && CountIn(r.resources, v) > 0
    requires MayHoldTwo(r) && (r.maxJobs < 0 || Supply(r.resources, name) <= MAX_INT)
    ensures Overcommitted(r, name, events)
  {
    SupplyCountsOwn(r.resources, name);
    if r.maxJobs < 0 {
      events := UnitsPileUp(r, name, v, Supply(r.resources, name) + 1);
    } else {
      events := TakeAll(r, name, v);
      events := OneMoreUnit(r, name, v, Supply(r.resources, name), events);
    }
  }

  /** Demand for a resource can exceed everything advertised for it, variants included, exactly if it is untyped, some
      typed variant has a positive count, and the runner may hold two jobs at once. (With a job limit the advertised
      total must fit an int, as it does wherever the source's own sum is right.) */
  lemma OvercommitExactly(r: Setup, name: string)
    requires r.maxJobs < 0 || Supply(r.resources, name) <= MAX_INT
    ensures (exists events :: Overcommitted(r, name, events)) <==> !OnePool(r.resources, name) && MayHoldTwo(r)
  {
    if OnePool(r.resources, name) || !MayHoldTwo(r) {
      forall events ensures !Overcommitted(r, name, events) { NeverOvercommits(r, name, events); }
    } else {
      var v :| v in TypedVariants(r.resources, name) && CountIn(r.resources, v) > 0;
      var events := VariantsOvercommit(r, name, v);
    }
  }

  lemma SupplyCountsOwn(pool: map<string, string>, name: string)
    ensures Supply(pool, name) >= CountIn(pool, name)
  {
    var weight := u => CountIn(pool, u);
    if Free(name, ':') && TypedVariants(pool, name) != {} {
      var v :| v in TypedVariants(pool, name);
      SupplyCountsVariants(pool, name, v);
      SumOverAtLeast(TypedVariants(pool, name), u => CountIn(pool, u), v);
    }
  }

  /** The advertised counts. */
  function Counted(resources: map<string, string>): map<string, int> {
    map name | name in resources && ParseCount(resources[name]).Some? :: ParseCount(resources[name]).value
  }

  /** The advertised counts less what some running jobs hold. */
  ghost predicate Remaining(resources: map<string, string>, running: seq<Process>, counts: map<string, int>) {
    && counts.Keys == Counted(resources).Keys
    && forall name :: name in counts ==> counts[name] == Counted(resources)[name] - Total(running, Needs(name))
  }

  lemma RemainingStep(resources: map<string, string>, running: seq<Process>, p: Process, counts: map<string, int>,
                      left: map<string, int>)
    requires Remaining(resources, running, counts) && left.Keys == counts.Keys
    requires forall name :: name in counts ==> left[name] == counts[name] - NeedOf(p.details, name)
    ensures Remaining(resources, running + [p], left)
  {
    forall name | name in left ensures left[name] == Counted(resources)[name] - Total(running + [p], Needs(name)) {
      TotalAppend(running, p, Needs(name));
    }
  }

  lemma OfferFitsAll(resources: map<string, string>, before: Books, now: Books, pool: map<string, string>, job: Job)
    requires Offered(resources, before.running, pool) && Freed(before, now) && FitsResources(job, pool)
    ensures forall name :: OnePool(resources, name) ==>
      NeedOf(job.details, name) == 0 ||
        Total(now.running, Needs(name)) + NeedOf(job.details, name) <= CountIn(resources, name)
  {
    forall name | OnePool(resources, name)
      ensures NeedOf(job.details, name) == 0 ||
        Total(now.running, Needs(name)) + NeedOf(job.details, name) <= CountIn(resources, name)
    {
      assert Total(now.running, Needs(name)) <= Total(before.running, Needs(name));
      OfferFits(resources, before.running, now.running, pool, job, name);
    }
  }

  // ----- The runner --------------------------------------------------------

  /** What the server may answer to a claim in one pass of the loop. */
  type Server = Limits -> Option<Offer>

  /** The server hands out only jobs that fit, and no job twice. */
  ghost predicate Honest(servers: seq<Server>) {
    && (forall i, l :: 0 <= i < |servers| && servers[i](l).Some? ==>
          FitsLimits(servers[i](l).value.job, l) && FitsResources(servers[i](l).value.job, l.resources))
    && (forall i, j, l, m :: 0 <= i < j < |servers| && servers[i](l).Some? && servers[j](m).Some? ==>
          servers[i](l).value.id != servers[j](m).value.id)
  }

  ghost predicate HandedBefore(servers: seq<Server>, n: nat, id: Id) {
    exists i, l :: 0 <= i < n <= |servers| && servers[i](l).Some? && servers[i](l).value.id == id
  }

  ghost predicate AllHanded(servers: seq<Server>, n: nat, running: seq<Process>) {
    forall p :: p in running ==> HandedBefore(servers, n, p.id)
  }

  /** A job handed out in pass n is none of the earlier ones. */
  lemma HandedOnce(servers: seq<Server>, n: nat, l: Limits, running: seq<Process>)
    requires Honest(servers) && n < |servers| && servers[n](l).Some?
    requires AllHanded(servers, n, running)
    ensures forall p :: p in running ==> p.id != servers[n](l).value.id
    ensures HandedBefore(servers, n + 1, servers[n](l).value.id)
    ensures AllHanded(servers, n + 1, running)
  {
    HandedLater(servers, n, running);
    forall p | p in running ensures p.id != servers[n](l).value.id {
      var i, m :| 0 <= i < n <= |servers| && servers[i](m).Some? && servers[i](m).value.id == p.id;
    }
  }

  lemma HandedLater(servers: seq<Server>, n: nat, running: seq<Process>)
    requires n < |servers| && AllHanded(servers, n, running)
    ensures AllHanded(servers, n + 1, running)
  {
    forall p | p in running ensures HandedBefore(servers, n + 1, p.id) {
      var i, m :| 0 <= i < n <= |servers| && servers[i](m).Some? && servers[i](m).value.id == p.id;
      assert servers[i](m).Some?;
    }
  }

  /** Each maximum is positive or not set. */
  predicate MaximaSet(maxProcs: int, maxMem: int) { (maxProcs > 0 || maxProcs == -1) && (maxMem > 0 || maxMem == -1) }

  /** Completions leave room where there was room. */
  lemma RoomStays(maxProcs: int, maxMem: int, resources: map<string, string>, before: Books, after: Books)
    requires MaximaSet(maxProcs, maxMem) && Freed(before, after) && UniqueIds(after.running)
    requires Balanced(maxProcs, maxMem, resources, before) && Balanced(maxProcs, maxMem, resources, after)
    requires FindJob(maxProcs <= 0 && maxMem <= 0, |before.running|, before.availProcs, before.availMem)
    ensures FindJob(maxProcs <= 0 && maxMem <= 0, |after.running|, after.availProcs, after.availMem)
  {
    NoneFromNone(before.running, after.running);
  }

  lemma HandedFewer(servers: seq<Server>, n: nat, before: Books, after: Books)
    requires AllHanded(servers, n, before.running) && Freed(before, after)
    ensures AllHanded(servers, n, after.running)
  {}

  /** Room means that something is available of each maximum that is set. */
  lemma RoomIsPositive(maxProcs: int, maxMem: int, resources: map<string, string>, b: Books)
    requires Balanced(maxProcs, maxMem, resources, b)
    requires FindJob(maxProcs <= 0 && maxMem <= 0, |b.running|, b.availProcs, b.availMem)
    ensures (maxProcs > 0 ==> b.availProcs > 0) && (maxMem > 0 ==> b.availMem > 0)
  {}

  lemma NoneFromNone(before: seq<Process>, after: seq<Process>)
    requires forall p :: p in after ==> p in before
    ensures after != [] ==> before != []
  {
    if after != [] { assert after[0] in before; }
  }

  class Runner {
    const maxProcs: int
    const maxMem: int
    const maxWalltime: int
    const maxJobs: int
    const resources: map<string, string>
    var curJobs: seq<Process>
    var availProcs: int
    var availMem: int
    var availJobs: int
    var keepRunning: bool
    ghost var trace: seq<Books>
    ghost var claimed: nat
    ghost var interrupted: bool
    // trace: the books at every release of the lock. claimed: jobs received. interrupted: a signal has arrived.

    constructor (maxProcs: int, maxMem: int, maxWalltime: int, maxJobs: int, resources: map<string, string>)
      ensures this.maxProcs == maxProcs && this.maxMem == maxMem && this.maxJobs == maxJobs &&
        this.resources == resources
      ensures curJobs == [] && trace == [] && claimed == 0 && !interrupted
    {
      this.maxProcs, this.maxMem, this.maxWalltime, this.maxJobs := maxProcs, maxMem, maxWalltime, maxJobs;
      this.resources := resources;
      curJobs, availProcs, availMem, availJobs, keepRunning := [], -1, -1, -1, false;
      trace, claimed, interrupted := [], 0, false;
    }

    ghost function Now(): Books
      reads this
    {
      Books(curJobs, availProcs, availMem)
    }

    ghost predicate Valid()
      reads this
    {
      && Balanced(maxProcs, maxMem, resources, Now()) && UniqueIds(curJobs)
      && AlwaysBalanced(maxProcs, maxMem, resources, trace)
    }

    /** The completion goroutine of the k-th running job, under the lock. */
    method Complete(k: nat)
      requires Valid() && k < |curJobs|
      modifies this`curJobs, this`availProcs, this`availMem, this`trace
      ensures Valid() && Now() == Completed(old(Now()), old(curJobs[k])) && Freed(old(Now()), Now())
    {
      var p := curJobs[k];
      CompletionKeepsBooks(maxProcs, maxMem, resources, Now(), k);
      var newJobs: seq<Process> := [];
      for i := 0 to |curJobs|
        invariant newJobs == Without(curJobs[..i], p.id)
      {
        assert curJobs[..i + 1][..i] == curJobs[..i];
        if curJobs[i].id != p.id { newJobs := newJobs + [curJobs[i]]; }
      }
      assert curJobs[..|curJobs|] == curJobs;
      curJobs := newJobs;
      if availProcs != -1 && p.procs > 0 { availProcs := availProcs + p.procs; }
      if availMem != -1 && p.mem > 0 { availMem := availMem + p.mem; }
      StillBalanced(maxProcs, maxMem, resources, trace, Now());
      trace := trace + [Now()];
    }

    /** Between two statements of the loop jobs may complete, and a signal may arrive. */
    method Background()
      requires Valid()
      modifies this`curJobs, this`availProcs, this`availMem, this`trace, this`keepRunning, this`interrupted
      ensures Valid() && Freed(old(Now()), Now())
      ensures keepRunning != old(keepRunning) ==> interrupted
      ensures old(interrupted) ==> interrupted
      ensures keepRunning ==> old(keepRunning)
    {
      var n: nat := *;
      while n > 0 && curJobs != []
        invariant Valid() && Freed(old(Now()), Now())
        invariant keepRunning == old(keepRunning) && interrupted == old(interrupted)
        decreases n
      {
        var k :| 0 <= k < |curJobs|;
        ghost var was := Now();
        Complete(k);
        FreedTransitive(old(Now()), was, Now());
        n := n - 1;
      }
      var signal: bool := *;
      if signal { keepRunning, interrupted := false, true; }
    }

    /** startJob, under the lock: parse the sizes, launch, reserve. Malformed sizes and failed launches reserve
        nothing. */
    method StartJob(offer: Offer, launches: bool) returns (ok: bool)
      requires Valid() && forall p :: p in curJobs ==> p.id != offer.id
      requires FitsNow(maxProcs, maxMem, resources, Now(), Quantity(offer.job, "procs"), Quantity(offer.job, "mem"),
                       offer.job.details)
      modifies this`curJobs, this`availProcs, this`availMem, this`trace
      ensures Valid()
      ensures Now() == old(if ok then Started(Now(), Launched(offer)) else Now())
      ensures ok <==> Sized(offer) && launches
    {
      var jobProcs, jobMem := Size(offer.job, "procs"), Size(offer.job, "mem");
      if jobProcs.None? || jobMem.None? { return false; }
      if !launches { return false; }
      Reserve(Process(offer.id, offer.job.details, jobProcs.value, jobMem.value));
      return true;
    }

    method Reserve(p: Process)
      requires Valid() && forall q :: q in curJobs ==> q.id != p.id
      requires FitsNow(maxProcs, maxMem, resources, Now(), p.procs, p.mem, p.details)
      modifies this`curJobs, this`availProcs, this`availMem, this`trace
      ensures Valid() && Now() == old(Started(Now(), p))
    {
      ghost var was := Now();
      StartKeepsBooks(maxProcs, maxMem, resources, was, p);
      curJobs := curJobs + [p];
      if availProcs != -1 && p.procs > 0 { availProcs := availProcs - p.procs; }
      if availMem != -1 && p.mem > 0 { availMem := availMem - p.mem; }
      assert Now() == Started(was, p);
      StillBalanced(maxProcs, maxMem, resources, trace, Now());
      trace := trace + [Now()];
    }

    /** availableResources: the advertised pool less what running jobs hold. */
    method AvailableResources() returns (pool: map<string, string>)
      ensures Offered(resources, curJobs, pool)
    {
      hide ParseCount;
      var counts := Counted(resources);
      for i := 0 to |curJobs|
        invariant Remaining(resources, curJobs[..i], counts)
      {
        var left := Subtract(counts, curJobs[i].details);
        RemainingStep(resources, curJobs[..i], curJobs[i], counts, left);
        assert curJobs[..i + 1] == curJobs[..i] + [curJobs[i]];
        counts := left;
      }
      assert curJobs[..|curJobs|] == curJobs;
      pool := map name | name in resources :: if name in counts then Itoa(Positive(counts[name])) else resources[name];
    }

    /** At most maxJobs jobs are received, or one more if a signal slipped in between two looks at keepRunning. */
    ghost predicate JobsCounted()
      reads this
    {
      maxJobs >= 0 ==>
        && availJobs >= 0
        && (claimed + availJobs == maxJobs || (claimed == maxJobs + 1 && availJobs == 0 && interrupted && !keepRunning))
    }

    /** Claim with what a snapshot offered; what comes still fits, whatever completed meanwhile. */
    method Claim(server: Server, snapProcs: int, snapMem: int) returns (resp: Option<Offer>, ghost limits: Limits)
      requires Valid() && forall l :: server(l).Some? ==>
        FitsLimits(server(l).value.job, l) && FitsResources(server(l).value.job, l.resources)
      requires (maxProcs > 0 ==> 0 < snapProcs <= availProcs) && (maxMem > 0 ==> 0 < snapMem <= availMem)
      modifies this`curJobs, this`availProcs, this`availMem, this`trace, this`keepRunning, this`interrupted
      ensures Valid() && (forall p :: p in curJobs ==> p in old(curJobs)) && resp == server(limits)
      ensures limits.maxProcs == snapProcs && limits.maxMemory == snapMem && limits.maxWalltime == maxWalltime
      ensures resp.Some? ==> var job := resp.value.job;
        FitsNow(maxProcs, maxMem, resources, Now(), Quantity(job, "procs"), Quantity(job, "mem"), job.details)
      ensures (old(interrupted) ==> interrupted) && (keepRunning ==> old(keepRunning))
      ensures keepRunning != old(keepRunning) ==> interrupted
    {
      var pool := AvailableResources();
      ghost var offered := Now();
      Background();
      limits := Limits(snapProcs, snapMem, maxWalltime, pool);
      resp := server(Limits(snapProcs, snapMem, maxWalltime, pool));
      ghost var was := Now();
      Background();
      FreedTransitive(offered, was, Now());
      if resp.Some? { OfferFitsAll(resources, offered, Now(), pool, resp.value.job); }
    }

    /** Start what was claimed and count it. */
    method Accept(offer: Offer)
      requires Valid() && forall p :: p in curJobs ==> p.id != offer.id
      requires FitsNow(maxProcs, maxMem, resources, Now(), Quantity(offer.job, "procs"), Quantity(offer.job, "mem"),
                       offer.job.details)
      requires maxJobs >= 0 ==> availJobs >= 0 && claimed + availJobs == maxJobs
      requires availJobs == 0 ==> interrupted && !keepRunning
      modifies this
      ensures Valid() && JobsCounted() && claimed == old(claimed) + 1 && interrupted == old(interrupted)
      ensures forall p :: p in curJobs ==> p in old(curJobs) || p.id == offer.id
    {
      claimed := claimed + 1;
      var launches: bool := *;
      var ok := StartJob(offer, launches);
      if !ok { keepRunning := false; }
      if availJobs > 0 { availJobs := availJobs - 1; }
    }

    /** One claim: what the server answers to these limits is received and counted. */
    method ClaimAndStart(servers: seq<Server>, n: nat, snapProcs: int, snapMem: int) returns (ghost limits: Limits)
      requires Valid() && Honest(servers) && n < |servers|
      requires AllHanded(servers, n, curJobs)
      requires (maxProcs > 0 ==> 0 < snapProcs <= availProcs) && (maxMem > 0 ==> 0 < snapMem <= availMem)
      requires maxJobs >= 0 ==> availJobs >= 0 && claimed + availJobs == maxJobs
      requires availJobs == 0 ==> interrupted && !keepRunning
      modifies this
      ensures Valid() && JobsCounted()
      ensures AllHanded(servers, n + 1, curJobs)
      ensures claimed == old(claimed) + if servers[n](limits).Some? then 1 else 0
      ensures limits.maxProcs == snapProcs && limits.maxMemory == snapMem && limits.maxWalltime == maxWalltime
      ensures old(interrupted) ==> interrupted
    {
      var resp;
      resp, limits := Claim(servers[n], snapProcs, snapMem);
      HandedLater(servers, n, curJobs);
      if resp.Some? {
        HandedOnce(servers, n, limits, curJobs);
        Accept(resp.value);
      } else {
        var stop: bool := *;
        if |curJobs| == 0 && stop { keepRunning := false; }
      }
    }

    /** The maxima are meant, and there is room for another job. */
    ghost predicate HasRoom()
      reads this
    {
      MaximaSet(maxProcs, maxMem) && FindJob(maxProcs <= 0 && maxMem <= 0, |curJobs|, availProcs, availMem)
    }

    /** One pass of the loop in Start. It asks the server if nobody wants to stop, jobs are left, and there is room; and
        then it receives what the server has for it. */
    method Pass(servers: seq<Server>, n: nat, drain: bool) returns (asked: bool, ghost limits: Limits)
      requires Valid() && Honest(servers) && n < |servers|
      requires AllHanded(servers, n, curJobs)
      requires JobsCounted()
      modifies this
      ensures Valid() && JobsCounted()
      ensures AllHanded(servers, n + 1, curJobs)
      ensures claimed == old(claimed) + if asked && servers[n](limits).Some? then 1 else 0
      ensures old(keepRunning) && !drain && !interrupted && old(availJobs) != 0 && old(HasRoom()) ==> asked
      ensures old(interrupted) ==> interrupted
    {
      hide Balanced, AlwaysBalanced, AllHanded, Honest, FindJob;
      asked, limits := false, Limits(0, 0, 0, map[]);
      ghost var start := Now();
      Background();
      ghost var first := Now();
      HandedFewer(servers, n, start, first);
      HandedLater(servers, n, curJobs);
      if drain || !keepRunning {
        if drain && |curJobs| == 0 { keepRunning := false; }
        return;
      }
      var snapJobs, snapProcs, snapMem := |curJobs|, availProcs, availMem;
      if old(HasRoom()) { RoomStays(maxProcs, maxMem, resources, start, first); }
      Background();
      HandedFewer(servers, n, first, Now());
      HandedLater(servers, n, curJobs);
      var findJob := FindJob(maxProcs <= 0 && maxMem <= 0, snapJobs, snapProcs, snapMem);
      if keepRunning && availJobs == 0 {
        findJob, keepRunning := false, false;
      }
      asked := findJob;
      if findJob {
        RoomIsPositive(maxProcs, maxMem, resources, first);
        limits := ClaimAndStart(servers, n, snapProcs, snapMem);
      }
    }

    /** The run loop. Whatever the server answers and whenever jobs complete, the books balance at every release of the
        lock. */
    method Start(servers: seq<Server>) returns (passes: nat)
      requires Honest(servers) && curJobs == [] && trace == [] && claimed == 0 && !interrupted
      modifies this
      ensures AlwaysBalanced(maxProcs, maxMem, resources, trace)
      ensures Balanced(maxProcs, maxMem, resources, Now())
      ensures maxJobs >= 0 ==> claimed <= maxJobs || (claimed == maxJobs + 1 && interrupted)
      ensures passes <= |servers| && (passes < |servers| ==> !keepRunning && curJobs == [])
    {
      availProcs, availMem, availJobs := maxProcs, maxMem, maxJobs;
      keepRunning := true;
      var n := 0;
      while n < |servers| && (keepRunning || |curJobs| > 0)
        invariant 0 <= n <= |servers| && Valid() && JobsCounted()
        invariant AllHanded(servers, n, curJobs)
      {
        var drain: bool := *;
        var asked, limits := Pass(servers, n, drain);
        n := n + 1;
      }
      passes := n;
    }

    /** Subtract what one job holds from the same-named counts. */
    static method Subtract(counts: map<string, int>, details: map<string, string>) returns (left: map<string, int>)
      ensures left.Keys == counts.Keys && forall name :: name in counts ==>
        left[name] == counts[name] - NeedOf(details, name)
    {
      var keys := Enumerate(details.Keys);
      left := counts;
      for i := 0 to |keys|
        invariant left.Keys == counts.Keys
        invariant forall name :: name in counts ==> left[name] == counts[name] - NeedAmong(details, keys[..i], name)
      {
        var k := keys[i];
        assert details[k] == details[k] && k in Elements(keys);
        forall name ensures NeedAmong(details, keys[..i + 1], name)
          == NeedAmong(details, keys[..i], name) + if RESOURCE_PREFIX + name == k then NeedOf(details, name) else 0
        {
          OneMoreKey(details, keys, i, name);
        }
        if RESOURCE_PREFIX <= k && Atoi(details[k]).Some? && Atoi(details[k]).value > 0 {
          var name := k[|RESOURCE_PREFIX|..];
          assert RESOURCE_PREFIX + name == k;
          if name in left { left := left[name := left[name] - Atoi(details[k]).value]; }
        }
      }
      assert keys[..|keys|] == keys;
      assert forall k :: k in keys <==> k in Elements(keys);
    }
  }

  function NeedAmong(details: map<string, string>, keys: seq<string>, name: string): nat {
    if RESOURCE_PREFIX + name in keys then NeedOf(details, name) else 0
  }

  lemma OneMoreKey(details: map<string, string>, keys: seq<string>, i: nat, name: string)
    requires Distinct(keys) && i < |keys|
    ensures NeedAmong(details, keys[..i + 1], name)
      == NeedAmong(details, keys[..i], name) + if RESOURCE_PREFIX + name == keys[i] then NeedOf(details, name) else 0
  {
    assert keys[..i + 1] == keys[..i] + [keys[i]];
    assert keys[i] !in keys[..i];
  }

  // ----- The same in details and numbers -----------------------------------

  /** What a job asks for of a resource stands in its detail "resource." with the name behind it. */
  lemma NeedReads(details: map<string, string>, name: string, n: int)
    requires MIN_INT <= n <= MAX_INT
    ensures "resource." + name in details && details["resource." + name] == Itoa(n) ==>
      NeedOf(details, name) == if n > 0 then n else 0
    ensures "resource." + name !in details ==> NeedOf(details, name) == 0
  {
    AtoiItoa(n);
  }

  /** A started job reserves the processors and the memory its details give, and nothing for one that is missing. */
  lemma LaunchReads(offer: Offer, procs: int, mem: int)
    requires MIN_INT <= procs <= MAX_INT && MIN_INT <= mem <= MAX_INT
    requires if "procs" in offer.job.details then offer.job.details["procs"] == Itoa(procs) else procs == -1
    requires if "mem" in offer.job.details then offer.job.details["mem"] == Itoa(mem) else mem == -1
    ensures Sized(offer) && Launched(offer) == Process(offer.id, offer.job.details, procs, mem)
  {
    hide Itoa, Atoi;
    AtoiItoa(procs);
    AtoiItoa(mem);
    NumeralNotEmpty(procs);
    NumeralNotEmpty(mem);
  }

  /** Starting takes the reservation from what is available, completing gives it back. */
  lemma StartThenComplete(r: Setup, b: Books, p: Process)
    requires Balanced(r.maxProcs, r.maxMem, r.resources, b) && p.procs > 0 && r.maxProcs > 0 && p.procs <= b.availProcs
    requires forall q :: q in b.running ==> q.id != p.id
    ensures Started(b, p).availProcs == b.availProcs - p.procs
    ensures Completed(Started(b, p), p).availProcs == b.availProcs && Completed(Started(b, p), p).running == b.running
  {
    assert (b.running + [p])[..|b.running|] == b.running;
    WithoutAbsent(b.running, p.id);
  }

  /** A runner that runs nothing and whose maxima are positive or not set looks for a job, one without maxima only then;
      a runner with a maximum used up does not. */
  lemma LooksForJob(r: Setup, b: Books)
    requires Balanced(r.maxProcs, r.maxMem, r.resources, b)
    ensures b.running == [] && (r.maxProcs > 0 || r.maxProcs == -1) && (r.maxMem > 0 || r.maxMem == -1) ==>
      FindJob(r.Single(), |b.running|, b.availProcs, b.availMem)
    ensures r.maxProcs <= 0 && r.maxMem <= 0 ==>
      (FindJob(r.Single(), |b.running|, b.availProcs, b.availMem) <==> b.running == [])
    ensures r.maxProcs > 0 && r.maxMem == -1 ==>
      (FindJob(r.Single(), |b.running|, b.availProcs, b.availMem) <==> Total(b.running, ProcsOf) < r.maxProcs)
    ensures r.maxProcs == -1 && r.maxMem > 0 ==>
      (FindJob(r.Single(), |b.running|, b.availProcs, b.availMem) <==> Total(b.running, MemOf) < r.maxMem)
    ensures r.maxProcs > 0 && r.maxMem > 0 ==>
      (FindJob(r.Single(), |b.running|, b.availProcs, b.availMem) <==>
        Total(b.running, ProcsOf) < r.maxProcs && Total(b.running, MemOf) < r.maxMem)
  {}

  /** The pool that is offered: numbers less what runs, not below zero; everything else as advertised. */
  lemma OfferReads(resources: map<string, string>, running: seq<Process>, pool: map<string, string>, name: string)
    requires Offered(resources, running, pool) && name in resources
    ensures Atoi(resources[name]).Some? && Atoi(resources[name]).value >= 0 ==>
      var left := Atoi(resources[name]).value - Total(running, Needs(name));
      pool[name] == Itoa(if left > 0 then left else 0)
    ensures Atoi(resources[name]).None? || Atoi(resources[name]).value < 0 ==> pool[name] == resources[name]
  {}
}
