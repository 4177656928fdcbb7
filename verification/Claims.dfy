/** Which queued job or array batch a runner is given. */
module Claims {
  import opened Collections
  import opened Ordering
  import opened Text
  import opened Jobs

  /** The live database: job rows, the job_running locks and the job_running_details rows. */
  datatype Store = Store(jobs: JobTable, claims: map<Id, string>, running: map<Id, map<string, string>>)

  /** What a runner offers. A bound of zero or less is no bound. */
  datatype Limits = Limits(maxProcs: int, maxMemory: int, maxWalltime: int, resources: map<string, string>)

  // ----- Limits and resources ----------------------------------------------

  function Quantity(job: Job, key: string): int {
    match Atoi(job.Detail(key)) case Some(n) => n case None => 0
  }

  predicate Within(bound: int, quantity: int) { bound <= 0 || quantity <= bound }

  predicate FitsLimits(job: Job, limits: Limits) {
    && Within(limits.maxProcs, Quantity(job, "procs"))
    && Within(limits.maxMemory, Quantity(job, "mem"))
    && Within(limits.maxWalltime, Quantity(job, "walltime"))
  }

  const RESOURCE_PREFIX := "resource."

  /** A resource value that is a non-negative count; anything else is a label list. */
  function ParseCount(s: string): Option<nat> {
    match Atoi(s) case Some(n) => if n < 0 then None else Some(n) case None => None
  }

  function CountIn(pool: map<string, string>, name: string): nat {
    if name in pool then (match ParseCount(pool[name]) case Some(n) => n case None => 0) else 0
  }

  function TypedVariants(pool: map<string, string>, name: string): set<string> {
    set v | v in pool && name + ":" <= v
  }

  /** How much of a countable resource a pool supplies: an untyped request also draws on typed variants. */
  ghost function Supply(pool: map<string, string>, name: string): int {
    CountIn(pool, name)
    + if Free(name, ':') then SumOver(TypedVariants(pool, name), v => CountIn(pool, v)) else 0
  }

  function Labels(s: string): set<string> {
    set t | t in Split(s, ',') && TrimSpace(t) != "" :: TrimSpace(t)
  }

  predicate LabelSubset(need: string, offered: string) {
    need == "" || Labels(need) <= Labels(offered)
  }

  ghost predicate Provides(pool: map<string, string>, name: string, need: string) {
    match ParseCount(need)
    case Some(n) => Supply(pool, name) >= n
    case None => name in pool && LabelSubset(need, pool[name])
  }

  ghost predicate FitsResources(job: Job, pool: map<string, string>) {
    forall name :: RESOURCE_PREFIX + name in job.details ==> Provides(pool, name, job.details[RESOURCE_PREFIX + name])
  }

  // ----- Throttle ----------------------------------------------------------

  function InArray(m: JobTable, arrayId: string): set<Id> {
    set j | j in m && "array_id" in m[j].details && m[j].details["array_id"] == arrayId
  }

  function RunningIn(m: JobTable, arrayId: string): set<Id> {
    InArray(m, arrayId) * WithStatus(m, Running)
  }

  /** The positive %N throttle of a task's array, if it has one. */
  function Throttle(job: Job): Option<nat> {
    if job.Detail("array_id") == "" || job.Detail("array_throttle") == "" then None else
      match Atoi(job.Detail("array_throttle"))
      case Some(n) => if n <= 0 then None else Some(n)
      case None => None
  }

  predicate ThrottleOk(m: JobTable, j: Id)
    requires j in m
  {
    Throttle(m[j]).Some? ==> |RunningIn(m, m[j].Detail("array_id"))| < Throttle(m[j]).value
  }

  // ----- Claiming one job --------------------------------------------------

  /** ORDER BY priority DESC, submit_time, id. */
  function ClaimOrder(m: JobTable): (Id, Id) -> bool {
    (a, b) => a in m && b in m &&
      (m[a].priority > m[b].priority
      || (m[a].priority == m[b].priority
          && (m[a].submitted < m[b].submitted || (m[a].submitted == m[b].submitted && a < b))))
  }

  lemma ClaimOrderIsStrict(m: JobTable, s: set<Id>)
    requires s <= m.Keys
    ensures StrictOrderOn(ClaimOrder(m), s)
  {
  }

  ghost predicate Fits(m: JobTable, limits: Limits, j: Id)
    requires j in m
  {
    FitsLimits(m[j], limits) && FitsResources(m[j], limits.resources)
  }

  /** Queued jobs a single-job runner may take. */
  ghost function Admissible(m: JobTable, limits: Limits): set<Id> {
    set j | j in m && m[j].status == Queued && Fits(m, limits, j) && ThrottleOk(m, j)
  }

  /** INSERT the lock row and flip the jobs to RUNNING. */
  function Claim(s: Store, ids: set<Id>, runner: string): (r: Store) {
    s.(jobs := SetStatus(s.jobs, ids, Running),
       claims := map j | j in s.claims.Keys + ids :: if j in ids then runner else s.claims[j])
  }

  /** The one job ClaimNextJob hands out: the first admissible one nobody holds a lock on. */
  ghost function NextClaim(s: Store, limits: Limits): Option<Id> {
    var free := Admissible(s.jobs, limits) - s.claims.Keys;
    ClaimOrderIsStrict(s.jobs, free);
    if free == {} then None else Some(First(ClaimOrder(s.jobs), free))
  }

  ghost function ClaimNext(s: Store, runner: string, limits: Limits): Store {
    match NextClaim(s, limits) case Some(j) => Claim(s, {j}, runner) case None => s
  }

  // ----- Claiming an array batch -------------------------------------------

  /** Queued tasks of one array: the rows claimArrayTasksTx selects. */
  function QueuedTasks(m: JobTable, arrayId: string): set<Id> {
    set j | j in m && j in InArray(m, arrayId) && m[j].status == Queued && "array_index" in m[j].details
  }

  /** ORDER BY array_index. The order of equal indices, which the source leaves to the database, is taken to be that
      of the ids. */
  function TaskOrder(m: JobTable): (Id, Id) -> bool {
    (a, b) => a in m && b in m &&
      (Quantity(m[a], "array_index") < Quantity(m[b], "array_index")
       || (Quantity(m[a], "array_index") == Quantity(m[b], "array_index") && a < b))
  }

  lemma TaskOrderIsStrict(m: JobTable, s: set<Id>)
    requires s <= m.Keys
    ensures StrictOrderOn(TaskOrder(m), s)
  {
  }

  lemma QueuedTasksExist(m: JobTable, arrayId: string)
    ensures QueuedTasks(m, arrayId) <= m.Keys
  {
    forall j | j in QueuedTasks(m, arrayId) ensures j in m { }
  }

  /** How many of the available tasks a pass may take; maxTasks of zero or less is no bound. */
  function Claimable(available: nat, maxTasks: int): nat {
    if 0 < maxTasks < available then maxTasks else available
  }

  /** The min-array and full-array gate. */
  predicate Defers(available: nat, maxTasks: int, minTasks: int, fullArray: bool) {
    var effectiveMin := if fullArray then available else minTasks;
    effectiveMin > 0 && Claimable(available, maxTasks) < effectiveMin && available > Claimable(available, maxTasks)
  }

  ghost function FreeTasks(s: Store, arrayId: string): (q: seq<Id>)
    ensures Lists(TaskOrder(s.jobs), QueuedTasks(s.jobs, arrayId) - s.claims.Keys, q)
  {
    QueuedTasksExist(s.jobs, arrayId);
    TaskOrderIsStrict(s.jobs, QueuedTasks(s.jobs, arrayId) - s.claims.Keys);
    Sorted(TaskOrder(s.jobs), QueuedTasks(s.jobs, arrayId) - s.claims.Keys)
  }

  datatype Gate = Gate(maxTasks: int, minTasks: int, fullArray: bool)

  predicate Deferred(m: JobTable, arrayId: string, gate: Gate) {
    Defers(|QueuedTasks(m, arrayId)|, gate.maxTasks, gate.minTasks, gate.fullArray)
  }

  /** The tasks one pass claims of an array: in index order, as many as the budget allows. */
  ghost function Batch(s: Store, arrayId: string, gate: Gate): seq<Id> {
    if Deferred(s.jobs, arrayId, gate) then [] else
      var free := FreeTasks(s, arrayId);
      free[..Claimable(|free|, gate.maxTasks)]
  }

  /** Queued jobs that yield work for a batch runner: free plain jobs, and tasks of arrays with a batch to give. */
  ghost function BatchLeads(s: Store, limits: Limits, gate: Gate): set<Id> {
    set j | j in s.jobs && s.jobs[j].status == Queued && Fits(s.jobs, limits, j) &&
      var a := s.jobs[j].Detail("array_id");
      if a == "" then j !in s.claims else Batch(s, a, gate) != []
  }

  ghost function BatchLead(s: Store, limits: Limits, gate: Gate): Option<Id> {
    var leads := BatchLeads(s, limits, gate);
    ClaimOrderIsStrict(s.jobs, leads);
    if leads == {} then None else Some(First(ClaimOrder(s.jobs), leads))
  }

  ghost function NextBatch(s: Store, limits: Limits, gate: Gate): seq<Id> {
    match BatchLead(s, limits, gate)
    case None => []
    case Some(lead) =>
      var a := s.jobs[lead].Detail("array_id");
      if a == "" then [lead] else Batch(s, a, gate)
  }

  ghost function ClaimBatch(s: Store, runner: string, limits: Limits, gate: Gate): Store {
    Claim(s, Elements(NextBatch(s, limits, gate)), runner)
  }

  // ----- What a batch claim reports ----------------------------------------

  /** The queued jobs a scan passes over before it claims one, or all of them if it claims none. */
  ghost function PassedOver(m: JobTable, claimed: Option<Id>): set<Id> {
    set j | j in m && m[j].status == Queued && (claimed.Some? ==> ClaimOrder(m)(j, claimed.value))
  }

  /** A fitting job that yields nothing although nothing holds it back. */
  ghost predicate Barren(s: Store, gate: Gate, j: Id)
    requires j in s.jobs
  {
    var a := s.jobs[j].Detail("array_id");
    if a == "" then j in s.claims else !Deferred(s.jobs, a, gate) && Batch(s, a, gate) == []
  }

  predicate HeldBack(s: Store, gate: Gate, j: Id)
    requires j in s.jobs
  {
    s.jobs[j].Detail("array_id") != "" && Deferred(s.jobs, s.jobs[j].Detail("array_id"), gate)
  }

  ghost predicate SomeBlocked(s: Store, limits: Limits, seen: set<Id>) {
    exists j :: j in seen && j in s.jobs && !Fits(s.jobs, limits, j)
  }

  ghost predicate SomeBarren(s: Store, limits: Limits, gate: Gate, seen: set<Id>) {
    exists j :: j in seen && j in s.jobs && Fits(s.jobs, limits, j) && Barren(s, gate, j)
  }

  ghost predicate SomeHeld(s: Store, limits: Limits, gate: Gate, seen: set<Id>) {
    exists j :: j in seen && j in s.jobs && Fits(s.jobs, limits, j) && HeldBack(s, gate, j)
  }

  /** Claiming an array's batch meets a locked task: one that comes before the budget is spent. */
  ghost predicate Raced(s: Store, arrayId: string, gate: Gate) {
    Racers(s, arrayId, gate) != {}
  }

  ghost function Racers(s: Store, arrayId: string, gate: Gate): set<Id> {
    set c | c in QueuedTasks(s.jobs, arrayId) && RacedBy(s, arrayId, gate, c)
  }

  ghost predicate RacedBy(s: Store, arrayId: string, gate: Gate, c: Id) {
    var free := FreeTasks(s, arrayId);
    && c in QueuedTasks(s.jobs, arrayId) && c in s.claims
    && (0 < gate.maxTasks <= |free| ==> TaskOrder(s.jobs)(c, free[gate.maxTasks - 1]))
  }

  /** The throttle a batch carries: that of the array's first queued task; 0 if there is none. */
  ghost function BatchThrottle(m: JobTable, arrayId: string, gate: Gate): int {
    QueuedTasksExist(m, arrayId);
    TaskOrderIsStrict(m, QueuedTasks(m, arrayId));
    if Deferred(m, arrayId, gate) || QueuedTasks(m, arrayId) == {} then 0
    else AtoiOrZero(m[First(TaskOrder(m), QueuedTasks(m, arrayId))].Detail("array_throttle"))
  }

  /** What claiming j's array, or j itself, hands out. */
  ghost function Yield(s: Store, gate: Gate, j: Id): seq<Id>
    requires j in s.jobs
  {
    if s.jobs[j].Detail("array_id") == "" then [j] else Batch(s, s.jobs[j].Detail("array_id"), gate)
  }

  ghost predicate YieldRaced(s: Store, gate: Gate, j: Id)
    requires j in s.jobs
  {
    s.jobs[j].Detail("array_id") != "" && Raced(s, s.jobs[j].Detail("array_id"), gate)
  }

  ghost function YieldThrottle(m: JobTable, gate: Gate, j: Id): int
    requires j in m
  {
    if m[j].Detail("array_id") == "" then 0 else BatchThrottle(m, m[j].Detail("array_id"), gate)
  }

  /** The flags of a batch claim, exactly: what the scan passed over, and whether the batch it took met a lock. */
  ghost predicate BatchReport(s: Store, limits: Limits, gate: Gate, more: bool, blocked: bool, deferred: bool,
                              throttle: int) {
    var lead := BatchLead(s, limits, gate);
    var seen := PassedOver(s.jobs, lead);
    && (more <==>
          SomeBarren(s, limits, gate, seen) || (lead.Some? && lead.value in s.jobs && YieldRaced(s, gate, lead.value)))
    && (blocked <==> SomeBlocked(s, limits, seen))
    && (deferred <==> lead.None? && SomeHeld(s, limits, gate, seen))
    && throttle == if lead.Some? && lead.value in s.jobs then YieldThrottle(s.jobs, gate, lead.value) else 0
  }

  /** Everything a claim hands out was queued and unlocked. */
  lemma ClaimsAreFree(s: Store, limits: Limits, gate: Gate)
    ensures NextClaim(s, limits).Some? ==> NextClaim(s, limits).value in Admissible(s.jobs, limits) - s.claims.Keys
    ensures Elements(NextBatch(s, limits, gate)) <= WithStatus(s.jobs, Queued) - s.claims.Keys
    ensures Distinct(NextBatch(s, limits, gate))
  {
    forall a ensures Elements(Batch(s, a, gate)) <= WithStatus(s.jobs, Queued) - s.claims.Keys
             ensures Distinct(Batch(s, a, gate)) {
      var free := FreeTasks(s, a);
      assert forall j :: j in Batch(s, a, gate) ==> j in Elements(free);
    }
  }
}
