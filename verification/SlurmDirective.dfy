/** Turning afterok edges into a SLURM dependency directive, and why the collapsed form means the same. */
module SlurmDirective {
  import opened Collections
  import opened Text
  import opened Jobs
  import opened Claims
  import Lifecycle
  import Runs

  function Recorded(s: Store, j: Id, key: string): string {
    if j in s.running && key in s.running[j] then s.running[j][key] else ""
  }

  /** What one parent contributes. */
  datatype Verdict =
    | Missing
    | Failed
    | NotReady
    | Satisfied
    | Ignored
    | Plain(job: string)
    | Element(slurmArray: string, task: string)
    | NoSlurmId

  function Judge(s: Store, d: Id): Verdict {
    if d !in s.jobs then Missing else
    match s.jobs[d].status
    case Canceled => Verdict.Failed
    case Failed => Verdict.Failed
    case Unknown => NotReady
    case UserHold => NotReady
    case Waiting => NotReady
    case Success => Satisfied
    case Queued => Ignored
    case _ =>
      if Recorded(s, d, "slurm_job_id") != "" then Plain(Recorded(s, d, "slurm_job_id"))
      else if Recorded(s, d, "slurm_array_id") == "" || Recorded(s, d, "slurm_task_index") == "" then NoSlurmId
      else Element(Recorded(s, d, "slurm_array_id"), Recorded(s, d, "slurm_task_index"))
  }
  // A QUEUED parent matches no case of the source's switch: it is neither an error nor a contribution.

  predicate Refuses(v: Verdict) { v.Missing? || v.Failed? || v.NotReady? || v.NoSlurmId? }

  datatype Directive = Refused(dep: Id, why: Verdict) | AfterOk(ids: seq<string>)

  /** A task as the directive sees it. */
  datatype TaskDep = TaskDep(index: int, slurmArray: string, task: string)

  function ArrayOf(s: Store, d: Id): string
    requires d in s.jobs
  {
    s.jobs[d].Detail("array_id")
  }

  function SizeOf(s: Store, d: Id): int
    requires d in s.jobs
  {
    AtoiOrZero(s.jobs[d].Detail("array_size"))
  }

  function TaskOf(s: Store, d: Id): TaskDep
    requires Judge(s, d).Element?
  {
    TaskDep(AtoiOrZero(s.jobs[d].Detail("array_index")), Judge(s, d).slurmArray, Judge(s, d).task)
  }

  /** SLURM's name for one element of an array. */
  function ElementName(slurmArray: string, task: string): string { slurmArray + "_" + task }

  // ----- What the directive should say -------------------------------------

  predicate InGroup(s: Store, d: Id, arrayId: string) {
    Judge(s, d).Element? && ArrayOf(s, d) == arrayId
  }

  /** The unfinished parents that are tasks of one array. */
  function GroupTasks(s: Store, deps: seq<Id>, arrayId: string): set<TaskDep> {
    set d | d in deps && InGroup(s, d, arrayId) :: TaskOf(s, d)
  }

  /** The array size the group goes by: that of its first member. */
  ghost function GroupSize(s: Store, deps: seq<Id>, arrayId: string): int {
    if deps == [] then 0
    else if Enlisted(s, deps[..|deps| - 1], arrayId) then GroupSize(s, deps[..|deps| - 1], arrayId)
    else if InGroup(s, deps[|deps| - 1], arrayId) then SizeOf(s, deps[|deps| - 1])
    else 0
  }

  function Indices(tasks: set<TaskDep>): set<int> { set t | t in tasks :: t.index }

  /** The parents cover the whole array. */
  ghost predicate Whole(s: Store, deps: seq<Id>, arrayId: string) {
    GroupSize(s, deps, arrayId) > 0 && |Indices(GroupTasks(s, deps, arrayId))| == GroupSize(s, deps, arrayId)
  }

  /** The per-task directive: one id for each unfinished parent. */
  ghost predicate PerTask(s: Store, deps: seq<Id>, e: string) {
    exists d :: d in deps && Names(s, d, e)
  }

  predicate Names(s: Store, d: Id, e: string) {
    match Judge(s, d)
    case Plain(job) => e == job
    case Element(slurmArray, task) => e == ElementName(slurmArray, task)
    case _ => false
  }

  /** The collapsed directive: an array that is depended on as a whole is named by its SLURM arrays. */
  ghost predicate Collapsed(s: Store, deps: seq<Id>, e: string) {
    || PlainIn(s, deps, e)
    || (exists d :: d in deps && Judge(s, d).Element? && NamesCollapsed(s, deps, d, e))
  }

  ghost predicate NamesCollapsed(s: Store, deps: seq<Id>, d: Id, e: string)
    requires Judge(s, d).Element?
  {
    e == if Whole(s, deps, ArrayOf(s, d)) then Judge(s, d).slurmArray
      else ElementName(Judge(s, d).slurmArray, Judge(s, d).task)
  }

  // ----- The code ----------------------------------------------------------

  datatype Group = Group(size: int, tasks: seq<TaskDep>)

  ghost predicate PlainIn(s: Store, deps: seq<Id>, e: string) { exists d :: d in deps && Judge(s, d) == Plain(e) }

  ghost predicate Enlisted(s: Store, deps: seq<Id>, x: string) { exists d :: d in deps && InGroup(s, d, x) }

  /** What the first phase has gathered from deps. */
  ghost predicate Gathered(s: Store, deps: seq<Id>, plain: seq<string>, groups: map<string, Group>,
                           order: seq<string>) {
    && (forall e :: e in plain <==> PlainIn(s, deps, e))
    && (forall x :: x in order <==> x in groups)
    && (forall x :: x in groups <==> Enlisted(s, deps, x))
    && (forall x :: x in groups ==> GroupFaithful(s, deps, x, groups[x]))
  }

  ghost predicate GroupFaithful(s: Store, deps: seq<Id>, x: string, g: Group) {
    Elements(g.tasks) == GroupTasks(s, deps, x) && g.size == GroupSize(s, deps, x)
  }

  lemma OneMoreDep(s: Store, deps: seq<Id>, d: Id, x: string)
    ensures PlainIn(s, deps + [d], x) <==> PlainIn(s, deps, x) || Judge(s, d) == Plain(x)
    ensures Enlisted(s, deps + [d], x) <==> Enlisted(s, deps, x) || InGroup(s, d, x)
  {
    var more := deps + [d];
    assert forall c :: c in more <==> c in deps || c == d;
    if PlainIn(s, deps, x) {
      var c :| c in deps && Judge(s, c) == Plain(x);
      assert c in more;
    }
    if Enlisted(s, deps, x) {
      var c :| c in deps && InGroup(s, c, x);
      assert c in more;
    }
  }

  lemma OneMoreTask(s: Store, deps: seq<Id>, d: Id, x: string)
    ensures GroupTasks(s, deps + [d], x) ==
      if InGroup(s, d, x) then GroupTasks(s, deps, x) + {TaskOf(s, d)} else GroupTasks(s, deps, x)
    ensures GroupSize(s, deps + [d], x)
      == if Enlisted(s, deps, x) then GroupSize(s, deps, x) else if InGroup(s, d, x) then SizeOf(s, d) else 0
    ensures !Enlisted(s, deps, x) ==> GroupTasks(s, deps, x) == {}
  {
    var more := deps + [d];
    assert forall c :: c in more <==> c in deps || c == d;
    assert more[..|more| - 1] == deps && more[|more| - 1] == d;
  }

  lemma GatherOther(s: Store, deps: seq<Id>, d: Id, plain: seq<string>, groups: map<string, Group>, order: seq<string>)
    requires Gathered(s, deps, plain, groups, order) && !Judge(s, d).Element?
    ensures Gathered(s, deps + [d], if Judge(s, d).Plain? then plain + [Judge(s, d).job] else plain, groups, order)
  {
    var ids := if Judge(s, d).Plain? then plain + [Judge(s, d).job] else plain;
    forall e ensures e in ids <==> PlainIn(s, deps + [d], e) { OneMoreDep(s, deps, d, e); }
    forall x ensures x in groups <==> Enlisted(s, deps + [d], x) { OneMoreDep(s, deps, d, x); }
    forall x | x in groups ensures GroupFaithful(s, deps + [d], x, groups[x]) { OneMoreTask(s, deps, d, x); }
  }

  /** Adding an array task to its group. */
  function Enrolled(s: Store, d: Id, groups: map<string, Group>): map<string, Group>
    requires Judge(s, d).Element?
  {
    var x := ArrayOf(s, d);
    groups[x := if x in groups then Group(groups[x].size, groups[x].tasks + [TaskOf(s, d)])
                else Group(SizeOf(s, d), [TaskOf(s, d)])]
  }

  lemma GatherTask(s: Store, deps: seq<Id>, d: Id, plain: seq<string>, groups: map<string, Group>, order: seq<string>)
    requires Gathered(s, deps, plain, groups, order) && Judge(s, d).Element?
    ensures var x := ArrayOf(s, d);
      Gathered(s, deps + [d], plain, Enrolled(s, d, groups), if x in groups then order else order + [x])
  {
    var x, after := ArrayOf(s, d), Enrolled(s, d, groups);
    var order' := if x in groups then order else order + [x];
    forall e ensures e in plain <==> PlainIn(s, deps + [d], e) { OneMoreDep(s, deps, d, e); }
    forall y ensures y in after <==> Enlisted(s, deps + [d], y) { OneMoreDep(s, deps, d, y); }
    assert after[x] == Enrolled(s, d, groups)[x];
    hide Judge, PlainIn, Enlisted, GroupTasks, GroupSize;
    forall y | y in after ensures GroupFaithful(s, deps + [d], y, after[y]) {
      if y == x {
        EnrolledIsFaithful(s, deps, d, groups);
      } else {
        OneMoreTask(s, deps, d, y);
      }
    }
    assert forall y :: y in order' <==> y in after;
  }

  lemma EnrolledIsFaithful(s: Store, deps: seq<Id>, d: Id, groups: map<string, Group>)
    requires Judge(s, d).Element?
    requires var x := ArrayOf(s, d);
      if x in groups then Enlisted(s, deps, x) && GroupFaithful(s, deps, x, groups[x]) else !Enlisted(s, deps, x)
    ensures GroupFaithful(s, deps + [d], ArrayOf(s, d), Enrolled(s, d, groups)[ArrayOf(s, d)])
  {
    var x, t := ArrayOf(s, d), TaskOf(s, d);
    OneMoreTask(s, deps, d, x);
    if x in groups { ElementsAppend(groups[x].tasks, t); }
    assert Elements([t]) == {t};
  }

  ghost predicate IndexSorted(tasks: seq<TaskDep>) {
    forall i, j :: 0 <= i < j < |tasks| ==> tasks[i].index <= tasks[j].index
  }

  /** sort.Slice by array index, in place on the group's list. */
  method SortByIndex(tasks: seq<TaskDep>) returns (sorted: seq<TaskDep>)
    ensures multiset(sorted) == multiset(tasks) && IndexSorted(sorted)
  {
    sorted := [];
    for n := 0 to |tasks|
      invariant multiset(sorted) == multiset(tasks[..n]) && IndexSorted(sorted)
    {
      assert tasks[..n + 1] == tasks[..n] + [tasks[n]];
      sorted := Insert(sorted, tasks[n]);
    }
    assert tasks[..|tasks|] == tasks;
  }

  method Insert(tasks: seq<TaskDep>, t: TaskDep) returns (r: seq<TaskDep>)
    requires IndexSorted(tasks)
    ensures multiset(r) == multiset(tasks) + multiset{t} && IndexSorted(r)
  {
    var k := |tasks|;
    while k > 0 && tasks[k - 1].index > t.index
      invariant 0 <= k <= |tasks|
      invariant k < |tasks| ==> tasks[k].index > t.index
    {
      k := k - 1;
    }
    r := tasks[..k] + [t] + tasks[k..];
    SplicedMultiset(tasks, k, t);
    SplicedSorted(tasks, k, t);
  }

  lemma SplicedMultiset<T>(q: seq<T>, k: nat, t: T)
    requires k <= |q|
    ensures multiset(q[..k] + [t] + q[k..]) == multiset(q) + multiset{t}
  {
    assert q == q[..k] + q[k..];
  }

  lemma SplicedSorted(q: seq<TaskDep>, k: nat, t: TaskDep)
    requires k <= |q| && IndexSorted(q)
    requires k < |q| ==> q[k].index > t.index
    requires k > 0 ==> q[k - 1].index <= t.index
    ensures IndexSorted(q[..k] + [t] + q[k..])
  {
    var r := q[..k] + [t] + q[k..];
    assert forall i :: 0 <= i < |r| ==> r[i] == if i < k then q[i] else if i == k then t else q[i - 1];
  }

  /** The first parent that is missing, failed, not ready or without a SLURM id. */
  ghost predicate FirstRefusal(s: Store, deps: seq<Id>, k: int) {
    0 <= k < |deps| && Refuses(Judge(s, deps[k])) && NoneRefused(s, deps[..k])
  }

  ghost predicate NoneRefused(s: Store, deps: seq<Id>) { forall d :: d in deps ==> !Refuses(Judge(s, d)) }

  // ----- The same in statuses and recorded details -------------------------

  /** The running detail is recorded, and not empty. */
  predicate Has(s: Store, d: Id, key: string, value: string) {
    value != "" && d in s.running && key in s.running[d] && s.running[d][key] == value
  }

  ghost predicate Lacks(s: Store, d: Id, key: string) { forall value :: !Has(s, d, key, value) }

  predicate InHand(s: Store, d: Id) {
    d in s.jobs && (s.jobs[d].status == Running || s.jobs[d].status == ProxyQueued)
  }

  /** A parent that stops the submission: no row, CANCELED, FAILED, UNKNOWN, USERHOLD or WAITING; or RUNNING or
      PROXYQUEUED with neither a SLURM job id nor both a SLURM array id and a task index. */
  ghost predicate Stops(s: Store, d: Id) {
    || d !in s.jobs
    || s.jobs[d].status == Canceled || s.jobs[d].status == Status.Failed || s.jobs[d].status == Unknown
    || s.jobs[d].status == UserHold || s.jobs[d].status == Waiting
    || (InHand(s, d) && Lacks(s, d, "slurm_job_id")
        && (Lacks(s, d, "slurm_array_id") || Lacks(s, d, "slurm_task_index")))
  }

  lemma RefusesExactly(s: Store, d: Id)
    ensures Refuses(Judge(s, d)) <==> Stops(s, d)
    ensures InHand(s, d) ==> (Judge(s, d).Plain? <==> exists x :: Has(s, d, "slurm_job_id", x))
    ensures InHand(s, d) ==> forall x :: Has(s, d, "slurm_job_id", x) ==> Judge(s, d) == Plain(x)
    ensures Judge(s, d).Plain? ==> InHand(s, d) && Has(s, d, "slurm_job_id", Judge(s, d).job)
    ensures Judge(s, d).Element? <==> IsElement(s, d)
    ensures Judge(s, d).Element? ==>
      && Has(s, d, "slurm_array_id", Judge(s, d).slurmArray) && Has(s, d, "slurm_task_index", Judge(s, d).task)
  {
    var job, a, t := Recorded(s, d, "slurm_job_id"), Recorded(s, d, "slurm_array_id"),
      Recorded(s, d, "slurm_task_index");
    assert job != "" ==> Has(s, d, "slurm_job_id", job);
    assert a != "" ==> Has(s, d, "slurm_array_id", a);
    assert t != "" ==> Has(s, d, "slurm_task_index", t);
  }

  /** A parent known to SLURM as one element of an array. */
  ghost predicate IsElement(s: Store, d: Id) {
    InHand(s, d) && Lacks(s, d, "slurm_job_id")
    && (exists a :: Has(s, d, "slurm_array_id", a)) && (exists t :: Has(s, d, "slurm_task_index", t))
  }

  /** What a parent adds: its SLURM job id; or, for an element, its SLURM array if all of the array is depended on,
      and otherwise array and task joined by an underscore. */
  ghost predicate Adds(s: Store, deps: seq<Id>, d: Id, e: string) {
    && InHand(s, d)
    && (Has(s, d, "slurm_job_id", e)
        || (IsElement(s, d) && exists a, t ::
              && Has(s, d, "slurm_array_id", a) && Has(s, d, "slurm_task_index", t)
              && e == if Whole(s, deps, ArrayOf(s, d)) then a else a + "_" + t))
  }

  lemma CollapsedIsAdded(s: Store, deps: seq<Id>, e: string)
    ensures Collapsed(s, deps, e) <==> exists d :: d in deps && Adds(s, deps, d, e)
  {
    hide Whole, Judge, InHand, Lacks;
    forall d ensures d in deps && (Judge(s, d) == Plain(e) || (Judge(s, d).Element? && NamesCollapsed(s, deps, d, e)))
                     <==> d in deps && Adds(s, deps, d, e)
    {
      OneAdds(s, deps, d, e);
    }
    if Collapsed(s, deps, e) {
      if d :| d in deps && Judge(s, d) == Plain(e) {
        assert Adds(s, deps, d, e);
      } else {
        var d :| d in deps && Judge(s, d).Element? && NamesCollapsed(s, deps, d, e);
        assert Adds(s, deps, d, e);
      }
    }
    if d :| d in deps && Adds(s, deps, d, e) {
      assert Judge(s, d) == Plain(e) || (Judge(s, d).Element? && NamesCollapsed(s, deps, d, e));
    }
  }

  lemma OneAdds(s: Store, deps: seq<Id>, d: Id, e: string)
    ensures Adds(s, deps, d, e) <==> Judge(s, d) == Plain(e) || (Judge(s, d).Element? && NamesCollapsed(s, deps, d, e))
  {
    hide Whole, Judge;
    RefusesExactly(s, d);
  }

  /** The details of an element number its array's tasks. */
  ghost predicate Numbered(s: Store, d: Id, size: int, index: int) {
    && d in s.jobs && 0 <= size <= MAX_INT && 0 <= index <= MAX_INT
    && "array_size" in s.jobs[d].details && s.jobs[d].details["array_size"] == Itoa(size)
    && "array_index" in s.jobs[d].details && s.jobs[d].details["array_index"] == Itoa(index)
  }

  predicate OfArray(s: Store, d: Id, x: string) { d in s.jobs && s.jobs[d].Detail("array_id") == x }

  lemma NumberedTask(s: Store, d: Id, size: int, index: int, x: string)
    requires Numbered(s, d, size, index)
    ensures InGroup(s, d, x) <==> IsElement(s, d) && OfArray(s, d, x)
    ensures IsElement(s, d) ==> Judge(s, d).Element? && TaskOf(s, d).index == index
    ensures SizeOf(s, d) == size
  {
    hide Judge, Itoa;
    RefusesExactly(s, d);
    AtoiItoa(size);
    AtoiItoa(index);
  }

  /** An array is depended on as a whole exactly if the parents have as many different indices as it has tasks. */
  lemma WholeExactly(s: Store, deps: seq<Id>, x: string, n: nat, index: Id -> int)
    requires forall d :: d in deps ==> Numbered(s, d, n, index(d))
    requires exists d :: d in deps && IsElement(s, d) && OfArray(s, d, x)
    ensures Whole(s, deps, x) <==>
      n > 0 && |set d | d in deps && IsElement(s, d) && OfArray(s, d, x) :: index(d)| == n
  {
    hide Judge, Numbered, IsElement, OfArray, SizeOf, GroupSize;
    forall d | d in deps
      ensures InGroup(s, d, x) <==> IsElement(s, d) && OfArray(s, d, x)
      ensures InGroup(s, d, x) ==> TaskOf(s, d).index == index(d)
      ensures d in s.jobs && SizeOf(s, d) == n
    {
      NumberedTask(s, d, n, index(d), x);
      NumberedIsRow(s, d, n, index(d));
    }
    assert Enlisted(s, deps, x);
    SizeFromMember(s, deps, x);
    hide TaskOf, InGroup;
    var listed := set d | d in deps && IsElement(s, d) && OfArray(s, d, x) :: index(d);
    forall i ensures i in listed <==> i in Indices(GroupTasks(s, deps, x)) {
      if i in listed {
        var d :| d in deps && IsElement(s, d) && OfArray(s, d, x) && index(d) == i;
        assert TaskOf(s, d) in GroupTasks(s, deps, x);
      }
    }
    assert listed == Indices(GroupTasks(s, deps, x));
  }

  lemma NumberedIsRow(s: Store, d: Id, size: int, index: int)
    requires Numbered(s, d, size, index)
    ensures d in s.jobs
  {}

  /** The directive's id list: without repetitions, and exactly the collapsed ids. */
  method AfterOkDirective(s: Store, deps: seq<Id>) returns (r: Directive)
    ensures r.Refused? ==> exists k :: FirstRefusal(s, deps, k) && r == Refused(deps[k], Judge(s, deps[k]))
    ensures r.AfterOk? ==> NoneRefused(s, deps) && Distinct(r.ids) && forall e :: e in r.ids <==> Collapsed(s, deps, e)
    ensures r.Refused? <==> exists d :: d in deps && Stops(s, d)
    ensures r.Refused? ==> Stops(s, r.dep)
    ensures r.AfterOk? ==> forall e :: e in r.ids <==> exists d :: d in deps && Adds(s, deps, d, e)
    ensures (forall d :: d in deps ==> d in s.jobs && s.jobs[d].status == Success) ==> r == AfterOk([])
  {
    r := Directed(s, deps);
    forall d ensures Refuses(Judge(s, d)) <==> Stops(s, d) { RefusesExactly(s, d); }
    forall e ensures Collapsed(s, deps, e) <==> exists d :: d in deps && Adds(s, deps, d, e) {
      CollapsedIsAdded(s, deps, e);
    }
    hide Judge, Collapsed, Has, IsElement;
    if r.Refused? {
      ghost var k :| FirstRefusal(s, deps, k) && r == Refused(deps[k], Judge(s, deps[k]));
      assert deps[k] in deps;
    } else if forall d :: d in deps ==> d in s.jobs && s.jobs[d].status == Success {
      HasMember(r.ids);
    }
  }

  lemma HasMember(ids: seq<string>)
    ensures ids != [] ==> exists e :: e in ids
  {
    if ids != [] { assert ids[0] in ids; }
  }

  /** The two phases. */
  method Directed(s: Store, deps: seq<Id>) returns (r: Directive)
    ensures r.Refused? ==> exists k :: FirstRefusal(s, deps, k) && r == Refused(deps[k], Judge(s, deps[k]))
    ensures r.AfterOk? ==> NoneRefused(s, deps) && Distinct(r.ids) && forall e :: e in r.ids <==> Collapsed(s, deps, e)
  {
    var plain: seq<string>, groups: map<string, Group>, order: seq<string> := [], map[], [];
    for n := 0 to |deps|
      invariant NoneRefused(s, deps[..n]) && Gathered(s, deps[..n], plain, groups, order)
    {
      assert deps[..n + 1] == deps[..n] + [deps[n]];
      if Refuses(Judge(s, deps[n])) {
        assert FirstRefusal(s, deps, n);
        return Refused(deps[n], Judge(s, deps[n]));
      }
      plain, groups, order := Gather(s, deps[..n], deps[n], plain, groups, order);
    }
    assert deps[..|deps|] == deps;
    var ids := Emit(s, deps, plain, groups, order);
    return AfterOk(ids);
  }

  /** First phase, one parent. */
  method Gather(s: Store, ghost deps: seq<Id>, d: Id, plain: seq<string>, groups: map<string, Group>,
                order: seq<string>)
    returns (plain': seq<string>, groups': map<string, Group>, order': seq<string>)
    requires Gathered(s, deps, plain, groups, order)
    ensures Gathered(s, deps + [d], plain', groups', order')
  {
    plain', groups', order' := plain, groups, order;
    var v := Judge(s, d);
    if v.Element? {
      GatherTask(s, deps, d, plain, groups, order);
      var x := ArrayOf(s, d);
      if x !in groups { order' := order + [x]; }
      groups' := Enrolled(s, d, groups);
    } else {
      GatherOther(s, deps, d, plain, groups, order);
      if v.Plain? { plain' := plain + [v.job]; }
    }
  }

  /** Second phase: plain ids first, then each array, collapsed if whole. */
  method Emit(s: Store, deps: seq<Id>, plain: seq<string>, groups: map<string, Group>, order: seq<string>)
    returns (ids: seq<string>)
    requires Gathered(s, deps, plain, groups, order)
    ensures Distinct(ids) && forall e :: e in ids <==> Collapsed(s, deps, e)
  {
    ids := [];
    for n := 0 to |plain|
      invariant Distinct(ids) && forall e :: e in ids <==> e in plain[..n]
    {
      ids := Add(ids, plain[n]);
    }
    for n := 0 to |order|
      invariant Distinct(ids)
      invariant forall e :: e in ids <==> e in plain || FromGroups(s, deps, order[..n], e)
    {
      forall e ensures FromGroups(s, deps, order[..n + 1], e) <==>
        FromGroups(s, deps, order[..n], e) || FromGroup(s, deps, order[n], e)
      {
        OneMoreGroup(s, deps, order, n, e);
      }
      ids := EmitGroup(s, deps, order[n], groups[order[n]], ids);
    }
    assert order[..|order|] == order;
    forall e ensures e in ids <==> Collapsed(s, deps, e) {
      GroupsAreCollapsed(s, deps, plain, groups, order, e);
    }
  }

  /** e is one of the ids a group emits. */
  ghost predicate FromGroup(s: Store, deps: seq<Id>, x: string, e: string) {
    exists d :: d in deps && InGroup(s, d, x) && NamesCollapsed(s, deps, d, e)
  }

  ghost predicate FromGroups(s: Store, deps: seq<Id>, order: seq<string>, e: string) {
    exists x :: x in order && FromGroup(s, deps, x, e)
  }

  lemma OneMoreGroup(s: Store, deps: seq<Id>, order: seq<string>, n: nat, e: string)
    requires n < |order|
    ensures FromGroups(s, deps, order[..n + 1], e) <==>
      FromGroups(s, deps, order[..n], e) || FromGroup(s, deps, order[n], e)
  {
    assert order[..n + 1] == order[..n] + [order[n]];
    assert forall x :: x in order[..n + 1] <==> x in order[..n] || x == order[n];
  }

  lemma GroupsAreCollapsed(s: Store, deps: seq<Id>, plain: seq<string>, groups: map<string, Group>, order: seq<string>,
                           e: string)
    requires Gathered(s, deps, plain, groups, order)
    ensures e in plain || FromGroups(s, deps, order, e) <==> Collapsed(s, deps, e)
  {
    if d :| d in deps && Judge(s, d).Element? && NamesCollapsed(s, deps, d, e) {
      var x := ArrayOf(s, d);
      assert InGroup(s, d, x);
      assert x in groups && FromGroup(s, deps, x, e);
    }
  }

  method Add(ids: seq<string>, e: string) returns (r: seq<string>)
    requires Distinct(ids)
    ensures Distinct(r) && forall f :: f in r <==> f in ids || f == e
  {
    if e in ids { return ids; }
    return ids + [e];
  }

  method EmitGroup(s: Store, deps: seq<Id>, x: string, g: Group, before: seq<string>) returns (ids: seq<string>)
    requires Distinct(before)
    requires Elements(g.tasks) == GroupTasks(s, deps, x) && g.size == GroupSize(s, deps, x)
    ensures Distinct(ids) && forall e :: e in ids <==> e in before || FromGroup(s, deps, x, e)
  {
    var distinct := Indices(Elements(g.tasks));
    var whole := g.size > 0 && |distinct| == g.size;
    var sorted := SortByIndex(g.tasks);
    ids := before;
    for n := 0 to |sorted|
      invariant Distinct(ids)
      invariant forall e :: e in ids <==> e in before || exists t :: t in sorted[..n] && e == Emitted(t, whole)
    {
      assert sorted[..n + 1] == sorted[..n] + [sorted[n]];
      ids := Add(ids, Emitted(sorted[n], whole));
    }
    assert sorted[..|sorted|] == sorted;
    forall e ensures (exists t :: t in sorted && e == Emitted(t, whole)) <==> FromGroup(s, deps, x, e) {
      assert forall t :: t in sorted <==> t in multiset(sorted);
      assert forall t :: t in g.tasks <==> t in multiset(g.tasks);
      assert forall t :: t in g.tasks <==> t in Elements(g.tasks);
      if d :| d in deps && InGroup(s, d, x) && NamesCollapsed(s, deps, d, e) {
        assert TaskOf(s, d) in GroupTasks(s, deps, x);
        assert TaskOf(s, d) in sorted && e == Emitted(TaskOf(s, d), whole);
      }
      if t :| t in sorted && e == Emitted(t, whole) {
        assert t in GroupTasks(s, deps, x);
      }
    }
  }

  function Emitted(t: TaskDep, whole: bool): string {
    if whole then t.slurmArray else ElementName(t.slurmArray, t.task)
  }

  // ----- What SLURM makes of it --------------------------------------------

  /** SLURM's side: the tasks of each SLURM array, the batchq array each was cut from, and the indices batchq arrays
      have. */
  datatype World = World(tasks: map<string, set<string>>, owner: map<string, string>, indices: map<string, set<int>>)

  /** The SLURM jobs an afterok id waits for: all elements of an array id, or the one job named. */
  function Denotes(w: World, e: string): set<string> {
    if e in w.tasks then set t | t in w.tasks[e] :: ElementName(e, t) else {e}
  }

  /** SLURM array ids hold no underscore; each array was cut from one batchq array, and no index was submitted twice. */
  ghost predicate SubmittedOnce(w: World) {
    && (forall a :: a in w.tasks ==> Free(a, '_') && a in w.owner && w.owner[a] in w.indices)
    && (forall a, t :: a in w.tasks && t in w.tasks[a] ==> exists k :: k in w.indices[w.owner[a]] && t == Itoa(k))
    && (forall a, b, t ::
          a in w.tasks && b in w.tasks && w.owner[a] == w.owner[b] && t in w.tasks[a] && t in w.tasks[b] ==> a == b)
  }

  /** What batchq recorded about an unfinished array task agrees with SLURM. */
  ghost predicate Agrees(w: World, s: Store, d: Id) {
    Judge(s, d).Element? && SizeOf(s, d) > 0 ==>
      var x, t := ArrayOf(s, d), TaskOf(s, d);
      && x in w.indices && |w.indices[x]| == SizeOf(s, d) && t.index in w.indices[x]
      && t.slurmArray in w.tasks && t.slurmArray in w.owner && w.owner[t.slurmArray] == x
      && t.task in w.tasks[t.slurmArray] && t.task == Itoa(t.index)
  }

  ghost predicate Coherent(w: World, s: Store, deps: seq<Id>) {
    && SubmittedOnce(w)
    && (forall d :: d in deps ==> Agrees(w, s, d))
    && (forall c, d :: c in deps && d in deps && Judge(s, c).Element? && Judge(s, d).Element?
          ==> ArrayOf(s, c) == ArrayOf(s, d) ==> SizeOf(s, c) == SizeOf(s, d))
  }

  lemma {:induction false} SizeFromMember(s: Store, deps: seq<Id>, x: string)
    requires Enlisted(s, deps, x)
    ensures exists d :: d in deps && InGroup(s, d, x) && GroupSize(s, deps, x) == SizeOf(s, d)
  {
    var init, last := deps[..|deps| - 1], deps[|deps| - 1];
    assert deps == init + [last];
    OneMoreDep(s, init, last, x);
    if Enlisted(s, init, x) {
      SizeFromMember(s, init, x);
      var d :| d in init && InGroup(s, d, x) && GroupSize(s, init, x) == SizeOf(s, d);
      assert d in deps;
    } else {
      assert last in deps;
    }
  }

  /** A whole group lists every index of its array: as many distinct ones as there are. */
  lemma WholeListsAll(w: World, s: Store, deps: seq<Id>, x: string, k: int)
    requires Coherent(w, s, deps) && Enlisted(s, deps, x) && Whole(s, deps, x) && x in w.indices && k in w.indices[x]
    ensures exists d :: d in deps && InGroup(s, d, x) && TaskOf(s, d).index == k
  {
    SizeFromMember(s, deps, x);
    var m :| m in deps && InGroup(s, m, x) && GroupSize(s, deps, x) == SizeOf(s, m);
    var listed := Indices(GroupTasks(s, deps, x));
    forall i | i in listed ensures i in w.indices[x] {
      var t :| t in GroupTasks(s, deps, x) && t.index == i;
      var d :| d in deps && InGroup(s, d, x) && TaskOf(s, d) == t;
      assert Agrees(w, s, d) && SizeOf(s, d) == SizeOf(s, m);
    }
    SubsetCardinality(listed, w.indices[x]);
    assert Agrees(w, s, m);
    assert listed == w.indices[x];
    var t :| t in GroupTasks(s, deps, x) && t.index == k;
  }

  lemma ElementStandsAlone(w: World, a: string, t: string)
    requires SubmittedOnce(w)
    ensures Denotes(w, ElementName(a, t)) == {ElementName(a, t)}
  {
    var e := ElementName(a, t);
    assert e[|a|] == '_';
  }

  /** One element of a collapsed SLURM array is named by some parent. */
  lemma CollapsedIsNamed(w: World, s: Store, deps: seq<Id>, d: Id, job: string)
    requires Coherent(w, s, deps) && d in deps && Judge(s, d).Element? && Whole(s, deps, ArrayOf(s, d))
    requires job in Denotes(w, Judge(s, d).slurmArray)
    ensures exists e :: PerTask(s, deps, e) && job in Denotes(w, e)
  {
    var x, a := ArrayOf(s, d), Judge(s, d).slurmArray;
    assert InGroup(s, d, x) && Enlisted(s, deps, x);
    SizeFromMember(s, deps, x);
    assert Agrees(w, s, d);
    var t :| t in w.tasks[a] && job == ElementName(a, t);
    var k :| k in w.indices[x] && t == Itoa(k);
    WholeListsAll(w, s, deps, x, k);
    var c :| c in deps && InGroup(s, c, x) && TaskOf(s, c).index == k;
    assert Agrees(w, s, c) && SizeOf(s, c) == SizeOf(s, d);
    assert Judge(s, c).slurmArray == a && Judge(s, c).task == t;
    assert Names(s, c, job);
    ElementStandsAlone(w, a, t);
  }

  lemma NamedIsCollapsed(w: World, s: Store, deps: seq<Id>, d: Id, e: string, job: string)
    requires Coherent(w, s, deps) && d in deps && Names(s, d, e) && job in Denotes(w, e)
    ensures exists f :: Collapsed(s, deps, f) && job in Denotes(w, f)
  {
    if Judge(s, d).Plain? {
      assert PlainIn(s, deps, e);
    } else {
      var Element(a, t) := Judge(s, d);
      var x := ArrayOf(s, d);
      ElementStandsAlone(w, a, t);
      if Whole(s, deps, x) {
        assert InGroup(s, d, x) && Enlisted(s, deps, x);
        SizeFromMember(s, deps, x);
        assert Agrees(w, s, d);
        assert NamesCollapsed(s, deps, d, a) && Collapsed(s, deps, a);
      } else {
        assert NamesCollapsed(s, deps, d, e) && Collapsed(s, deps, e);
      }
    }
  }

  /** The collapsed directive waits for exactly the SLURM jobs the per-task directive waits for. */
  lemma CollapseKeepsMeaning(w: World, s: Store, deps: seq<Id>, job: string)
    requires Coherent(w, s, deps)
    ensures (exists e :: Collapsed(s, deps, e) && job in Denotes(w, e)) <==>
      (exists e :: PerTask(s, deps, e) && job in Denotes(w, e))
  {
    if e :| Collapsed(s, deps, e) && job in Denotes(w, e) {
      if d :| d in deps && Judge(s, d) == Plain(e) {
        assert Names(s, d, e);
      } else {
        var d :| d in deps && Judge(s, d).Element? && NamesCollapsed(s, deps, d, e);
        if Whole(s, deps, ArrayOf(s, d)) {
          CollapsedIsNamed(w, s, deps, d, job);
        } else {
          assert Names(s, d, e);
        }
      }
    }
    if e :| PerTask(s, deps, e) && job in Denotes(w, e) {
      var d :| d in deps && Names(s, d, e);
      NamedIsCollapsed(w, s, deps, d, e, job);
    }
  }

  /** The parents as they are read one after the other: each in some state on the way from s. */
  ghost predicate ReadOnTheWay(s: Lifecycle.Server, more: seq<Lifecycle.Op>, deps: seq<Id>, seen: Store) {
    forall d :: d in deps ==> exists n :: 0 <= n <= |more| && SeenAt(Lifecycle.RunFrom(s, more[..n]).db, d, seen)
  }

  ghost predicate SeenAt(s: Store, d: Id, seen: Store) {
    if d in s.jobs then d in seen.jobs && seen.jobs[d] == s.jobs[d] else d !in seen.jobs
  }

  /** A directive built for a job past the dependency gate leaves out no unfinished parent, whatever happens while its
      parents are read: each had succeeded, or its SLURM id is named. */
  lemma NoUnfinishedParentDropped(ops: seq<Lifecycle.Op>, more: seq<Lifecycle.Op>, j: Id, deps: seq<Id>, seen: Store,
                                  d: Id)
    requires var s := Lifecycle.Run(ops).db;
      j in s.jobs && s.jobs[j].status.Released() && Elements(deps) <= s.jobs[j].afterOk
    requires Runs.Spares(more, j) && ReadOnTheWay(Lifecycle.Run(ops), more, deps, seen)
    requires NoneRefused(seen, deps) && d in deps
    ensures d in seen.jobs && (seen.jobs[d].status == Success ||
      (seen.jobs[d].status == ProxyQueued && exists e :: Names(seen, d, e) && PerTask(seen, deps, e)))
  {
    Lifecycle.EveryRunIsValid(ops);
    var s := Lifecycle.Run(ops).db;
    assert d in Elements(deps) && d in s.jobs[j].afterOk;
    assert !Refuses(Judge(seen, d));
    var n :| 0 <= n <= |more| && SeenAt(Lifecycle.RunFrom(Lifecycle.Run(ops), more[..n]).db, d, seen);
    assert Runs.Spares(more[..n], j);
    Runs.ParentStays(ops, more[..n], j, d);
    assert s.jobs[d].status.Met() && Runs.StaysOut(s.jobs[d].status, seen.jobs[d].status);
    if seen.jobs[d].status == ProxyQueued {
      var e := if Judge(seen, d).Plain? then Judge(seen, d).job
               else ElementName(Judge(seen, d).slurmArray, Judge(seen, d).task);
      assert Names(seen, d, e);
    }
  }

  /** Without that invariant the code would drop one kind of unfinished parent, and only that kind: a QUEUED one. */
  lemma OnlyQueuedIsDropped(s: Store, deps: seq<Id>, d: Id)
    requires NoneRefused(s, deps) && d in deps
    ensures d in s.jobs
    ensures s.jobs[d].status != Success ==> ((exists e :: Names(s, d, e)) <==> s.jobs[d].status != Queued)
  {
    assert !Refuses(Judge(s, d));
    if s.jobs[d].status != Success && s.jobs[d].status != Queued {
      var e := if Judge(s, d).Plain? then Judge(s, d).job else ElementName(Judge(s, d).slurmArray, Judge(s, d).task);
      assert Names(s, d, e);
    }
  }
}
