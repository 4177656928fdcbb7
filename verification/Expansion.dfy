/** Expanding array-aware dependency specifications into afterok edges at submit time. */
module Expansion {
  import opened Collections
  import opened Text
  import opened Jobs
  import opened Transactions
  import Claims

  datatype Member = Member(id: string, index: int)

  /** A dependency target: a task address "<array>_<index>", or a name that may be an array id or a job id. */
  datatype Target = Task(arrayId: string, index: int) | Name(name: string)

  datatype Spec = AfterOk(target: Target) | AfterCorr(target: Target)

  datatype Result<T> = Ok(value: T) | BadRequest

  /** The rows carrying each array id; an array nobody belongs to is no array. */
  type Arrays = map<string, seq<Member>>

  function Lookup(arrays: Arrays, name: string): Option<seq<Member>> {
    if name in arrays && arrays[name] != [] then Some(arrays[name]) else None
  }

  function IdsOf(members: seq<Member>): seq<string> { seq(|members|, i requires 0 <= i < |members| => members[i].id) }

  predicate HasIndex(members: seq<Member>, index: int) { exists i :: 0 <= i < |members| && members[i].index == index }

  function IndexSet(members: seq<Member>): set<int> { set m | m in members :: m.index }

  ghost predicate DistinctIndices(members: seq<Member>) {
    forall i, j :: 0 <= i < j < |members| ==> members[i].index != members[j].index
  }

  /** All members of an array, or the name itself if it is no array. */
  function Everyone(arrays: Arrays, name: string): seq<string> {
    match Lookup(arrays, name) case None => [name] case Some(members) => IdsOf(members)
  }

  // ----- Reading "kind:target" ---------------------------------------------

  /** SplitTaskAddr: the last underscore separates an array id from a number. */
  function ParseTarget(text: string): Target {
    var i := LastIndex(text, '_');
    if i <= 0 || i == |text| - 1 then Name(text) else
      match Atoi(text[i + 1..]) case Some(index) => Task(text[..i], index) case None => Name(text)
  }

  /** parseDepSpecs, one entry. */
  function ParseSpec(entry: string): Option<Spec> {
    var i := Index(entry, ':');
    if i < 0 || i == |entry| - 1 then None
    else if entry[..i] == "afterok" then Some(AfterOk(ParseTarget(entry[i + 1..])))
    else if entry[..i] == "aftercorr" then Some(AfterCorr(ParseTarget(entry[i + 1..])))
    else None
  }

  /** A task address names its array and index, whatever the array id looks like. */
  lemma AddressReads(arrayId: string, index: nat)
    requires arrayId != "" && index <= MAX_INT
    ensures ParseTarget(arrayId + "_" + Itoa(index)) == Task(arrayId, index)
  {
    var n := Itoa(index);
    AtoiItoa(index);
    assert Free(n, '_');
    LastIndexOfLast(arrayId, '_', n);
    var text := arrayId + ['_'] + n;
    assert text[..|arrayId|] == arrayId && text[|arrayId| + 1..] == n;
  }

  lemma KindReads(target: string)
    requires target != ""
    ensures ParseSpec("afterok:" + target) == Some(AfterOk(ParseTarget(target)))
    ensures ParseSpec("aftercorr:" + target) == Some(AfterCorr(ParseTarget(target)))
  {
    CutAtColon("afterok", target);
    CutAtColon("aftercorr", target);
    assert "afterok" + [':'] + target == "afterok:" + target && "aftercorr" + [':'] + target == "aftercorr:" + target;
  }

  lemma CutAtColon(kind: string, target: string)
    requires Free(kind, ':') && target != ""
    ensures var entry := kind + [':'] + target;
      Index(entry, ':') == |kind| < |entry| - 1 && entry[..|kind|] == kind && entry[|kind| + 1..] == target
  {
    IndexOfFirst(kind, ':', target);
  }

  // ----- What a specification asks for -------------------------------------

  /** The submit is refused because of this specification. */
  predicate Refused(arrays: Arrays, spec: Spec, indices: seq<int>) {
    match spec
    case AfterOk(Task(a, i)) => Lookup(arrays, a).None? || !HasIndex(Lookup(arrays, a).value, i)
    case AfterOk(Name(_)) => false
    case AfterCorr(Task(_, _)) => true
    case AfterCorr(Name(n)) =>
      match Lookup(arrays, n)
      case None => true
      case Some(members) => |members| != |indices| || exists k :: 0 <= k < |indices| && !HasIndex(members, indices[k])
  }

  /** The parents a specification gives to the task with this index. */
  ghost predicate Gives(arrays: Arrays, spec: Spec, idx: int, parents: seq<string>) {
    match spec
    case AfterOk(Task(a, i)) => Lookup(arrays, a).Some? && OneOf(Lookup(arrays, a).value, i, parents)
    case AfterOk(Name(n)) => parents == Everyone(arrays, n)
    case AfterCorr(Task(_, _)) => false
    case AfterCorr(Name(n)) => Lookup(arrays, n).Some? && OneOf(Lookup(arrays, n).value, idx, parents)
  }

  /** Exactly one parent, a member with the given index. */
  ghost predicate OneOf(members: seq<Member>, index: int, parents: seq<string>) {
    exists i :: 0 <= i < |members| && members[i].index == index && parents == [members[i].id]
  }

  function Times(q: seq<string>, n: nat): seq<string> { if n == 0 then [] else Times(q, n - 1) + q }

  /** What all specifications together give to one task, in order. A task listed n times gets each contribution n
      times. */
  ghost predicate GivesAll(arrays: Arrays, specs: seq<Spec>, idx: int, n: nat, parents: seq<string>) {
    if specs == [] then parents == []
    else exists before, more :: parents == before + Times(more, n)
           && GivesAll(arrays, specs[..|specs| - 1], idx, n, before) && Gives(arrays, specs[|specs| - 1], idx, more)
  }

  lemma GivesOneMore(arrays: Arrays, specs: seq<Spec>, k: nat, idx: int, n: nat, before: seq<string>, more: seq<string>)
    requires k < |specs| && GivesAll(arrays, specs[..k], idx, n, before) && Gives(arrays, specs[k], idx, more)
    ensures GivesAll(arrays, specs[..k + 1], idx, n, before + Times(more, n))
  {
    var some := specs[..k + 1];
    assert some[..|some| - 1] == specs[..k];
  }

  // ----- The same in members and ids ---------------------------------------

  /** What an entry gives, written out: one member of the addressed index; every member of a named array, in order, and
      for a name that is no array the name itself; for aftercorr the one member with the task's own index. */
  lemma GivesExactly(arrays: Arrays, spec: Spec, idx: int, parents: seq<string>)
    ensures spec.AfterOk? && spec.target.Name? ==>
      var n := spec.target.name;
      (Gives(arrays, spec, idx, parents) <==>
        if n in arrays && |arrays[n]| > 0
        then |parents| == |arrays[n]| && forall i :: 0 <= i < |parents| ==> parents[i] == arrays[n][i].id
        else parents == [n])
    ensures spec.AfterOk? && spec.target.Task? && Gives(arrays, spec, idx, parents) ==>
      var a := spec.target.arrayId;
      a in arrays && exists i :: 0 <= i < |arrays[a]| && arrays[a][i] == Member(Only(parents), spec.target.index)
    ensures spec.AfterCorr? && Gives(arrays, spec, idx, parents) ==>
      spec.target.Name? && spec.target.name in arrays
      && exists i :: 0 <= i < |arrays[spec.target.name]| && arrays[spec.target.name][i] == Member(Only(parents), idx)
    ensures Gives(arrays, spec, idx, parents) && (spec.target.Task? || spec.AfterCorr?) ==> |parents| == 1
  {
  }

  function Only(parents: seq<string>): string { if |parents| == 1 then parents[0] else "" }

  /** When an entry makes the submit a bad request. */
  lemma RefusedExactly(arrays: Arrays, spec: Spec, indices: seq<int>)
    ensures spec.AfterOk? && spec.target.Name? ==> !Refused(arrays, spec, indices)
    ensures spec.AfterCorr? && spec.target.Task? ==> Refused(arrays, spec, indices)
    ensures spec.AfterOk? && spec.target.Task? ==>
      var a := spec.target.arrayId;
      (Refused(arrays, spec, indices) <==>
        a !in arrays || Nobody(arrays[a], spec.target.index))
    ensures spec.AfterCorr? && spec.target.Name? ==>
      var n := spec.target.name;
      (Refused(arrays, spec, indices) <==>
        || n !in arrays || |arrays[n]| == 0 || |arrays[n]| != |indices|
        || exists k :: 0 <= k < |indices| && Nobody(arrays[n], indices[k]))
  {
    if spec.AfterCorr? && spec.target.Name? && spec.target.name in arrays {
      var members := arrays[spec.target.name];
      forall k | 0 <= k < |indices| ensures Nobody(members, indices[k]) <==> !HasIndex(members, indices[k]) {}
      if k :| 0 <= k < |indices| && !HasIndex(members, indices[k]) { assert Nobody(members, indices[k]); }
    }
  }

  predicate Nobody(members: seq<Member>, index: int) { forall i :: 0 <= i < |members| ==> members[i].index != index }

  /** Whoever has the entries for parents waits for every member of every array named with afterok. */
  lemma {:induction false} WaitsForAll(arrays: Arrays, specs: seq<Spec>, idx: int, n: nat, parents: seq<string>, k: nat)
    requires GivesAll(arrays, specs, idx, n, parents) && n > 0 && k < |specs|
    requires specs[k].AfterOk? && specs[k].target.Name?
    ensures var name := specs[k].target.name;
      if name in arrays && |arrays[name]| > 0
      then forall i :: 0 <= i < |arrays[name]| ==> arrays[name][i].id in parents
      else name in parents
  {
    var last := |specs| - 1;
    var before, more :| parents == before + Times(more, n)
      && GivesAll(arrays, specs[..last], idx, n, before) && Gives(arrays, specs[last], idx, more);
    if k < last {
      WaitsForAll(arrays, specs[..last], idx, n, before, k);
    } else {
      GivesExactly(arrays, specs[k], idx, more);
      assert Times(more, n) == Times(more, n - 1) + more;
      assert forall i :: 0 <= i < |more| ==> more[i] in more && more[i] in parents;
    }
  }

  // ----- The code ----------------------------------------------------------

  method FindTask(members: seq<Member>, index: int) returns (r: Option<string>)
    ensures r.Some? <==> HasIndex(members, index)
    ensures r.Some? ==> OneOf(members, index, [r.value])
  {
    for i := 0 to |members|
      invariant forall k :: 0 <= k < i ==> members[k].index != index
    {
      if members[i].index == index { return Some(members[i].id); }
    }
    return None;
  }

  /** resolveDepTarget followed by the case distinction of its caller. */
  method ResolveTarget(arrays: Arrays, target: Target) returns (r: Result<seq<string>>)
    ensures r.BadRequest? <==> Refused(arrays, AfterOk(target), [])
    ensures r.Ok? ==> forall idx :: Gives(arrays, AfterOk(target), idx, r.value)
    ensures target.Name? && target.name in arrays && |arrays[target.name]| > 0 ==>
      r.Ok? && |r.value| == |arrays[target.name]|
      && forall i :: 0 <= i < |r.value| ==> r.value[i] == arrays[target.name][i].id
    ensures target.Name? && (target.name !in arrays || |arrays[target.name]| == 0) ==> r == Ok([target.name])
    ensures target.Task? && r.Ok? ==> |r.value| == 1 && target.arrayId in arrays
    ensures target.Task? && r.Ok? ==>
      exists i :: 0 <= i < |arrays[target.arrayId]| && arrays[target.arrayId][i] == Member(r.value[0], target.index)
  {
    match target
    case Task(a, i) =>
      var members := Lookup(arrays, a);
      if members.None? { return BadRequest; }
      var id := FindTask(members.value, i);
      if id.None? { return BadRequest; }
      return Ok([id.value]);
    case Name(n) =>
      match Lookup(arrays, n)
      case None => return Ok([n]);
      case Some(members) => return Ok(IdsOf(members));
  }

  /** expandSingleDeps: the parents of a job that is not an array. */
  method ExpandSingleDeps(arrays: Arrays, specs: seq<Spec>) returns (r: Result<seq<string>>)
    ensures r.BadRequest? <==> exists k :: 0 <= k < |specs| && (specs[k].AfterCorr? || Refused(arrays, specs[k], []))
    ensures r.Ok? ==> forall idx :: GivesAll(arrays, specs, idx, 1, r.value)
    ensures r.Ok? ==> forall k :: 0 <= k < |specs| && specs[k].target.Name? ==>
      var name := specs[k].target.name;
      if name in arrays && |arrays[name]| > 0
      then forall i :: 0 <= i < |arrays[name]| ==> arrays[name][i].id in r.value
      else name in r.value
  {
    var parents: seq<string> := [];
    for n := 0 to |specs|
      invariant forall k :: 0 <= k < n ==> specs[k].AfterOk? && !Refused(arrays, specs[k], [])
      invariant forall idx :: GivesAll(arrays, specs[..n], idx, 1, parents)
    {
      if specs[n].AfterCorr? { return BadRequest; }
      var more := ResolveTarget(arrays, specs[n].target);
      if more.BadRequest? { return BadRequest; }
      ghost var some, total := specs[..n + 1], parents + more.value;
      assert Times(more.value, 1) == more.value;
      forall idx ensures GivesAll(arrays, some, idx, 1, total) {
        GivesOneMore(arrays, specs, n, idx, 1, parents, more.value);
      }
      parents := parents + more.value;
    }
    assert specs[..|specs|] == specs;
    forall k | 0 <= k < |specs| && specs[k].target.Name?
      ensures var name := specs[k].target.name;
        if name in arrays && |arrays[name]| > 0
        then forall i :: 0 <= i < |arrays[name]| ==> arrays[name][i].id in parents
        else name in parents
    {
      WaitsForAll(arrays, specs, 0, 1, parents, k);
    }
    return Ok(parents);
  }

  function Get(perTask: map<int, seq<string>>, idx: int): seq<string> { if idx in perTask then perTask[idx] else [] }

  /** How often an index is listed. */
  function Count(indices: seq<int>, idx: int): nat { multiset(indices)[idx] }

  /** What idx has got after the indices listed so far: ids once for each time. */
  ghost predicate Appended(before: map<int, seq<string>>, after: map<int, seq<string>>, listed: seq<int>, idx: int,
                           ids: seq<string>)
  {
    Get(after, idx) == Get(before, idx) + Times(ids, Count(listed, idx))
  }

  lemma AppendHere(before: map<int, seq<string>>, after: map<int, seq<string>>, listed: seq<int>, idx: int,
                   ids: seq<string>)
    requires Appended(before, after, listed, idx, ids)
    ensures Appended(before, after[idx := Get(after, idx) + ids], listed + [idx], idx, ids)
  {
    Associate(Get(before, idx), Times(ids, Count(listed, idx)), ids);
    assert Count(listed + [idx], idx) == Count(listed, idx) + 1;
  }

  lemma Associate(a: seq<string>, b: seq<string>, c: seq<string>)
    ensures a + b + c == a + (b + c)
  {
  }

  lemma AppendElsewhere(before: map<int, seq<string>>, after: map<int, seq<string>>, listed: seq<int>, i: int,
                        here: seq<string>, idx: int, ids: seq<string>)
    requires Appended(before, after, listed, idx, ids) && idx != i
    ensures Appended(before, after[i := Get(after, i) + here], listed + [i], idx, ids)
  {
    assert Count(listed + [i], idx) == Count(listed, idx);
  }

  /** Append the same parents to every listed task, once for each time it is listed. */
  method AppendToAll(perTask: map<int, seq<string>>, indices: seq<int>, ids: seq<string>)
    returns (r: map<int, seq<string>>)
    ensures forall idx :: Appended(perTask, r, indices, idx, ids)
  {
    r := perTask;
    for n := 0 to |indices|
      invariant forall idx :: Appended(perTask, r, indices[..n], idx, ids)
    {
      ghost var was, listed, more := r, indices[..n], indices[..n + 1];
      var i := indices[n];
      assert more == listed + [i];
      r := r[i := Get(r, i) + ids];
      forall idx ensures Appended(perTask, r, more, idx, ids) {
        if idx == i {
          AppendHere(perTask, was, listed, i, ids);
        } else {
          AppendElsewhere(perTask, was, listed, i, ids, idx, ids);
        }
      }
    }
    assert indices[..|indices|] == indices;
  }

  /** The byIndex map: each index the members have, with one of its members. */
  method ByIndex(members: seq<Member>) returns (byIndex: map<int, string>)
    ensures forall i :: i in byIndex <==> HasIndex(members, i)
    ensures forall i :: i in byIndex ==> OneOf(members, i, [byIndex[i]])
  {
    byIndex := map[];
    for n := 0 to |members|
      invariant forall i :: i in byIndex <==> exists k :: 0 <= k < n && members[k].index == i
      invariant forall i :: i in byIndex ==> OneOf(members, i, [byIndex[i]])
    {
      byIndex := byIndex[members[n].index := members[n].id];
      assert OneOf(members, members[n].index, [members[n].id]);
    }
  }

  /** Pair each listed task with the member of the same index. */
  method PairUp(perTask: map<int, seq<string>>, indices: seq<int>, members: seq<Member>)
    returns (r: Result<map<int, seq<string>>>)
    ensures r.BadRequest? <==>
      |members| != |indices| || exists k :: 0 <= k < |indices| && !HasIndex(members, indices[k])
    ensures r.Ok? ==> forall idx :: idx in indices ==> Paired(perTask, r.value, members, idx, Count(indices, idx))
  {
    hide AllAppended, Paired, Get;
    if |members| != |indices| { return BadRequest; }
    var byIndex := ByIndex(members);
    NoneAppended(perTask, byIndex);
    var after := perTask;
    for n := 0 to |indices|
      invariant forall k :: 0 <= k < n ==> HasIndex(members, indices[k])
      invariant AllAppended(perTask, after, indices[..n], byIndex)
    {
      var i := indices[n];
      if i !in byIndex { return BadRequest; }
      PairStep(perTask, after, indices[..n], i, byIndex);
      assert indices[..n + 1] == indices[..n] + [i];
      after := after[i := Get(after, i) + [byIndex[i]]];
    }
    assert indices[..|indices|] == indices;
    AllPaired(perTask, after, indices, members, byIndex);
    return Ok(after);
  }

  lemma NoneAppended(before: map<int, seq<string>>, byIndex: map<int, string>)
    ensures AllAppended(before, before, [], byIndex)
  {}

  lemma PairStep(before: map<int, seq<string>>, after: map<int, seq<string>>, listed: seq<int>, i: int,
                 byIndex: map<int, string>)
    requires i in byIndex && AllAppended(before, after, listed, byIndex)
    ensures AllAppended(before, after[i := Get(after, i) + [byIndex[i]]], listed + [i], byIndex)
  {
    var next, more := after[i := Get(after, i) + [byIndex[i]]], listed + [i];
    forall idx | idx in byIndex ensures Appended(before, next, more, idx, [byIndex[idx]]) {
      if idx == i {
        AppendHere(before, after, listed, i, [byIndex[i]]);
      } else {
        AppendElsewhere(before, after, listed, i, [byIndex[i]], idx, [byIndex[idx]]);
      }
    }
  }

  ghost predicate AllAppended(before: map<int, seq<string>>, after: map<int, seq<string>>, listed: seq<int>,
                              byIndex: map<int, string>)
  {
    forall idx :: idx in byIndex ==> Appended(before, after, listed, idx, [byIndex[idx]])
  }

  lemma AllPaired(before: map<int, seq<string>>, after: map<int, seq<string>>, indices: seq<int>, members: seq<Member>,
                  byIndex: map<int, string>)
    requires AllAppended(before, after, indices, byIndex)
    requires forall i :: i in byIndex ==> OneOf(members, i, [byIndex[i]])
    ensures forall idx :: idx in byIndex ==> Paired(before, after, members, idx, Count(indices, idx))
  {
    forall idx | idx in byIndex ensures Paired(before, after, members, idx, Count(indices, idx)) {
      assert Appended(before, after, indices, idx, [byIndex[idx]]) && OneOf(members, idx, [byIndex[idx]]);
    }
  }

  ghost predicate Paired(before: map<int, seq<string>>, after: map<int, seq<string>>, members: seq<Member>, idx: int,
                         n: nat) {
    exists more :: Get(after, idx) == Get(before, idx) + Times(more, n) && OneOf(members, idx, more)
  }

  /** expandArrayDepsForTasks, one specification. */
  method ExpandOne(arrays: Arrays, spec: Spec, indices: seq<int>, perTask: map<int, seq<string>>)
    returns (r: Result<map<int, seq<string>>>)
    ensures r.BadRequest? <==> Refused(arrays, spec, indices)
    ensures r.Ok? ==> forall idx :: idx in indices ==>
      Extended(arrays, spec, perTask, r.value, idx, Count(indices, idx))
  {
    match spec
    case AfterOk(target) =>
      var ids := ResolveTarget(arrays, target);
      if ids.BadRequest? { return BadRequest; }
      var after := AppendToAll(perTask, indices, ids.value);
      forall idx | idx in indices ensures Extended(arrays, spec, perTask, after, idx, Count(indices, idx)) {
        assert Appended(perTask, after, indices, idx, ids.value) && Gives(arrays, spec, idx, ids.value);
      }
      return Ok(after);
    case AfterCorr(Task(_, _)) => return BadRequest;
    case AfterCorr(Name(n)) =>
      var members := Lookup(arrays, n);
      if members.None? { return BadRequest; }
      r := PairUp(perTask, indices, members.value);
      if r.Ok? {
        forall idx | idx in indices ensures Extended(arrays, spec, perTask, r.value, idx, Count(indices, idx)) {
          assert Paired(perTask, r.value, members.value, idx, Count(indices, idx));
          var more :| Get(r.value, idx) == Get(perTask, idx) + Times(more, Count(indices, idx)) &&
            OneOf(members.value, idx, more);
          assert Gives(arrays, spec, idx, more);
        }
      }
  }

  ghost predicate Extended(arrays: Arrays, spec: Spec, before: map<int, seq<string>>, after: map<int, seq<string>>,
                           idx: int,
                           n: nat)
  {
    exists more :: Get(after, idx) == Get(before, idx) + Times(more, n) && Gives(arrays, spec, idx, more)
  }

  /** expandArrayDepsForTasks: refused exactly if some specification is; otherwise every task gets, in order, what each
      specification gives it, once for each time its index is listed. */
  method ExpandArrayDeps(arrays: Arrays, specs: seq<Spec>, indices: seq<int>) returns (r: Result<map<int, seq<string>>>)
    ensures r.BadRequest? <==> exists k :: 0 <= k < |specs| && Refused(arrays, specs[k], indices)
    ensures r.Ok? ==> Expanded(arrays, specs, indices, r.value)
  {
    var perTask: map<int, seq<string>> := map[];
    for n := 0 to |specs|
      invariant forall k :: 0 <= k < n ==> !Refused(arrays, specs[k], indices)
      invariant Expanded(arrays, specs[..n], indices, perTask)
    {
      var one := ExpandOne(arrays, specs[n], indices, perTask);
      if one.BadRequest? { return BadRequest; }
      ExpandedGrows(arrays, specs, n, indices, perTask, one.value);
      perTask := one.value;
    }
    assert specs[..|specs|] == specs;
    return Ok(perTask);
  }

  /** Every listed task has what the specifications give it. */
  ghost predicate Expanded(arrays: Arrays, specs: seq<Spec>, indices: seq<int>, perTask: map<int, seq<string>>) {
    forall idx :: idx in indices ==> GivesAll(arrays, specs, idx, Count(indices, idx), Get(perTask, idx))
  }

  lemma ExpandedGrows(arrays: Arrays, specs: seq<Spec>, k: nat, indices: seq<int>, before: map<int, seq<string>>,
                      after: map<int, seq<string>>)
    requires k < |specs| && Expanded(arrays, specs[..k], indices, before)
    requires forall idx :: idx in indices ==> Extended(arrays, specs[k], before, after, idx, Count(indices, idx))
    ensures Expanded(arrays, specs[..k + 1], indices, after)
  {
    forall idx | idx in indices ensures GivesAll(arrays, specs[..k + 1], idx, Count(indices, idx), Get(after, idx)) {
      assert Extended(arrays, specs[k], before, after, idx, Count(indices, idx));
      var more :| Get(after, idx) == Get(before, idx) + Times(more, Count(indices, idx)) &&
        Gives(arrays, specs[k], idx, more);
      GivesOneMore(arrays, specs, k, idx, Count(indices, idx), Get(before, idx), more);
    }
  }

  /** The parent list of each task of an array submit: the request's own, then the expanded ones. */
  method TaskParents(afterOk: seq<string>, indices: seq<int>, perTask: map<int, seq<string>>)
    returns (tasks: seq<seq<string>>)
    ensures IsTaskParents(afterOk, indices, perTask, tasks)
  {
    tasks := [];
    for n := 0 to |indices|
      invariant IsTaskParents(afterOk, indices[..n], perTask, tasks)
    {
      tasks := tasks + [afterOk + Get(perTask, indices[n])];
    }
    assert indices[..|indices|] == indices;
  }

  ghost predicate IsTaskParents(afterOk: seq<string>, indices: seq<int>, perTask: map<int, seq<string>>,
                                tasks: seq<seq<string>>)
  {
    |tasks| == |indices| && forall k :: 0 <= k < |tasks| ==> tasks[k] == afterOk + Get(perTask, indices[k])
  }

  // ----- Why aftercorr pairs exactly ---------------------------------------

  lemma IndexSetAppend(members: seq<Member>, m: Member)
    ensures IndexSet(members + [m]) == IndexSet(members) + {m.index}
    ensures m.index in IndexSet(members) <==> HasIndex(members, m.index)
  {
    var more := members + [m];
    assert forall x :: x in more <==> x in members || x == m;
    assert m in more;
  }

  lemma {:induction false} IndexSetSize(members: seq<Member>)
    ensures |IndexSet(members)| <= |members|
    ensures |IndexSet(members)| == |members| ==> DistinctIndices(members)
  {
    if members != [] {
      var init, last := members[..|members| - 1], members[|members| - 1];
      IndexSetSize(init);
      IndexSetAppend(init, last);
      assert members == init + [last];
      if |IndexSet(members)| == |members| {
        StillDistinct(init, last);
      }
    }
  }

  lemma StillDistinct(members: seq<Member>, m: Member)
    requires DistinctIndices(members) && !HasIndex(members, m.index)
    ensures DistinctIndices(members + [m])
  {
    var more := members + [m];
    assert forall i :: 0 <= i < |members| ==> more[i] == members[i];
  }

  /** The length check and the membership check together force equal index sets, by counting: on distinct indices
      aftercorr is accepted exactly if the parent array has one task for each index and no other. */
  lemma AfterCorrMatches(arrays: Arrays, name: string, indices: seq<int>)
    requires Distinct(indices)
    ensures !Refused(arrays, AfterCorr(Name(name)), indices) <==>
      && Lookup(arrays, name).Some?
      && IndexSet(Lookup(arrays, name).value) == Elements(indices) && DistinctIndices(Lookup(arrays, name).value)
  {
    if Lookup(arrays, name).Some? {
      var members := Lookup(arrays, name).value;
      DistinctCardinality(indices);
      IndexSetSize(members);
      if !Refused(arrays, AfterCorr(Name(name)), indices) {
        forall i | i in Elements(indices) ensures i in IndexSet(members) {
          var k :| 0 <= k < |indices| && indices[k] == i;
          assert HasIndex(members, indices[k]);
        }
        SubsetCardinality(Elements(indices), IndexSet(members));
      }
      if IndexSet(members) == Elements(indices) && DistinctIndices(members) {
        DistinctIndicesSize(members);
        forall k | 0 <= k < |indices| ensures HasIndex(members, indices[k]) {
          assert indices[k] in IndexSet(members);
        }
      }
    }
  }

  lemma DistinctTail(members: seq<Member>, m: Member)
    requires DistinctIndices(members + [m])
    ensures DistinctIndices(members) && !HasIndex(members, m.index)
  {
    var more := members + [m];
    assert more[|members|] == m && forall i :: 0 <= i < |members| ==> more[i] == members[i];
  }

  lemma {:induction false} DistinctIndicesSize(members: seq<Member>)
    requires DistinctIndices(members)
    ensures |IndexSet(members)| == |members|
  {
    if members != [] {
      var init, last := members[..|members| - 1], members[|members| - 1];
      assert members == init + [last];
      DistinctTail(init, last);
      DistinctIndicesSize(init);
      IndexSetAppend(init, last);
    }
  }

  /** Then each task's parent is the only member with its index. */
  lemma AfterCorrParent(arrays: Arrays, name: string, indices: seq<int>, k: nat, parents: seq<string>, i: nat)
    requires Distinct(indices) && k < |indices| && !Refused(arrays, AfterCorr(Name(name)), indices)
    requires i < |Lookup(arrays, name).value| && Lookup(arrays, name).value[i].index == indices[k]
    ensures Gives(arrays, AfterCorr(Name(name)), indices[k], parents) <==> parents == [Lookup(arrays, name).value[i].id]
  {
    AfterCorrMatches(arrays, name, indices);
  }

  // ----- Repeated indices --------------------------------------------------

  /** batch inserts the tasks, whatever ids the parents' names stand for. */
  ghost predicate Inserts(batch: seq<Submit>, tasks: seq<seq<string>>, code: string -> Id) {
    && |batch| == |tasks|
    && forall k :: 0 <= k < |batch| ==>
         |batch[k].afterOk| == |tasks[k]| && forall i :: 0 <= i < |tasks[k]| ==>
           batch[k].afterOk[i] == code(tasks[k][i])
  }

  lemma {:induction false} InsertedHaveDistinctParents(m: JobTable, batch: seq<Submit>, k: nat)
    requires InsertRows(m, batch).Some? && k < |batch|
    ensures Distinct(batch[k].afterOk)
  {
    if k < |batch| - 1 { InsertedHaveDistinctParents(m, batch[..|batch| - 1], k); }
  }

  lemma GivesSomething(arrays: Arrays, spec: Spec, idx: int, parents: seq<string>)
    requires Gives(arrays, spec, idx, parents)
    ensures parents != []
  {
  }

  lemma {:induction false} TimesRepeats(q: seq<string>, n: nat)
    requires q != [] && n >= 2
    ensures |Times(q, n)| >= 2 * |q| && Times(q, n)[|Times(q, n)| - |q|] == Times(q, n)[|Times(q, n)| - 2 * |q|] == q[0]
  {
    var one, two := Times(q, n - 2), Times(q, n - 1);
    assert two == one + q && Times(q, n) == one + q + q;
    assert Times(q, n)[|one|] == q[0] && Times(q, n)[|one| + |q|] == q[0];
  }

  /** A task listed twice gets some parent twice. */
  lemma RepeatedIndexRepeatsParent(arrays: Arrays, specs: seq<Spec>, idx: int, n: nat, parents: seq<string>)
    requires specs != [] && n >= 2 && GivesAll(arrays, specs, idx, n, parents)
    ensures !Distinct(parents)
  {
    var before, more :| parents == before + Times(more, n)
      && GivesAll(arrays, specs[..|specs| - 1], idx, n, before) && Gives(arrays, specs[|specs| - 1], idx, more);
    GivesSomething(arrays, specs[|specs| - 1], idx, more);
    TimesRepeats(more, n);
    var i, k := |parents| - 2 * |more|, |parents| - |more|;
    assert 0 <= i < k < |parents| && parents[i] == parents[k];
  }

  lemma {:induction false} RepeatedIsCounted(indices: seq<int>, i: nat, k: nat)
    requires i < k < |indices| && indices[i] == indices[k]
    ensures Count(indices, indices[i]) >= 2
  {
    assert indices == indices[..k] + [indices[k]] + indices[k + 1..];
    assert indices[i] in indices[..k];
  }

  /** An array submit with dependency entries is stored only if its indices are distinct: a repeated index repeats an
      edge, and the edge table refuses the whole array. */
  lemma StoredIndicesAreDistinct(arrays: Arrays, specs: seq<Spec>, afterOk: seq<string>, indices: seq<int>,
                                 perTask: map<int, seq<string>>, tasks: seq<seq<string>>, batch: seq<Submit>,
                                 code: string -> Id, m: JobTable)
    requires specs != [] && Expanded(arrays, specs, indices, perTask) && IsTaskParents(afterOk, indices, perTask, tasks)
    requires Inserts(batch, tasks, code) && InsertRows(m, batch).Some?
    ensures Distinct(indices)
  {
    forall i, k | 0 <= i < k < |indices| ensures indices[i] != indices[k] {
      if indices[i] == indices[k] {
        RepeatedIsCounted(indices, i, k);
        RepeatedIndexRepeatsParent(arrays, specs, indices[i], Count(indices, indices[i]), Get(perTask, indices[i]));
        InsertedHaveDistinctParents(m, batch, i);
        DistinctBehindCode(afterOk, Get(perTask, indices[i]), tasks[i], batch[i].afterOk, code);
      }
    }
  }

  lemma DistinctBehindCode(own: seq<string>, more: seq<string>, names: seq<string>, ids: seq<Id>, code: string -> Id)
    requires names == own + more && |ids| == |names| && forall i :: 0 <= i < |names| ==> ids[i] == code(names[i])
    requires Distinct(ids)
    ensures Distinct(more)
  {
    forall i, k | 0 <= i < k < |more| ensures more[i] != more[k] {
      assert names[|own| + i] == more[i] && names[|own| + k] == more[k];
      assert ids[|own| + i] != ids[|own| + k];
    }
  }

  /** So a stored array with an aftercorr entry always has exactly the parent array's indices. */
  lemma StoredAfterCorrMatches(arrays: Arrays, specs: seq<Spec>, afterOk: seq<string>, indices: seq<int>,
                               perTask: map<int, seq<string>>, tasks: seq<seq<string>>, batch: seq<Submit>,
                               code: string -> Id, m: JobTable, name: string)
    requires AfterCorr(Name(name)) in specs && forall k :: 0 <= k < |specs| ==> !Refused(arrays, specs[k], indices)
    requires Expanded(arrays, specs, indices, perTask) && IsTaskParents(afterOk, indices, perTask, tasks)
    requires Inserts(batch, tasks, code) && InsertRows(m, batch).Some?
    ensures Lookup(arrays, name).Some? && DistinctIndices(Lookup(arrays, name).value)
    ensures IndexSet(Lookup(arrays, name).value) == Elements(indices)
  {
    StoredIndicesAreDistinct(arrays, specs, afterOk, indices, perTask, tasks, batch, code, m);
    AfterCorrMatches(arrays, name, indices);
  }

  // ----- The whole submit --------------------------------------------------

  datatype ArrayRequest = ArrayRequest(arrayId: string, deps: seq<string>, afterOk: seq<string>, indices: seq<int>,
                                       hold: bool, priority: int, time: int, details: map<string, string>,
                                       throttle: int)

  /** Invalid: refused by the service. Rejected: refused by the storage, which stores nothing. */
  datatype Reply = Invalid | Rejected | Stored(jobs: JobTable, batch: seq<Submit>)

  /** parseDepSpecs: all entries, or nothing if one cannot be read. */
  function ParseSpecs(entries: seq<string>): Option<seq<Spec>> {
    if entries == [] then Some([]) else
      match (ParseSpecs(entries[..|entries| - 1]), ParseSpec(entries[|entries| - 1]))
      case (Some(specs), Some(spec)) => Some(specs + [spec])
      case _ => None
  }

  /** The shared details, and those of one task. */
  function TaskDetails(req: ArrayRequest, index: int): map<string, string> {
    var tagged := req.details["array_id" := req.arrayId]["array_index" := Itoa(index)]
                             ["array_size" := Itoa(|req.indices|)];
    if req.throttle > 0 then tagged["array_throttle" := Itoa(req.throttle)] else tagged
  }

  /** The service appends its own keys to the details; the table takes no key twice. */
  predicate Clashes(req: ArrayRequest) {
    || "array_id" in req.details || "array_index" in req.details || "array_size" in req.details
    || (req.throttle > 0 && "array_throttle" in req.details)
  }

  /** What a stored task says about its array, as the claims read it. */
  lemma TaskReads(req: ArrayRequest, id: Id, index: int, parents: seq<string>, code: string -> Id)
    requires !Clashes(req) && req.arrayId != "" && 0 <= index <= MAX_INT && req.throttle <= MAX_INT
    ensures var job := Transactions.Row(TaskRow(req, id, index, parents, code));
      && "array_id" in job.details && job.details["array_id"] == req.arrayId
      && "array_index" in job.details && job.details["array_index"] == Itoa(index)
      && Claims.Quantity(job, "array_index") == index
      && "array_size" in job.details && job.details["array_size"] == Itoa(|req.indices|)
      && (req.throttle > 0 ==>
            "array_throttle" in job.details && job.details["array_throttle"] == Itoa(req.throttle)
            && Claims.Throttle(job) == Some(req.throttle))
      && (req.throttle <= 0 && "array_throttle" !in req.details ==> Claims.Throttle(job) == None)
      && (forall key :: key in req.details ==> key in job.details && job.details[key] == req.details[key])
      && |job.afterOk| <= |parents| && job.priority == req.priority && job.submitted == req.time
      && (job.status == UserHold <==> req.hold)
      && (!req.hold ==> job.status == if |parents| == 0 then Queued else Waiting)
      && (forall i :: 0 <= i < |parents| ==> code(parents[i]) in job.afterOk)
  {
    hide Itoa;
    AtoiItoa(index);
    if req.throttle > 0 { AtoiItoa(req.throttle); NumeralNotEmpty(req.throttle); }
    var ids := seq(|parents|, i requires 0 <= i < |parents| => code(parents[i]));
    ElementsAtMost(ids);
    assert forall i :: 0 <= i < |parents| ==> ids[i] == code(parents[i]) && ids[i] in Elements(ids);
  }

  lemma {:induction false} ElementsAtMost(q: seq<Id>)
    ensures |Elements(q)| <= |q|
  {
    if q != [] {
      ElementsAtMost(q[..|q| - 1]);
      ElementsAppend(q[..|q| - 1], q[|q| - 1]);
      assert q == q[..|q| - 1] + [q[|q| - 1]];
    }
  }

  function TaskRow(req: ArrayRequest, id: Id, index: int, parents: seq<string>, code: string -> Id): Submit {
    Submit(id, seq(|parents|, i requires 0 <= i < |parents| => code(parents[i])), req.hold, req.priority, req.time,
           TaskDetails(req, index))
  }

  /** The service refuses the request. */
  ghost predicate IsInvalid(arrays: Arrays, req: ArrayRequest) {
    || "script" !in req.details || req.indices == []
    || match ParseSpecs(req.deps)
       case None => true
       case Some(specs) => exists k :: 0 <= k < |specs| && Refused(arrays, specs[k], req.indices)
  }

  /** Every aftercorr entry names an array with exactly these indices, each once. */
  ghost predicate PairsExactly(arrays: Arrays, specs: seq<Spec>, indices: seq<int>) {
    forall name :: AfterCorr(Name(name)) in specs ==>
      && Lookup(arrays, name).Some? && DistinctIndices(Lookup(arrays, name).value)
      && IndexSet(Lookup(arrays, name).value) == Elements(indices)
  }

  /** One row for each index, in order, with the request's own parents and those the entries give it. */
  ghost predicate IsExpansion(arrays: Arrays, req: ArrayRequest, ids: seq<Id>, code: string -> Id, batch: seq<Submit>) {
    && ParseSpecs(req.deps).Some? && |batch| == |req.indices| == |ids|
    && exists perTask, tasks ::
         && Expanded(arrays, ParseSpecs(req.deps).value, req.indices, perTask)
         && IsTaskParents(req.afterOk, req.indices, perTask, tasks)
         && forall k :: 0 <= k < |batch| ==> batch[k] == TaskRow(req, ids[k], req.indices[k], tasks[k], code)
  }

  /** A parent has failed or is unknown when the batch is validated, or the tables do not accept it when it is
      inserted. */
  predicate StorageRefuses(seen: JobTable, now: JobTable, batch: seq<Submit>) {
    InsertRows(now, batch).None? || exists k :: 0 <= k < |batch| && !DepsValid(seen, batch[k].afterOk)
  }

  /** SubmitArray: expand the dependencies, build the rows under new ids, validate against what is stored then, and
      insert into what is stored by then. What is stored pairs an aftercorr array task by task with its parent array. */
  method SubmitArray(arrays: Arrays, req: ArrayRequest, ids: seq<Id>, code: string -> Id, seen: JobTable, now: JobTable)
    returns (r: Reply)
    requires |ids| == |req.indices|
    ensures r.Invalid? <==> IsInvalid(arrays, req)
    ensures r.Stored? ==> InsertRows(now, r.batch) == Some(r.jobs) && IsExpansion(arrays, req, ids, code, r.batch)
    ensures r.Stored? ==> !Clashes(req) && !StorageRefuses(seen, now, r.batch)
    ensures r.Stored? && req.deps != [] ==>
      Distinct(req.indices) && PairsExactly(arrays, ParseSpecs(req.deps).value, req.indices)
    ensures r.Rejected? && !Clashes(req) ==>
      exists batch :: IsExpansion(arrays, req, ids, code, batch) && StorageRefuses(seen, now, batch)
  {
    hide Expanded, Refused, TaskRow, InsertRows, DepsValid, PairsExactly;
    if "script" !in req.details || req.indices == [] { return Invalid; }
    var specs := ParseSpecs(req.deps);
    if specs.None? { return Invalid; }
    var expanded := ExpandArrayDeps(arrays, specs.value, req.indices);
    if expanded.BadRequest? { return Invalid; }
    var tasks := TaskParents(req.afterOk, req.indices, expanded.value);
    var batch := seq(|tasks|, k requires 0 <= k < |tasks| && |tasks| == |ids| && |tasks| == |req.indices| =>
      TaskRow(req, ids[k], req.indices[k], tasks[k], code));
    assert IsExpansion(arrays, req, ids, code, batch);
    if Clashes(req) || StorageRefuses(seen, now, batch) { return Rejected; }
    var jobs := InsertRows(now, batch);
    if req.deps != [] { StoredPairs(arrays, req, ids, code, specs.value, expanded.value, tasks, batch, now); }
    return Stored(jobs.value, batch);
  }

  lemma StoredPairs(arrays: Arrays, req: ArrayRequest, ids: seq<Id>, code: string -> Id, specs: seq<Spec>,
                    perTask: map<int, seq<string>>, tasks: seq<seq<string>>, batch: seq<Submit>, m: JobTable)
    requires req.deps != [] && ParseSpecs(req.deps) == Some(specs) && InsertRows(m, batch).Some?
    requires forall k :: 0 <= k < |specs| ==> !Refused(arrays, specs[k], req.indices)
    requires Expanded(arrays, specs, req.indices, perTask) && IsTaskParents(req.afterOk, req.indices, perTask, tasks)
    requires |batch| == |tasks| == |ids| == |req.indices|
    requires forall k :: 0 <= k < |batch| ==> batch[k] == TaskRow(req, ids[k], req.indices[k], tasks[k], code)
    ensures Distinct(req.indices) && PairsExactly(arrays, specs, req.indices)
  {
    hide Expanded, Refused, InsertRows, TaskDetails;
    assert Inserts(batch, tasks, code);
    StoredIndicesAreDistinct(arrays, specs, req.afterOk, req.indices, perTask, tasks, batch, code, m);
    forall name | AfterCorr(Name(name)) in specs
      ensures Lookup(arrays, name).Some? && DistinctIndices(Lookup(arrays, name).value)
      ensures IndexSet(Lookup(arrays, name).value) == Elements(req.indices)
    {
      StoredAfterCorrMatches(arrays, specs, req.afterOk, req.indices, perTask, tasks, batch, code, m, name);
    }
  }
}
