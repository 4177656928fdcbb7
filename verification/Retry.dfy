/** Submitting over an unreliable transport: the client's retry loop against the server's dedup by id. */
module Retry {
  import opened Collections
  import opened Jobs

  /** What one HTTP exchange can fail with. */
  datatype Error = HttpError(status: int, draining: bool) | Unreachable | TimedOut | Broken

  datatype Reply = Accepted(id: Id) | Failed(error: Error)

  /** One copy of a submit. key is the client-assigned id; submission says which call sent it. */
  datatype Request = Request(key: Option<Id>, submission: int)

  predicate RetryableHandoff(e: Error) {
    match e
    case HttpError(status, draining) => status == 503 && draining
    case Unreachable => true
    case _ => false
  }

  predicate RetryableIdempotent(e: Error) {
    RetryableHandoff(e) || e.TimedOut? || (e.HttpError? && e.status >= 500)
  }

  const BACKOFFS := 3

  /** The jobs table with the submission that created each row; the copies whose senders no longer wait; and, for the
      record, how many jobs each submission has created and how often each id has been cleaned up. */
  datatype World = World(jobs: map<Id, int>, pending: seq<Request>, births: multiset<int>, deaths: multiset<Id>)

  /** The jobs a submission created that are still there. */
  function Created(jobs: map<Id, int>, submission: int): set<Id> {
    set j | j in jobs && jobs[j] == submission
  }

  /** Copies still on their way carry the request they copy. */
  ghost predicate Tagged(pending: seq<Request>, req: Request) {
    forall k :: 0 <= k < |pending| && pending[k].submission == req.submission ==> pending[k] == req
  }

  /** What a submission may ever amount to, counting copies that may still arrive. Without an id: one job, ever. With an
      id: that job only, and never two of it without a cleanup in between. */
  ghost predicate AtMostOne(w: World, req: Request) {
    && Tagged(w.pending, req)
    && match req.key
       case None =>
         && |Created(w.jobs, req.submission)| <= w.births[req.submission]
         && w.births[req.submission] + multiset(w.pending)[req] <= 1
       case Some(k) =>
         && Created(w.jobs, req.submission) <= {k}
         && w.births[req.submission] <= w.deaths[k] + |Created(w.jobs, req.submission)|
  }

  /** Nothing was ever created, and nothing is on its way. */
  ghost predicate Untouched(w: World, req: Request) {
    && w.births[req.submission] == 0 && Created(w.jobs, req.submission) == {}
    && forall k :: 0 <= k < |w.pending| ==> w.pending[k].submission != req.submission
  }

  /** Only a cleanup removes a row. */
  ghost predicate Keeps(v: World, w: World) {
    && v.births <= w.births && v.deaths <= w.deaths
    && forall j :: j in v.jobs && w.deaths[j] == v.deaths[j] ==> j in w.jobs && w.jobs[j] == v.jobs[j]
  }

  // ----- Bookkeeping -------------------------------------------------------

  function Drop(w: World, i: nat): World
    requires i < |w.pending|
  {
    w.(pending := w.pending[..i] + w.pending[i + 1..])
  }

  function Create(w: World, id: Id, submission: int): World {
    w.(jobs := w.jobs[id := submission], births := w.births + multiset{submission})
  }

  function Cleanup(w: World, id: Id): World { w.(jobs := w.jobs - {id}, deaths := w.deaths + multiset{id}) }

  lemma UntouchedIsSafe(w: World, req: Request)
    requires Untouched(w, req)
    ensures AtMostOne(w, req) && multiset(w.pending)[req] == 0
  {
    assert req !in w.pending;
  }

  lemma CreatedAdds(jobs: map<Id, int>, id: Id, submission: int, of: int)
    requires id !in jobs
    ensures Created(jobs[id := submission], of) == Created(jobs, of) + if submission == of then {id} else {}
    ensures |Created(jobs[id := submission], of)| == |Created(jobs, of)| + if submission == of then 1 else 0
  {
    assert Created(jobs[id := submission], of) == Created(jobs, of) + if submission == of then {id} else {};
  }

  /** A copy leaves the wire; it may create its job if the primary key allows. */
  lemma LandingIsSafe(w: World, i: nat, id: Id, req: Request)
    requires AtMostOne(w, req) && i < |w.pending|
    requires w.pending[i].key.Some? ==> id == w.pending[i].key.value
    requires id !in w.jobs
    ensures AtMostOne(Drop(w, i), req)
    ensures AtMostOne(Create(Drop(w, i), id, w.pending[i].submission), req)
  {
    DroppingIsSafe(w, i, req);
    CreatedAdds(w.jobs, id, w.pending[i].submission, req.submission);
  }

  /** One step of the world, for the submission in question. */
  ghost predicate Harmless(v: World, w: World, req: Request) {
    AtMostOne(w, req) && Keeps(v, w) && (Untouched(v, req) ==> Untouched(w, req))
  }

  lemma HarmlessSelf(w: World, req: Request)
    requires AtMostOne(w, req)
    ensures Harmless(w, w, req)
  {}

  lemma HarmlessIsSafe(v: World, w: World, req: Request)
    requires Harmless(v, w, req)
    ensures AtMostOne(w, req)
  {}

  lemma HarmlessTwice(v: World, w: World, x: World, req: Request)
    requires Harmless(v, w, req) && Harmless(w, x, req)
    ensures Harmless(v, x, req)
  {}

  lemma Dropped(w: World, i: nat, req: Request)
    requires AtMostOne(w, req) && i < |w.pending|
    ensures Harmless(w, Drop(w, i), req)
  {
    DroppingIsSafe(w, i, req);
  }

  lemma Landed(w: World, i: nat, id: Id, req: Request)
    requires AtMostOne(w, req) && i < |w.pending| && id !in w.jobs
    requires w.pending[i].key.Some? ==> id == w.pending[i].key.value
    ensures Harmless(w, Create(Drop(w, i), id, w.pending[i].submission), req)
  {
    LandingIsSafe(w, i, id, req);
    CreatedAdds(w.jobs, id, w.pending[i].submission, req.submission);
  }

  lemma DroppingIsSafe(w: World, i: nat, req: Request)
    requires AtMostOne(w, req) && i < |w.pending|
    ensures AtMostOne(Drop(w, i), req)
    ensures multiset(Drop(w, i).pending) == multiset(w.pending) - multiset{w.pending[i]}
  {
    assert w.pending == w.pending[..i] + [w.pending[i]] + w.pending[i + 1..];
  }

  lemma CreatingIsSafe(w: World, id: Id, req: Request)
    requires AtMostOne(w, req) && id !in w.jobs
    requires req.key.None? ==> Untouched(w, req)
    requires req.key.Some? ==> id == req.key.value
    ensures AtMostOne(Create(w, id, req.submission), req)
    ensures req.key.None? ==> Created(Create(w, id, req.submission).jobs, req.submission) == {id}
  {
    if req.key.None? { UntouchedIsSafe(w, req); }
    CreatedAdds(w.jobs, id, req.submission, req.submission);
  }

  lemma CleaningIsSafe(w: World, id: Id, req: Request)
    requires AtMostOne(w, req)
    ensures Harmless(w, Cleanup(w, id), req)
  {
    var before, after := Created(w.jobs, req.submission), Created(w.jobs - {id}, req.submission);
    assert after == before - {id};
  }

  /** The bound is met: a late copy of a submission whose job was cleaned up creates it again. */
  lemma CleanupAllowsAnother(req: Request)
    requires req.key.Some?
    ensures var id := req.key.value;
      var once := Create(World(map[], [req], multiset{}, multiset{}), id, req.submission);
      var again := Create(Drop(Cleanup(once, id), 0), id, req.submission);
      again.births[req.submission] == 2 && again.deaths[id] == 1 && AtMostOne(again, req)
  {
    var id := req.key.value;
    assert Created(map[id := req.submission], req.submission) == {id};
  }

  // ----- Whether another job can still come --------------------------------

  /** What may still happen: a copy is processed or lost, one is sent, a job is cleaned up. */
  datatype Happening = Lands(i: nat, id: Id) | Lost(i: nat) | Enters(copy: Request) | CleansUp(id: Id)

  /** left: how often the client may still send the request. */
  datatype Future = Future(world: World, left: nat)

  function Next(f: Future, h: Happening, req: Request): Future {
    var w := f.world;
    match h
    case Lands(i, id) =>
      if i < |w.pending| && (w.pending[i].key.Some? ==> id == w.pending[i].key.value) && id !in w.jobs
      then f.(world := Create(Drop(w, i), id, w.pending[i].submission))
      else f
    case Lost(i) => if i < |w.pending| then f.(world := Drop(w, i)) else f
    case Enters(copy) =>
      if copy.submission != req.submission then f.(world := w.(pending := w.pending + [copy]))
      else if copy == req && f.left > 0 then Future(w.(pending := w.pending + [copy]), f.left - 1)
      else f
    case CleansUp(id) => f.(world := Cleanup(w, id))
  }

  function After(f: Future, events: seq<Happening>, req: Request): Future {
    if events == [] then f else Next(After(f, events[..|events| - 1], req), events[|events| - 1], req)
  }

  lemma AfterSnoc(f: Future, events: seq<Happening>, h: Happening, req: Request)
    ensures After(f, events + [h], req) == Next(After(f, events, req), h, req)
  {
    assert (events + [h])[..|events|] == events;
  }

  /** No copy is on its way, and none will be. */
  ghost predicate Spent(f: Future, req: Request) {
    f.left == 0 && forall k :: 0 <= k < |f.world.pending| ==> f.world.pending[k].submission != req.submission
  }

  lemma SpentStep(f: Future, h: Happening, req: Request)
    requires Spent(f, req)
    ensures Spent(Next(f, h, req), req)
    ensures Next(f, h, req).world.births[req.submission] == f.world.births[req.submission]
  {
  }

  lemma {:induction false} SpentForever(f: Future, events: seq<Happening>, req: Request)
    requires Spent(f, req)
    ensures Spent(After(f, events, req), req)
    ensures After(f, events, req).world.births[req.submission] == f.world.births[req.submission]
  {
    if events != [] {
      SpentForever(f, events[..|events| - 1], req);
      SpentStep(After(f, events[..|events| - 1], req), events[|events| - 1], req);
    }
  }

  /** A copy on its way creates the job, if need be after a cleanup of its id. */
  lemma CopyCreates(f: Future, events: seq<Happening>, i: nat, req: Request) returns (more: seq<Happening>)
    requires var w := After(f, events, req).world; req.key.Some? && i < |w.pending| && w.pending[i] == req
    ensures After(f, more, req).world.births[req.submission] ==
      After(f, events, req).world.births[req.submission] + 1
  {
    var id := req.key.value;
    AfterSnoc(f, events, CleansUp(id), req);
    AfterSnoc(f, events + [CleansUp(id)], Lands(i, id), req);
    more := events + [CleansUp(id)] + [Lands(i, id)];
  }

  /** With a client id another creation can still come, whatever there has been, exactly if a copy is on its way or the
      client may send again. */
  lemma AnotherComesExactly(w: World, left: nat, req: Request)
    requires Tagged(w.pending, req) && req.key.Some?
    ensures (exists events :: After(Future(w, left), events, req).world.births[req.submission]
                              > w.births[req.submission])
      <==> req in w.pending || left > 0
  {
    var f := Future(w, left);
    if req in w.pending {
      var i :| 0 <= i < |w.pending| && w.pending[i] == req;
      var more := CopyCreates(f, [], i, req);
    } else if left > 0 {
      AfterSnoc(f, [], Enters(req), req);
      var more := CopyCreates(f, [] + [Enters(req)], |w.pending|, req);
    } else {
      assert Spent(f, req);
      forall events ensures After(f, events, req).world.births[req.submission] <= w.births[req.submission] {
        SpentForever(f, events, req);
      }
    }
  }

  // ----- The two sides -----------------------------------------------------

  class Server {
    var jobs: map<Id, int>
    var pending: seq<Request>
    ghost var births: multiset<int>
    ghost var deaths: multiset<Id>

    ghost function Now(): World
      reads this
    {
      World(jobs, pending, births, deaths)
    }

    /** Whatever else happens meanwhile: copies arrive late or get lost, others submit, and jobs are cleaned up. */
    method Background(req: Request)
      requires AtMostOne(Now(), req)
      modifies this
      ensures Harmless(old(Now()), Now(), req)
    {
      HarmlessSelf(Now(), req);
      hide Harmless;
      var n: nat := *;
      while n > 0
        invariant Harmless(old(Now()), Now(), req)
      {
        n := n - 1;
        ghost var was := Now();
        HarmlessIsSafe(old(Now()), was, req);
        Event(req);
        HarmlessTwice(old(Now()), was, Now(), req);
      }
    }

    /** One of these. */
    method Event(req: Request)
      requires AtMostOne(Now(), req)
      modifies this
      ensures Harmless(old(Now()), Now(), req)
    {
      var which: nat := *;
      if which == 0 && pending != [] {
        LateCopy(req);
      } else if which == 1 {
        var other: Request := *;
        Stranger(other, req);
      } else {
        var id: Id := *;
        CleanupJob(id, req);
      }
    }

    /** Some waiting copy is processed or lost. */
    method LateCopy(req: Request)
      requires AtMostOne(Now(), req) && pending != []
      modifies this
      ensures Harmless(old(Now()), Now(), req)
    {
      var i :| 0 <= i < |pending|;
      var copy := pending[i];
      var id: Id := *;
      if copy.key.Some? { id := copy.key.value; }
      var lost: bool := *;
      if lost || id in jobs {
        Dropped(Now(), i, req);
        pending := pending[..i] + pending[i + 1..];
        assert Now() == Drop(old(Now()), i);
      } else {
        Landed(Now(), i, id, req);
        pending := pending[..i] + pending[i + 1..];
        jobs, births := jobs[id := copy.submission], births + multiset{copy.submission};
        assert Now() == Create(Drop(old(Now()), i), id, copy.submission);
      }
    }

    /** A copy of somebody else's submission enters. */
    method Stranger(other: Request, req: Request)
      requires AtMostOne(Now(), req)
      modifies this`pending
      ensures Harmless(old(Now()), Now(), req)
    {
      if other.submission != req.submission {
        pending := pending + [other];
      }
    }

    /** A job is cleaned up. */
    method CleanupJob(id: Id, req: Request)
      requires AtMostOne(Now(), req)
      modifies this`jobs, this`deaths
      ensures Harmless(old(Now()), Now(), req)
    {
      CleaningIsSafe(Now(), id, req);
      jobs, deaths := jobs - {id}, deaths + multiset{id};
      assert Now() == Cleanup(old(Now()), id);
    }

    /** The server's SubmitJob: answer a known id, otherwise insert; a lost insertion race is answered like a known id.
        It fails only if the request is invalid (refused), the database is (bad), or a new id is taken. */
    method SubmitJob(req: Request, refused: bool, bad: bool, newId: Id) returns (reply: Reply)
      requires AtMostOne(Now(), req) && (req.key.None? ==> Untouched(Now(), req))
      modifies this
      ensures AtMostOne(Now(), req) && Keeps(old(Now()), Now())
      ensures Answered(jobs, req, reply)
      ensures reply.Failed? ==> reply.error.HttpError? && !reply.error.draining
      ensures reply.Failed? && req.key.None? ==> Untouched(Now(), req)
      ensures reply.Failed? ==> refused || bad || (req.key.None? && newId in jobs)
    {
      if refused { return Reply.Failed(HttpError(400, false)); }
      var id := newId;
      if req.key.Some? {
        id := req.key.value;
        if id in jobs { return Accepted(id); }
      }
      Background(req);
      if bad || id in jobs {
        if req.key.Some? && id in jobs { return Accepted(id); }
        return Reply.Failed(HttpError(500, false));
      }
      CreatingIsSafe(Now(), id, req);
      jobs, births := jobs[id := req.submission], births + multiset{req.submission};
      return Accepted(id);
    }
  }

  /** What a reply tells the client: the job exists; with an id it is that job, without one it is the only one
      created. */
  ghost predicate Answered(jobs: map<Id, int>, req: Request, reply: Reply) {
    reply.Accepted? ==>
      && reply.id in jobs
      && match req.key
         case Some(k) => reply.id == k
         case None => Created(jobs, req.submission) == {reply.id}
  }

  /** What becomes of one exchange. An answer that was on its way and got lost is never a sign of a clean handoff. */
  datatype Fate = TurnedAway(draining: bool) | Delivered(invalid: bool, bad: bool, newId: Id) | AnswerLost(error: Error)

  /** The request arrives, is valid, and meets a working database. */
  predicate Good(fate: Fate) { fate.Delivered? && !fate.invalid && !fate.bad }

  class Client {
    const autospawn: bool

    constructor (autospawn: bool)
      ensures this.autospawn == autospawn
    {
      this.autospawn := autospawn;
    }

    /** One exchange: refused at the door, answered, or delivered with the answer lost. */
    method DoOnce(server: Server, req: Request, fate: Fate) returns (reply: Reply)
      requires AtMostOne(server.Now(), req)
      requires req.key.None? ==> Untouched(server.Now(), req)
      modifies server
      ensures AtMostOne(server.Now(), req) && Keeps(old(server.Now()), server.Now())
      ensures Answered(server.jobs, req, reply)
      ensures req.key.None? && reply.Failed? && RetryableHandoff(reply.error) ==> Untouched(server.Now(), req)
      ensures req.key.Some? && Good(fate) ==> reply.Accepted?
      ensures match fate
        case TurnedAway(draining) => reply == Reply.Failed(if draining then HttpError(503, true) else Unreachable)
        case AnswerLost(error) => reply == Reply.Failed(if RetryableHandoff(error) then Broken else error)
        case Delivered(_, _, _) => reply.Failed? ==> reply.error.HttpError? && !reply.error.draining
    {
      server.Background(req);
      match fate
      case TurnedAway(draining) =>
        reply := Reply.Failed(if draining then HttpError(503, true) else Unreachable);
      case Delivered(invalid, bad, newId) =>
        reply := server.SubmitJob(req, invalid, bad, newId);
      case AnswerLost(error) =>
        LosingIsSafe(server.Now(), req);
        server.pending := server.pending + [req];
        server.Background(req);
        reply := Reply.Failed(if RetryableHandoff(error) then Broken else error);
    }

    /** Send, and resend after a backoff while the error is retryable; the context may end the wait. Otherwise it gives
        up only after four sends, or on an error that must not or need not be tried again. */
    method DoRetry(server: Server, req: Request, idempotent: bool, fates: nat -> Fate)
      returns (reply: Reply, sent: nat, canceled: bool)
      requires idempotent ==> req.key.Some?
      requires AtMostOne(server.Now(), req)
      requires req.key.None? ==> Untouched(server.Now(), req)
      modifies server
      ensures AtMostOne(server.Now(), req) && Keeps(old(server.Now()), server.Now())
      ensures Answered(server.jobs, req, reply)
      ensures 1 <= sent <= 4 && (!autospawn && !idempotent ==> sent == 1)
      ensures (autospawn || idempotent) && !canceled && reply.Failed? && sent < 4 ==>
        FinalError(idempotent, reply.error)
      ensures req.key.Some? && reply.Failed? ==> forall i :: 0 <= i < sent ==> !Good(fates(i))
    {
      hide AtMostOne, Untouched, FinalError, Answered, Good;
      canceled := false;
      if !autospawn && !idempotent {
        reply := DoOnce(server, req, fates(0));
        return reply, 1, canceled;
      }
      var attempt := 0;
      while true
        invariant 0 <= attempt <= BACKOFFS
        invariant AtMostOne(server.Now(), req) && Keeps(old(server.Now()), server.Now())
        invariant req.key.None? ==> Untouched(server.Now(), req)
        invariant req.key.Some? ==> forall i :: 0 <= i < attempt ==> !Good(fates(i))
        decreases BACKOFFS - attempt
      {
        reply := DoOnce(server, req, fates(attempt));
        if reply.Accepted? || attempt >= BACKOFFS || !Retryable(idempotent, reply.error) {
          FinalExactly(idempotent, if reply.Failed? then reply.error else Broken);
          return reply, attempt + 1, canceled;
        }
        canceled := *;
        if canceled { return reply, attempt + 1, canceled; }
        server.Background(req);
        attempt := attempt + 1;
      }
    }

    /** The client's SubmitJob. Under every sequence of outcomes at most one job comes of it, counting copies that may
        still arrive; with a client id, at most one more than cleanups of that id. A success names the job. */
    method SubmitJob(server: Server, req: Request, fates: nat -> Fate)
      returns (reply: Reply, sent: nat, canceled: bool)
      requires Untouched(server.Now(), req)
      modifies server
      ensures AtMostOne(server.Now(), req) && Keeps(old(server.Now()), server.Now())
      ensures Answered(server.jobs, req, reply)
      ensures 1 <= sent <= 4 && (!autospawn && req.key.None? ==> sent == 1)
      ensures (autospawn || req.key.Some?) && !canceled && reply.Failed? && sent < 4 ==>
        FinalError(req.key.Some?, reply.error)
      ensures req.key.Some? && reply.Failed? ==> forall i :: 0 <= i < sent ==> !Good(fates(i))
    {
      UntouchedIsSafe(server.Now(), req);
      reply, sent, canceled := DoRetry(server, req, req.key.Some?, fates);
    }
  }

  predicate Retryable(idempotent: bool, e: Error) {
    if idempotent then RetryableIdempotent(e) else RetryableHandoff(e)
  }

  /** An error that is not tried again. With a client id: an answer below 500, or a broken exchange. Without one also a
      timeout, and any answer but the 503 of a draining server. */
  predicate FinalError(idempotent: bool, e: Error) {
    match e
    case HttpError(status, draining) => if idempotent then status < 500 && !(status == 503 && draining)
                                        else status != 503 || !draining
    case Unreachable => false
    case TimedOut => !idempotent
    case Broken => true
  }

  lemma FinalExactly(idempotent: bool, e: Error)
    ensures Retryable(idempotent, e) <==> !FinalError(idempotent, e)
  {}

  /** A lost answer leaves one copy on the wire. */
  lemma LosingIsSafe(w: World, req: Request)
    requires AtMostOne(w, req) && (req.key.None? ==> Untouched(w, req))
    ensures AtMostOne(w.(pending := w.pending + [req]), req)
  {
    if req.key.None? { UntouchedIsSafe(w, req); }
  }
}
