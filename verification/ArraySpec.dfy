/** Array specifications: parsing "0-9:2,20%4" and printing an index list. */
module ArraySpec {
  import opened Collections
  import opened Ordering
  import opened Text

  const MAX_ARRAY_TASKS := 100000

  /** One term of a specification: lo, lo + step, ..., up to hi. */
  datatype Term = Term(lo: int, hi: int, step: int)

  /** Endless: the loop over a term never gets past its upper bound. */
  datatype Outcome = Parsed(indices: seq<int>, throttle: int) | Malformed | TooMany | Endless

  function ParseRange(term: string): Option<(int, int)> {
    var i := Index(term, '-');
    if i >= 0 then
      match (Atoi(TrimSpace(term[..i])), Atoi(TrimSpace(term[i + 1..])))
      case (Some(lo), Some(hi)) => if lo < 0 || hi < lo then None else Some((lo, hi))
      case _ => None
    else
      match Atoi(term)
      case Some(n) => if n < 0 then None else Some((n, n))
      case None => None
  }

  function ParseStep(term: string, i: int): Option<int>
    requires -1 <= i < |term|
  {
    if i < 0 then Some(1) else
      match Atoi(TrimSpace(term[i + 1..]))
      case Some(st) => if st <= 0 then None else Some(st)
      case None => None
  }

  /** A trimmed term, or nothing if it is malformed. */
  function ParseTerm(term: string): Option<Term> {
    if term == "" then None else
      var i := Index(term, ':');
      match (ParseStep(term, i), ParseRange(if i < 0 then term else TrimSpace(term[..i])))
      case (Some(step), Some((lo, hi))) => Some(Term(lo, hi, step))
      case _ => None
  }

  lemma AtoiRange(s: string)
    ensures Atoi(s).Some? ==> MIN_INT <= Atoi(s).value <= MAX_INT
  {}

  ghost predicate Proper(t: Term) { 0 <= t.lo <= t.hi <= MAX_INT && 0 < t.step <= MAX_INT }

  lemma TermIsProper(term: string)
    ensures ParseTerm(term).Some? ==> Proper(ParseTerm(term).value)
  {
    hide ParseStep, ParseRange, TrimSpace, Index;
    if term != "" {
      var i := Index(term, ':');
      StepIsProper(term, i);
      RangeIsProper(if i < 0 then term else TrimSpace(term[..i]));
    }
  }

  lemma StepIsProper(term: string, i: int)
    requires -1 <= i < |term|
    ensures ParseStep(term, i).Some? ==> 0 < ParseStep(term, i).value <= MAX_INT
  {
    hide Atoi, TrimSpace;
    if i >= 0 { AtoiRange(TrimSpace(term[i + 1..])); }
  }

  lemma RangeIsProper(term: string)
    ensures ParseRange(term).Some? ==> 0 <= ParseRange(term).value.0 <= ParseRange(term).value.1 <= MAX_INT
  {
    var i := Index(term, '-');
    if i >= 0 { AtoiRange(TrimSpace(term[i + 1..])); } else { AtoiRange(term); }
  }

  // ----- What a specification denotes --------------------------------------

  /** 64-bit addition of a non-negative step. */
  function Plus(n: int, step: int): int {
    if n + step > MAX_INT then n + step - 0x1_0000_0000_0000_0000 else n + step
  }

  /** The loop variable after k steps. */
  ghost function Value(t: Term, k: nat): int {
    if k == 0 then t.lo else Plus(Value(t, k - 1), t.step)
  }

  /** The loop takes its first k steps. */
  ghost predicate Below(t: Term, k: nat) { forall i: nat :: i < k ==> Value(t, i) <= t.hi }

  /** The loop over the term comes to an end. */
  ghost predicate Halts(t: Term) { exists k: nat :: Value(t, k) > t.hi }

  ghost predicate Reaches(t: Term, n: int, k: nat) { Value(t, k) == n && Below(t, k + 1) }

  ghost predicate InTerm(t: Term, n: int) { exists k: nat :: Reaches(t, n, k) }

  /** What the loop adds. */
  ghost function Indices(t: Term): set<int> { set n: int | MIN_INT <= n <= MAX_INT && InTerm(t, n) }

  /** The terms of a body; nothing where one is malformed. */
  function Terms(body: string): (terms: seq<Option<Term>>)
  {
    var parts := Split(body, ',');
    seq(|parts|, i requires 0 <= i < |parts| => ParseTerm(TrimSpace(parts[i])))
  }

  ghost predicate AllGood(terms: seq<Option<Term>>) { forall k :: 0 <= k < |terms| ==> terms[k].Some? }

  /** The union of the indices of the terms. */
  ghost function Denoted(terms: seq<Option<Term>>): set<int>
    requires AllGood(terms)
  {
    if terms == [] then {} else Denoted(terms[..|terms| - 1]) + Indices(terms[|terms| - 1].value)
  }

  ghost predicate AllHalt(terms: seq<Option<Term>>) {
    forall k :: 0 <= k < |terms| && terms[k].Some? ==> Halts(terms[k].value)
  }

  /** A trimmed specification split into body and throttle; no throttle is 0. */
  function Head(s: string): Option<(string, int)> {
    if s == "" then None else
      var i := LastIndex(s, '%');
      if i < 0 then Some((s, 0)) else
        match Atoi(TrimSpace(s[i + 1..]))
        case Some(n) => if n <= 0 then None else Some((TrimSpace(s[..i]), n))
        case None => None
  }

  ghost predicate Ascending(xs: seq<int>) { forall i, j :: 0 <= i < j < |xs| ==> xs[i] < xs[j] }

  // ----- The parser --------------------------------------------------------

  /** The slice lists the map's keys, each once. */
  ghost predicate Listed(indices: seq<int>, seen: set<int>) { Distinct(indices) && Elements(indices) == seen }

  /** The add closure: remember a new index, and fail past the cap. */
  method Add(seen: set<int>, indices: seq<int>, n: int) returns (seen': set<int>, indices': seq<int>, ok: bool)
    requires Listed(indices, seen) && |seen| <= MAX_ARRAY_TASKS
    ensures Listed(indices', seen') && seen' == seen + {n}
    ensures ok <==> |seen'| <= MAX_ARRAY_TASKS
  {
    if n in seen {
      assert seen + {n} == seen;
      return seen, indices, true;
    }
    assert n !in indices by { assert n !in Elements(indices); }
    ElementsAppend(indices, n);
    seen', indices' := seen + {n}, indices + [n];
    DistinctCardinality(indices');
    ok := |indices'| <= MAX_ARRAY_TASKS;
  }

  /** What the loop over one term amounts to. */
  ghost predicate Added(t: Term, before: set<int>, seen: set<int>, r: Outcome) {
    match r
    case Parsed(_, _) => Halts(t) && seen == before + Indices(t) && |seen| <= MAX_ARRAY_TASKS
    case TooMany => |before + Indices(t)| > MAX_ARRAY_TASKS
    case Endless => !Halts(t) && |before + Indices(t)| <= MAX_ARRAY_TASKS
    case Malformed => false
  }

  /** The loop over one term. It is given up when its variable is back at the start with everything added: the source
      goes round for ever from there. */
  method AddTerm(t: Term, seen: set<int>, indices: seq<int>) returns (seen': set<int>, indices': seq<int>, r: Outcome)
    requires Proper(t) && Listed(indices, seen) && |seen| <= MAX_ARRAY_TASKS
    ensures Listed(indices', seen') && Added(t, seen, seen', r)
  {
    hide Below, Different, Indices, Visited, Sweep, Added, Listed, Proper;
    seen', indices' := seen, indices;
    var n := t.lo;
    ghost var k: nat := 0;
    SweepBegins(t, seen);
    while n <= t.hi
      invariant n == Value(t, k) && Sweep(t, k, seen, seen') && Listed(indices', seen') && (k > 0 ==> n != t.lo)
      invariant k <= |seen'| <= MAX_ARRAY_TASKS
      decreases MAX_ARRAY_TASKS - k
    {
      SweepStep(t, k, seen, seen');
      var ok;
      seen', indices', ok := Add(seen', indices', n);
      SweepIsPart(t, k + 1, seen, seen');
      if !ok { return seen', indices', TooMany; }
      n, k := Plus(n, t.step), k + 1;
      if n == t.lo {
        SweepTurns(t, k, seen, seen');
        return seen', indices', Endless;
      }
    }
    SweepEnds(t, k, seen, seen');
    return seen', indices', Parsed([], 0);
  }

  /** The loop has added the first k values, all different. */
  ghost predicate Sweep(t: Term, k: nat, before: set<int>, seen: set<int>) {
    Below(t, k) && Different(t, k) && seen == before + Visited(t, k)
  }

  lemma SweepBegins(t: Term, before: set<int>)
    ensures Sweep(t, 0, before, before)
  {}

  lemma SweepEnds(t: Term, k: nat, before: set<int>, seen: set<int>)
    requires Proper(t) && Sweep(t, k, before, seen) && |seen| <= MAX_ARRAY_TASKS && Value(t, k) > t.hi
    ensures Added(t, before, seen, Parsed([], 0))
  {
    StopIsAll(t, k);
  }

  lemma SweepTurns(t: Term, k: nat, before: set<int>, seen: set<int>)
    requires Proper(t) && Sweep(t, k, before, seen) && |seen| <= MAX_ARRAY_TASKS && k > 0 && Value(t, k) == t.lo
    ensures Added(t, before, seen, Endless)
  {
    CycleIsAll(t, k);
  }

  lemma SweepStep(t: Term, k: nat, before: set<int>, seen: set<int>)
    requires Proper(t) && Sweep(t, k, before, seen) && Value(t, k) <= t.hi && (k > 0 ==> Value(t, k) != t.lo)
    ensures Sweep(t, k + 1, before, seen + {Value(t, k)})
  {
    BelowStep(t, k);
    StillDifferent(t, k);
    assert seen + {Value(t, k)} == before + Visited(t, k + 1);
  }

  lemma SweepIsPart(t: Term, k: nat, before: set<int>, seen: set<int>)
    requires Proper(t) && Sweep(t, k, before, seen)
    ensures k <= |seen| && (|seen| > MAX_ARRAY_TASKS ==> Added(t, before, seen, TooMany))
  {
    VisitedIsAdded(t, k, before);
    SubsetCardinality(Visited(t, k), seen);
  }

  lemma BelowStep(t: Term, k: nat)
    requires Below(t, k) && Value(t, k) <= t.hi
    ensures Below(t, k + 1)
  {}

  /** The first k values. */
  ghost function Visited(t: Term, k: nat): set<int> {
    if k == 0 then {} else Visited(t, k - 1) + {Value(t, k - 1)}
  }

  ghost predicate Different(t: Term, k: nat) {
    && |Visited(t, k)| == k
    && forall i: nat, j: nat :: i < j < k ==> Value(t, i) != Value(t, j)
  }

  lemma {:induction false} VisitedHas(t: Term, k: nat, i: nat)
    requires i < k
    ensures Value(t, i) in Visited(t, k)
  {
    if i < k - 1 { VisitedHas(t, k - 1, i); }
  }

  lemma {:induction false} VisitedFrom(t: Term, k: nat, n: int) returns (i: nat)
    requires n in Visited(t, k)
    ensures i < k && Value(t, i) == n
  {
    i := k - 1;
    if n != Value(t, k - 1) { i := VisitedFrom(t, k - 1, n); }
  }

  lemma {:induction false} ValueInRange(t: Term, k: nat)
    requires Proper(t)
    ensures MIN_INT <= Value(t, k) <= MAX_INT
  {
    if k > 0 { ValueInRange(t, k - 1); }
  }

  /** Adding a step loses nothing, so the values can only meet again at the start. */
  lemma StillDifferent(t: Term, k: nat)
    requires Proper(t) && Different(t, k) && (k > 0 ==> Value(t, k) != t.lo)
    ensures Different(t, k + 1)
  {
    forall i: nat | i < k ensures Value(t, i) != Value(t, k) {
      if i > 0 {
        ValueInRange(t, i - 1);
        ValueInRange(t, k - 1);
        assert Value(t, i - 1) != Value(t, k - 1);
      }
    }
    if Value(t, k) in Visited(t, k) { var i := VisitedFrom(t, k, Value(t, k)); }
  }

  lemma VisitedIsAdded(t: Term, k: nat, before: set<int>)
    requires Proper(t) && Below(t, k)
    ensures Visited(t, k) <= Indices(t)
    ensures |before + Visited(t, k)| > MAX_ARRAY_TASKS ==> |before + Indices(t)| > MAX_ARRAY_TASKS
  {
    forall n | n in Visited(t, k) ensures n in Indices(t) {
      var i := VisitedFrom(t, k, n);
      ValueInRange(t, i);
      assert Reaches(t, n, i);
    }
    SubsetCardinality(before + Visited(t, k), before + Indices(t));
  }

  lemma StopIsAll(t: Term, k: nat)
    requires Proper(t) && Below(t, k) && Value(t, k) > t.hi
    ensures Halts(t) && Indices(t) == Visited(t, k)
  {
    VisitedIsAdded(t, k, {});
    forall n | n in Indices(t) ensures n in Visited(t, k) {
      var i: nat :| Reaches(t, n, i);
      StopsBefore(t, i, k);
      VisitedHas(t, k, i);
    }
  }

  lemma StopsBefore(t: Term, i: nat, k: nat)
    requires Below(t, i + 1) && Value(t, k) > t.hi
    ensures i < k
  {}

  lemma {:induction false} CycleRepeats(t: Term, k: nat, j: nat) returns (i: nat)
    requires k > 0 && Value(t, k) == t.lo
    ensures i < k && Value(t, j) == Value(t, i)
  {
    if j == 0 { return 0; }
    i := CycleRepeats(t, k, j - 1);
    i := if i + 1 == k then 0 else i + 1;
  }

  lemma CycleIsAll(t: Term, k: nat)
    requires Proper(t) && k > 0 && Below(t, k) && Value(t, k) == t.lo
    ensures !Halts(t) && Indices(t) == Visited(t, k)
  {
    VisitedIsAdded(t, k, {});
    forall j: nat ensures Value(t, j) <= t.hi && Value(t, j) in Visited(t, k) {
      var i := CycleRepeats(t, k, j);
      VisitedHas(t, k, i);
    }
  }

  // ----- Terms that stay in range ------------------------------------------

  /** Element k of the progression, in whole numbers. */
  function Ideal(t: Term, k: nat): int { t.lo + k * t.step }

  ghost predicate InProgression(t: Term, n: int) { n <= t.hi && exists k: nat :: n == Ideal(t, k) }

  /** lo, lo + step, ..., up to hi. */
  ghost function Progression(t: Term): set<int> { set n: int | t.lo <= n <= t.hi && InProgression(t, n) }

  /** The step past hi leaves the range of a 64-bit int. */
  ghost predicate Wraps(t: Term) { exists k: nat :: Ideal(t, k) <= t.hi && Ideal(t, k + 1) > MAX_INT }

  lemma IdealSteps(t: Term, k: nat)
    ensures Ideal(t, k + 1) == Ideal(t, k) + t.step
  {}

  lemma {:induction false} IdealClimbs(t: Term, i: nat, k: nat)
    requires t.step > 0 && i < k
    ensures Ideal(t, i) + t.step <= Ideal(t, k) && Ideal(t, i + 1) == Ideal(t, i) + t.step
  {
    hide Ideal;
    IdealSteps(t, i);
    if i + 1 < k {
      IdealClimbs(t, i, k - 1);
      IdealSteps(t, k - 1);
    }
  }

  lemma {:induction false} ValueIsIdeal(t: Term, k: nat)
    requires Proper(t) && Ideal(t, k) <= MAX_INT
    ensures Value(t, k) == Ideal(t, k)
  {
    if k > 0 {
      IdealClimbs(t, k - 1, k);
      ValueIsIdeal(t, k - 1);
    }
  }

  /** The first element past hi. */
  lemma PastHi(t: Term) returns (k: nat)
    requires Proper(t)
    ensures k > 0 && Ideal(t, k - 1) <= t.hi < Ideal(t, k)
    ensures forall i: nat :: Ideal(t, i) <= t.hi <==> i < k
    ensures Below(t, k) && (Wraps(t) <==> Ideal(t, k) > MAX_INT)
  {
    k := 1;
    while Ideal(t, k) <= t.hi
      invariant k > 0 && Ideal(t, k - 1) <= t.hi
      decreases t.hi - Ideal(t, k)
    {
      IdealClimbs(t, k, k + 1);
      k := k + 1;
    }
    forall i: nat ensures Ideal(t, i) <= t.hi <==> i < k {
      if i < k - 1 { IdealClimbs(t, i, k - 1); }
      if k < i { IdealClimbs(t, k, i); }
    }
    forall i: nat | i < k ensures Value(t, i) <= t.hi {
      ValueIsIdeal(t, i);
    }
  }

  /** The loop yields the progression exactly if the step past hi stays in range; and then it ends. */
  lemma ProgressionExactly(t: Term)
    requires Proper(t)
    ensures Indices(t) == Progression(t) <==> !Wraps(t)
    ensures !Wraps(t) ==> Halts(t)
    ensures Wraps(t) <==> exists n :: n in Indices(t) && n < 0
  {
    var k := PastHi(t);
    VisitedIsProgression(t, k);
    if Wraps(t) {
      WrapsBelow(t, k);
    } else {
      ValueIsIdeal(t, k);
      StopIsAll(t, k);
    }
  }

  lemma VisitedIsProgression(t: Term, k: nat)
    requires Proper(t) && forall i: nat :: Ideal(t, i) <= t.hi <==> i < k
    ensures Visited(t, k) == Progression(t)
  {
    forall n | n in Visited(t, k) ensures n in Progression(t) {
      var i := VisitedFrom(t, k, n);
      ValueIsIdeal(t, i);
      if i > 0 { IdealClimbs(t, 0, i); }
    }
    forall n | n in Progression(t) ensures n in Visited(t, k) {
      var i: nat :| n == Ideal(t, i);
      ValueIsIdeal(t, i);
      VisitedHas(t, k, i);
    }
  }

  lemma WrapsBelow(t: Term, k: nat)
    requires Proper(t) && k > 0 && Below(t, k) && Ideal(t, k - 1) <= t.hi && Ideal(t, k) > MAX_INT
    ensures Value(t, k) < 0 && Value(t, k) in Indices(t)
  {
    IdealClimbs(t, k - 1, k);
    ValueIsIdeal(t, k - 1);
    ValueInRange(t, k);
    assert Reaches(t, Value(t, k), k);
  }

  // ----- The whole specification -------------------------------------------

  /** The terms are all well formed, the loop over each ends, and together they stay under the cap. */
  ghost predicate Acceptable(terms: seq<Option<Term>>) {
    AllGood(terms) && AllHalt(terms) && |Denoted(terms)| <= MAX_ARRAY_TASKS
  }

  /** s specifies exactly these indices and this throttle. */
  ghost predicate Specifies(s: string, indices: set<int>, throttle: int) {
    match Head(TrimSpace(s))
    case None => false
    case Some((body, n)) => n == throttle && Acceptable(Terms(body)) && indices == Denoted(Terms(body))
  }

  /** Why terms are refused: the first n are fine, and the next is malformed, one too many, or endless. */
  ghost predicate RefusedAt(terms: seq<Option<Term>>, n: nat, r: Outcome) {
    && n < |terms| && AllGood(terms[..n]) && AllHalt(terms[..n])
    && match r
       case Malformed => terms[n].None?
       case TooMany => terms[n].Some? && |Denoted(terms[..n]) + Indices(terms[n].value)| > MAX_ARRAY_TASKS
       case Endless => terms[n].Some? && !Halts(terms[n].value) &&
         |Denoted(terms[..n]) + Indices(terms[n].value)| <= MAX_ARRAY_TASKS
       case Parsed(_, _) => false
  }

  /** ParseArraySpec: a specification is accepted exactly if it specifies something, and then with its indices in
      ascending order; otherwise the throttle is at fault, or the first term that cannot be added. */
  method ParseArraySpec(s: string) returns (r: Outcome)
    ensures r.Parsed? ==> Ascending(r.indices) && Specifies(s, Elements(r.indices), r.throttle)
    ensures !r.Parsed? ==> forall indices, throttle :: !Specifies(s, indices, throttle)
    ensures !r.Parsed? ==>
      match Head(TrimSpace(s))
      case None => r.Malformed?
      case Some((body, _)) => exists n :: RefusedAt(Terms(body), n, r)
  {
    match Head(TrimSpace(s))
    case None => return Malformed;
    case Some((body, throttle)) => r := ParseTerms(body, throttle);
  }

  method ParseTerms(body: string, throttle: int) returns (r: Outcome)
    ensures r.Parsed? <==> Acceptable(Terms(body))
    ensures r.Parsed? ==> Ascending(r.indices) && r.throttle == throttle && Elements(r.indices) == Denoted(Terms(body))
    ensures !r.Parsed? ==> exists n :: RefusedAt(Terms(body), n, r)
  {
    var parts := Split(body, ',');
    ghost var terms := Terms(body);
    var seen: set<int>, indices: seq<int> := {}, [];
    for n := 0 to |parts|
      invariant AllGood(terms[..n]) && AllHalt(terms[..n]) && seen == Denoted(terms[..n])
      invariant Listed(indices, seen) && |seen| <= MAX_ARRAY_TASKS
    {
      var term := ParseTerm(TrimSpace(parts[n]));
      assert terms[n] == term;
      if term.None? {
        assert RefusedAt(terms, n, Malformed);
        return Malformed;
      }
      TermIsProper(TrimSpace(parts[n]));
      OneMoreTerm(terms, n);
      seen, indices, r := AddTerm(term.value, seen, indices);
      if !r.Parsed? {
        RefusalIsFinal(terms, n, r);
        return r;
      }
    }
    assert terms[..|terms|] == terms;
    var sorted := Sort((a: int, b: int) => a < b, seen);
    r := Parsed(sorted, throttle);
  }

  lemma OneMoreTerm(terms: seq<Option<Term>>, n: nat)
    requires n < |terms| && AllGood(terms[..n]) && terms[n].Some?
    ensures AllGood(terms[..n + 1])
    ensures AllHalt(terms[..n + 1]) <==> AllHalt(terms[..n]) && Halts(terms[n].value)
    ensures Denoted(terms[..n + 1]) == Denoted(terms[..n]) + Indices(terms[n].value)
  {
    var more := terms[..n + 1];
    assert more[..n] == terms[..n] && more[n] == terms[n];
    assert forall k :: 0 <= k < n ==> more[k] == terms[..n][k];
  }

  lemma RefusalIsFinal(terms: seq<Option<Term>>, n: nat, r: Outcome)
    requires n < |terms| && AllGood(terms[..n]) && AllHalt(terms[..n]) && terms[n].Some? && !r.Parsed?
    requires exists seen :: Added(terms[n].value, Denoted(terms[..n]), seen, r)
    ensures RefusedAt(terms, n, r) && !Acceptable(terms)
  {
    OneMoreTerm(terms, n);
    if AllGood(terms) { PrefixDenotesLess(terms, n + 1); }
  }

  lemma {:induction false} PrefixDenotesLess(terms: seq<Option<Term>>, n: nat)
    requires n <= |terms| && AllGood(terms)
    ensures AllGood(terms[..n]) && Denoted(terms[..n]) <= Denoted(terms) && |Denoted(terms[..n])| <= |Denoted(terms)|
  {
    if n == |terms| {
      assert terms[..n] == terms;
    } else {
      var init := terms[..|terms| - 1];
      assert init[..n] == terms[..n];
      PrefixDenotesLess(init, n);
      SubsetCardinality(Denoted(terms[..n]), Denoted(terms));
    }
  }

  // ----- Printing ----------------------------------------------------------

  function Numerals(xs: seq<int>): seq<string> { seq(|xs|, i requires 0 <= i < |xs| => Itoa(xs[i])) }

  /** The text after --array=: the joined list, and the throttle if there is one. */
  function Printed(xs: seq<int>, throttle: int): string {
    if throttle > 0 then Join(Numerals(xs), ',') + "%" + Itoa(throttle) else Join(Numerals(xs), ',')
  }

  /** joinIntList. */
  method JoinIntList(xs: seq<int>) returns (s: string)
    ensures s == Join(Numerals(xs), ',')
  {
    var parts: seq<string> := [];
    for i := 0 to |xs|
      invariant parts == Numerals(xs)[..i]
    {
      parts := parts + [Itoa(xs[i])];
    }
    assert parts == Numerals(xs);
    s := Join(parts, ',');
  }

  predicate Tidy(s: string) { s != "" && !IsSpace(s[0]) && !IsSpace(s[|s| - 1]) }

  lemma NumeralChars(n: int)
    requires n >= 0
    ensures AllDigits(Itoa(n)) && Tidy(Itoa(n)) && TrimSpace(Itoa(n)) == Itoa(n)
    ensures Free(Itoa(n), ',') && Free(Itoa(n), ':') && Free(Itoa(n), '-') && Free(Itoa(n), '%')
  {
    var s := Itoa(n);
    DigitsAreNotSpace(s[0]);
    DigitsAreNotSpace(s[|s| - 1]);
    TrimIsIdentity(s);
  }

  lemma NumeralTerm(n: int)
    requires 0 <= n <= MAX_INT
    ensures ParseTerm(TrimSpace(Itoa(n))) == Some(Term(n, n, 1))
  {
    NumeralChars(n);
    AtoiItoa(n);
    var s := Itoa(n);
    var i, j := Index(s, ':'), Index(s, '-');
    assert i == -1 && j == -1;
    assert ParseRange(s) == Some((n, n));
    assert ParseStep(s, i) == Some(1);
  }

  /** One-index terms. */
  function Points(xs: seq<int>): seq<Option<Term>> {
    seq(|xs|, i requires 0 <= i < |xs| => Some(Term(xs[i], xs[i], 1)))
  }

  lemma NumeralsArePoints(xs: seq<int>)
    requires xs != [] && forall i :: 0 <= i < |xs| ==> 0 <= xs[i] <= MAX_INT
    ensures Terms(Join(Numerals(xs), ',')) == Points(xs)
  {
    var parts := Numerals(xs);
    forall i | 0 <= i < |parts| ensures Free(parts[i], ',') && ParseTerm(TrimSpace(parts[i])) == Points(xs)[i] {
      NumeralChars(xs[i]);
      NumeralTerm(xs[i]);
    }
    SplitJoin(parts, ',');
  }

  lemma PointDenotes(n: int)
    requires 0 <= n <= MAX_INT
    ensures Halts(Term(n, n, 1)) <==> n < MAX_INT
    ensures n < MAX_INT ==> Indices(Term(n, n, 1)) == {n}
  {
    var t := Term(n, n, 1);
    if n < MAX_INT {
      assert Value(t, 0) == n && Value(t, 1) == n + 1;
      assert Below(t, 1) by { assert forall i: nat :: i < 1 ==> Value(t, i) == Value(t, 0); }
      StopIsAll(t, 1);
      assert Visited(t, 1) == {n};
    } else {
      forall k: nat ensures Value(t, k) <= n { ValueInRange(t, k); }
    }
  }

  lemma {:induction false} PointsDenote(xs: seq<int>)
    requires forall i :: 0 <= i < |xs| ==> 0 <= xs[i] <= MAX_INT
    ensures AllGood(Points(xs)) && (AllHalt(Points(xs)) <==> MAX_INT !in xs)
    ensures MAX_INT !in xs ==> Denoted(Points(xs)) == Elements(xs)
  {
    if xs != [] {
      var n, terms := |xs| - 1, Points(xs);
      PointsDenote(xs[..n]);
      assert terms[..n] == Points(xs[..n]) && terms[..n + 1] == terms;
      OneMoreTerm(terms, n);
      PointDenotes(xs[n]);
      ElementsAppend(xs[..n], xs[n]);
      assert xs == xs[..n] + [xs[n]];
    }
  }

  lemma {:induction false} JoinedChars(xs: seq<int>)
    requires xs != [] && forall i :: 0 <= i < |xs| ==> xs[i] >= 0
    ensures var s := Join(Numerals(xs), ','); Tidy(s) && Free(s, '%')
  {
    hide Itoa, IsSpace;
    NumeralChars(xs[0]);
    if |xs| > 1 {
      JoinedChars(xs[1..]);
      assert Numerals(xs)[1..] == Numerals(xs[1..]);
      var rest := Join(Numerals(xs[1..]), ',');
      assert Join(Numerals(xs), ',') == Itoa(xs[0]) + [','] + rest;
    }
  }

  /** The printed head splits back into list and throttle. */
  lemma PrintedHead(xs: seq<int>, throttle: int)
    requires xs != [] && 0 <= throttle <= MAX_INT && forall i :: 0 <= i < |xs| ==> xs[i] >= 0
    ensures Head(TrimSpace(Printed(xs, throttle))) == Some((Join(Numerals(xs), ','), throttle))
  {
    var list, text := Join(Numerals(xs), ','), Printed(xs, throttle);
    JoinedChars(xs);
    TrimIsIdentity(list);
    if throttle > 0 {
      var n := Itoa(throttle);
      NumeralChars(throttle);
      AtoiItoa(throttle);
      assert text == list + ['%'] + n;
      LastIndexOfLast(list, '%', n);
      assert text[..|list|] == list && text[|list| + 1..] == n;
      TrimIsIdentity(text);
    } else {
      assert LastIndex(list, '%') == -1;
    }
  }

  /** A printed range with a step reads back as that term. */
  function Ranged(t: Term): string { Itoa(t.lo) + ['-'] + Itoa(t.hi) + [':'] + Itoa(t.step) }

  lemma RangedReads(t: Term)
    requires Proper(t)
    ensures Head(TrimSpace(Ranged(t))) == Some((Ranged(t), 0)) && Terms(Ranged(t)) == [Some(t)]
  {
    hide Ranged, TrimSpace, Split, Join, ParseTerm, LastIndex;
    var s := Ranged(t);
    RangedChars(t);
    RangedTerm(t);
    TrimIsIdentity(s);
    assert LastIndex(s, '%') == -1;
    JoinOne(s);
    SplitJoin([s], ',');
  }

  lemma JoinOne(s: string)
    ensures Join([s], ',') == s
  {}

  lemma RangedChars(t: Term)
    requires Proper(t)
    ensures var s := Ranged(t); Tidy(s) && Free(s, ',') && Free(s, '%')
  {
    hide Itoa;
    NumeralChars(t.lo);
    NumeralChars(t.hi);
    NumeralChars(t.step);
    FreeJoined(Itoa(t.lo), '-', Itoa(t.hi), ',');
    FreeJoined(Itoa(t.lo), '-', Itoa(t.hi), '%');
    FreeJoined(Itoa(t.lo) + ['-'] + Itoa(t.hi), ':', Itoa(t.step), ',');
    FreeJoined(Itoa(t.lo) + ['-'] + Itoa(t.hi), ':', Itoa(t.step), '%');
  }

  lemma FreeJoined(a: string, sep: char, b: string, c: char)
    requires Free(a, c) && Free(b, c) && sep != c
    ensures Free(a + [sep] + b, c)
  {}

  lemma RangedTerm(t: Term)
    requires Proper(t)
    ensures ParseTerm(Ranged(t)) == Some(t)
  {
    hide Itoa, Index, TrimSpace, IsSpace, ParseRange;
    var range, step := Itoa(t.lo) + ['-'] + Itoa(t.hi), Itoa(t.step);
    NumeralChars(t.lo);
    NumeralChars(t.hi);
    FreeJoined(Itoa(t.lo), '-', Itoa(t.hi), ':');
    IndexOfFirst(range, ':', step);
    TrimIsIdentity(range);
    RangeReads(t);
    assert Ranged(t)[..|range|] == range && Ranged(t)[|range| + 1..] == step;
  }

  lemma RangeReads(t: Term)
    requires Proper(t)
    ensures ParseRange(Itoa(t.lo) + ['-'] + Itoa(t.hi)) == Some((t.lo, t.hi))
    ensures Atoi(TrimSpace(Itoa(t.step))) == Some(t.step)
  {
    hide Itoa, Index, TrimSpace, Atoi;
    var lo, hi := Itoa(t.lo), Itoa(t.hi);
    NumeralChars(t.lo);
    NumeralChars(t.hi);
    NumeralChars(t.step);
    AtoiItoa(t.lo);
    AtoiItoa(t.hi);
    AtoiItoa(t.step);
    IndexOfFirst(lo, '-', hi);
    var s := lo + ['-'] + hi;
    assert s[..|lo|] == lo && s[|lo| + 1..] == hi;
  }

  const STRAY := Term(9223372036854775800, 9223372036854775802, 4611686018427387905)
  const TURNING := Term(MAX_INT, MAX_INT, 4611686018427387904)

  lemma ValueSteps(t: Term, k: nat)
    ensures Value(t, 0) == t.lo && Value(t, k + 1) == Plus(Value(t, k), t.step)
  {}

  lemma FourBelow(t: Term)
    requires Value(t, 0) <= t.hi && Value(t, 1) <= t.hi && Value(t, 2) <= t.hi && Value(t, 3) <= t.hi
    ensures Below(t, 4) && Visited(t, 4) == {Value(t, 0), Value(t, 1), Value(t, 2), Value(t, 3)}
  {
    hide Value;
    forall i: nat | i < 4 ensures Value(t, i) <= t.hi {
      assert i == 0 || i == 1 || i == 2 || i == 3;
    }
    assert Visited(t, 1) == Visited(t, 0) + {Value(t, 0)} == {Value(t, 0)};
    assert Visited(t, 2) == Visited(t, 1) + {Value(t, 1)};
    assert Visited(t, 3) == Visited(t, 2) + {Value(t, 2)};
    assert Visited(t, 4) == Visited(t, 3) + {Value(t, 3)};
  }

  lemma StrayIndices()
    ensures Halts(STRAY)
    ensures Indices(STRAY) == {9223372036854775800, -4611686018427387911, -6, 4611686018427387899}
  {
    hide Value, Halts, Indices, Below, Visited;
    ValueSteps(STRAY, 0);
    ValueSteps(STRAY, 1);
    ValueSteps(STRAY, 2);
    ValueSteps(STRAY, 3);
    FourBelow(STRAY);
    StopIsAll(STRAY, 4);
  }

  lemma TurningIndices()
    ensures !Halts(TURNING) && |Indices(TURNING)| <= 4
  {
    hide Value, Halts, Indices, Below, Visited;
    ValueSteps(TURNING, 0);
    ValueSteps(TURNING, 1);
    ValueSteps(TURNING, 2);
    ValueSteps(TURNING, 3);
    FourBelow(TURNING);
    CycleIsAll(TURNING, 4);
    SmallSet(Value(TURNING, 0), Value(TURNING, 1), Value(TURNING, 2), Value(TURNING, 3));
  }

  lemma SmallSet(a: int, b: int, c: int, d: int)
    ensures |{a, b, c, d}| <= 4
  {
    assert {a, b, c, d} == {a} + {b} + {c} + {d};
  }

  lemma OneTermDenotes(t: Term)
    ensures AllGood([Some(t)]) && Denoted([Some(t)]) == Indices(t)
    ensures AllHalt([Some(t)]) <==> Halts(t)
  {
    hide Indices, Halts;
    var terms := [Some(t)];
    assert terms[..0] == [] && Denoted(terms[..0]) == {};
    assert terms[0].value == t;
  }

  /** The specification 9223372036854775800-9223372036854775802:4611686018427387905 is accepted, with two negative
      indices. */
  lemma NegativeIndicesAccepted()
    ensures Specifies(Ranged(STRAY), {9223372036854775800, -4611686018427387911, -6, 4611686018427387899}, 0)
  {
    hide Ranged, Head, TrimSpace, Terms, Indices, Halts, Denoted, AllHalt;
    RangedReads(STRAY);
    StrayIndices();
    OneTermDenotes(STRAY);
    SmallSet(9223372036854775800, -4611686018427387911, -6, 4611686018427387899);
  }

  /** Over 9223372036854775807-9223372036854775807:4611686018427387904 the parser never returns. */
  lemma EndlessTerm()
    ensures RefusedAt(Terms(Ranged(TURNING)), 0, Endless)
  {
    hide Ranged, Head, TrimSpace, Terms, Indices, Halts;
    RangedReads(TURNING);
    TurningIndices();
    var terms := [Some(TURNING)];
    assert terms[..0] == [] && Denoted(terms[..0]) == {};
    assert {} + Indices(TURNING) == Indices(TURNING);
  }

  /** Round trip: what was printed specifies the same indices and throttle, for every list whose last index can be
      stepped past. */
  lemma PrintedSpecifies(xs: seq<int>, throttle: int)
    requires xs != [] && Ascending(xs) && |xs| <= MAX_ARRAY_TASKS && 0 <= throttle <= MAX_INT
    requires forall i :: 0 <= i < |xs| ==> 0 <= xs[i] <= MAX_INT
    ensures Specifies(Printed(xs, throttle), Elements(xs), throttle) <==> MAX_INT !in xs
  {
    PrintedHead(xs, throttle);
    NumeralsArePoints(xs);
    PointsDenote(xs);
    DistinctCardinality(xs);
  }

  /** An ascending list is determined by its elements. */
  lemma AscendingUnique(xs: seq<int>, ys: seq<int>)
    requires Ascending(xs) && Ascending(ys) && Elements(xs) == Elements(ys)
    ensures xs == ys
  {
    var less := (a: int, b: int) => a < b;
    ListingUnique(less, Elements(xs), xs, ys);
  }

  /** Print, then parse. */
  method PrintAndParse(xs: seq<int>, throttle: int) returns (r: Outcome)
    requires xs != [] && Ascending(xs) && |xs| <= MAX_ARRAY_TASKS && 0 <= throttle <= MAX_INT
    requires forall i :: 0 <= i < |xs| ==> 0 <= xs[i] <= MAX_INT
    ensures MAX_INT !in xs <==> r == Parsed(xs, throttle)
  {
    var list := JoinIntList(xs);
    r := ParseArraySpec(if throttle > 0 then list + "%" + Itoa(throttle) else list);
    PrintedSpecifies(xs, throttle);
    if r.Parsed? {
      PrintedHead(xs, throttle);
      if MAX_INT !in xs { AscendingUnique(xs, r.indices); }
    }
  }

  // ----- The cap and the throttle, in numbers ------------------------------

  /** A plain range of n indices, starting anywhere, gives n tasks, and is accepted up to 100000 of them. */
  lemma CapExactly(lo: int, n: nat)
    requires 0 < n && 0 <= lo && lo + n - 1 < MAX_INT
    ensures var t := Term(lo, lo + n - 1, 1);
      && Halts(t) && (forall i :: i in Indices(t) <==> lo <= i < lo + n) && |Indices(t)| == n
      && (Acceptable([Some(t)]) <==> n <= 100000)
  {
    var t := Term(lo, lo + n - 1, 1);
    hide Indices, Halts, Acceptable, Below, Visited, Value;
    UnitSteps(t, n);
    UnitSteps(t, n + 1);
    UnitBelow(t, n);
    StopIsAll(t, n);
    OneTermDenotes(t);
    AcceptableOne(t);
  }

  /** A range that runs backwards is malformed, and so is a step that is not positive, or an empty term. */
  lemma BadTerms(lo: nat, hi: nat, step: int)
    requires lo <= MAX_INT && hi <= MAX_INT && MIN_INT <= step <= MAX_INT
    ensures hi < lo ==> ParseRange(Itoa(lo) + ['-'] + Itoa(hi)) == None
    ensures step <= 0 ==> ParseTerm(Itoa(lo) + ['-'] + Itoa(hi) + [':'] + Itoa(step)) == None
    ensures ParseTerm("") == None
  {
    hide Itoa, Index, TrimSpace, Atoi;
    var range := Itoa(lo) + ['-'] + Itoa(hi);
    NumeralChars(lo);
    NumeralChars(hi);
    NumeralTidy(step);
    AtoiItoa(lo);
    AtoiItoa(hi);
    AtoiItoa(step);
    IndexOfFirst(Itoa(lo), '-', Itoa(hi));
    assert range[..|Itoa(lo)|] == Itoa(lo) && range[|Itoa(lo)| + 1..] == Itoa(hi);
    FreeJoined(Itoa(lo), '-', Itoa(hi), ':');
    IndexOfFirst(range, ':', Itoa(step));
    var term := range + [':'] + Itoa(step);
    assert term[..|range|] == range && term[|range| + 1..] == Itoa(step);
  }

  lemma AcceptableOne(t: Term)
    requires AllGood([Some(t)]) && Denoted([Some(t)]) == Indices(t) && (AllHalt([Some(t)]) <==> Halts(t))
    ensures Acceptable([Some(t)]) <==> Halts(t) && |Indices(t)| <= 100000
  {}

  /** With step 1 the first k values are lo, lo + 1, and so on. */
  lemma {:induction false} UnitSteps(t: Term, k: nat)
    requires t.step == 1 && t.lo + k - 1 <= MAX_INT
    ensures k > 0 ==> Value(t, k - 1) == t.lo + k - 1
    ensures |Visited(t, k)| == k && forall i :: i in Visited(t, k) <==> t.lo <= i < t.lo + k
  {
    if k > 0 { UnitSteps(t, k - 1); }
  }

  lemma UnitBelow(t: Term, n: nat)
    requires t.step == 1 && t.hi == t.lo + n - 1 && t.hi <= MAX_INT
    ensures Below(t, n)
  {
    forall i: nat | i < n ensures Value(t, i) <= t.hi { UnitSteps(t, i + 1); }
  }

  /** Behind the last percent sign stands the throttle, which must be positive. */
  lemma ThrottleReads(body: string, n: int)
    requires Tidy(body) && MIN_INT <= n <= MAX_INT
    ensures Head(body + "%" + Itoa(n)) == if n > 0 then Some((body, n)) else None
    ensures Free(body, '%') ==> Head(body) == Some((body, 0))
  {
    hide Itoa, IsSpace, TrimSpace;
    var number := Itoa(n);
    NumeralTidy(n);
    AtoiItoa(n);
    var text := body + ['%'] + number;
    assert body + "%" + number == text;
    LastIndexOfLast(body, '%', number);
    assert text[..|body|] == body && text[|body| + 1..] == number;
    TrimIsIdentity(body);
  }

  lemma NumeralTidy(n: int)
    ensures Free(Itoa(n), '%') && TrimSpace(Itoa(n)) == Itoa(n)
  {
    if n >= 0 {
      NumeralChars(n);
    } else {
      var s := Itoa(n);
      assert s[0] == '-' && s[1..] == NatToString(-n);
      assert forall i :: 0 < i < |s| ==> s[i] == s[1..][i - 1];
      DigitsAreNotSpace(s[|s| - 1]);
      TrimIsIdentity(s);
    }
  }
}
