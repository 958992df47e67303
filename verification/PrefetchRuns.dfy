/**
 * Any number of goroutines using the cache at once (internal/audit/prefetch.go:267-392, 424-476):
 * the lock sections of Fetch, Release and Prune in any order.
 */
module PrefetchRuns {
  import opened Basics
  import opened CacheNames
  import opened Prefetch

  /** Where a call of Fetch that was admitted is: waiting for a slot, downloading, done with the
      slot still held, or about to clear inWork. */
  datatype Phase = Waiting | Loading | Landed | Ending

  datatype Job = Job(id: Id, phase: Phase)

  /** The shared maps, and the calls of Fetch admitted and not yet returned. */
  datatype World = World(c: Cache, jobs: seq<Job>)

  /** One goroutine's step. */
  datatype Event =
    | Call(id: Id)
    | Quit(i: nat)
    | Start(i: nat)
    | Land(i: nat, n: nat)
    | Break(i: nat)
    | Finish(i: nat)
    | Return(i: nat)
    | Free(id: Id)
    | Trim(ents: seq<Name>)

  predicate Slotted(j: Job) {
    j.phase in {Loading, Landed}
  }

  predicate Pending(j: Job) {
    j.phase in {Waiting, Loading}
  }

  function CountIf(p: Job -> bool, jobs: seq<Job>): (n: nat)
    ensures n <= |jobs|
  {
    if jobs == [] then 0 else (if p(jobs[0]) then 1 else 0) + CountIf(p, jobs[1..])
  }

  predicate AtPhase(w: World, i: nat, phase: Phase) {
    i < |w.jobs| && w.jobs[i].phase == phase
  }

  /** When the step can be taken; slots is the semaphore's size. */
  predicate Enabled(slots: nat, w: World, e: Event) {
    match e
    case Call(_) => true
    case Quit(i) => AtPhase(w, i, Waiting)
    case Start(i) => AtPhase(w, i, Waiting) && CountIf(Slotted, w.jobs) < slots
    case Land(i, _) => AtPhase(w, i, Loading)
    case Break(i) => AtPhase(w, i, Loading)
    case Finish(i) => AtPhase(w, i, Landed)
    case Return(i) => AtPhase(w, i, Ending)
    case Free(_) => true
    case Trim(ents) => Prunable(w.c, ents)
  }

  function MoveTo(w: World, i: nat, phase: Phase): seq<Job>
    requires i < |w.jobs|
  {
    w.jobs[i := Job(w.jobs[i].id, phase)]
  }

  function Apply(g: Config, slots: nat, w: World, e: Event): World
    requires Enabled(slots, w, e)
  {
    match e
    case Call(id) =>
      World(Admit(g, w.c, id), if Refuses(g, w.c, KeyOf(g, id)) then w.jobs else w.jobs + [Job(id, Waiting)])
    case Quit(i) => World(w.c, MoveTo(w, i, Ending))
    case Start(i) => World(w.c, MoveTo(w, i, Loading))
    case Land(i, n) => World(Store(g, w.c, w.jobs[i].id, n), MoveTo(w, i, Landed))
    case Break(i) => World(w.c, MoveTo(w, i, Ending))
    case Finish(i) => World(w.c, MoveTo(w, i, Ending))
    case Return(i) => World(Clear(g, w.c, w.jobs[i].id), Without(w.jobs, i))
    case Free(id) => World(Release(g, w.c, id), w.jobs)
    case Trim(ents) => World(Prune(g, w.c, ents), w.jobs)
  }

  // ----- the invariant

  ghost predicate InFlight(g: Config, jobs: seq<Job>, k: Name) {
    exists i :: 0 <= i < |jobs| && KeyOf(g, jobs[i].id) == k
  }

  /** inWork is the proofs of the calls in flight, each of which has its own, and no proof still
      being fetched is held. */
  ghost predicate JobsMatch(g: Config, w: World) {
    && (forall i, j | 0 <= i < j < |w.jobs| :: KeyOf(g, w.jobs[i].id) != KeyOf(g, w.jobs[j].id))
    && (forall k :: k in w.c.inWork <==> InFlight(g, w.jobs, k))
    && (forall i | 0 <= i < |w.jobs| && Pending(w.jobs[i]) :: KeyOf(g, w.jobs[i].id) !in w.c.cached)
  }

  ghost predicate Inv(g: Config, slots: nat, used: set<Origin>, w: World) {
    && Prefetch.Valid(g, w.c)
    && JobsMatch(g, w)
    && (forall i | 0 <= i < |w.jobs| :: w.jobs[i].id.origin in used)
    && CountIf(Slotted, w.jobs) <= slots
  }

  ghost predicate Uses(used: set<Origin>, e: Event) {
    match e
    case Call(id) => id.origin in used
    case Free(id) => id.origin in used
    case _ => true
  }

  lemma {:induction false} CountMoved(p: Job -> bool, jobs: seq<Job>, i: nat, j: Job)
    requires i < |jobs|
    ensures CountIf(p, jobs[i := j]) == CountIf(p, jobs) - (if p(jobs[i]) then 1 else 0) + if p(j) then 1 else 0
  {
    if i > 0 {
      assert jobs[i := j][1..] == jobs[1..][i - 1 := j];
      CountMoved(p, jobs[1..], i - 1, j);
    }
  }

  lemma {:induction false} CountAdded(p: Job -> bool, jobs: seq<Job>, j: Job)
    ensures CountIf(p, jobs + [j]) == CountIf(p, jobs) + if p(j) then 1 else 0
  {
    if jobs == [] {
      assert jobs + [j] == [j];
    } else {
      assert (jobs + [j])[1..] == jobs[1..] + [j];
      CountAdded(p, jobs[1..], j);
    }
  }

  lemma {:induction false} CountRemoved(p: Job -> bool, jobs: seq<Job>, i: nat)
    requires i < |jobs|
    ensures CountIf(p, jobs[..i] + jobs[i + 1..]) == CountIf(p, jobs) - if p(jobs[i]) then 1 else 0
  {
    if i == 0 {
      assert jobs[..0] + jobs[1..] == jobs[1..];
    } else {
      assert (jobs[..i] + jobs[i + 1..])[0] == jobs[0];
      assert (jobs[..i] + jobs[i + 1..])[1..] == jobs[1..][..i - 1] + jobs[1..][i..];
      CountRemoved(p, jobs[1..], i - 1);
    }
  }

  // ----- each step keeps it

  lemma {:induction false} MoveKeeps(g: Config, slots: nat, used: set<Origin>, w: World, i: nat, phase: Phase)
    requires Inv(g, slots, used, w) && i < |w.jobs|
    requires phase in {Waiting, Loading} ==> Pending(w.jobs[i])
    requires Slotted(Job(w.jobs[i].id, phase)) && !Slotted(w.jobs[i]) ==> CountIf(Slotted, w.jobs) < slots
    ensures Inv(g, slots, used, World(w.c, MoveTo(w, i, phase)))
  {
    CountMoved(Slotted, w.jobs, i, Job(w.jobs[i].id, phase));
    forall k ensures k in w.c.inWork <==> InFlight(g, MoveTo(w, i, phase), k) {
      MovedFlies(g, w, i, phase, k);
    }
  }

  lemma {:induction false} MovedFlies(g: Config, w: World, i: nat, phase: Phase, k: Name)
    requires i < |w.jobs|
    ensures InFlight(g, MoveTo(w, i, phase), k) <==> InFlight(g, w.jobs, k)
  {
    var js := MoveTo(w, i, phase);
    if j :| 0 <= j < |w.jobs| && KeyOf(g, w.jobs[j].id) == k { assert KeyOf(g, js[j].id) == k; }
    if j :| 0 <= j < |js| && KeyOf(g, js[j].id) == k { assert KeyOf(g, w.jobs[j].id) == k; }
  }

  lemma {:induction false} CallAdds(g: Config, w: World, id: Id, q: Name)
    requires JobsMatch(g, w)
    ensures q in w.c.inWork + {KeyOf(g, id)} <==> InFlight(g, w.jobs + [Job(id, Waiting)], q)
  {
    var js := w.jobs + [Job(id, Waiting)];
    if q == KeyOf(g, id) { assert KeyOf(g, js[|w.jobs|].id) == q; }
    if q in w.c.inWork {
      var j :| 0 <= j < |w.jobs| && KeyOf(g, w.jobs[j].id) == q;
      assert KeyOf(g, js[j].id) == q;
    }
  }

  lemma {:induction false} CallMatches(g: Config, w: World, id: Id)
    requires JobsMatch(g, w) && !Refuses(g, w.c, KeyOf(g, id))
    ensures JobsMatch(g, World(Admit(g, w.c, id), w.jobs + [Job(id, Waiting)]))
  {
    var k, js := KeyOf(g, id), w.jobs + [Job(id, Waiting)];
    forall q ensures q in w.c.inWork + {k} <==> InFlight(g, js, q) { CallAdds(g, w, id, q); }
    forall i | 0 <= i < |w.jobs| ensures KeyOf(g, w.jobs[i].id) != k {
      assert InFlight(g, w.jobs, KeyOf(g, w.jobs[i].id));
    }
  }

  lemma {:induction false} CallKeeps(g: Config, slots: nat, used: set<Origin>, w: World, id: Id)
    requires Inv(g, slots, used, w) && id.origin in used
    ensures Inv(g, slots, used, Apply(g, slots, w, Call(id)))
  {
    if !Refuses(g, w.c, KeyOf(g, id)) {
      CountAdded(Slotted, w.jobs, Job(id, Waiting));
      CallMatches(g, w, id);
    }
  }

  lemma {:induction false} LandKeeps(g: Config, slots: nat, used: set<Origin>, w: World, i: nat, n: nat)
    requires Inv(g, slots, used, w) && Apart(g.sum, g.origins, used) && AtPhase(w, i, Loading)
    ensures Inv(g, slots, used, Apply(g, slots, w, Land(i, n)))
  {
    StoreKeeps(g, w.c, used, w.jobs[i].id, n);
    var c, js := Store(g, w.c, w.jobs[i].id, n), MoveTo(w, i, Landed);
    MoveKeeps(g, slots, used, w, i, Landed);
    forall j | 0 <= j < |js| && Pending(js[j]) ensures KeyOf(g, js[j].id) !in c.cached {
      assert js[j] == w.jobs[j] && j != i;
    }
  }

  lemma {:induction false} ReturnClears(g: Config, w: World, i: nat, q: Name)
    requires JobsMatch(g, w) && i < |w.jobs|
    ensures q in w.c.inWork - {KeyOf(g, w.jobs[i].id)} <==> InFlight(g, Without(w.jobs, i), q)
  {
    var js := Without(w.jobs, i);
    if q in w.c.inWork && q != KeyOf(g, w.jobs[i].id) {
      var j :| 0 <= j < |w.jobs| && KeyOf(g, w.jobs[j].id) == q;
      assert js[if j < i then j else j - 1] == w.jobs[j];
    }
  }

  lemma {:induction false} ReturnMatches(g: Config, w: World, i: nat)
    requires JobsMatch(g, w) && i < |w.jobs|
    ensures JobsMatch(g, World(Clear(g, w.c, w.jobs[i].id), Without(w.jobs, i)))
  {
    forall q ensures q in w.c.inWork - {KeyOf(g, w.jobs[i].id)} <==> InFlight(g, Without(w.jobs, i), q) {
      ReturnClears(g, w, i, q);
    }
  }

  lemma {:induction false} ReturnKeeps(g: Config, slots: nat, used: set<Origin>, w: World, i: nat)
    requires Inv(g, slots, used, w) && AtPhase(w, i, Ending)
    ensures Inv(g, slots, used, Apply(g, slots, w, Return(i)))
  {
    CountRemoved(Slotted, w.jobs, i);
    ReturnMatches(g, w, i);
    ReturnUses(used, w.jobs, i);
  }

  lemma {:induction false} ReturnUses(used: set<Origin>, jobs: seq<Job>, i: nat)
    requires i < |jobs| && forall j | 0 <= j < |jobs| :: jobs[j].id.origin in used
    ensures forall j | 0 <= j < |Without(jobs, i)| :: Without(jobs, i)[j].id.origin in used
  {
  }

  lemma {:induction false} DropsKeep(g: Config, slots: nat, used: set<Origin>, w: World, c: Cache)
    requires Inv(g, slots, used, w) && Prefetch.Valid(g, c)
    requires c.inWork == w.c.inWork && c.cached.Keys <= w.c.cached.Keys
    ensures Inv(g, slots, used, World(c, w.jobs))
  {
    forall i | 0 <= i < |w.jobs| && Pending(w.jobs[i]) ensures KeyOf(g, w.jobs[i].id) !in c.cached {
      assert KeyOf(g, w.jobs[i].id) !in w.c.cached.Keys;
    }
  }

  lemma {:induction false} StepKeeps(g: Config, slots: nat, used: set<Origin>, w: World, e: Event)
    requires Inv(g, slots, used, w) && Apart(g.sum, g.origins, used) && Enabled(slots, w, e) && Uses(used, e)
    ensures Inv(g, slots, used, Apply(g, slots, w, e))
  {
    match e
    case Call(id) => CallKeeps(g, slots, used, w, id);
    case Quit(i) => MoveKeeps(g, slots, used, w, i, Ending);
    case Start(i) => MoveKeeps(g, slots, used, w, i, Loading);
    case Land(i, n) => LandKeeps(g, slots, used, w, i, n);
    case Break(i) => MoveKeeps(g, slots, used, w, i, Ending);
    case Finish(i) => MoveKeeps(g, slots, used, w, i, Ending);
    case Return(i) => ReturnKeeps(g, slots, used, w, i);
    case Free(id) =>
      ReleaseKeeps(g, w.c, used, id);
      DropsKeep(g, slots, used, w, Release(g, w.c, id));
    case Trim(ents) =>
      PruneKeeps(g, w.c, used, ents);
      PruneShrinks(g, w.c, ents);
      DropsKeep(g, slots, used, w, Prune(g, w.c, ents));
  }

  // ----- overshoot

  /** What the calls not pending may leave held. */
  function ToCome(most: nat, size: nat, pending: int): int {
    (most - pending) * size
  }

  /** With at most most calls pending, downloads of at most size, and b bytes held at the start: the
      bytes held are under the limit set, ten gigabytes if none is, but for what is still to come. */
  ghost predicate Bounded(g: Config, b: int, most: nat, size: nat, w: World) {
    var limit: int := if g.maxBytes > 0 then g.maxBytes else 10 * 1024 * 1024 * 1024;
    w.c.bytes < Max(limit, b + 1) + ToCome(most, size, CountIf(Pending, w.jobs))
  }

  /** The step's download is no larger than size, and leaves at most most calls pending. */
  ghost predicate Within(g: Config, slots: nat, most: nat, size: nat, w: World, e: Event)
    requires Enabled(slots, w, e)
  {
    && (e.Land? ==> e.n <= size)
    && CountIf(Pending, Apply(g, slots, w, e).jobs) <= most
  }

  lemma {:induction false} More(most: nat, size: nat, p: int, q: int)
    requires p <= q
    ensures ToCome(most, size, q) <= ToCome(most, size, p)
    ensures p + 1 == q ==> ToCome(most, size, q) + size == ToCome(most, size, p)
    ensures q == most ==> ToCome(most, size, q) == 0
  {
    assert (most - p) * size == (most - q) * size + (q - p) * size;
    assert (q - p) * size >= 0;
  }

  lemma {:induction false} DropsShrink(g: Config, c: Cache, ents: seq<Name>)
    requires Prunable(c, ents)
    ensures Prune(g, c, ents).bytes <= c.bytes
    decreases |ents|
  {
    if c.bytes > Cap(g) && ents != [] { DropsShrink(g, Drop(g, c, ents[0]), ents[1..]); }
  }

  lemma {:induction false} StepBounded(g: Config, slots: nat, b: int, most: nat, size: nat, w: World, e: Event)
    requires Bounded(g, b, most, size, w) && Enabled(slots, w, e) && Within(g, slots, most, size, w, e)
    ensures Bounded(g, b, most, size, Apply(g, slots, w, e))
  {
    var p, u := CountIf(Pending, w.jobs), Apply(g, slots, w, e);
    var q := CountIf(Pending, u.jobs);
    match e
    case Call(id) =>
      if !Refuses(g, w.c, KeyOf(g, id)) {
        CountAdded(Pending, w.jobs, Job(id, Waiting));
        More(most, size, q, most);
      }
    case Return(i) =>
      CountRemoved(Pending, w.jobs, i);
    case Free(id) =>
    case Trim(ents) =>
      DropsShrink(g, w.c, ents);
    case Start(i) =>
      CountMoved(Pending, w.jobs, i, Job(w.jobs[i].id, Loading));
    case Finish(i) =>
      CountMoved(Pending, w.jobs, i, Job(w.jobs[i].id, Ending));
    case Land(i, n) =>
      CountMoved(Pending, w.jobs, i, Job(w.jobs[i].id, Landed));
      More(most, size, q, p);
    case Quit(i) =>
      CountMoved(Pending, w.jobs, i, Job(w.jobs[i].id, Ending));
      More(most, size, q, p);
    case Break(i) =>
      CountMoved(Pending, w.jobs, i, Job(w.jobs[i].id, Ending));
      More(most, size, q, p);
  }

  // ----- runs

  /** The world after each step of a run, the first being w. */
  ghost predicate Run(g: Config, slots: nat, used: set<Origin>, w: World, es: seq<Event>)
    decreases |es|
  {
    es == []
    || (Enabled(slots, w, es[0]) && Uses(used, es[0]) && Run(g, slots, used, Apply(g, slots, w, es[0]), es[1..]))
  }

  function EndOf(g: Config, slots: nat, used: set<Origin>, w: World, es: seq<Event>): World
    requires Run(g, slots, used, w, es)
    decreases |es|
  {
    if es == [] then w else EndOf(g, slots, used, Apply(g, slots, w, es[0]), es[1..])
  }

  ghost predicate AllWithin(g: Config, slots: nat, used: set<Origin>, most: nat, size: nat, w: World, es: seq<Event>)
    requires Run(g, slots, used, w, es)
    decreases |es|
  {
    es == [] || (Within(g, slots, most, size, w, es[0])
                 && AllWithin(g, slots, used, most, size, Apply(g, slots, w, es[0]), es[1..]))
  }

  lemma {:induction false} RunKeeps(g: Config, slots: nat, used: set<Origin>, w: World, es: seq<Event>)
    requires Inv(g, slots, used, w) && Apart(g.sum, g.origins, used) && Run(g, slots, used, w, es)
    ensures Inv(g, slots, used, EndOf(g, slots, used, w, es))
    decreases |es|
  {
    if es != [] {
      StepKeeps(g, slots, used, w, es[0]);
      RunKeeps(g, slots, used, Apply(g, slots, w, es[0]), es[1..]);
    }
  }

  lemma {:induction false} RunBounded(g: Config, slots: nat, used: set<Origin>, b: int, most: nat, size: nat,
          w: World, es: seq<Event>)
    requires Run(g, slots, used, w, es) && AllWithin(g, slots, used, most, size, w, es) && Bounded(g, b, most, size, w)
    ensures Bounded(g, b, most, size, EndOf(g, slots, used, w, es))
    decreases |es|
  {
    if es != [] {
      StepBounded(g, slots, b, most, size, w, es[0]);
      RunBounded(g, slots, used, b, most, size, Apply(g, slots, w, es[0]), es[1..]);
    }
  }

  // ----- one call of Fetch, undisturbed

  /** From the call of Fetch to its return, the download being of n bytes. */
  function Delivery(id: Id, j: nat, n: nat): seq<Event> {
    [Call(id), Start(j), Land(j, n), Finish(j), Return(j)]
  }

  /** The same, the download failing. */
  function Failure(id: Id, j: nat): seq<Event> {
    [Call(id), Start(j), Break(j), Return(j)]
  }

  lemma {:induction false} StepsOf(g: Config, slots: nat, used: set<Origin>, w: World, e: Event, es: seq<Event>)
    requires Enabled(slots, w, e) && Uses(used, e) && Run(g, slots, used, Apply(g, slots, w, e), es)
    ensures Run(g, slots, used, w, [e] + es)
    ensures EndOf(g, slots, used, w, [e] + es) == EndOf(g, slots, used, Apply(g, slots, w, e), es)
  {
    assert ([e] + es)[1..] == es;
  }

  lemma {:induction false} OneStep(g: Config, slots: nat, used: set<Origin>, w: World, e: Event)
    requires Enabled(slots, w, e) && Uses(used, e)
    ensures Run(g, slots, used, w, [e]) && EndOf(g, slots, used, w, [e]) == Apply(g, slots, w, e)
  {
    var u := Apply(g, slots, w, e);
    assert [e][1..] == [] && Run(g, slots, used, u, []) && EndOf(g, slots, used, u, []) == u;
  }

  /** The cache, and the jobs with one more. */
  function With(c: Cache, jobs: seq<Job>, id: Id, phase: Phase): World {
    World(c, jobs + [Job(id, phase)])
  }

  lemma {:induction false} CallPlaces(g: Config, slots: nat, w: World, id: Id)
    requires !Refuses(g, w.c, KeyOf(g, id)) && CountIf(Slotted, w.jobs) < slots
    ensures Apply(g, slots, w, Call(id)) == With(Admit(g, w.c, id), w.jobs, id, Waiting)
    ensures Enabled(slots, With(Admit(g, w.c, id), w.jobs, id, Waiting), Start(|w.jobs|))
  {
    CountAdded(Slotted, w.jobs, Job(id, Waiting));
  }

  /** The steps of the last job. */
  lemma {:induction false} LastMoves(g: Config, slots: nat, c: Cache, jobs: seq<Job>, id: Id, n: nat)
    ensures var j := |jobs|;
            && (Enabled(slots, With(c, jobs, id, Waiting), Start(j)) ==>
                Apply(g, slots, With(c, jobs, id, Waiting), Start(j)) == With(c, jobs, id, Loading))
            && Apply(g, slots, With(c, jobs, id, Loading), Land(j, n)) == With(Store(g, c, id, n), jobs, id, Landed)
            && Apply(g, slots, With(c, jobs, id, Loading), Break(j)) == With(c, jobs, id, Ending)
            && Apply(g, slots, With(c, jobs, id, Landed), Finish(j)) == With(c, jobs, id, Ending)
            && Apply(g, slots, With(c, jobs, id, Ending), Return(j)) == World(Clear(g, c, id), jobs)
  {
    forall a: Job, b: Job ensures (jobs + [a])[|jobs| := b] == jobs + [b] && Without(jobs + [a], |jobs|) == jobs { }
  }

  lemma {:induction false} DeliveryRuns(g: Config, slots: nat, used: set<Origin>, w: World, id: Id, n: nat)
    requires !Refuses(g, w.c, KeyOf(g, id)) && CountIf(Slotted, w.jobs) < slots && id.origin in used
    ensures var es, d := Delivery(id, |w.jobs|, n), Store(g, Admit(g, w.c, id), id, n);
            Run(g, slots, used, w, es) && EndOf(g, slots, used, w, es) == World(Clear(g, d, id), w.jobs)
  {
    var j, c, d := |w.jobs|, Admit(g, w.c, id), Store(g, Admit(g, w.c, id), id, n);
    CallPlaces(g, slots, w, id);
    LastMoves(g, slots, c, w.jobs, id, n);
    LastMoves(g, slots, d, w.jobs, id, n);
    OneStep(g, slots, used, With(d, w.jobs, id, Ending), Return(j));
    var two := [Finish(j)] + [Return(j)];
    StepsOf(g, slots, used, With(d, w.jobs, id, Landed), Finish(j), [Return(j)]);
    var three := [Land(j, n)] + two;
    StepsOf(g, slots, used, With(c, w.jobs, id, Loading), Land(j, n), two);
    var four := [Start(j)] + three;
    StepsOf(g, slots, used, With(c, w.jobs, id, Waiting), Start(j), three);
    StepsOf(g, slots, used, w, Call(id), four);
    assert Delivery(id, j, n) == [Call(id)] + four;
  }

  /** A fetch that is admitted with a slot free can run to its end, and then the proof is held, ready and
      counted, and no longer in flight. */
  lemma {:induction false} FetchDelivers(g: Config, slots: nat, used: set<Origin>, w: World, id: Id, n: nat)
    requires !Refuses(g, w.c, KeyOf(g, id)) && CountIf(Slotted, w.jobs) < slots && id.origin in used
    ensures Run(g, slots, used, w, Delivery(id, |w.jobs|, n))
    ensures var d := EndOf(g, slots, used, w, Delivery(id, |w.jobs|, n));
            && d.jobs == w.jobs && d.c.inWork == w.c.inWork && d.c.bytes == w.c.bytes + n
            && d.c.cached == w.c.cached[KeyOf(g, id) := n] && id.epoch in ReadyOf(d.c.ready, id.origin)
  {
    DeliveryRuns(g, slots, used, w, id, n);
    assert w.c.inWork + {KeyOf(g, id)} - {KeyOf(g, id)} == w.c.inWork;
  }

  /** And one whose download fails leaves everything as it was. */
  lemma {:induction false} FailureLeavesNothing(g: Config, slots: nat, used: set<Origin>, w: World, id: Id)
    requires !Refuses(g, w.c, KeyOf(g, id)) && CountIf(Slotted, w.jobs) < slots && id.origin in used
    ensures var es := Failure(id, |w.jobs|); Run(g, slots, used, w, es) && EndOf(g, slots, used, w, es) == w
  {
    var j, c := |w.jobs|, Admit(g, w.c, id);
    CallPlaces(g, slots, w, id);
    LastMoves(g, slots, c, w.jobs, id, 0);
    assert Clear(g, c, id).inWork == w.c.inWork;
    OneStep(g, slots, used, With(c, w.jobs, id, Ending), Return(j));
    var two := [Break(j)] + [Return(j)];
    StepsOf(g, slots, used, With(c, w.jobs, id, Loading), Break(j), [Return(j)]);
    var three := [Start(j)] + two;
    StepsOf(g, slots, used, With(c, w.jobs, id, Waiting), Start(j), two);
    StepsOf(g, slots, used, w, Call(id), three);
    assert Failure(id, j) == [Call(id)] + three;
  }

  /** Whatever the goroutines do, in whatever order, from a cache adopted from distinct canonical
      names: bytes is the sum of the cached sizes, ready agrees with cached for every configured
      origin, no proof is being fetched twice, at most slots downloads hold a slot, and bytes is
      under the cap by all but the downloads still to land, or was over it to begin with. */
  lemma {:induction false} CacheIsSafe(g: Config, slots: nat, used: set<Origin>, files: seq<File>, most: nat,
          size: nat, es: seq<Event>)
    requires Apart(g.sum, g.origins, used) && DistinctFiles(files)
    requires forall i | 0 <= i < |files| :: Canonical(g.sum, g.origins, files[i].base)
    requires Run(g, slots, used, World(AdoptAll(g, files), []), es)
    requires AllWithin(g, slots, used, most, size, World(AdoptAll(g, files), []), es)
    ensures var w := EndOf(g, slots, used, World(AdoptAll(g, files), []), es);
            && w.c.bytes == Total(w.c.cached)
            && Agrees(g, w.c)
            && (forall i, j | 0 <= i < j < |w.jobs| :: KeyOf(g, w.jobs[i].id) != KeyOf(g, w.jobs[j].id))
            && CountIf(Slotted, w.jobs) <= slots
            && Bounded(g, AdoptAll(g, files).bytes, most, size, w)
  {
    var c := AdoptAll(g, files);
    AdoptIsExact(g, files);
    forall i | 0 <= i < |files| && SplitKey(g.sum, g.origins, files[i].base).Some?
      ensures var id := SplitKey(g.sum, g.origins, files[i].base).value;
              exists j :: 0 <= j < |files| && files[j].base == CacheKey(g.sum, id.origin, id.epoch)
    {
      assert Canonical(g.sum, g.origins, files[i].base);
    }
    AdoptAgreesExactly(g, used, files);
    forall k | k in c.cached ensures Canonical(g.sum, g.origins, k) {
      AdoptHolds(g, files, k, Id("", 0));
    }
    AdoptWaits(g, files);
    RunKeeps(g, slots, used, World(c, []), es);
    More(most, size, 0, most);
    RunBounded(g, slots, used, c.bytes, most, size, World(c, []), es);
  }

  lemma {:induction false} AdoptWaits(g: Config, files: seq<File>)
    ensures AdoptAll(g, files).inWork == {} && AdoptAll(g, files).bytes >= 0
    decreases |files|
  {
    if files != [] { AdoptWaits(g, files[..|files| - 1]); }
  }
}
