/** The two worker pools: `mapConcurrent` and the reader of runtime sources. Workers share a
    next index and interleave at their awaits; a schedule says whose call settles next. */
module WorkerPools {
  import opened Options

  /** What becomes of the call for one index. */
  datatype Answer<R, E> = Stored(value: R) | Dropped | Rejected(error: E)

  /** The work: how many items, which are passed over without a call, and what each call,
      made once at most, comes to. */
  datatype Job<!R, !E> = Job(n: nat, skip: nat -> bool, answer: nat -> Answer<R, E>)

  /** At the head of its loop, awaiting a call, returned, or rejected. */
  datatype Worker<E> = Ready | Busy(index: nat) | Done | Failed(error: E)

  /** `calls` and `settled` record the calls made, in order, and those that have settled;
      `rejected` is the first rejection. */
  datatype Pool<R, E> = Pool(
    next: nat, workers: seq<Worker<E>>, results: seq<Option<R>>,
    calls: seq<nat>, settled: set<nat>, rejected: Option<E>)

  // ----- the steps

  /** The first index from `i` on that needs a call, or `n`. */
  function FirstFrom<R, E>(job: Job<R, E>, i: nat): (r: nat)
    requires i <= job.n
    ensures i <= r <= job.n
    ensures forall j :: i <= j < r ==> job.skip(j)
    ensures r < job.n ==> !job.skip(r)
    decreases job.n - i
  {
    if i == job.n || !job.skip(i) then i else FirstFrom(job, i + 1)
  }

  /** A worker back at the head of its loop claims an index, or finishes. */
  function Claim<R, E>(job: Job<R, E>, p: Pool<R, E>, w: nat): Pool<R, E>
    requires w < |p.workers| && p.next <= job.n
  {
    var i := FirstFrom(job, p.next);
    if i < job.n then p.(next := i + 1, workers := p.workers[w := Busy(i)], calls := p.calls + [i])
    else p.(next := i, workers := p.workers[w := Done])
  }

  /** Worker `w` takes up the outcome of the call it awaits. */
  function Release<R, E>(job: Job<R, E>, p: Pool<R, E>, w: nat): Pool<R, E>
    requires w < |p.workers| && p.workers[w].Busy? && p.workers[w].index < |p.results|
  {
    var i := p.workers[w].index;
    var q := p.(settled := p.settled + {i}, workers := p.workers[w := Ready]);
    match job.answer(i)
    case Stored(v) => q.(results := p.results[i := Some(v)])
    case Dropped => q
    case Rejected(e) =>
      q.(workers := p.workers[w := Failed(e)],
         rejected := if p.rejected.None? then Some(e) else p.rejected)
  }

  /** The call worker `w` awaits settles, and `w` runs on to its next await. */
  function Settle<R, E>(job: Job<R, E>, p: Pool<R, E>, w: nat): Pool<R, E>
    requires w < |p.workers| && p.workers[w].Busy? && p.workers[w].index < |p.results|
    requires p.next <= job.n
  {
    var q := Release(job, p, w);
    if q.workers[w].Ready? then Claim(job, q, w) else q
  }

  /** Before any worker has started. */
  function Fresh<R, E>(job: Job<R, E>, count: nat): Pool<R, E> {
    Pool(0, seq(count, _ => Ready), seq(job.n, _ => None), [], {}, None)
  }

  /** The first `k` workers have run to their first await. */
  function Start<R, E>(job: Job<R, E>, count: nat, k: nat): (p: Pool<R, E>)
    requires k <= count
    ensures |p.workers| == count && p.next <= job.n
  {
    if k == 0 then Fresh(job, count) else Claim(job, Start(job, count, k - 1), k - 1)
  }

  predicate Awaits<R, E>(p: Pool<R, E>, w: nat) {
    w < |p.workers| && p.workers[w].Busy?
  }

  /** No call is in flight, so nothing more happens. */
  predicate Idle<R, E>(p: Pool<R, E>) {
    forall w :: 0 <= w < |p.workers| ==> !p.workers[w].Busy?
  }

  // ----- what every step keeps

  function Called<R, E>(p: Pool<R, E>): set<nat> {
    set i | i in p.calls
  }

  function InFlight<E>(workers: seq<Worker<E>>): set<nat> {
    set w | 0 <= w < |workers| && workers[w].Busy? :: workers[w].index
  }

  ghost predicate Ascending(s: seq<nat>) {
    forall i, j :: 0 <= i < j < |s| ==> s[i] < s[j]
  }

  /** What the sequential program would store for index `i`. */
  function Expected<R, E>(job: Job<R, E>, i: nat): Option<R> {
    if job.skip(i) then None
    else match job.answer(i)
      case Stored(v) => Some(v)
      case _ => None
  }

  /** Indices are claimed in order, and none twice. */
  ghost predicate InOrder<R, E>(job: Job<R, E>, next: nat, calls: seq<nat>) {
    && next <= job.n
    && Ascending(calls)
    && (forall i :: i in calls <==> 0 <= i < next && !job.skip(i))
  }

  /** A result is stored when, and only when, its call has settled. */
  ghost predicate Reported<R, E>(job: Job<R, E>, settled: set<nat>, results: seq<Option<R>>) {
    && |results| == job.n
    && forall i :: 0 <= i < job.n ==> results[i] == if i in settled then Expected(job, i) else None
  }

  /** The first rejection is one of the settled calls'. */
  ghost predicate FirstRejection<R(!new), E(!new)>(job: Job<R, E>, settled: set<nat>, rejected: Option<E>) {
    && (rejected.None? ==> forall i :: i in settled ==> !job.answer(i).Rejected?)
    && (rejected.Some? ==> exists i :: i in settled && job.answer(i) == Rejected(rejected.value))
  }

  /** The calls in flight are the workers' own, each with one worker. */
  ghost predicate Staffed<E(!new)>(workers: seq<Worker<E>>, open: set<nat>) {
    InFlight(workers) == open && OneEach(workers)
  }

  ghost predicate Returned<E(!new)>(workers: seq<Worker<E>>, exhausted: bool, rejected: Option<E>) {
    && (forall w :: 0 <= w < |workers| && workers[w].Done? ==> exhausted)
    && (rejected.Some? <==> exists w :: 0 <= w < |workers| && workers[w].Failed?)
  }

  ghost predicate Inv<R(!new), E(!new)>(job: Job<R, E>, p: Pool<R, E>) {
    && InOrder(job, p.next, p.calls)
    && p.settled <= Called(p)
    && Reported(job, p.settled, p.results)
    && FirstRejection(job, p.settled, p.rejected)
    && Staffed(p.workers, Called(p) - p.settled)
    && Returned(p.workers, p.next == job.n, p.rejected)
  }

  /** No two workers await the same call. */
  ghost predicate OneEach<E>(workers: seq<Worker<E>>) {
    forall v, w :: 0 <= v < w < |workers| && workers[v].Busy? && workers[w].Busy?
      ==> workers[v].index != workers[w].index
  }

  predicate Started<E>(workers: seq<Worker<E>>) {
    forall w :: 0 <= w < |workers| ==> !workers[w].Ready?
  }

  lemma {:induction false} TakeUp<E>(workers: seq<Worker<E>>, w: nat, i: nat)
    requires w < |workers| && !workers[w].Busy? && OneEach(workers) && i !in InFlight(workers)
    ensures InFlight(workers[w := Busy(i)]) == InFlight(workers) + {i}
    ensures OneEach(workers[w := Busy(i)])
  {
    var after := workers[w := Busy(i)];
    assert after[w] == Busy(i);
    forall v | 0 <= v < |workers| && workers[v].Busy? ensures workers[v].index in InFlight(after) {
      assert after[v] == workers[v];
    }
    assert forall v :: 0 <= v < |workers| && workers[v].Busy? ==> workers[v].index in InFlight(workers);
  }

  lemma {:induction false} LetGo<E>(workers: seq<Worker<E>>, w: nat, x: Worker<E>)
    requires w < |workers| && OneEach(workers) && !x.Busy?
    ensures InFlight(workers[w := x]) ==
      InFlight(workers) - (if workers[w].Busy? then {workers[w].index} else {})
    ensures OneEach(workers[w := x])
  {
    var after := workers[w := x];
    forall v | 0 <= v < |workers| && v != w && workers[v].Busy?
      ensures workers[v].index in InFlight(after)
    {
      assert after[v] == workers[v];
    }
  }

  lemma {:induction false} NextCall<R(!new), E(!new)>(job: Job<R, E>, next: nat, calls: seq<nat>)
    requires InOrder(job, next, calls)
    ensures FirstFrom(job, next) !in calls
    ensures InOrder(job, FirstFrom(job, next), calls)
    ensures FirstFrom(job, next) < job.n ==>
      InOrder(job, FirstFrom(job, next) + 1, calls + [FirstFrom(job, next)])
  {
    assert forall j :: 0 <= j < |calls| ==> calls[j] in calls;
  }

  lemma {:induction false} ReturnedUpdate<E(!new)>(
      workers: seq<Worker<E>>, w: nat, x: Worker<E>, was: bool, now: bool, rejected: Option<E>)
    requires w < |workers| && !workers[w].Failed? && Returned(workers, was, rejected)
    requires (was || x.Done?) ==> now
    ensures Returned(workers[w := x], now, if x.Failed? && rejected.None? then Some(x.error) else rejected)
  {
    var after := workers[w := x];
    assert forall v :: 0 <= v < |workers| && v != w ==> after[v] == workers[v];
    assert after[w] == x;
    if rejected.Some? {
      var v :| 0 <= v < |workers| && workers[v].Failed?;
      assert after[v].Failed?;
    }
  }

  lemma {:induction false} ClaimInv<R(!new), E(!new)>(job: Job<R, E>, p: Pool<R, E>, w: nat)
    requires Inv(job, p) && w < |p.workers| && p.workers[w].Ready?
    ensures Inv(job, Claim(job, p, w))
  {
    var i := FirstFrom(job, p.next);
    var q := Claim(job, p, w);
    NextCall(job, p.next, p.calls);
    ReturnedUpdate(p.workers, w, q.workers[w], p.next == job.n, q.next == job.n, p.rejected);
    if i < job.n {
      TakeUp(p.workers, w, i);
      assert Called(q) == Called(p) + {i};
      assert Called(q) - q.settled == (Called(p) - p.settled) + {i};
    } else {
      LetGo(p.workers, w, Done);
    }
  }

  lemma {:induction false} ReleaseInv<R(!new), E(!new)>(job: Job<R, E>, p: Pool<R, E>, w: nat)
    requires Inv(job, p) && Awaits(p, w)
    ensures p.workers[w].index < job.n && p.workers[w].index !in p.settled
    ensures Inv(job, Release(job, p, w))
  {
    var i := p.workers[w].index;
    assert i in InFlight(p.workers);
    var q := Release(job, p, w);
    LetGo(p.workers, w, q.workers[w]);
    ReturnedUpdate(p.workers, w, q.workers[w], p.next == job.n, p.next == job.n, p.rejected);
    assert Called(q) - q.settled == (Called(p) - p.settled) - {i};
    ReportedMore(job, p.settled, p.results, i);
    RejectionMore(job, p.settled, p.rejected, i);
  }

  lemma {:induction false} ReportedMore<R(!new), E(!new)>(
      job: Job<R, E>, settled: set<nat>, results: seq<Option<R>>, i: nat)
    requires Reported(job, settled, results) && i < job.n && !job.skip(i) && i !in settled
    ensures Reported(job, settled + {i},
      if job.answer(i).Stored? then results[i := Some(job.answer(i).value)] else results)
  {
  }

  lemma {:induction false} RejectionMore<R(!new), E(!new)>(
      job: Job<R, E>, settled: set<nat>, rejected: Option<E>, i: nat)
    requires FirstRejection(job, settled, rejected)
    ensures FirstRejection(job, settled + {i},
      if job.answer(i).Rejected? && rejected.None? then Some(job.answer(i).error) else rejected)
  {
    assert i in settled + {i};
    if rejected.Some? {
      var j :| j in settled && job.answer(j) == Rejected(rejected.value);
      assert j in settled + {i};
    }
  }

  /** The workers from `k` on have not started. */
  ghost predicate StartedUpTo<E>(workers: seq<Worker<E>>, k: nat) {
    forall w :: 0 <= w < |workers| ==> (workers[w].Ready? <==> k <= w)
  }

  lemma {:induction false} FreshInv<R(!new), E(!new)>(job: Job<R, E>, count: nat)
    ensures Inv(job, Fresh(job, count)) && StartedUpTo(Fresh(job, count).workers, 0)
  {
    var none: seq<Worker<E>> := seq(count, _ => Ready);
    assert InFlight(none) == {};
  }

  lemma {:induction false} StartInv<R(!new), E(!new)>(job: Job<R, E>, count: nat, k: nat)
    requires k <= count
    ensures Inv(job, Start(job, count, k)) && StartedUpTo(Start(job, count, k).workers, k)
  {
    if k > 0 {
      StartInv(job, count, k - 1);
      StartOne(job, Start(job, count, k - 1), k - 1);
    } else {
      FreshInv(job, count);
    }
  }

  lemma {:induction false} StartOne<R(!new), E(!new)>(job: Job<R, E>, p: Pool<R, E>, w: nat)
    requires Inv(job, p) && w < |p.workers| && StartedUpTo(p.workers, w)
    ensures Inv(job, Claim(job, p, w)) && StartedUpTo(Claim(job, p, w).workers, w + 1)
  {
    ClaimInv(job, p, w);
  }

  lemma {:induction false} SettleInv<R(!new), E(!new)>(job: Job<R, E>, p: Pool<R, E>, w: nat)
    requires Inv(job, p) && Started(p.workers) && Awaits(p, w)
    ensures p.workers[w].index < job.n && p.workers[w].index !in p.settled
    ensures Inv(job, Settle(job, p, w)) && Started(Settle(job, p, w).workers)
    ensures Settle(job, p, w).settled == p.settled + {p.workers[w].index}
  {
    ReleaseInv(job, p, w);
    var q := Release(job, p, w);
    if q.workers[w].Ready? {
      ClaimInv(job, q, w);
    }
  }

  // ----- runs

  /** A state the pool can be in once its workers have started. */
  ghost predicate Live<R(!new), E(!new)>(job: Job<R, E>, p: Pool<R, E>) {
    Inv(job, p) && Started(p.workers)
  }

  /** One entry of a schedule; it is passed over if it names a worker with no call in flight. */
  ghost function Turn<R(!new), E(!new)>(job: Job<R, E>, p: Pool<R, E>, w: nat): (q: Pool<R, E>)
    requires Live(job, p)
    ensures Live(job, q) && |q.workers| == |p.workers|
    ensures |q.settled| == |p.settled| + if Awaits(p, w) then 1 else 0
  {
    if Awaits(p, w) then
      SettleInv(job, p, w); Settle(job, p, w)
    else p
  }

  /** The pool after a schedule of settling workers. */
  ghost function Run<R(!new), E(!new)>(job: Job<R, E>, p: Pool<R, E>, schedule: seq<nat>): (q: Pool<R, E>)
    requires Live(job, p)
    ensures Live(job, q) && |q.workers| == |p.workers|
    decreases |schedule|
  {
    if schedule == [] then p else Run(job, Turn(job, p, schedule[0]), schedule[1..])
  }

  /** How many entries of a schedule are not passed over. */
  ghost function Effective<R(!new), E(!new)>(job: Job<R, E>, p: Pool<R, E>, schedule: seq<nat>): nat
    requires Live(job, p)
    decreases |schedule|
  {
    if schedule == [] then 0
    else
      var more := Effective(job, Turn(job, p, schedule[0]), schedule[1..]);
      if Awaits(p, schedule[0]) then 1 + more else more
  }

  /** Each effective entry settles a call that had not settled, so there are never more of
      them than items. */
  lemma {:induction false} StepsBounded<R(!new), E(!new)>(job: Job<R, E>, p: Pool<R, E>, schedule: seq<nat>)
    requires Live(job, p)
    ensures |Run(job, p, schedule).settled| == |p.settled| + Effective(job, p, schedule)
    ensures |p.settled| + Effective(job, p, schedule) <= job.n
    decreases |schedule|
  {
    SettledBounded(job, p);
    if schedule != [] {
      StepsBounded(job, Turn(job, p, schedule[0]), schedule[1..]);
    }
  }

  lemma {:induction false} SettledBounded<R(!new), E(!new)>(job: Job<R, E>, p: Pool<R, E>)
    requires Inv(job, p)
    ensures |p.settled| <= job.n
  {
    SetBound(p.settled, job.n);
  }

  lemma {:induction false} SetBound(s: set<nat>, n: nat)
    requires forall i :: i in s ==> i < n
    ensures |s| <= n
  {
    if n == 0 {
      assert s == {};
    } else {
      SetBound(s - {n - 1}, n - 1);
    }
  }

  lemma {:induction false} OnePerWorker<E(!new)>(workers: seq<Worker<E>>)
    ensures |InFlight(workers)| <= |workers|
  {
    if workers == [] {
      assert InFlight(workers) == {};
    } else {
      var n := |workers| - 1;
      var front := workers[..n];
      OnePerWorker(front);
      var last := if workers[n].Busy? then {workers[n].index} else {};
      forall i | i in InFlight(workers) ensures i in InFlight(front) + last {
        var w :| 0 <= w < |workers| && workers[w].Busy? && workers[w].index == i;
        assert w < n ==> front[w] == workers[w];
      }
      CardinalitySubset(InFlight(workers), InFlight(front) + last);
    }
  }

  lemma {:induction false} CardinalitySubset(s: set<nat>, t: set<nat>)
    requires s <= t
    ensures |s| <= |t|
  {
    assert t == s + (t - s);
  }

  /** In every state of every run, no index has been called twice, the calls in flight are
      the ones made and not settled, and there are no more of them than workers. */
  lemma {:induction false} InFlightBounded<R(!new), E(!new)>(job: Job<R, E>, count: nat, schedule: seq<nat>)
    ensures Live(job, Start(job, count, count))
    ensures var p := Run(job, Start(job, count, count), schedule);
      (Ascending(p.calls) && (forall i :: i in p.calls ==> i < job.n && !job.skip(i))
      && |Called(p) - p.settled| <= count)
  {
    StartInv(job, count, count);
    var p := Run(job, Start(job, count, count), schedule);
    OnePerWorker(p.workers);
  }

  ghost predicate NoneRejected<R, E>(job: Job<R, E>) {
    forall i :: 0 <= i < job.n && !job.skip(i) ==> !job.answer(i).Rejected?
  }

  /** When nothing is left in flight the pool has rejected exactly if some item's call
      rejects; otherwise its results are the sequential ones, in input order. */
  lemma {:induction false} SettledPool<R(!new), E(!new)>(job: Job<R, E>, p: Pool<R, E>)
    requires Live(job, p) && Idle(p) && p.workers != []
    ensures p.rejected.None? <==> NoneRejected(job)
    ensures p.rejected.None? ==> p.results == seq(job.n, i requires 0 <= i < job.n => Expected(job, i))
    ensures p.rejected.Some? ==>
      exists i :: 0 <= i < job.n && !job.skip(i) && job.answer(i) == Rejected(p.rejected.value)
  {
    forall i | i in Called(p) ensures i in p.settled {
      assert i !in InFlight(p.workers);
    }
    if p.rejected.None? {
      assert p.workers[0].Done? && p.next == job.n;
      forall i | 0 <= i < job.n && !job.skip(i) ensures i in p.settled {
        assert i in p.calls;
      }
    } else {
      var i :| i in p.settled && job.answer(i) == Rejected(p.rejected.value);
      assert i in p.calls;
    }
  }

  lemma {:induction false} SettleProgress<R(!new), E(!new)>(job: Job<R, E>, p: Pool<R, E>, w: nat)
    requires Live(job, p) && Awaits(p, w)
    ensures p.workers[w].index < job.n == |p.results| && p.next <= job.n
    ensures Live(job, Settle(job, p, w)) && |Settle(job, p, w).workers| == |p.workers|
    ensures |p.settled| < |Settle(job, p, w).settled| <= job.n
  {
    SettleInv(job, p, w);
    SettledBounded(job, Settle(job, p, w));
  }

  /** From every live state some schedule, and by the bound no long one, runs the pool to
      its end. */
  lemma {:induction false} CanFinish<R(!new), E(!new)>(job: Job<R, E>, p: Pool<R, E>)
    returns (more: seq<nat>)
    requires Live(job, p)
    ensures Idle(Run(job, p, more))
    ensures |more| <= job.n - |p.settled|
    decreases job.n - |p.settled|
  {
    SettledBounded(job, p);
    if Idle(p) {
      more := [];
    } else {
      var w: nat :| w < |p.workers| && p.workers[w].Busy?;
      var q := Turn(job, p, w);
      SettledBounded(job, q);
      var rest := CanFinish(job, q);
      more := [w] + rest;
    }
  }

  // ----- mapConcurrent

  function MapJob<T, R, E>(items: seq<T>, mapper: (T, nat) -> Result<R, E>): Job<R, E> {
    Job(|items|, _ => false,
        (i: nat) => if i < |items| then
               match mapper(items[i], i) case Ok(v) => Stored(v) case Err(e) => Rejected(e)
             else Dropped)
  }

  class ConcurrentMap<T(!new), R(!new), E(!new)> {
    const items: seq<T>
    const mapper: (T, nat) -> Result<R, E>
    var results: seq<Option<R>>
    var nextIndex: nat
    var workers: seq<Worker<E>>
    var rejected: Option<E>
    ghost var calls: seq<nat>
    ghost var settled: set<nat>

    ghost function View(): Pool<R, E>
      reads this
    {
      Pool(nextIndex, workers, results, calls, settled, rejected)
    }

    ghost function Work(): Job<R, E> {
      MapJob(items, mapper)
    }

    constructor (items: seq<T>, limit: int, mapper: (T, nat) -> Result<R, E>)
      ensures this.items == items && this.mapper == mapper
      ensures |workers| == Max(1, Min(limit, |items|))
      ensures View() == Start(Work(), |workers|, |workers|)
    {
      this.items, this.mapper := items, mapper;
      results := seq(|items|, _ => None);
      nextIndex, rejected := 0, None;
      calls, settled := [], {};
      var count := Max(1, Min(limit, |items|));
      workers := seq(count, _ => Ready);
      new;
      var w := 0;
      while w < count
        invariant 0 <= w <= count == |workers|
        invariant View() == Start(Work(), count, w)
      {
        Loop(w);
        w := w + 1;
      }
    }

    /** The worker's loop, from its head to the next await. */
    method Loop(w: nat)
      requires w < |workers| && nextIndex <= |items|
      modifies this
      ensures View() == Claim(Work(), old(View()), w)
    {
      if nextIndex < |items| {
        var index := nextIndex;
        nextIndex := nextIndex + 1;
        calls := calls + [index];
        workers := workers[w := Busy(index)];
      } else {
        workers := workers[w := Done];
      }
    }

    /** The promise worker `w` awaits settles. */
    method Resume(w: nat)
      requires w < |workers| && workers[w].Busy? && workers[w].index < |items| == |results|
      requires nextIndex <= |items|
      modifies this
      ensures View() == Settle(Work(), old(View()), w)
    {
      var index := workers[w].index;
      settled := settled + {index};
      match mapper(items[index], index)
      case Ok(value) =>
        results := results[index := Some(value)];
        workers := workers[w := Ready];
        Loop(w);
      case Err(error) =>
        workers := workers[w := Failed(error)];
        if rejected.None? {
          rejected := Some(error);
        }
    }
  }

  /** The promise `mapConcurrent` returns, whatever the order in which its mapper's promises
      settle: the sequential map, or a rejection exactly when some call rejects. */
  method MapConcurrent<T(!new), R(!new), E(!new)>(items: seq<T>, limit: int, mapper: (T, nat) -> Result<R, E>)
    returns (r: Result<seq<R>, E>)
    ensures r.Ok? <==> forall i :: 0 <= i < |items| ==> mapper(items[i], i).Ok?
    ensures r.Ok? ==> |r.value| == |items| && forall i :: 0 <= i < |items| ==> mapper(items[i], i) == Ok(r.value[i])
    ensures r.Err? ==> exists i :: 0 <= i < |items| && mapper(items[i], i) == Err(r.error)
  {
    var pool := new ConcurrentMap(items, limit, mapper);
    ghost var job := MapJob(items, mapper);
    StartInv(job, |pool.workers|, |pool.workers|);
    while exists w :: 0 <= w < |pool.workers| && pool.workers[w].Busy?
      invariant fresh(pool) && pool.items == items && pool.mapper == mapper
      invariant Live(job, pool.View()) && pool.workers != []
      decreases job.n - |pool.settled|
    {
      var w: int :| 0 <= w < |pool.workers| && pool.workers[w].Busy?;
      SettleProgress(job, pool.View(), w);
      pool.Resume(w);
    }
    SettledPool(job, pool.View());
    if pool.rejected.Some? {
      MapRejects(items, mapper, pool.rejected.value);
      return Err(pool.rejected.value);
    }
    var results := pool.results;
    assert forall i :: 0 <= i < |items| ==> results[i] == Expected(job, i);
    MapResolves(items, mapper);
    return Ok(seq(|items|, i requires 0 <= i < |items| => results[i].value));
  }

  lemma {:induction false} MapRejects<T(!new), R(!new), E(!new)>(
      items: seq<T>, mapper: (T, nat) -> Result<R, E>, e: E)
    requires exists i :: 0 <= i < |items| && MapJob(items, mapper).answer(i) == Rejected(e)
    ensures exists i :: 0 <= i < |items| && mapper(items[i], i) == Err(e)
  {
    var i :| 0 <= i < |items| && MapJob(items, mapper).answer(i) == Rejected(e);
    assert mapper(items[i], i) == Err(e);
  }

  lemma {:induction false} MapResolves<T(!new), R(!new), E(!new)>(
      items: seq<T>, mapper: (T, nat) -> Result<R, E>)
    requires NoneRejected(MapJob(items, mapper))
    ensures forall i :: 0 <= i < |items| ==>
      Expected(MapJob(items, mapper), i).Some? && mapper(items[i], i) == Ok(Expected(MapJob(items, mapper), i).value)
  {
    forall i | 0 <= i < |items| ensures mapper(items[i], i).Ok? {
      assert !MapJob(items, mapper).skip(i) && !MapJob(items, mapper).answer(i).Rejected?;
    }
  }

  function Min(a: int, b: int): int {
    if a <= b then a else b
  }

  function Max(a: int, b: int): int {
    if a >= b then a else b
  }

  // ----- the reader of runtime sources

  const FILE_READ_CONCURRENCY := 24

  datatype SourceFile = SourceFile(relativePath: string, source: string)

  /** What `readFile` gives for a path, at its place in the list; a path that is listed twice
      may be read differently. */
  type Reader = (string, nat) -> Option<string>

  /** Reading one path: an empty path makes no call, an unreadable file leaves nothing. */
  function ReadJob(paths: seq<string>, read: Reader, relative: string -> string): Job<SourceFile, ()> {
    Job(|paths|, (i: nat) => i < |paths| && paths[i] == "",
        (i: nat) => if i < |paths| && read(paths[i], i).Some? then
                      Stored(SourceFile(relative(paths[i]), read(paths[i], i).value))
                    else Dropped)
  }

  /** The files a sequential loop would read, in the order of their paths. */
  function ReadInOrder(paths: seq<string>, read: Reader, relative: string -> string): seq<SourceFile> {
    if paths == [] then []
    else
      var last := paths[|paths| - 1];
      ReadInOrder(paths[..|paths| - 1], read, relative)
      + match read(last, |paths| - 1)
        case Some(source) => if last == "" then [] else [SourceFile(relative(last), source)]
        case None => []
  }

  /** `output.filter(entry => entry !== undefined)` */
  function Present<R>(output: seq<Option<R>>): seq<R> {
    if output == [] then []
    else
      var last := output[|output| - 1];
      Present(output[..|output| - 1]) + if last.Some? then [last.value] else []
  }

  lemma {:induction false} PresentAreRead(
      paths: seq<string>, read: Reader, relative: string -> string, output: seq<Option<SourceFile>>)
    requires |output| == |paths|
    requires forall i :: 0 <= i < |paths| ==> output[i] == Expected(ReadJob(paths, read, relative), i)
    ensures Present(output) == ReadInOrder(paths, read, relative)
  {
    if paths != [] {
      var n := |paths| - 1;
      forall i | 0 <= i < n
        ensures output[..n][i] == Expected(ReadJob(paths[..n], read, relative), i)
      {
        assert paths[..n][i] == paths[i] && output[i] == Expected(ReadJob(paths, read, relative), i);
      }
      PresentAreRead(paths[..n], read, relative, output[..n]);
    }
  }

  class SourceReader {
    const paths: seq<string>
    const read: Reader
    const relative: string -> string
    var output: seq<Option<SourceFile>>
    var nextIndex: nat
    var workers: seq<Worker<()>>
    ghost var calls: seq<nat>
    ghost var settled: set<nat>

    /** Every worker that returns moves the next index on past the end; as a pool the reader
        stays at the end. */
    ghost function View(): Pool<SourceFile, ()>
      reads this
    {
      Pool(Min(nextIndex, |paths|), workers, output, calls, settled, None)
    }

    ghost function Work(): Job<SourceFile, ()> {
      ReadJob(paths, read, relative)
    }

    constructor (paths: seq<string>, read: Reader, relative: string -> string)
      ensures this.paths == paths && this.read == read && this.relative == relative
      ensures |workers| == Min(FILE_READ_CONCURRENCY, Max(1, |paths|))
      ensures View() == Start(Work(), |workers|, |workers|)
    {
      this.paths, this.read, this.relative := paths, read, relative;
      output := seq(|paths|, _ => None);
      nextIndex := 0;
      calls, settled := [], {};
      var count := Min(FILE_READ_CONCURRENCY, Max(1, |paths|));
      workers := seq(count, _ => Ready);
      new;
      var w := 0;
      while w < count
        invariant 0 <= w <= count == |workers|
        invariant View() == Start(Work(), count, w)
      {
        Loop(w);
        w := w + 1;
      }
    }

    /** The worker's loop, from its head to the next await. */
    method Loop(w: nat)
      requires w < |workers|
      modifies this
      ensures View() == Claim(Work(), old(View()), w)
    {
      while true
        invariant workers == old(workers) && output == old(output)
        invariant calls == old(calls) && settled == old(settled)
        invariant FirstFrom(Work(), Min(nextIndex, |paths|)) == FirstFrom(Work(), Min(old(nextIndex), |paths|))
        decreases |paths| - nextIndex
      {
        var index := nextIndex;
        nextIndex := nextIndex + 1;
        if index >= |paths| {
          workers := workers[w := Done];
          return;
        }
        if paths[index] == "" {
          continue;
        }
        calls := calls + [index];
        workers := workers[w := Busy(index)];
        return;
      }
    }

    /** The read worker `w` awaits settles. */
    method Resume(w: nat)
      requires w < |workers| && workers[w].Busy? && workers[w].index < |paths| == |output|
      modifies this
      ensures View() == Settle(Work(), old(View()), w)
    {
      var index := workers[w].index;
      settled := settled + {index};
      workers := workers[w := Ready];
      match read(paths[index], index) {
        case Some(source) =>
          output := output[index := Some(SourceFile(relative(paths[index]), source))];
        case None =>
      }
      Loop(w);
    }
  }

  /** Whatever the order in which the reads settle, the files come in the order of their
      paths, without the unreadable ones. */
  method ReadRuntimeSourceFiles(paths: seq<string>, read: Reader, relative: string -> string)
    returns (files: seq<SourceFile>)
    ensures files == ReadInOrder(paths, read, relative)
  {
    var pool := new SourceReader(paths, read, relative);
    ghost var job := ReadJob(paths, read, relative);
    StartInv(job, |pool.workers|, |pool.workers|);
    while exists w :: 0 <= w < |pool.workers| && pool.workers[w].Busy?
      invariant fresh(pool) && pool.paths == paths && pool.read == read && pool.relative == relative
      invariant Live(job, pool.View()) && pool.workers != []
      decreases job.n - |pool.settled|
    {
      var w: int :| 0 <= w < |pool.workers| && pool.workers[w].Busy?;
      SettleProgress(job, pool.View(), w);
      pool.Resume(w);
    }
    SettledPool(job, pool.View());
    PresentAreRead(paths, read, relative, pool.output);
    return Present(pool.output);
  }
}
