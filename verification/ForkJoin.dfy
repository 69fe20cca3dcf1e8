/**
 The fork and join of crates/bim-core/src/work.rs: chunks mapped on threads of their own, results joined in order.
 Any number of reported cores and any interleaving of the threads is covered.
 */
module ForkJoin {
  import opened Options

  type Positive = n: nat | 1 <= n witness 1

  function Max(a: nat, b: nat): nat {
    if a < b then b else a
  }

  function Min(a: nat, b: nat): nat {
    if a < b then a else b
  }

  /** `cores` is None where the machine does not say. */
  function Threads(cores: Option<Positive>, work: nat): Positive {
    Min(if cores.Some? then cores.value else 1, Max(work, 1))
  }

  function DivCeil(n: nat, d: Positive): nat {
    (n + d - 1) / d
  }

  /** The library's chunks: all of `size` items but perhaps the last. */
  function Chunks<I>(items: seq<I>, size: Positive): seq<seq<I>>
    decreases |items|
  {
    if items == [] then []
    else if |items| <= size then [items]
    else [items[..size]] + Chunks(items[size..], size)
  }

  function PerThread(cores: Option<Positive>, n: nat): nat {
    DivCeil(n, Threads(cores, n))
  }

  function Shares<I>(cores: Option<Positive>, items: seq<I>): seq<seq<I>> {
    var perThread := PerThread(cores, |items|);
    if perThread == 0 then [] else Chunks(items, perThread)
  }

  /** What mapping one item does: give a result, or panic. */
  datatype Mapped<T, P> = Value(value: T) | Panic(payload: P)

  datatype Result<T, P> = Returned(results: seq<T>) | Unwound(payload: P)

  function Before<T, P>(done: seq<T>, r: Result<T, P>): Result<T, P> {
    match r
    case Returned(results) => Returned(done + results)
    case Unwound(payload) => Unwound(payload)
  }

  /** The plain loop: every item in order, up to the first panic. */
  function Sequential<I, T, P>(items: seq<I>, f: I -> Mapped<T, P>): Result<T, P> {
    if items == [] then Returned([])
    else
      match f(items[0])
      case Value(v) => Before([v], Sequential(items[1..], f))
      case Panic(payload) => Unwound(payload)
  }

  datatype Worker<I, T, P> =
    | Running(todo: seq<I>, done: seq<T>)
    | Finished(results: seq<T>)
    | Panicked(payload: P)

  /** `joined` threads have handed over `collected`; `unwinding` is the panic carried out of a join. */
  datatype State<I, T, P> = State(workers: seq<Worker<I, T, P>>, joined: nat, collected: seq<T>, unwinding: Option<P>)

  datatype Event = Spawn | Work(worker: nat) | Join

  function Start<I, T, P>(): State<I, T, P> {
    State([], 0, [], None)
  }

  predicate Enabled<I, T, P>(shares: seq<seq<I>>, s: State<I, T, P>, e: Event) {
    match e
    case Spawn => |s.workers| < |shares|
    case Work(w) => w < |s.workers| && s.workers[w].Running?
    case Join =>
      |s.workers| == |shares| && s.unwinding.None? && s.joined < |s.workers| && !s.workers[s.joined].Running?
  }

  function Worked<I, T, P>(f: I -> Mapped<T, P>, w: Worker<I, T, P>): Worker<I, T, P>
    requires w.Running?
  {
    if w.todo == [] then Finished(w.done)
    else
      match f(w.todo[0])
      case Value(v) => Running(w.todo[1..], w.done + [v])
      case Panic(payload) => Panicked(payload)
  }

  function Apply<I, T, P>(f: I -> Mapped<T, P>, shares: seq<seq<I>>, s: State<I, T, P>, e: Event): State<I, T, P>
    requires Enabled(shares, s, e)
  {
    match e
    case Spawn => s.(workers := s.workers + [Running(shares[|s.workers|], [])])
    case Work(w) => s.(workers := s.workers[w := Worked(f, s.workers[w])])
    case Join =>
      match s.workers[s.joined]
      case Finished(results) => s.(joined := s.joined + 1, collected := s.collected + results)
      case Panicked(payload) => s.(unwinding := Some(payload))
      case Running(_, _) => s
  }

  predicate CanRun<I, T, P>(f: I -> Mapped<T, P>, shares: seq<seq<I>>, s: State<I, T, P>, events: seq<Event>)
    decreases |events|
  {
    events == [] || (Enabled(shares, s, events[0]) && CanRun(f, shares, Apply(f, shares, s, events[0]), events[1..]))
  }

  function Run<I, T, P>(f: I -> Mapped<T, P>, shares: seq<seq<I>>, s: State<I, T, P>, events: seq<Event>)
    : State<I, T, P>
    requires CanRun(f, shares, s, events)
    decreases |events|
  {
    if events == [] then s else Run(f, shares, Apply(f, shares, s, events[0]), events[1..])
  }

  /** The scope ends once every thread has, and the joins are through or one of them is unwinding. */
  ghost predicate IsOver<I, T, P>(shares: seq<seq<I>>, s: State<I, T, P>) {
    && |s.workers| == |shares|
    && (s.joined == |shares| || s.unwinding.Some?)
    && forall w | 0 <= w < |s.workers| :: !s.workers[w].Running?
  }

  function ResultOf<I, T, P>(s: State<I, T, P>): Result<T, P> {
    match s.unwinding
    case Some(payload) => Unwound(payload)
    case None => Returned(s.collected)
  }

  function Flattened<I>(shares: seq<seq<I>>): seq<I> {
    if shares == [] then [] else Flattened(shares[..|shares| - 1]) + shares[|shares| - 1]
  }

  lemma {:induction false} FlattenedFront<I>(shares: seq<seq<I>>)
    requires shares != []
    ensures Flattened(shares) == shares[0] + Flattened(shares[1..])
  {
    if |shares| > 1 {
      var n := |shares| - 1;
      FlattenedFront(shares[..n]);
      assert shares[..n][1..] == shares[1..][..n - 1];
    }
  }

  /** Cutting loses nothing, leaves no thread without work, and gives each at most `size` items. */
  lemma {:induction false} ChunksArePieces<I>(items: seq<I>, size: Positive)
    ensures Flattened(Chunks(items, size)) == items
    ensures forall c | c in Chunks(items, size) :: 0 < |c| <= size
    decreases |items|
  {
    hide Flattened;
    if |items| > size {
      ChunksArePieces(items[size..], size);
      FlattenedFront(Chunks(items, size));
      assert items[..size] + items[size..] == items;
    } else {
      FlattenedFew(items);
    }
  }

  lemma FlattenedFew<I>(share: seq<I>)
    ensures Flattened([share]) == share && Flattened<I>([]) == []
  {
    assert [share][..0] == [];
  }

  /** There are as many pieces as it takes to hold the items, and no more. */
  lemma {:induction false} ChunksAreFew<I>(items: seq<I>, size: Positive)
    requires items != []
    ensures |Chunks(items, size)| > 0 && (|Chunks(items, size)| - 1) * size < |items|
    decreases |items|
  {
    if |items| > size {
      ChunksAreFew(items[size..], size);
      OneMore(|Chunks(items[size..], size)| - 1, size);
    }
  }

  lemma OneMore(n: nat, size: nat)
    ensures (n + 1) * size == n * size + size
  {
  }

  lemma CeilIsEnough(n: nat, d: Positive)
    ensures n <= DivCeil(n, d) * d
    ensures n > 0 ==> DivCeil(n, d) > 0
  {
    var q := (n + d - 1) / d;
    assert n + d - 1 == q * d + (n + d - 1) % d;
  }

  /** How many threads there is work for: as many as the machine has cores, but no more than there are items. */
  function Useful(cores: Option<Positive>, n: nat): nat {
    if cores.None? then (if n == 0 then 0 else 1)
    else if cores.value < n then cores.value
    else n
  }

  /**
   No machine is given more threads than it has cores or than there are items, no item is lost in the cutting, and no
   thread has more to do than an even division asks for.
   */
  lemma SharesFitTheMachine<I>(cores: Option<Positive>, items: seq<I>)
    ensures Flattened(Shares(cores, items)) == items
    ensures |Shares(cores, items)| <= Useful(cores, |items|)
    ensures forall share | share in Shares(cores, items) ::
              0 < |share| && (|share| - 1) * Useful(cores, |items|) < |items|
  {
    var (n, t, per) := (|items|, Threads(cores, |items|), PerThread(cores, |items|));
    CeilIsEnough(n, t);
    if n > 0 {
      ChunksArePieces(items, per);
      ChunksAreFew(items, per);
      var count := |Chunks(items, per)|;
      if count > t {
        ProductsAscend(t, count - 1, per);
        assert false;
      }
      assert t == Useful(cores, n);
      forall share | share in Shares(cores, items) ensures (|share| - 1) * t < n {
        ProductsAscend(|share| - 1, per - 1, t);
        CeilIsTight(n, t);
      }
    }
  }

  lemma CeilIsTight(n: nat, d: Positive)
    requires n > 0
    ensures DivCeil(n, d) >= 1 && (DivCeil(n, d) - 1) * d < n
  {
    var (q, r) := ((n + d - 1) / d, (n + d - 1) % d);
    assert n + d - 1 == q * d + r;
    assert (q - 1) * d == q * d - d;
    if q == 0 {
      assert false;
    }
  }

  lemma ProductsAscend(a: nat, b: nat, d: nat)
    requires a <= b
    ensures a * d <= b * d
  {
  }

  ghost predicate WorkerIsSound<I, T, P>(f: I -> Mapped<T, P>, share: seq<I>, w: Worker<I, T, P>) {
    match w
    case Running(todo, done) => Sequential(share, f) == Before(done, Sequential(todo, f))
    case Finished(results) => Sequential(share, f) == Returned(results)
    case Panicked(payload) => Sequential(share, f) == Unwound(payload)
  }

  ghost predicate WorkersAreSound<I, T, P>(f: I -> Mapped<T, P>, shares: seq<seq<I>>, s: State<I, T, P>) {
    && |s.workers| <= |shares|
    && forall w | 0 <= w < |s.workers| :: WorkerIsSound(f, shares[w], s.workers[w])
  }

  ghost predicate JoinsAreSound<I, T, P>(f: I -> Mapped<T, P>, shares: seq<seq<I>>, s: State<I, T, P>) {
    && s.joined <= |shares|
    && match s.unwinding
       case None => Sequential(Flattened(shares[..s.joined]), f) == Returned(s.collected)
       case Some(payload) => Sequential(Flattened(shares), f) == Unwound(payload)
  }

  /** Items mapped one after the other, in two parts. */
  lemma {:induction false} SequentialSplits<I, T, P>(a: seq<I>, b: seq<I>, f: I -> Mapped<T, P>)
    ensures Sequential(a + b, f)
         == match Sequential(a, f)
            case Returned(results) => Before(results, Sequential(b, f))
            case Unwound(payload) => Unwound(payload)
  {
    if a == [] {
      assert a + b == b;
      assert Sequential(b, f).Returned? ==> [] + Sequential(b, f).results == Sequential(b, f).results;
    } else {
      SequentialSplits(a[1..], b, f);
      assert (a + b)[1..] == a[1..] + b;
      if f(a[0]).Value? && Sequential(a[1..], f).Returned? && Sequential(b, f).Returned? {
        var (v, middle, last) := (f(a[0]).value, Sequential(a[1..], f).results, Sequential(b, f).results);
        assert [v] + (middle + last) == ([v] + middle) + last;
      }
    }
  }

  lemma WorkKeepsSound<I, T, P>(f: I -> Mapped<T, P>, share: seq<I>, w: Worker<I, T, P>)
    requires w.Running? && WorkerIsSound(f, share, w)
    ensures WorkerIsSound(f, share, Worked(f, w))
  {
    if w.todo == [] {
      assert w.done + [] == w.done;
    } else if f(w.todo[0]).Value? && Sequential(w.todo[1..], f).Returned? {
      var (v, rest) := (f(w.todo[0]).value, Sequential(w.todo[1..], f).results);
      assert w.done + ([v] + rest) == (w.done + [v]) + rest;
    }
  }

  lemma {:induction false} AnUnwindingPrefixUnwinds<I, T, P>(f: I -> Mapped<T, P>, shares: seq<seq<I>>, j: nat)
    requires j <= |shares| && Sequential(Flattened(shares[..j]), f).Unwound?
    ensures Sequential(Flattened(shares), f) == Sequential(Flattened(shares[..j]), f)
    decreases |shares|
  {
    if j == |shares| {
      assert shares[..j] == shares;
    } else {
      var n := |shares| - 1;
      assert shares[..n][..j] == shares[..j];
      AnUnwindingPrefixUnwinds(f, shares[..n], j);
      SequentialSplits(Flattened(shares[..n]), shares[n], f);
    }
  }

  lemma JoinKeepsSound<I, T, P>(f: I -> Mapped<T, P>, shares: seq<seq<I>>, s: State<I, T, P>)
    requires Enabled(shares, s, Join) && WorkersAreSound(f, shares, s) && JoinsAreSound(f, shares, s)
    ensures JoinsAreSound(f, shares, Apply(f, shares, s, Join))
  {
    hide Sequential;
    var j := s.joined;
    assert WorkerIsSound(f, shares[j], s.workers[j]);
    assert shares[..j + 1][..j] == shares[..j];
    SequentialSplits(Flattened(shares[..j]), shares[j], f);
    if s.workers[j].Panicked? {
      AnUnwindingPrefixUnwinds(f, shares, j + 1);
    }
  }

  lemma StepKeepsSound<I, T, P>(f: I -> Mapped<T, P>, shares: seq<seq<I>>, s: State<I, T, P>, e: Event)
    requires Enabled(shares, s, e) && WorkersAreSound(f, shares, s) && JoinsAreSound(f, shares, s)
    ensures var after := Apply(f, shares, s, e); WorkersAreSound(f, shares, after) && JoinsAreSound(f, shares, after)
  {
    hide Sequential, Flattened, JoinsAreSound;
    match e {
      case Spawn =>
        SpawnIsSound<I, T, P>(f, shares[|s.workers|]);
        assert JoinsAreSound(f, shares, Apply(f, shares, s, e)) by {
          JoinsIgnoreWorkers(f, shares, s, Apply(f, shares, s, e));
        }
      case Work(w) =>
        WorkKeepsSound(f, shares[w], s.workers[w]);
        JoinsIgnoreWorkers(f, shares, s, Apply(f, shares, s, e));
      case Join =>
        JoinKeepsSound(f, shares, s);
    }
  }

  lemma JoinsIgnoreWorkers<I, T, P>(f: I -> Mapped<T, P>, shares: seq<seq<I>>, s: State<I, T, P>, t: State<I, T, P>)
    requires JoinsAreSound(f, shares, s)
    requires t.joined == s.joined && t.collected == s.collected && t.unwinding == s.unwinding
    ensures JoinsAreSound(f, shares, t)
  {
  }

  lemma SpawnIsSound<I, T, P>(f: I -> Mapped<T, P>, share: seq<I>)
    ensures WorkerIsSound(f, share, Running(share, []))
  {
    var r := Sequential(share, f);
    assert r.Returned? ==> [] + r.results == r.results;
  }

  lemma {:induction false} RunKeepsSound<I, T, P>(f: I -> Mapped<T, P>, shares: seq<seq<I>>, s: State<I, T, P>,
                                                  events: seq<Event>)
    requires CanRun(f, shares, s, events) && WorkersAreSound(f, shares, s) && JoinsAreSound(f, shares, s)
    ensures var after := Run(f, shares, s, events);
      WorkersAreSound(f, shares, after) && JoinsAreSound(f, shares, after)
    decreases |events|
  {
    hide WorkersAreSound, JoinsAreSound, Apply, Enabled;
    if events != [] {
      StepKeepsSound(f, shares, s, events[0]);
      RunKeepsSound(f, shares, Apply(f, shares, s, events[0]), events[1..]);
    }
  }

  /**
   However many cores there are and however the threads interleave, the call ends as the plain loop ends:
   with every result in input order, or with the panic of the earliest item that panics.
   */
  lemma ForkJoinIsSequential<I, T, P>(cores: Option<Positive>, items: seq<I>, f: I -> Mapped<T, P>, events: seq<Event>)
    requires CanRun(f, Shares(cores, items), Start(), events)
    ensures var (shares, s) := (Shares(cores, items), Run(f, Shares(cores, items), Start(), events));
      && |s.workers| <= Useful(cores, |items|)
      && (IsOver(shares, s) ==> ResultOf(s) == Sequential(items, f))
  {
    hide Shares, Threads, PerThread, Apply, Enabled, Run, CanRun;
    var shares := Shares(cores, items);
    SharesFitTheMachine(cores, items);
    assert shares[..0] == [];
    RunKeepsSound(f, shares, Start(), events);
    assert shares[..|shares|] == shares;
  }

  function Left<I, T, P>(w: Worker<I, T, P>): nat {
    if w.Running? then |w.todo| + 1 else 0
  }

  function LeftOf<I, T, P>(workers: seq<Worker<I, T, P>>): nat {
    if workers == [] then 0 else LeftOf(workers[..|workers| - 1]) + Left(workers[|workers| - 1])
  }

  function LeftToSpawn<I>(shares: seq<seq<I>>, spawned: nat): nat
    requires spawned <= |shares|
    decreases |shares| - spawned
  {
    if spawned == |shares| then 0 else |shares[spawned]| + 2 + LeftToSpawn(shares, spawned + 1)
  }

  lemma {:induction false} LeftAfter<I, T, P>(workers: seq<Worker<I, T, P>>, w: nat, to: Worker<I, T, P>)
    requires w < |workers|
    ensures LeftOf(workers[w := to]) == LeftOf(workers) - Left(workers[w]) + Left(to)
  {
    var n := |workers| - 1;
    assert workers[w := to][..n] == if w < n then workers[..n][w := to] else workers[..n];
    if w < n {
      LeftAfter(workers[..n], w, to);
    }
  }

  /** What is left to do before the scope ends. */
  function Measure<I, T, P>(shares: seq<seq<I>>, s: State<I, T, P>): nat
    requires |s.workers| <= |shares| && s.joined <= |shares|
  {
    LeftToSpawn(shares, |s.workers|) + LeftOf(s.workers) + (|shares| - s.joined) + if s.unwinding.None? then 1 else 0
  }

  /** Every step leaves less to do. */
  lemma StepsGetThere<I, T, P>(f: I -> Mapped<T, P>, shares: seq<seq<I>>, s: State<I, T, P>, e: Event)
    requires |s.workers| <= |shares| && s.joined <= |shares| && Enabled(shares, s, e)
    ensures var after := Apply(f, shares, s, e);
      && |after.workers| <= |shares| && after.joined <= |shares|
      && Measure(shares, after) < Measure(shares, s)
  {
    match e {
      case Spawn =>
        var after := Apply(f, shares, s, e);
        assert after.workers[..|s.workers|] == s.workers;
      case Work(w) =>
        LeftAfter(s.workers, w, Worked(f, s.workers[w]));
      case Join =>
    }
  }

  /** So no run is longer than what there was to do. */
  lemma {:induction false} RunsEnd<I, T, P>(f: I -> Mapped<T, P>, shares: seq<seq<I>>, s: State<I, T, P>,
                                            events: seq<Event>)
    requires |s.workers| <= |shares| && s.joined <= |shares| && CanRun(f, shares, s, events)
    ensures |events| <= Measure(shares, s)
    decreases |events|
  {
    hide Measure, Apply, Enabled;
    if events != [] {
      StepsGetThere(f, shares, s, events[0]);
      RunsEnd(f, shares, Apply(f, shares, s, events[0]), events[1..]);
    }
  }

  lemma SomeStepIsPossible<I, T, P>(shares: seq<seq<I>>, s: State<I, T, P>)
    requires |s.workers| <= |shares| && s.joined <= |shares| && !IsOver(shares, s)
    ensures exists e :: Enabled(shares, s, e)
  {
    if |s.workers| < |shares| {
      assert Enabled(shares, s, Spawn);
    } else if exists w | 0 <= w < |s.workers| :: s.workers[w].Running? {
      var w: nat :| w < |s.workers| && s.workers[w].Running?;
      assert Enabled(shares, s, Work(w));
    } else {
      assert Enabled(shares, s, Join);
    }
  }
}
