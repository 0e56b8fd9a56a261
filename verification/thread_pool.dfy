/**
  spdlog's thread pool under the blocking policy: clients post messages, workers take them
  from the bounded queue and process them, and the destructor posts one terminate message per
  worker and joins.  Every locked queue operation is one step; an operation that waits is a
  step that is not yet possible.  A message is processed after the lock has been released, so
  taking it and processing it are two steps.
*/
module ThreadPool {
  import opened Options

  datatype Msg = Job(id: nat) | Terminate

  /** Worker `w` has taken job `id` and has yet to process it. */
  datatype Held = Held(w: nat, id: nat)

  /**
    `active` are the workers still in `worker_loop_`, `hand` the jobs they hold, `toPost` the
    terminate messages the destructor has yet to post; `posted`, `taken` and `processed` record
    jobs in order.
  */
  datatype State = State(
    capacity: nat, workers: set<nat>, queue: seq<Msg>, active: set<nat>, hand: seq<Held>, stopping: bool, toPost: nat,
    posted: seq<nat>, taken: seq<nat>, processed: seq<nat>, overrun: nat)

  datatype Step =
    | Post(id: nat)            // post_log / post_flush
    | BeginShutdown            // the destructor is entered
    | PostTerminate            // one turn of its first loop
    | Dequeue(w: nat)          // dequeue_for with a message
    | Process(w: nat)          // backend_sink_it_ / backend_flush_
    | Timeout(w: nat)          // dequeue_for without one

  function Begin(capacity: nat, workers: set<nat>): State {
    State(capacity, workers, [], workers, [], false, 0, [], [], [], 0)
  }

  predicate Room(s: State) {
    |s.queue| < s.capacity
  }

  /** `enqueue`; `push_back` counts an overrun when the queue was full. */
  function Enqueue(s: State, m: Msg): State {
    if Room(s) then s.(queue := s.queue + [m])
    else s.(queue := (s.queue + [m])[1..], overrun := s.overrun + 1)
  }

  predicate Holds(hand: seq<Held>, w: nat) {
    exists i | 0 <= i < |hand| :: hand[i].w == w
  }

  /** Where the job of `w` is. */
  function Find(hand: seq<Held>, w: nat): (k: nat)
    requires Holds(hand, w)
    ensures k < |hand| && hand[k].w == w
  {
    if hand[0].w == w then 0
    else
      assert Holds(hand[1..], w) by {
        var i :| 0 <= i < |hand| && hand[i].w == w;
        assert hand[1..][i - 1].w == w;
      }
      1 + Find(hand[1..], w)
  }

  function Without(hand: seq<Held>, k: nat): seq<Held>
    requires k < |hand|
  {
    hand[..k] + hand[k + 1..]
  }

  predicate Can(s: State, step: Step) {
    match step
    case Post(_) => !s.stopping && Room(s)
    case BeginShutdown => !s.stopping
    case PostTerminate => s.stopping && s.toPost > 0 && Room(s)
    case Dequeue(w) => w in s.active && !Holds(s.hand, w) && s.queue != []
    case Process(w) => Holds(s.hand, w)
    case Timeout(w) => w in s.active && !Holds(s.hand, w) && s.queue == []
  }

  function Do(s: State, step: Step): State
    requires Can(s, step)
  {
    match step
    case Post(id) => Enqueue(s, Job(id)).(posted := s.posted + [id])
    case BeginShutdown => s.(stopping := true, toPost := |s.workers|)
    case PostTerminate => Enqueue(s, Terminate).(toPost := s.toPost - 1)
    case Dequeue(w) =>
      var s1 := s.(queue := s.queue[1..]);
      if s.queue[0].Job?
      then s1.(hand := s.hand + [Held(w, s.queue[0].id)], taken := s.taken + [s.queue[0].id])
      else s1.(active := s.active - {w})
    case Process(w) =>
      var k := Find(s.hand, w);
      s.(hand := Without(s.hand, k), processed := s.processed + [s.hand[k].id])
    case Timeout(_) => s
  }

  function Exec(s: State, run: seq<Step>): Option<State>
    decreases run
  {
    if run == [] then Some(s)
    else
      var before := Exec(s, run[..|run|-1]);
      var step := run[|run|-1];
      if before.Some? && Can(before.value, step) then Some(Do(before.value, step)) else None
  }

  function Jobs(q: seq<Msg>): seq<nat> {
    if q == [] then [] else (if q[0].Job? then [q[0].id] else []) + Jobs(q[1..])
  }

  function Terminates(q: seq<Msg>): nat {
    if q == [] then 0 else (if q[0].Terminate? then 1 else 0) + Terminates(q[1..])
  }

  function InHand(hand: seq<Held>): seq<nat> {
    seq(|hand|, i requires 0 <= i < |hand| => hand[i].id)
  }

  /** Jobs come before terminate messages. */
  predicate JobsFirst(q: seq<Msg>) {
    forall i, j | 0 <= i < j < |q| :: q[i].Terminate? ==> q[j].Terminate?
  }

  lemma {:induction false} CountsAppend(q: seq<Msg>, m: Msg)
    ensures Jobs(q + [m]) == Jobs(q) + if m.Job? then [m.id] else []
    ensures Terminates(q + [m]) == Terminates(q) + if m.Terminate? then 1 else 0
  {
    if q == [] {
      assert q + [m] == [m];
    } else {
      assert (q + [m])[1..] == q[1..] + [m];
      CountsAppend(q[1..], m);
    }
  }

  lemma {:induction false} OnlyTerminates(q: seq<Msg>)
    requires JobsFirst(q) && q != [] && q[0].Terminate?
    ensures Jobs(q) == [] && Terminates(q) == |q|
  {
    if |q| > 1 {
      assert q[1..][0] == q[1];
      OnlyTerminates(q[1..]);
    }
  }

  lemma {:induction false} OnlyJobs(q: seq<Msg>)
    requires Terminates(q) == 0
    ensures forall i | 0 <= i < |q| :: q[i].Job?
  {
    if q != [] { OnlyJobs(q[1..]); }
  }

  // ---------------------------------------------------------------------------
  // The invariant

  /** Jobs are taken in the order posted. */
  predicate InOrder(s: State) {
    && |s.queue| <= s.capacity && s.overrun == 0
    && s.posted == s.taken + Jobs(s.queue)
    && JobsFirst(s.queue)
  }

  /** As many workers as terminate messages queued or still to post. */
  predicate Counted(s: State) {
    && s.active <= s.workers
    && |s.active| == (if s.stopping then Terminates(s.queue) + s.toPost else |s.workers|)
    && (!s.stopping ==> Terminates(s.queue) == 0 && s.toPost == 0 && s.active == s.workers)
    && (s.active != s.workers ==> Jobs(s.queue) == [])
  }

  /** A job that has been taken is in one worker's hand or has been processed, once. */
  predicate Accounted(s: State) {
    && multiset(s.taken) == multiset(s.processed) + multiset(InHand(s.hand))
    && (forall i | 0 <= i < |s.hand| :: s.hand[i].w in s.active)
    && (forall i, j | 0 <= i < j < |s.hand| :: s.hand[i].w != s.hand[j].w)
    && (|s.workers| == 1 ==> s.taken == s.processed + InHand(s.hand))
  }

  predicate Inv(s: State) {
    InOrder(s) && Counted(s) && Accounted(s)
  }

  lemma EnqueueInv(s: State, step: Step)
    requires Inv(s) && Can(s, step) && (step.Post? || step.PostTerminate?)
    ensures Inv(Do(s, step))
  {
    match step
    case Post(id) =>
      CountsAppend(s.queue, Job(id));
      OnlyJobs(s.queue);
      assert s.taken + (Jobs(s.queue) + [id]) == s.taken + Jobs(s.queue) + [id];
    case PostTerminate => CountsAppend(s.queue, Terminate);
  }

  lemma DequeueInv(s: State, w: nat)
    requires Inv(s) && Can(s, Dequeue(w))
    ensures Inv(Do(s, Dequeue(w)))
  {
    if s.queue[0].Terminate? {
      LeaveInv(s, w);
    } else {
      assert s.taken + ([s.queue[0].id] + Jobs(s.queue[1..])) == s.taken + [s.queue[0].id] + Jobs(s.queue[1..]);
      HandGrows(s, w, s.queue[0].id);
    }
  }

  lemma LeaveInv(s: State, w: nat)
    requires Inv(s) && w in s.active && !Holds(s.hand, w) && s.queue != [] && s.queue[0].Terminate?
    ensures Inv(s.(queue := s.queue[1..], active := s.active - {w}))
  {
    OnlyTerminates(s.queue);
    if |s.queue| > 1 { OnlyTerminates(s.queue[1..]); }
    assert |s.active - {w}| == |s.active| - 1;
  }

  lemma HandGrows(s: State, w: nat, id: nat)
    requires Accounted(s) && s.active <= s.workers && w in s.active && !Holds(s.hand, w)
    ensures var hand := s.hand + [Held(w, id)];
            Accounted(s.(hand := hand, taken := s.taken + [id]))
  {
    var hand := s.hand + [Held(w, id)];
    assert InHand(hand) == InHand(s.hand) + [id];
    if |s.workers| == 1 {
      assert s.processed + (InHand(s.hand) + [id]) == s.processed + InHand(s.hand) + [id];
    }
  }

  lemma ProcessInv(s: State, w: nat)
    requires Inv(s) && Can(s, Process(w))
    ensures Inv(Do(s, Process(w)))
  {
    HandWithout(s, Find(s.hand, w));
  }

  lemma HandWithout(s: State, k: nat)
    requires Accounted(s) && s.active <= s.workers && k < |s.hand|
    ensures Accounted(s.(hand := Without(s.hand, k), processed := s.processed + [s.hand[k].id]))
  {
    HandShrinks(s.hand, k);
    HoldersKept(s.hand, k);
    if |s.workers| == 1 {
      OneInHand(s);
      LastOfOne(s.processed, s.hand);
    }
  }

  lemma HoldersKept(hand: seq<Held>, k: nat)
    requires k < |hand| && forall i, j | 0 <= i < j < |hand| :: hand[i].w != hand[j].w
    ensures var rest := Without(hand, k);
            && (forall i | 0 <= i < |rest| :: rest[i] in hand)
            && (forall i, j | 0 <= i < j < |rest| :: rest[i].w != rest[j].w)
  {
    var rest := Without(hand, k);
    assert forall i | 0 <= i < |rest| :: rest[i] == hand[if i < k then i else i + 1];
  }

  lemma LastOfOne(processed: seq<nat>, hand: seq<Held>)
    requires |hand| == 1
    ensures processed + InHand(hand) == processed + [hand[0].id] + InHand(Without(hand, 0))
  {
  }

  lemma HandShrinks(hand: seq<Held>, k: nat)
    requires k < |hand|
    ensures multiset(InHand(hand)) == multiset{hand[k].id} + multiset(InHand(Without(hand, k)))
  {
    var rest := Without(hand, k);
    var a, b := InHand(hand)[..k], InHand(hand)[k + 1..];
    assert InHand(hand) == a + [hand[k].id] + b;
    assert InHand(rest) == a + b;
  }

  /** A single worker holds at most one job. */
  lemma OneInHand(s: State)
    requires Accounted(s) && s.active <= s.workers && |s.workers| == 1
    ensures |s.hand| <= 1
  {
    if |s.hand| > 1 {
      var a, b := s.hand[0].w, s.hand[1].w;
      assert {a, b} <= s.workers && a != b;
      SubsetSize({a, b}, s.workers);
    }
  }

  lemma {:induction false} SubsetSize(a: set<nat>, b: set<nat>)
    requires a <= b
    ensures |a| <= |b|
  {
    if x :| x in a { SubsetSize(a - {x}, b - {x}); }
  }

  lemma StepInv(s: State, step: Step)
    requires Inv(s) && Can(s, step)
    ensures Inv(Do(s, step))
  {
    match step
    case Post(_) => EnqueueInv(s, step);
    case BeginShutdown =>
    case PostTerminate => EnqueueInv(s, step);
    case Dequeue(w) => DequeueInv(s, w);
    case Process(w) => ProcessInv(s, w);
    case Timeout(_) =>
  }

  lemma {:induction false} RunInv(capacity: nat, workers: set<nat>, run: seq<Step>)
    ensures Exec(Begin(capacity, workers), run).Some? ==>
              var s := Exec(Begin(capacity, workers), run).value;
              Inv(s) && s.capacity == capacity && s.workers == workers
    decreases run
  {
    if run != [] && Exec(Begin(capacity, workers), run).Some? {
      var before := run[..|run|-1];
      RunInv(capacity, workers, before);
      StepInv(Exec(Begin(capacity, workers), before).value, run[|run|-1]);
    }
  }

  // ---------------------------------------------------------------------------
  // What holds in every run

  /** Jobs are taken once each and in the order posted, and nothing is ever overrun. */
  lemma TakenInOrder(capacity: nat, workers: set<nat>, run: seq<Step>, s: State)
    requires Exec(Begin(capacity, workers), run) == Some(s)
    ensures s.posted == s.taken + Jobs(s.queue) && s.overrun == 0 && |s.queue| <= capacity
  {
    RunInv(capacity, workers, run);
  }

  /** Every job taken has been processed once or is in the hand of one worker. */
  lemma ProcessedOnce(capacity: nat, workers: set<nat>, run: seq<Step>, s: State)
    requires Exec(Begin(capacity, workers), run) == Some(s)
    ensures multiset(s.taken) == multiset(s.processed) + multiset(InHand(s.hand))
    ensures |s.hand| <= |workers|
  {
    RunInv(capacity, workers, run);
    HandBound(s);
  }

  lemma HandBound(s: State)
    requires Accounted(s) && s.active <= s.workers
    ensures |s.hand| <= |s.workers|
  {
    Distinct(s.hand);
    var ws := set i | 0 <= i < |s.hand| :: s.hand[i].w;
    SubsetSize(ws, s.workers);
  }

  lemma {:induction false} Distinct(hand: seq<Held>)
    requires forall i, j | 0 <= i < j < |hand| :: hand[i].w != hand[j].w
    ensures |set i | 0 <= i < |hand| :: hand[i].w| == |hand|
  {
    var ws := set i | 0 <= i < |hand| :: hand[i].w;
    if hand != [] {
      var n := |hand| - 1;
      Distinct(hand[..n]);
      var rest := set i | 0 <= i < n :: hand[..n][i].w;
      assert ws == rest + {hand[n].w};
    }
  }

  /** With a single worker jobs are processed in the order posted. */
  lemma SingleWorkerInOrder(capacity: nat, workers: set<nat>, run: seq<Step>, s: State)
    requires Exec(Begin(capacity, workers), run) == Some(s) && |workers| == 1
    ensures s.processed <= s.posted
  {
    RunInv(capacity, workers, run);
  }

  /**
    A worker takes a terminate message, or has taken one, only when every posted job has been taken.
    Every one has been processed as well if and only if no worker holds one.
  */
  lemma TerminateOnlyWhenDrained(capacity: nat, workers: set<nat>, run: seq<Step>, s: State)
    requires Exec(Begin(capacity, workers), run) == Some(s)
    requires s.active != s.workers || (s.queue != [] && s.queue[0].Terminate?)
    ensures s.taken == s.posted
    ensures multiset(s.processed) == multiset(s.posted) <==> s.hand == []
  {
    RunInv(capacity, workers, run);
    if s.queue != [] && s.queue[0].Terminate? { OnlyTerminates(s.queue); }
    HandSize(s);
  }

  lemma HandSize(s: State)
    requires Accounted(s)
    ensures multiset(s.processed) == multiset(s.taken) <==> s.hand == []
  {
    assert |multiset(InHand(s.hand))| == |s.hand|;
    assert |multiset(s.taken)| == |multiset(s.processed)| + |s.hand|;
  }

  /** Work left for the shutdown. */
  function Left(s: State): nat {
    3 * s.toPost + 2 * |s.queue| + |s.hand|
  }

  /** A step by which the shutdown gets on. */
  predicate Useful(step: Step) {
    step.PostTerminate? || step.Dequeue? || step.Process?
  }

  /** During shutdown with workers left, some such step is possible, and each leaves less to do. */
  lemma ShutdownNeverSticks(capacity: nat, workers: set<nat>, run: seq<Step>, s: State)
    requires capacity >= 1
    requires Exec(Begin(capacity, workers), run) == Some(s) && s.stopping && s.active != {}
    ensures exists step :: Useful(step) && Can(s, step)
    ensures forall step | Useful(step) && Can(s, step) :: Left(Do(s, step)) < Left(s)
  {
    RunInv(capacity, workers, run);
    var w :| w in s.active;
    if s.hand != [] {
      assert Holds(s.hand, s.hand[0].w);
      assert Useful(Process(s.hand[0].w)) && Can(s, Process(s.hand[0].w));
    } else if s.queue == [] {
      assert s.toPost == |s.active| > 0;
      assert Useful(PostTerminate) && Can(s, PostTerminate);
    } else {
      assert Useful(Dequeue(w)) && Can(s, Dequeue(w));
    }
  }

  lemma HolderIsActive(s: State)
    requires Accounted(s) && s.hand != []
    ensures s.active != {}
  {
    assert s.hand[0].w in s.active;
  }

  /**
    When the last worker has gone, nothing is queued, in hand or left to post, and every job has
    been processed exactly once.
  */
  lemma ShutdownComplete(capacity: nat, workers: set<nat>, run: seq<Step>, s: State)
    requires Exec(Begin(capacity, workers), run) == Some(s) && s.stopping && s.active == {}
    requires workers != {}
    ensures s.queue == [] && s.hand == [] && s.toPost == 0
    ensures multiset(s.processed) == multiset(s.posted) && (|workers| == 1 ==> s.processed == s.posted)
  {
    RunInv(capacity, workers, run);
    if s.queue != [] && s.queue[0].Terminate? { OnlyTerminates(s.queue); }
    if s.hand != [] { HolderIsActive(s); }
    assert InHand([]) == [];
  }

  /** The queue size must be at least 1: with size 0 the destructor and the workers wait for each other for ever. */
  lemma EmptyQueueSticks(workers: set<nat>, run: seq<Step>, s: State)
    requires workers != {}
    requires Exec(Begin(0, workers), run) == Some(s) && s.stopping
    ensures s.active == workers && forall step | Useful(step) :: !Can(s, step)
  {
    RunInv(0, workers, run);
    NobodyLeaves(workers, run);
  }

  lemma {:induction false} NobodyLeaves(workers: set<nat>, run: seq<Step>)
    ensures Exec(Begin(0, workers), run).Some? ==>
              var s := Exec(Begin(0, workers), run).value; s.active == workers && s.hand == []
    decreases run
  {
    if run != [] && Exec(Begin(0, workers), run).Some? {
      var before := run[..|run|-1];
      NobodyLeaves(workers, before);
      RunInv(0, workers, before);
    }
  }

  // ---------------------------------------------------------------------------
  // What can happen

  lemma ExecSnoc(from: State, run: seq<Step>, s: State, step: Step)
    requires Exec(from, run) == Some(s)
    ensures Exec(from, run + [step]) == if Can(s, step) then Some(Do(s, step)) else None
  {
    assert (run + [step])[..|run + [step]|-1] == run;
  }

  /** A message is posted whenever the queue has room, and waits otherwise; the destructor may be entered any time. */
  lemma PostAnyTime(from: State, run: seq<Step>, s: State, id: nat)
    requires Exec(from, run) == Some(s) && !s.stopping
    ensures Exec(from, run + [Post(id)]) ==
            if |s.queue| < s.capacity then Some(s.(queue := s.queue + [Job(id)], posted := s.posted + [id])) else None
    ensures Exec(from, run + [BeginShutdown]) == Some(s.(stopping := true, toPost := |s.workers|))
  {
    ExecSnoc(from, run, s, Post(id));
    ExecSnoc(from, run, s, BeginShutdown);
  }

  /** The destructor posts one terminate message after the other, waiting for room. */
  lemma TerminatesArePosted(from: State, run: seq<Step>, s: State)
    requires Exec(from, run) == Some(s) && s.stopping && s.toPost > 0
    ensures Exec(from, run + [PostTerminate]) ==
            if |s.queue| < s.capacity then Some(s.(queue := s.queue + [Terminate], toPost := s.toPost - 1)) else None
  {
    ExecSnoc(from, run, s, PostTerminate);
  }

  /** Any worker without a job takes the first message: a job into its hand, or its own end. */
  lemma IdleWorkerTakes(from: State, run: seq<Step>, s: State, w: nat)
    requires Exec(from, run) == Some(s) && s.queue != []
    requires w in s.active && forall i | 0 <= i < |s.hand| :: s.hand[i].w != w
    ensures var s', m := Exec(from, run + [Dequeue(w)]), s.queue[0];
            && (m.Terminate? ==> s' == Some(s.(queue := s.queue[1..], active := s.active - {w})))
            && (m.Job? ==> s' == Some(s.(queue := s.queue[1..], hand := s.hand + [Held(w, m.id)],
                                         taken := s.taken + [m.id])))
  {
    ExecSnoc(from, run, s, Dequeue(w));
  }

  /** Any worker with a job can process it, whatever the others do. */
  lemma HolderProcesses(capacity: nat, workers: set<nat>, run: seq<Step>, s: State, i: nat)
    requires Exec(Begin(capacity, workers), run) == Some(s) && i < |s.hand|
    ensures Exec(Begin(capacity, workers), run + [Process(s.hand[i].w)]) ==
            Some(s.(hand := s.hand[..i] + s.hand[i + 1..], processed := s.processed + [s.hand[i].id]))
  {
    RunInv(capacity, workers, run);
    assert Holds(s.hand, s.hand[i].w);
    assert Find(s.hand, s.hand[i].w) == i;
    ExecSnoc(Begin(capacity, workers), run, s, Process(s.hand[i].w));
  }

  predicate AllGone(s: Option<State>) {
    s.Some? && s.value.active == {}
  }

  /** From every state of a shutdown the last worker can get to its end, if the queue has any size. */
  lemma {:induction false} ShutdownCanFinish(capacity: nat, workers: set<nat>, run: seq<Step>, s: State)
    requires capacity >= 1
    requires Exec(Begin(capacity, workers), run) == Some(s) && s.stopping
    ensures exists more :: AllGone(Exec(Begin(capacity, workers), run + more))
    decreases Left(s)
  {
    if s.active == {} {
      assert run + [] == run;
      assert AllGone(Exec(Begin(capacity, workers), run + []));
    } else {
      ShutdownNeverSticks(capacity, workers, run, s);
      var step :| Useful(step) && Can(s, step);
      UsefulStep(Begin(capacity, workers), run, s, step);
      ShutdownCanFinish(capacity, workers, run + [step], Do(s, step));
      var more :| AllGone(Exec(Begin(capacity, workers), run + [step] + more));
      Joined(Begin(capacity, workers), run, step, more);
    }
  }

  lemma UsefulStep(from: State, run: seq<Step>, s: State, step: Step)
    requires Exec(from, run) == Some(s) && s.stopping && Useful(step) && Can(s, step)
    ensures Exec(from, run + [step]) == Some(Do(s, step)) && Do(s, step).stopping
  {
    ExecSnoc(from, run, s, step);
  }

  lemma Joined(from: State, run: seq<Step>, step: Step, more: seq<Step>)
    requires AllGone(Exec(from, run + [step] + more))
    ensures exists rest :: AllGone(Exec(from, run + rest))
  {
    assert run + [step] + more == run + ([step] + more);
  }

  // ---------------------------------------------------------------------------
  // Two workers

  /** A worker is told to terminate while the other still holds a job. */
  const EarlyRun: seq<Step> := [Post(7)] + [Dequeue(0)] + [BeginShutdown] + [PostTerminate] + [Dequeue(1)]

  /** The second job is processed first. */
  const SwappedRun: seq<Step> := [Post(7)] + [Post(8)] + [Dequeue(0)] + [Dequeue(1)] + [Process(1)] + [Process(0)]

  const Pair := Begin(2, {0, 1})

  lemma Next(run: seq<Step>, s: State, step: Step, s': State)
    requires Exec(Pair, run) == Some(s) && Can(s, step) && s' == Do(s, step)
    ensures Exec(Pair, run + [step]) == Some(s')
  {
    ExecSnoc(Pair, run, s, step);
  }

  lemma FirstPost(s: State)
    requires s == Pair.(queue := [Job(7)], posted := [7])
    ensures Exec(Pair, [Post(7)]) == Some(s)
  {
    assert Exec(Pair, []) == Some(Pair);
    Next([], Pair, Post(7), s);
    assert [] + [Post(7)] == [Post(7)];
  }

  lemma TerminateBeforeProcessing()
    ensures var s := Exec(Pair, EarlyRun);
            s.Some? && s.value.active == {0} && s.value.posted == [7] && s.value.processed == []
  {
    var s1 := Pair.(queue := [Job(7)], posted := [7]);
    var s2 := s1.(queue := [], hand := [Held(0, 7)], taken := [7]);
    var s3 := s2.(stopping := true, toPost := 2);
    var s4 := s3.(queue := [Terminate], toPost := 1);
    var s5 := s4.(queue := [], active := {0});
    FirstPost(s1);
    Next([Post(7)], s1, Dequeue(0), s2);
    var r2 := [Post(7)] + [Dequeue(0)];
    Next(r2, s2, BeginShutdown, s3);
    Next(r2 + [BeginShutdown], s3, PostTerminate, s4);
    assert !Holds(s4.hand, 1);
    assert Do(s4, Dequeue(1)).active == {0};
    Next(r2 + [BeginShutdown] + [PostTerminate], s4, Dequeue(1), s5);
  }

  lemma ProcessedOutOfOrder()
    ensures var s := Exec(Pair, SwappedRun);
            s.Some? && s.value.posted == [7, 8] && s.value.processed == [8, 7]
  {
    var s1 := Pair.(queue := [Job(7)], posted := [7]);
    var s2 := s1.(queue := [Job(7), Job(8)], posted := [7, 8]);
    var s3 := s2.(queue := [Job(8)], hand := [Held(0, 7)], taken := [7]);
    var s4 := s3.(queue := [], hand := [Held(0, 7), Held(1, 8)], taken := [7, 8]);
    FirstPost(s1);
    Next([Post(7)], s1, Post(8), s2);
    var r2 := [Post(7)] + [Post(8)];
    Next(r2, s2, Dequeue(0), s3);
    assert !Holds(s3.hand, 1);
    Next(r2 + [Dequeue(0)], s3, Dequeue(1), s4);
    LastTwo(r2 + [Dequeue(0)] + [Dequeue(1)], s4);
  }

  lemma LastTwo(run: seq<Step>, s: State)
    requires Exec(Pair, run) == Some(s) && s.hand == [Held(0, 7), Held(1, 8)] && s.processed == []
    ensures Exec(Pair, run + [Process(1)] + [Process(0)]) == Some(s.(hand := [], processed := [8, 7]))
  {
    assert s.hand[0].w == 0 && s.hand[1].w == 1;
    var s1 := s.(hand := [Held(0, 7)], processed := [8]);
    Next(run, s, Process(1), s1);
    assert s1.hand[0].w == 0;
    Next(run + [Process(1)], s1, Process(0), s.(hand := [], processed := [8, 7]));
  }
}
