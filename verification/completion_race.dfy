/**
  The completion check at thread granularity.  The event-loop thread of a proxy connection
  adds to `recv_count_`, compares it with the announced total and takes the EOF of the outer
  connection; the control thread sets the total and compares it with `recv_count_`.  Each
  locked counter access is a step of its own, those of `resetConn` included.
*/
module CompletionRace {
  import opened Options

  /** What a thread has read so far in a comparison; the two reads may come in either order. */
  datatype Regs = Regs(recv: Option<int>, total: Option<int>)

  const Unread := Regs(None, None)

  /** `Checking` is the comparison in `handleRead`, `Rechecking` the one in the handler it then calls. */
  datatype DataPc = Reading | Checking(regs: Regs) | Rechecking(regs: Regs)

  datatype NoticePc = Waiting | Comparing(regs: Regs) | Over

  /** The lock of the connection: free, or held by a `resetConn` that has yet to clear both counters or the total. */
  datatype Lock = Free | Clearing | HalfCleared

  /**
    `todo` are the byte counts the second splice will still move in this session,
    `goal` the total the far end announces, `eof` says that the EOF of the outer connection
    has been taken, `completions` counts the calls of `shutdownFromRemote` and `resets` the
    finished ones of `resetConn`.
  */
  datatype State = State(
    goal: int, todo: seq<nat>, recv: int, total: int, halfClose: bool, eof: bool, lock: Lock,
    data: DataPc, notice: NoticePc, completions: nat, resets: nat)

  datatype Step =
    | Incr | CheckRecv | CheckTotal | Check | RecheckRecv | RecheckTotal | Recheck | Eof
    | SetTotal | NoticeRecv | NoticeTotal | NoticeCompare
    | ClearRecv | ClearTotal

  function Sum(s: seq<nat>): nat {
    if s == [] then 0 else s[0] + Sum(s[1..])
  }

  /** A session whose second splices will move `counts`. */
  function Begin(counts: seq<nat>): State {
    State(Sum(counts), counts, 0, -1, false, false, Free, Reading, Waiting, 0, 0)
  }

  /** Taking the lock of the connection: the second of two half-closes starts a reset. */
  function HalfClose(s: State): State {
    if s.halfClose then s.(lock := Clearing) else s.(halfClose := true)
  }

  function Complete(s: State): State {
    HalfClose(s).(completions := s.completions + 1)
  }

  predicate Both(r: Regs) {
    r.recv.Some? && r.total.Some?
  }

  /** A comparison that sees equality has to wait for the lock. */
  predicate Through(s: State, r: Regs) {
    Both(r) && (r.recv == r.total ==> s.lock.Free?)
  }

  predicate Can(s: State, step: Step) {
    match step
    case Incr => s.data.Reading? && s.todo != []
    case CheckRecv => s.data.Checking? && s.data.regs.recv.None?
    case CheckTotal => s.data.Checking? && s.data.regs.total.None?
    case Check => s.data.Checking? && Both(s.data.regs)
    case RecheckRecv => s.data.Rechecking? && s.data.regs.recv.None?
    case RecheckTotal => s.data.Rechecking? && s.data.regs.total.None?
    case Recheck => s.data.Rechecking? && Through(s, s.data.regs)
    case Eof => s.data.Reading? && !s.eof && s.lock.Free?
    case SetTotal => s.notice.Waiting?
    case NoticeRecv => s.notice.Comparing? && s.notice.regs.recv.None?
    case NoticeTotal => s.notice.Comparing? && s.notice.regs.total.None?
    case NoticeCompare => s.notice.Comparing? && Through(s, s.notice.regs)
    case ClearRecv => s.lock.Clearing?
    case ClearTotal => s.lock.HalfCleared?
  }

  function Do(s: State, step: Step): State
    requires Can(s, step)
  {
    match step
    case Incr => s.(recv := s.recv + s.todo[0], todo := s.todo[1..], data := Checking(Unread))
    case CheckRecv => s.(data := Checking(s.data.regs.(recv := Some(s.recv))))
    case CheckTotal => s.(data := Checking(s.data.regs.(total := Some(s.total))))
    case Check => s.(data := if s.data.regs.recv == s.data.regs.total then Rechecking(Unread) else Reading)
    case RecheckRecv => s.(data := Rechecking(s.data.regs.(recv := Some(s.recv))))
    case RecheckTotal => s.(data := Rechecking(s.data.regs.(total := Some(s.total))))
    case Recheck =>
      if s.data.regs.recv == s.data.regs.total then Complete(s.(data := Reading)) else s.(data := Reading)
    case Eof => HalfClose(s.(eof := true))
    case SetTotal =>
      s.(total := if s.total == -1 then s.goal else s.total + s.goal, notice := Comparing(Unread))
    case NoticeRecv => s.(notice := Comparing(s.notice.regs.(recv := Some(s.recv))))
    case NoticeTotal => s.(notice := Comparing(s.notice.regs.(total := Some(s.total))))
    case NoticeCompare =>
      if s.notice.regs.recv == s.notice.regs.total then Complete(s.(notice := Over)) else s.(notice := Over)
    case ClearRecv => s.(recv := 0, lock := HalfCleared)
    case ClearTotal => s.(total := -1, halfClose := false, lock := Free, resets := s.resets + 1)
  }

  function Exec(s: State, run: seq<Step>): Option<State>
    decreases run
  {
    if run == [] then Some(s)
    else
      var before := Exec(s, run[..|run|-1]);
      var step := run[|run|-1];
      if before.Some? && Can(before.value, step) then Some(Do(before.value, step)) else None
  }

  /** Both threads have done all they will do. */
  predicate Finished(s: State) {
    s.todo == [] && s.data.Reading? && s.notice.Over? && s.lock.Free?
  }

  /** Every splice moves something. */
  predicate Positive(counts: seq<nat>) {
    forall i | 0 <= i < |counts| :: counts[i] > 0
  }

  // ---------------------------------------------------------------------------
  // When accesses happen

  /** When each access last happened, counted from 1; 0 for never. */
  datatype Times = Times(
    now: nat, incr: nat, checkTotal: nat, recheckRecv: nat, recheckTotal: nat, recheck: nat, eof: nat,
    announced: nat, noticeRecv: nat, noticeTotal: nat, notice: nat, clearRecv: nat, clearTotal: nat)

  const Start := Times(0, 0, 0, 0, 0, 0, 0, 0, 0, 0, 0, 0, 0)

  function Tick(before: Times, step: Step): Times {
    var t := before.now + 1;
    var h := before.(now := t);
    match step
    case Incr => h.(incr := t)
    case CheckRecv => h
    case CheckTotal => h.(checkTotal := t)
    case Check => h
    case RecheckRecv => h.(recheckRecv := t)
    case RecheckTotal => h.(recheckTotal := t)
    case Recheck => h.(recheck := t)
    case Eof => h.(eof := t)
    case SetTotal => h.(announced := t)
    case NoticeRecv => h.(noticeRecv := t)
    case NoticeTotal => h.(noticeTotal := t)
    case NoticeCompare => h.(notice := t)
    case ClearRecv => h.(clearRecv := t)
    case ClearTotal => h.(clearTotal := t)
  }

  function Clock(run: seq<Step>): Times {
    if run == [] then Start else Tick(Clock(run[..|run|-1]), run[|run|-1])
  }

  /** The last check of the data thread read the total after it had been set. */
  predicate DataDue(h: Times) { 0 < h.announced < h.checkTotal }

  /** The notice thread read the count after the last bytes had been added. */
  predicate NoticeDue(h: Times) { h.incr < h.noticeRecv }

  /** A read at time `t` of a counter cleared at time `clear`, if ever, came before that. */
  predicate InTime(t: nat, clear: nat) { clear == 0 || t < clear }

  /**
    Both comparisons are made on the final counters: each thread reads after the other's write, and
    all four reads come before the counter they read is cleared.
  */
  predicate Twice(h: Times) {
    && DataDue(h) && NoticeDue(h) && h.recheck > 0
    && InTime(h.recheckRecv, h.clearRecv) && InTime(h.recheckTotal, h.clearTotal)
    && InTime(h.noticeRecv, h.clearRecv) && InTime(h.noticeTotal, h.clearTotal)
  }

  // ---------------------------------------------------------------------------
  // The invariant

  predicate Is(o: Option<int>, n: int) {
    o == None || o == Some(n)
  }

  /** Which accesses have happened, given where the threads are. */
  predicate Ordered(s: State, h: Times) {
    && Positive(s.todo) && (s.eof <==> h.eof > 0) && h.eof <= h.now
    && h.incr <= h.now && h.checkTotal <= h.now && h.recheck <= h.now
    && h.recheckRecv <= h.now && h.recheckTotal <= h.now
    && h.clearRecv <= h.now && h.clearTotal <= h.now
    && h.announced <= h.now && h.notice <= h.now && h.noticeRecv <= h.now && h.noticeTotal <= h.now
    && s.goal >= Sum(s.todo) && (if h.incr > 0 then s.goal > 0 else s.goal == Sum(s.todo) && h.checkTotal == 0)
    && NoticeOrdered(s.notice, h) && DataOrdered(s.data, h)
  }

  predicate NoticeOrdered(notice: NoticePc, h: Times) {
    match notice
    case Waiting => h.announced == 0 && h.noticeRecv == 0 && h.noticeTotal == 0 && h.notice == 0
    case Comparing(regs) =>
      && 0 < h.announced && h.notice == 0
      && (if regs.recv.Some? then h.announced < h.noticeRecv else h.noticeRecv == 0)
      && (if regs.total.Some? then h.announced < h.noticeTotal else h.noticeTotal == 0)
    case Over => 0 < h.announced < h.noticeRecv < h.notice && h.announced < h.noticeTotal < h.notice
  }

  predicate DataOrdered(data: DataPc, h: Times) {
    match data
    case Reading =>
      && (h.incr > 0 ==> h.incr < h.checkTotal)
      && (h.recheck > 0 ==> h.checkTotal < h.recheckRecv < h.recheck && h.checkTotal < h.recheckTotal < h.recheck)
    case Checking(regs) =>
      && h.incr > 0 && h.recheck == 0
      && (if regs.total.Some? then h.incr < h.checkTotal else h.checkTotal < h.incr)
    case Rechecking(regs) =>
      && 0 < h.incr < h.checkTotal && h.recheck == 0
      && (regs.recv.Some? ==> h.checkTotal < h.recheckRecv)
      && (regs.total.Some? ==> h.checkTotal < h.recheckTotal)
  }

  /** Before the first completion. */
  predicate Pending(s: State, h: Times) {
    && s.recv + Sum(s.todo) == s.goal && s.recv >= 0
    && s.total == (if s.notice.Waiting? then -1 else s.goal)
    && s.halfClose == s.eof && s.resets == 0 && h.recheck == 0
    && s.lock.Free? && h.clearRecv == 0 && h.clearTotal == 0
    && (s.data.Reading? && s.todo == [] ==> !DataDue(h))
    && (s.data.Checking? ==> Is(s.data.regs.recv, s.recv))
    && (s.data.Checking? && s.data.regs.total.Some? ==> s.data.regs.total.value == if DataDue(h) then s.goal else -1)
    && (s.data.Rechecking? ==>
          DataDue(h) && s.todo == [] && Is(s.data.regs.recv, s.goal) && Is(s.data.regs.total, s.goal))
    && (s.notice.Comparing? && s.notice.regs.recv.Some? ==>
          && s.notice.regs.recv.value >= 0
          && (s.notice.regs.recv.value == s.goal <==> s.todo == [] && NoticeDue(h)))
    && (s.notice.Comparing? ==> Is(s.notice.regs.total, s.goal))
    && (s.notice.Over? ==> s.todo != [] || !NoticeDue(h))
  }

  /** How far a reset has got. */
  predicate Clears(s: State, h: Times) {
    && s.recv == (if h.clearRecv > 0 then 0 else s.goal) && s.total == (if h.clearTotal > 0 then -1 else s.goal)
    && (h.clearTotal > 0 ==> h.clearRecv > 0)
  }

  /** After one completion: a reset is going on or finished if the EOF has been taken as well. */
  predicate Halfway(s: State, h: Times) {
    && s.todo == [] && Clears(s, h)
    && (if s.eof
        then && s.halfClose == !s.lock.Free? && s.resets == (if s.lock.Free? then 1 else 0)
             && (h.clearRecv > 0 <==> !s.lock.Clearing?) && (h.clearTotal > 0 <==> s.lock.Free?)
        else s.halfClose && s.resets == 0 && s.lock.Free? && h.clearRecv == 0 && h.clearTotal == 0)
  }

  /** A read made at time `t` of a counter with value `before` until it was cleared to `after`. */
  predicate ReadAt(o: Option<int>, t: nat, clear: nat, before: int, after: int) {
    o.Some? ==> o.value == if InTime(t, clear) then before else after
  }

  /** The data thread completed first. */
  predicate DataFirst(s: State, h: Times) {
    && Halfway(s, h) && s.goal > 0 && DataDue(h) && h.recheck > 0 && s.data.Reading? && !s.notice.Waiting?
    && InTime(h.recheckRecv, h.clearRecv) && InTime(h.recheckTotal, h.clearTotal)
    && (s.notice.Comparing? ==>
          && ReadAt(s.notice.regs.total, h.noticeTotal, h.clearTotal, s.goal, -1)
          && (s.notice.regs.recv.Some? ==>
                if !InTime(h.noticeRecv, h.clearRecv) then s.notice.regs.recv.value == 0
                else (s.notice.regs.recv.value == s.goal <==> NoticeDue(h)) && s.notice.regs.recv.value >= 0))
    && (s.notice.Over? ==>
          !(NoticeDue(h) && InTime(h.noticeRecv, h.clearRecv) && InTime(h.noticeTotal, h.clearTotal)))
  }

  /** The notice thread completed first. */
  predicate NoticeFirst(s: State, h: Times) {
    && Halfway(s, h) && s.notice.Over? && NoticeDue(h)
    && InTime(h.noticeRecv, h.clearRecv) && InTime(h.noticeTotal, h.clearTotal)
    && (!s.data.Reading? ==> s.goal > 0 && h.recheck == 0)
    && (s.data.Checking? ==>
          && (s.data.regs.recv.Some? ==>
                s.data.regs.recv.value == s.goal || (h.clearRecv > 0 && s.data.regs.recv.value == 0))
          && ReadAt(s.data.regs.total, h.checkTotal, h.clearTotal, if DataDue(h) then s.goal else -1, -1))
    && (s.data.Rechecking? ==>
          && DataDue(h)
          && ReadAt(s.data.regs.recv, h.recheckRecv, h.clearRecv, s.goal, 0)
          && ReadAt(s.data.regs.total, h.recheckTotal, h.clearTotal, s.goal, -1))
    && (s.data.Reading? && h.recheck > 0 ==>
          !(DataDue(h) && InTime(h.recheckRecv, h.clearRecv) && InTime(h.recheckTotal, h.clearTotal)))
  }

  /** Both completed. */
  predicate Doubled(s: State, h: Times) {
    && s.todo == [] && s.data.Reading? && s.notice.Over? && Twice(h) && Clears(s, h)
    && (if s.lock.Free? then s.resets == 1 && s.halfClose == s.eof && h.clearTotal > 0
        else s.resets == 0 && s.halfClose && !s.eof && h.clearTotal == 0 && (h.clearRecv > 0 <==> s.lock.HalfCleared?))
  }

  predicate Inv(s: State, h: Times) {
    && Ordered(s, h)
    && match s.completions
       case 0 => Pending(s, h)
       case 1 => DataFirst(s, h) || NoticeFirst(s, h)
       case 2 => Doubled(s, h)
       case _ => false
  }

  lemma PendingCheckStep(s: State, h: Times, step: Step)
    requires Ordered(s, h) && Pending(s, h) && s.completions == 0 && Can(s, step)
    requires step.CheckRecv? || step.CheckTotal? || step.Check?
    ensures Ordered(Do(s, step), Tick(h, step)) && Pending(Do(s, step), Tick(h, step)) && Do(s, step).completions == 0
  {
  }

  lemma PendingRecheckStep(s: State, h: Times, step: Step)
    requires Ordered(s, h) && Pending(s, h) && s.completions == 0 && Can(s, step)
    requires step.RecheckRecv? || step.RecheckTotal? || step.Eof?
    ensures Ordered(Do(s, step), Tick(h, step)) && Pending(Do(s, step), Tick(h, step)) && Do(s, step).completions == 0
  {
  }

  lemma PendingIncr(s: State, h: Times)
    requires Ordered(s, h) && Pending(s, h) && s.completions == 0 && Can(s, Incr)
    ensures Ordered(Do(s, Incr), Tick(h, Incr)) && Pending(Do(s, Incr), Tick(h, Incr)) && Do(s, Incr).completions == 0
  {
  }

  lemma PendingNoticeStep(s: State, h: Times, step: Step)
    requires Ordered(s, h) && Pending(s, h) && s.completions == 0 && Can(s, step)
    requires step.NoticeRecv? || step.NoticeTotal?
    ensures Ordered(Do(s, step), Tick(h, step)) && Pending(Do(s, step), Tick(h, step)) && Do(s, step).completions == 0
  {
  }

  lemma PendingSetTotal(s: State, h: Times)
    requires Ordered(s, h) && Pending(s, h) && s.completions == 0 && Can(s, SetTotal)
    ensures Ordered(Do(s, SetTotal), Tick(h, SetTotal)) && Pending(Do(s, SetTotal), Tick(h, SetTotal))
  {
  }

  lemma FirstCompletion(s: State, h: Times, step: Step)
    requires Ordered(s, h) && Pending(s, h) && s.completions == 0 && Can(s, step)
    requires step.Recheck? || step.NoticeCompare?
    ensures Inv(Do(s, step), Tick(h, step))
  {
  }

  predicate NoticeRead(step: Step) {
    step.NoticeRecv? || step.NoticeTotal?
  }

  predicate DataRead(step: Step) {
    step.CheckRecv? || step.CheckTotal? || step.RecheckRecv? || step.RecheckTotal?
  }

  predicate Clear(step: Step) {
    step.ClearRecv? || step.ClearTotal?
  }

  lemma DataFirstRead(s: State, h: Times, step: Step)
    requires Ordered(s, h) && DataFirst(s, h) && s.completions == 1 && Can(s, step) && NoticeRead(step)
    ensures Ordered(Do(s, step), Tick(h, step)) && DataFirst(Do(s, step), Tick(h, step))
  {
  }

  lemma DataFirstClear(s: State, h: Times, step: Step)
    requires Ordered(s, h) && DataFirst(s, h) && s.completions == 1 && Can(s, step) && Clear(step)
    ensures Ordered(Do(s, step), Tick(h, step)) && DataFirst(Do(s, step), Tick(h, step))
  {
  }

  lemma DataFirstEof(s: State, h: Times)
    requires Ordered(s, h) && DataFirst(s, h) && s.completions == 1 && Can(s, Eof)
    ensures Ordered(Do(s, Eof), Tick(h, Eof)) && DataFirst(Do(s, Eof), Tick(h, Eof))
  {
  }

  lemma DataFirstCompare(s: State, h: Times)
    requires Ordered(s, h) && DataFirst(s, h) && s.completions == 1 && Can(s, NoticeCompare)
    ensures Inv(Do(s, NoticeCompare), Tick(h, NoticeCompare))
  {
  }

  /** Nothing else is possible: the data thread is done. */
  lemma DataFirstSteps(s: State, h: Times, step: Step)
    requires DataFirst(s, h) && Can(s, step)
    ensures NoticeRead(step) || Clear(step) || step.Eof? || step.NoticeCompare?
  {
  }

  lemma DataFirstStep(s: State, h: Times, step: Step)
    requires Ordered(s, h) && DataFirst(s, h) && s.completions == 1 && Can(s, step)
    ensures Inv(Do(s, step), Tick(h, step))
  {
    DataFirstSteps(s, h, step);
    if NoticeRead(step) {
      DataFirstRead(s, h, step);
    } else if step.NoticeCompare? {
      DataFirstCompare(s, h);
    } else if step.Eof? {
      DataFirstEof(s, h);
    } else {
      DataFirstClear(s, h, step);
    }
  }

  lemma NoticeFirstRead(s: State, h: Times, step: Step)
    requires Ordered(s, h) && NoticeFirst(s, h) && s.completions == 1 && Can(s, step) && DataRead(step)
    ensures Ordered(Do(s, step), Tick(h, step)) && NoticeFirst(Do(s, step), Tick(h, step))
  {
  }

  lemma NoticeFirstCheck(s: State, h: Times)
    requires Ordered(s, h) && NoticeFirst(s, h) && s.completions == 1 && Can(s, Check)
    ensures Ordered(Do(s, Check), Tick(h, Check)) && NoticeFirst(Do(s, Check), Tick(h, Check))
  {
  }

  lemma NoticeFirstClear(s: State, h: Times, step: Step)
    requires Ordered(s, h) && NoticeFirst(s, h) && s.completions == 1 && Can(s, step) && Clear(step)
    ensures Ordered(Do(s, step), Tick(h, step)) && NoticeFirst(Do(s, step), Tick(h, step))
  {
  }

  lemma NoticeFirstEof(s: State, h: Times)
    requires Ordered(s, h) && NoticeFirst(s, h) && s.completions == 1 && Can(s, Eof)
    ensures Ordered(Do(s, Eof), Tick(h, Eof)) && NoticeFirst(Do(s, Eof), Tick(h, Eof))
  {
  }

  lemma NoticeFirstRecheck(s: State, h: Times)
    requires Ordered(s, h) && NoticeFirst(s, h) && s.completions == 1 && Can(s, Recheck)
    ensures Inv(Do(s, Recheck), Tick(h, Recheck))
  {
  }

  /** Nothing else is possible: the notice thread is done. */
  lemma NoticeFirstSteps(s: State, h: Times, step: Step)
    requires NoticeFirst(s, h) && Can(s, step)
    ensures DataRead(step) || Clear(step) || step.Eof? || step.Check? || step.Recheck?
  {
  }

  lemma NoticeFirstStep(s: State, h: Times, step: Step)
    requires Ordered(s, h) && NoticeFirst(s, h) && s.completions == 1 && Can(s, step)
    ensures Inv(Do(s, step), Tick(h, step))
  {
    NoticeFirstSteps(s, h, step);
    if DataRead(step) {
      NoticeFirstRead(s, h, step);
    } else if step.Check? {
      NoticeFirstCheck(s, h);
    } else if step.Recheck? {
      NoticeFirstRecheck(s, h);
    } else if step.Eof? {
      NoticeFirstEof(s, h);
    } else {
      NoticeFirstClear(s, h, step);
    }
  }

  lemma DoubledStep(s: State, h: Times, step: Step)
    requires Ordered(s, h) && Doubled(s, h) && s.completions == 2 && Can(s, step)
    ensures Inv(Do(s, step), Tick(h, step))
  {
  }

  lemma StepInv(s: State, h: Times, step: Step)
    requires Inv(s, h) && Can(s, step)
    ensures Inv(Do(s, step), Tick(h, step))
  {
    if s.completions == 0 {
      match step
      case Incr => PendingIncr(s, h);
      case Recheck => FirstCompletion(s, h, step);
      case NoticeCompare => FirstCompletion(s, h, step);
      case SetTotal => PendingSetTotal(s, h);
      case NoticeRecv => PendingNoticeStep(s, h, step);
      case NoticeTotal => PendingNoticeStep(s, h, step);
      case CheckRecv => PendingCheckStep(s, h, step);
      case CheckTotal => PendingCheckStep(s, h, step);
      case Check => PendingCheckStep(s, h, step);
      case RecheckRecv => PendingRecheckStep(s, h, step);
      case RecheckTotal => PendingRecheckStep(s, h, step);
      case Eof => PendingRecheckStep(s, h, step);
      case ClearRecv => assert false;
      case ClearTotal => assert false;
    } else if s.completions == 2 {
      DoubledStep(s, h, step);
    } else if DataFirst(s, h) {
      DataFirstStep(s, h, step);
    } else {
      NoticeFirstStep(s, h, step);
    }
  }

  lemma {:induction false} RunInv(counts: seq<nat>, run: seq<Step>)
    requires Positive(counts)
    ensures Exec(Begin(counts), run).Some? ==> Inv(Exec(Begin(counts), run).value, Clock(run))
    decreases run
  {
    if run != [] && Exec(Begin(counts), run).Some? {
      var before := run[..|run|-1];
      RunInv(counts, before);
      StepInv(Exec(Begin(counts), before).value, Clock(before), run[|run|-1]);
    }
  }

  // ---------------------------------------------------------------------------
  // How often the completion happens

  /** Reset, with nothing left of the session but perhaps `half_close_`. */
  predicate Cleared(s: State) {
    s.recv == 0 && s.total == -1 && s.resets == 1
  }

  /**
    A finished session has been completed once, or twice exactly when both threads compare the
    final counters.  Completed once, the connection is half-closed, and reset cleanly once the EOF
    has been taken; completed twice, it is reset whether or not the EOF has been taken, and
    left with `half_close_` set once it has.
  */
  lemma CompletionsExactly(counts: seq<nat>, run: seq<Step>, s: State)
    requires Positive(counts) && Exec(Begin(counts), run) == Some(s) && Finished(s)
    ensures s.completions == if Twice(Clock(run)) then 2 else 1
    ensures Cleared(s) <==> s.eof || Twice(Clock(run))
    ensures s.halfClose <==> (s.eof <==> Twice(Clock(run)))
  {
    RunInv(counts, run);
  }

  /** No two handlers of the two threads overlap. */
  predicate Serial(counts: seq<nat>, run: seq<Step>) {
    forall k | 0 <= k <= |run| ::
      var s := Exec(Begin(counts), run[..k]);
      s.Some? ==> s.value.data.Reading? || !s.value.notice.Comparing?
  }

  /** In serial runs the notice falls between two handlers of the data thread. */
  predicate Between(s: State, h: Times) {
    && (s.notice.Comparing? ==> h.incr < h.announced && h.checkTotal < h.announced)
    && (s.notice.Over? ==> h.notice < h.incr || (h.incr < h.announced && h.checkTotal < h.announced && s.data.Reading?))
  }

  lemma BetweenStep(s: State, h: Times, step: Step)
    requires Ordered(s, h) && Can(s, step) && Between(s, h)
    requires s.data.Reading? || !s.notice.Comparing?
    requires var s' := Do(s, step); s'.data.Reading? || !s'.notice.Comparing?
    ensures Between(Do(s, step), Tick(h, step))
  {
  }

  lemma {:induction false} SerialRun(counts: seq<nat>, run: seq<Step>)
    requires Positive(counts) && Serial(counts, run)
    ensures Exec(Begin(counts), run).Some? ==> Between(Exec(Begin(counts), run).value, Clock(run))
    decreases run
  {
    if run != [] && Exec(Begin(counts), run).Some? {
      var before := run[..|run|-1];
      forall k | 0 <= k <= |before|
        ensures var s := Exec(Begin(counts), before[..k]);
                s.Some? ==> s.value.data.Reading? || !s.value.notice.Comparing?
      {
        assert before[..k] == run[..k];
      }
      SerialRun(counts, before);
      RunInv(counts, before);
      assert run[..|run|] == run && before[..|before|] == before;
      BetweenStep(Exec(Begin(counts), before).value, Clock(before), run[|run|-1]);
    }
  }

  /** One handler at a time, the completion happens once and the reset is clean. */
  lemma SerialCompletesOnce(counts: seq<nat>, run: seq<Step>, s: State)
    requires Positive(counts) && Exec(Begin(counts), run) == Some(s) && Finished(s) && Serial(counts, run)
    ensures s.completions == 1
    ensures s.halfClose == !s.eof && (Cleared(s) <==> s.eof)
  {
    CompletionsExactly(counts, run, s);
    RunInv(counts, run);
    SerialRun(counts, run);
  }

  // ---------------------------------------------------------------------------
  // No completion is lost

  /**
    Until the first completion, whatever the counts: the counters are right, and once both
    final writes are in, the later writer is bound to see them.
  */
  predicate Sound(s: State) {
    s.completions == 0 ==>
      && s.recv >= 0
      && s.recv + Sum(s.todo) == s.goal
      && s.halfClose == s.eof && s.lock.Free?
      && s.total == (if s.notice.Waiting? then -1 else s.goal)
      && (!s.data.Reading? ==> Is(s.data.regs.recv, s.recv))
      && (!s.data.Reading? && s.data.regs.total.Some? ==> s.data.regs.total.value in {-1, s.total})
      && (s.notice.Comparing? ==> Is(s.notice.regs.total, s.goal))
      && (s.data.Rechecking? ==> s.recv == s.total == s.goal && Is(s.data.regs.total, s.goal))
      && (s.recv == s.goal && s.todo == [] && !s.notice.Waiting? ==>
            || (!s.data.Reading? && Is(s.data.regs.total, s.goal))
            || (s.notice.Comparing? && Is(s.notice.regs.recv, s.goal)))
  }

  lemma {:induction false} SoundRun(counts: seq<nat>, run: seq<Step>)
    ensures Exec(Begin(counts), run).Some? ==> Sound(Exec(Begin(counts), run).value)
    decreases run
  {
    if run != [] && Exec(Begin(counts), run).Some? {
      SoundRun(counts, run[..|run|-1]);
      SoundStep(Exec(Begin(counts), run[..|run|-1]).value, run[|run|-1]);
    }
  }

  lemma SoundStep(s: State, step: Step)
    requires Sound(s) && Can(s, step)
    ensures Sound(Do(s, step))
  {
  }

  /** In every interleaving, however the reads fall, at least one comparison sees equality. */
  lemma NoLostCompletion(counts: seq<nat>, run: seq<Step>, s: State)
    requires Exec(Begin(counts), run) == Some(s) && Finished(s)
    ensures s.completions >= 1
  {
    SoundRun(counts, run);
  }

  // ---------------------------------------------------------------------------
  // Which interleavings there are

  lemma ExecSnoc(s: State, run: seq<Step>, step: Step)
    ensures Exec(s, run + [step]) ==
            if Exec(s, run).Some? && Can(Exec(s, run).value, step) then Some(Do(Exec(s, run).value, step)) else None
  {
    assert (run + [step])[..|run + [step]|-1] == run;
  }

  /** What the steps taken so far say of the state. */
  predicate Traced(s: State, run: seq<Step>) {
    && (s.notice.Waiting? <==> SetTotal !in run)
    && (s.eof <==> Eof in run)
    && (Incr !in run ==> s.data.Reading?)
    && (NoticeCompare in run ==> s.notice.Over?)
  }

  lemma TracedStep(s: State, run: seq<Step>, step: Step)
    requires Traced(s, run) && Can(s, step)
    ensures Traced(Do(s, step), run + [step])
  {
    assert forall x :: x in run + [step] <==> x in run || x == step;
  }

  lemma {:induction false} TracedRun(counts: seq<nat>, run: seq<Step>)
    ensures Exec(Begin(counts), run).Some? ==> Traced(Exec(Begin(counts), run).value, run)
    decreases run
  {
    if run != [] && Exec(Begin(counts), run).Some? {
      var before := run[..|run|-1];
      assert run == before + [run[|run|-1]];
      TracedRun(counts, before);
      TracedStep(Exec(Begin(counts), before).value, before, run[|run|-1]);
    }
  }

  /** The notice may come at any time: before, between and after the bytes. */
  lemma NoticeAnyTime(counts: seq<nat>, run: seq<Step>)
    requires Exec(Begin(counts), run).Some? && SetTotal !in run
    ensures Exec(Begin(counts), run + [SetTotal]).Some?
  {
    TracedRun(counts, run);
    ExecSnoc(Begin(counts), run, SetTotal);
  }

  /** The EOF may be taken whenever the data thread is between handlers and nobody resets. */
  lemma EofBetweenHandlers(counts: seq<nat>, run: seq<Step>)
    requires Exec(Begin(counts), run).Some? && Eof !in run
    requires var s := Exec(Begin(counts), run).value; s.data.Reading? && s.lock.Free?
    ensures Exec(Begin(counts), run + [Eof]).Some?
  {
    TracedRun(counts, run);
    ExecSnoc(Begin(counts), run, Eof);
  }

  /** So may the next bytes. */
  lemma BytesBetweenHandlers(counts: seq<nat>, run: seq<Step>)
    requires Exec(Begin(counts), run).Some?
    requires var s := Exec(Begin(counts), run).value; s.data.Reading? && s.todo != []
    ensures Exec(Begin(counts), run + [Incr]).Some?
  {
    ExecSnoc(Begin(counts), run, Incr);
  }

  /** `run` can be followed by `step`. */
  predicate Goes(counts: seq<nat>, run: seq<Step>, step: Step) {
    Exec(Begin(counts), run + [step]).Some?
  }

  lemma CanGo(counts: seq<nat>, run: seq<Step>, step: Step)
    requires Exec(Begin(counts), run).Some?
    ensures Goes(counts, run, step) <==> Can(Exec(Begin(counts), run).value, step)
  {
    ExecSnoc(Begin(counts), run, step);
  }

  /** Either counter may be read first, in all three comparisons, whatever the other thread does. */
  lemma EitherReadFirst(counts: seq<nat>, run: seq<Step>)
    requires Exec(Begin(counts), run).Some?
    ensures var s := Exec(Begin(counts), run).value;
            && (s.data.Checking? && s.data.regs.recv.None? ==> Goes(counts, run, CheckRecv))
            && (s.data.Checking? && s.data.regs.total.None? ==> Goes(counts, run, CheckTotal))
            && (s.data.Rechecking? && s.data.regs.recv.None? ==> Goes(counts, run, RecheckRecv))
            && (s.data.Rechecking? && s.data.regs.total.None? ==> Goes(counts, run, RecheckTotal))
            && (s.notice.Comparing? && s.notice.regs.recv.None? ==> Goes(counts, run, NoticeRecv))
            && (s.notice.Comparing? && s.notice.regs.total.None? ==> Goes(counts, run, NoticeTotal))
  {
    CanGo(counts, run, CheckRecv);
    CanGo(counts, run, CheckTotal);
    CanGo(counts, run, RecheckRecv);
    CanGo(counts, run, RecheckTotal);
    CanGo(counts, run, NoticeRecv);
    CanGo(counts, run, NoticeTotal);
  }

  /** A comparison that has read both counters is over at once, unless it saw equality and a reset has the lock. */
  lemma ComparisonEnds(counts: seq<nat>, run: seq<Step>)
    requires Exec(Begin(counts), run).Some?
    ensures var s := Exec(Begin(counts), run).value;
            && (s.data.Checking? && Both(s.data.regs) ==> Goes(counts, run, Check))
            && (s.data.Rechecking? && Both(s.data.regs) ==>
                  (Goes(counts, run, Recheck) <==> s.data.regs.recv != s.data.regs.total || s.lock.Free?))
            && (s.notice.Comparing? && Both(s.notice.regs) ==>
                  (Goes(counts, run, NoticeCompare) <==> s.notice.regs.recv != s.notice.regs.total || s.lock.Free?))
  {
    CanGo(counts, run, Check);
    CanGo(counts, run, Recheck);
    CanGo(counts, run, NoticeCompare);
  }

  function RegsLeft(r: Regs): nat {
    (if r.recv.Some? then 0 else 1) + if r.total.Some? then 0 else 1
  }

  /** Accesses left at the most. */
  function Left(s: State): nat {
    9 * |s.todo|
    + (match s.data case Reading => 0 case Checking(r) => 6 + RegsLeft(r) case Rechecking(r) => 3 + RegsLeft(r))
    + (match s.notice case Waiting => 6 case Comparing(r) => 3 + RegsLeft(r) case Over => 0)
    + (match s.lock case Free => 0 case Clearing => 2 case HalfCleared => 1)
  }

  /** The next access of whichever thread can go on. */
  function NextAccess(s: State): Step {
    match s.lock
    case Clearing => ClearRecv
    case HalfCleared => ClearTotal
    case Free =>
      match s.data
      case Checking(r) => if r.recv.None? then CheckRecv else if r.total.None? then CheckTotal else Check
      case Rechecking(r) => if r.recv.None? then RecheckRecv else if r.total.None? then RecheckTotal else Recheck
      case Reading =>
        if s.todo != [] then Incr
        else
          match s.notice
          case Waiting => SetTotal
          case Comparing(r) => if r.recv.None? then NoticeRecv else if r.total.None? then NoticeTotal else NoticeCompare
          case Over => SetTotal
  }

  lemma NextAccessLeavesLess(s: State)
    requires !Finished(s)
    ensures Can(s, NextAccess(s)) && Left(Do(s, NextAccess(s))) < Left(s)
  {
  }

  /** No run is stuck before both threads have finished. */
  lemma SomeAccessIsNext(counts: seq<nat>, run: seq<Step>)
    requires Exec(Begin(counts), run).Some? && !Finished(Exec(Begin(counts), run).value)
    ensures exists step :: Exec(Begin(counts), run + [step]).Some?
  {
    var s := Exec(Begin(counts), run).value;
    NextAccessLeavesLess(s);
    ExecSnoc(Begin(counts), run, NextAccess(s));
  }

  predicate Finishes(s: State, more: seq<Step>) {
    Exec(s, more).Some? && Finished(Exec(s, more).value)
  }

  lemma {:induction false} CanFinish(s: State)
    ensures exists more :: Finishes(s, more)
    decreases Left(s)
  {
    if Finished(s) {
      assert Finishes(s, []);
    } else {
      var step := NextAccess(s);
      NextAccessLeavesLess(s);
      CanFinish(Do(s, step));
      var more :| Finishes(Do(s, step), more);
      ExecCons(s, step, more);
      assert Finishes(s, [step] + more);
    }
  }

  lemma {:induction false} ExecAppend(s: State, run: seq<Step>, middle: State, more: seq<Step>)
    requires Exec(s, run) == Some(middle)
    ensures Exec(s, run + more) == Exec(middle, more)
    decreases more
  {
    if more == [] {
      assert run + [] == run;
    } else {
      var before, step := more[..|more|-1], more[|more|-1];
      ExecAppend(s, run, middle, before);
      assert run + before + [step] == run + more && before + [step] == more;
      OneMoreEach(s, run + before, middle, before, step);
    }
  }

  lemma OneMoreEach(s: State, a: seq<Step>, middle: State, b: seq<Step>, step: Step)
    requires Exec(s, a) == Exec(middle, b)
    ensures Exec(s, a + [step]) == Exec(middle, b + [step])
  {
    ExecSnoc(s, a, step);
    ExecSnoc(middle, b, step);
  }

  /** Every run can be continued until both threads have finished. */
  lemma EveryRunCanFinish(counts: seq<nat>, run: seq<Step>)
    requires Exec(Begin(counts), run).Some?
    ensures exists more :: Finishes(Begin(counts), run + more)
  {
    var s := Exec(Begin(counts), run).value;
    CanFinish(s);
    var more :| Finishes(s, more);
    ExecAppend(Begin(counts), run, s, more);
    assert Finishes(Begin(counts), run + more);
  }

  // ---------------------------------------------------------------------------
  // Runs

  /** Both comparisons overlap. */
  const Overlapping: seq<Step> :=
    [Incr, SetTotal, CheckRecv, CheckTotal, Check, RecheckRecv, RecheckTotal,
     NoticeTotal, NoticeRecv, NoticeCompare, Recheck, ClearRecv, ClearTotal]

  /** With the EOF taken before, the first completion resets the connection and the second half-closes it. */
  const OverlappingAfterEof: seq<Step> :=
    [Incr, SetTotal, CheckRecv, CheckTotal, Check, RecheckRecv, RecheckTotal,
     NoticeTotal, NoticeRecv, NoticeCompare, ClearRecv, ClearTotal, Recheck]

  lemma {:induction false} ExecCons(s: State, step: Step, run: seq<Step>)
    requires Can(s, step)
    ensures Exec(s, [step] + run) == Exec(Do(s, step), run)
    decreases run
  {
    var all := [step] + run;
    if run == [] {
      assert all == [step] && all[..0] == [];
    } else {
      ExecCons(s, step, run[..|run|-1]);
      assert all[..|all|-1] == [step] + run[..|run|-1];
    }
  }

  const Equal := Regs(Some(5), Some(5))

  /** Both threads have read the final counters. */
  predicate BothRead(s: State) {
    && s.recv == 5 && s.total == 5 && s.todo == [] && s.completions == 0 && s.resets == 0 && s.lock.Free?
    && s.data == Rechecking(Equal) && s.notice == Comparing(Equal)
  }

  lemma OverlappingWrites(s: State, r: seq<Step>)
    requires s.goal == 5 && s.todo == [5] && s.recv == 0 && s.total == -1 && s.data == Reading && s.notice == Waiting
    requires |r| >= 2 && r[0] == Incr && r[1] == SetTotal
    ensures Exec(s, r[0..]) ==
            Exec(s.(todo := [], recv := 5, total := 5, data := Checking(Unread), notice := Comparing(Unread)), r[2..])
  {
    var s1 := s.(todo := [], recv := 5, data := Checking(Unread));
    Stepping(s, Incr, s1, r, 0);
    Stepping(s1, SetTotal, s1.(total := 5, notice := Comparing(Unread)), r, 1);
  }

  lemma OverlappingCheck(s: State, r: seq<Step>)
    requires s.recv == 5 && s.total == 5 && s.data == Checking(Unread)
    requires |r| >= 5 && r[2] == CheckRecv && r[3] == CheckTotal && r[4] == Check
    ensures Exec(s, r[2..]) == Exec(s.(data := Rechecking(Unread)), r[5..])
  {
    var s3 := s.(data := Checking(Regs(Some(5), None)));
    var s4 := s.(data := Checking(Equal));
    Stepping(s, CheckRecv, s3, r, 2);
    Stepping(s3, CheckTotal, s4, r, 3);
    Stepping(s4, Check, s.(data := Rechecking(Unread)), r, 4);
  }

  lemma OverlappingRecheck(s: State, r: seq<Step>)
    requires s.recv == 5 && s.total == 5 && s.data == Rechecking(Unread) && s.notice == Comparing(Unread)
    requires |r| >= 9 && r[5] == RecheckRecv && r[6] == RecheckTotal && r[7] == NoticeTotal && r[8] == NoticeRecv
    ensures Exec(s, r[5..]) == Exec(s.(data := Rechecking(Equal), notice := Comparing(Equal)), r[9..])
  {
    var s6 := s.(data := Rechecking(Regs(Some(5), None)));
    var s7 := s6.(data := Rechecking(Equal));
    var s8 := s7.(notice := Comparing(Regs(None, Some(5))));
    Stepping(s, RecheckRecv, s6, r, 5);
    Stepping(s6, RecheckTotal, s7, r, 6);
    Stepping(s7, NoticeTotal, s8, r, 7);
    Stepping(s8, NoticeRecv, s8.(notice := Comparing(Equal)), r, 8);
  }

  lemma OverlappingReads(s: State, r: seq<Step>)
    requires s.goal == 5 && s.todo == [5] && s.recv == 0 && s.total == -1 && s.data == Reading && s.notice == Waiting
    requires r == Overlapping || r == OverlappingAfterEof
    ensures var read := s.(todo := [], recv := 5, total := 5, data := Rechecking(Equal), notice := Comparing(Equal));
            Exec(s, r) == Exec(read, r[9..])
  {
    assert r[0..] == r;
    OverlappingWrites(s, r);
    OverlappingCheck(s.(todo := [], recv := 5, total := 5, data := Checking(Unread), notice := Comparing(Unread)), r);
    var s5 := s.(todo := [], recv := 5, total := 5, data := Rechecking(Unread), notice := Comparing(Unread));
    OverlappingRecheck(s5, r);
  }

  lemma OverlappingCompletions(s: State, r: seq<Step>)
    requires BothRead(s) && !s.halfClose
    requires |r| == 13 && r[9] == NoticeCompare && r[10] == Recheck && r[11] == ClearRecv && r[12] == ClearTotal
    ensures Exec(s, r[9..]) ==
            Some(s.(recv := 0, total := -1, data := Reading, notice := Over, completions := 2, resets := 1))
  {
    var s1 := s.(notice := Over, halfClose := true, completions := 1);
    var s2 := s1.(data := Reading, lock := Clearing, completions := 2);
    var s3 := s2.(recv := 0, lock := HalfCleared);
    var s4 := s3.(total := -1, halfClose := false, lock := Free, resets := 1);
    Stepping(s, NoticeCompare, s1, r, 9);
    Stepping(s1, Recheck, s2, r, 10);
    Stepping(s2, ClearRecv, s3, r, 11);
    Stepping(s3, ClearTotal, s4, r, 12);
    assert r[13..] == [];
  }

  lemma CompletionsAfterEof(s: State, r: seq<Step>)
    requires BothRead(s) && s.halfClose
    requires |r| == 13 && r[9] == NoticeCompare && r[10] == ClearRecv && r[11] == ClearTotal && r[12] == Recheck
    ensures Exec(s, r[9..]) ==
            Some(s.(recv := 0, total := -1, data := Reading, notice := Over, completions := 2, resets := 1))
  {
    var s1 := s.(notice := Over, lock := Clearing, completions := 1);
    var s2 := s1.(recv := 0, lock := HalfCleared);
    var s3 := s2.(total := -1, halfClose := false, lock := Free, resets := 1);
    var s4 := s3.(data := Reading, halfClose := true, completions := 2);
    Stepping(s, NoticeCompare, s1, r, 9);
    Stepping(s1, ClearRecv, s2, r, 10);
    Stepping(s2, ClearTotal, s3, r, 11);
    Stepping(s3, Recheck, s4, r, 12);
    assert r[13..] == [];
  }

  lemma Stepping(s: State, step: Step, s': State, run: seq<Step>, k: nat)
    requires k < |run| && run[k] == step && Can(s, step) && s' == Do(s, step)
    ensures Exec(s, run[k..]) == Exec(s', run[k + 1..])
  {
    assert run[k..] == [step] + run[k + 1..];
    ExecCons(s, step, run[k + 1..]);
  }

  /**
    The completion may come twice: the second call of `shutdownFromRemote` takes the first one's
    `half_close_` for the EOF and resets the connection although that EOF has not been taken.  If
    it has been taken, the second call finds the connection reset and sets `half_close_` again.
  */
  lemma CompletionMayComeTwice()
    ensures var s := Exec(Begin([5]), Overlapping);
            s.Some? && Finished(s.value) && s.value.completions == 2 && Cleared(s.value) && !s.value.eof
    ensures var s := Exec(Begin([5]), [Eof] + OverlappingAfterEof);
            s.Some? && Finished(s.value) && s.value.completions == 2 && Cleared(s.value) && s.value.halfClose
  {
    assert Sum([5]) == 5;
    var s, s' := Begin([5]), Begin([5]).(eof := true, halfClose := true);
    var read := s.(todo := [], recv := 5, total := 5, data := Rechecking(Equal), notice := Comparing(Equal));
    OverlappingReads(s, Overlapping);
    OverlappingCompletions(read, Overlapping);
    ExecCons(s, Eof, OverlappingAfterEof);
    OverlappingReads(s', OverlappingAfterEof);
    CompletionsAfterEof(read.(eof := true, halfClose := true), OverlappingAfterEof);
  }

  /** The notice is handled before the bytes it announces have come. */
  const NoticeBefore: seq<Step> :=
    [SetTotal, NoticeRecv, NoticeTotal, NoticeCompare,
     Incr, CheckRecv, CheckTotal, Check, RecheckRecv, RecheckTotal, Recheck]

  lemma NoticeBeforeSets(s: State, r: seq<Step>)
    requires s.notice == Waiting && s.total == -1 && s.goal == 5 && r != [] && r[0] == SetTotal
    ensures Exec(s, r[0..]) == Exec(s.(total := 5, notice := Comparing(Unread)), r[1..])
  {
    Stepping(s, SetTotal, s.(total := 5, notice := Comparing(Unread)), r, 0);
  }

  lemma NoticeBeforeCompares(s: State, r: seq<Step>)
    requires s.notice == Comparing(Unread) && s.total == 5 && s.recv == 0
    requires |r| >= 4 && r[1] == NoticeRecv && r[2] == NoticeTotal && r[3] == NoticeCompare
    ensures Exec(s, r[1..]) == Exec(s.(notice := Over), r[4..])
  {
    var s1 := s.(notice := Comparing(Regs(Some(0), None)));
    Stepping(s, NoticeRecv, s1, r, 1);
    NoticeBeforeDiffers(s1, r);
  }

  lemma NoticeBeforeDiffers(s: State, r: seq<Step>)
    requires s.notice == Comparing(Regs(Some(0), None)) && s.total == 5
    requires |r| >= 4 && r[2] == NoticeTotal && r[3] == NoticeCompare
    ensures Exec(s, r[2..]) == Exec(s.(notice := Over), r[4..])
  {
    var s1 := s.(notice := Comparing(Regs(Some(0), Some(5))));
    Stepping(s, NoticeTotal, s1, r, 2);
    Stepping(s1, NoticeCompare, s.(notice := Over), r, 3);
  }

  lemma NoticeBeforeReads(r: seq<Step>)
    requires |r| >= 5 && r[0] == SetTotal && r[1] == NoticeRecv && r[2] == NoticeTotal && r[3] == NoticeCompare
    requires r[4] == Incr
    ensures var s := Begin([5]);
            var s5 := s.(todo := [], recv := 5, total := 5, data := Checking(Unread), notice := Over);
            Exec(s, r[0..]) == Exec(s5, r[5..])
  {
    var s := Begin([5]);
    assert Sum([5]) == 5;
    NoticeBeforeSets(s, r);
    NoticeBeforeCompares(s.(total := 5, notice := Comparing(Unread)), r);
    var s4 := s.(total := 5, notice := Over);
    Stepping(s4, Incr, s4.(todo := [], recv := 5, data := Checking(Unread)), r, 4);
  }

  lemma NoticeBeforeCompletes(s: State, r: seq<Step>)
    requires s.recv == 5 && s.total == 5 && s.data == Checking(Unread) && s.lock.Free? && !s.halfClose
    requires |r| == 11 && r[5] == CheckRecv && r[6] == CheckTotal && r[7] == Check
    requires r[8] == RecheckRecv && r[9] == RecheckTotal && r[10] == Recheck
    ensures Exec(s, r[5..]) == Some(s.(data := Reading, halfClose := true, completions := s.completions + 1))
  {
    var s1 := s.(data := Checking(Regs(Some(5), None)));
    var s3 := s.(data := Rechecking(Unread));
    Stepping(s, CheckRecv, s1, r, 5);
    Stepping(s1, CheckTotal, s.(data := Checking(Equal)), r, 6);
    Stepping(s.(data := Checking(Equal)), Check, s3, r, 7);
    NoticeBeforeRechecks(s3, r);
  }

  lemma NoticeBeforeRechecks(s: State, r: seq<Step>)
    requires s.recv == 5 && s.total == 5 && s.data == Rechecking(Unread) && s.lock.Free? && !s.halfClose
    requires |r| == 11 && r[8] == RecheckRecv && r[9] == RecheckTotal && r[10] == Recheck
    ensures Exec(s, r[8..]) == Some(s.(data := Reading, halfClose := true, completions := s.completions + 1))
  {
    var s1 := s.(data := Rechecking(Regs(Some(5), None)));
    var s2 := s.(data := Rechecking(Equal));
    Stepping(s, RecheckRecv, s1, r, 8);
    Stepping(s1, RecheckTotal, s2, r, 9);
    Stepping(s2, Recheck, s.(data := Reading, halfClose := true, completions := s.completions + 1), r, 10);
    assert r[11..] == [];
  }

  /** One handler after the other, the notice first: a serial run, completed once. */
  lemma NoticeFirstCompletesOnce()
    ensures Serial([5], NoticeBefore)
    ensures var s := Exec(Begin([5]), NoticeBefore);
            s.Some? && Finished(s.value) && s.value.completions == 1 && s.value.halfClose
  {
    NoticeBeforeEnds();
    forall k | 0 <= k <= |NoticeBefore|
      ensures var s := Exec(Begin([5]), NoticeBefore[..k]);
              s.Some? ==> s.value.data.Reading? || !s.value.notice.Comparing?
    {
      NoticeIsOver(k);
    }
  }

  lemma NoticeBeforeEnds()
    ensures var s := Exec(Begin([5]), NoticeBefore);
            s.Some? && Finished(s.value) && s.value.completions == 1 && s.value.halfClose
  {
    var r := NoticeBefore;
    assert r[0..] == r;
    NoticeBeforeReads(r);
    var s := Begin([5]);
    NoticeBeforeCompletes(s.(todo := [], recv := 5, total := 5, data := Checking(Unread), notice := Over), r);
  }

  lemma NoticeIsOver(k: nat)
    requires k <= |NoticeBefore|
    ensures var s := Exec(Begin([5]), NoticeBefore[..k]);
            s.Some? ==> s.value.data.Reading? || !s.value.notice.Comparing?
  {
    var r := NoticeBefore[..k];
    TracedRun([5], r);
    if k >= 4 { assert r[3] == NoticeCompare; }
  }
}
