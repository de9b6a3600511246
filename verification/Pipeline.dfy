/** chunker.unpack_from_store as a concurrent step system: a pool of download workers that may
    finish in any order, a downloader that waits for the results in listed order and puts them
    into a bounded queue, and a feeder that writes them to the decompressor. */
module Pipeline {
  import opened Prelude
  import opened Sums

  /** One line of the download plan: the part's name and the digest listed for it, if any. */
  datatype Listed = Listed(name: string, sum: Option<string>)

  /** What `store.download_file` does for one part: some bytes arrive, or it raises. */
  datatype Delivery = Delivered(data: Bytes) | Fails

  datatype Config = Config(parts: seq<Listed>, wire: seq<Delivery>, workers: nat, prefetch: nat)

  predicate ValidConfig(c: Config) {
    c.parts != [] && |c.wire| == |c.parts|
  }

  /** min(total, max(1, max_workers)) */
  function PoolSize(c: Config): (n: nat)
    ensures ValidConfig(c) ==> n >= 1
  {
    Min(|c.parts|, Max(1, c.workers))
  }

  /** max(1, prefetch) */
  function Capacity(c: Config): (n: nat)
    ensures n >= 1
  {
    Max(1, c.prefetch)
  }

  /** A part that arrives and, when a digest is listed for it, has that digest. */
  predicate Sound(c: Config, i: nat)
    requires ValidConfig(c) && i < |c.parts|
  {
    c.wire[i].Delivered? && (c.parts[i].sum.Some? ==> Digest(c.wire[i].data) == c.parts[i].sum.value)
  }

  function Data(c: Config): (d: seq<Bytes>)
    ensures |d| == |c.wire|
  {
    seq(|c.wire|, i requires 0 <= i < |c.wire| => if c.wire[i].Delivered? then c.wire[i].data else [])
  }

  /** The first part that is not sound, or the number of parts. */
  function FirstUnsound(c: Config, from: nat): (k: nat)
    requires ValidConfig(c) && from <= |c.parts|
    ensures from <= k <= |c.parts|
    ensures forall i | from <= i < k :: Sound(c, i)
    ensures k < |c.parts| ==> !Sound(c, k)
    decreases |c.parts| - from
  {
    if from == |c.parts| || !Sound(c, from) then from else FirstUnsound(c, from + 1)
  }

  // ---- the threads' state ----------------------------------------------------------------

  /** `_download_task`'s result: a path, an error string, or an exception. */
  datatype Outcome = Fetched | Mismatch | Cancelled | Raised

  datatype Task = Unsubmitted | Queued | Running | Finished(outcome: Outcome)

  /** The queue's items: (idx, path, None), (None, None, err) and (None, None, None). */
  datatype Item = PartItem(i: nat) | ErrorItem | EndItem

  /** Why the downloader is leaving its `with` block. */
  datatype Leaving = Clean | Reported | Thrown

  /** Where the downloader is. `i` is the number of parts it has put so far, except while
      submitting. */
  datatype Downloader =
    | Submitting(i: nat)
    | Checking(i: nat)
    | Waiting(i: nat)
    | PuttingPart(i: nat)
    | PuttingError(i: nat)
    | Joining(i: nat, how: Leaving)      // executor shutdown: wait for every submitted task
    | PuttingThrown(i: nat)              // the except clause
    | PuttingEnd(i: nat, bad: bool)      // the finally clause
    | Gone(i: nat, bad: bool)

  datatype Feeder = Getting | Writing(i: nat) | Closed(failed: bool)

  datatype Fault = PartFault(i: nat) | WriteFault

  datatype Pipe = Pipe(tasks: seq<Task>, dl: Downloader, queue: seq<Item>, taken: nat,
                       feeder: Feeder, fed: Bytes, errors: seq<Fault>, stop: bool)

  function Start(c: Config): Pipe {
    Pipe(seq(|c.parts|, _ => Unsubmitted), Submitting(0), [], 0, Getting, [], [], false)
  }

  /** Every atomic step some thread may take. `i` names a task; `k` is how much of a part the
      decompressor accepted before its pipe broke. */
  datatype Action =
    | Submit | Begin(i: nat) | Finish(i: nat) | Check | Collect | Put | Join
    | Get | Write | WriteFails(k: nat)

  function IsRunning(t: Task): nat {
    if t.Running? then 1 else 0
  }

  predicate Idle(t: Task) {
    t.Unsubmitted? || t.Finished?
  }

  predicate Enabled(c: Config, s: Pipe, a: Action)
    requires ValidConfig(c)
  {
    match a
    case Submit => s.dl.Submitting?
    case Begin(i) =>
      && i < |s.tasks| && s.tasks[i].Queued?
      && (forall j | 0 <= j < i :: !s.tasks[j].Queued?)
      && Sum(s.tasks, IsRunning) < PoolSize(c)
    case Finish(i) => i < |s.tasks| && i < |c.parts| && s.tasks[i].Running?
    case Check => s.dl.Checking?
    case Collect => s.dl.Waiting? && s.dl.i < |s.tasks| && s.tasks[s.dl.i].Finished?
    case Put =>
      && (s.dl.PuttingPart? || s.dl.PuttingError? || s.dl.PuttingThrown? || s.dl.PuttingEnd?)
      && |s.queue| < Capacity(c)
    case Join => s.dl.Joining? && forall t | t in s.tasks :: Idle(t)
    case Get => s.feeder.Getting? && s.queue != []
    case Write => s.feeder.Writing? && s.feeder.i < |c.wire|
    case WriteFails(k) => s.feeder.Writing? && s.feeder.i < |c.wire| && k <= |Data(c)[s.feeder.i]|
  }

  function TaskResult(c: Config, i: nat): Outcome
    requires ValidConfig(c) && i < |c.parts|
  {
    if c.wire[i].Fails? then Raised else if Sound(c, i) then Fetched else Mismatch
  }

  function Step(c: Config, s: Pipe, a: Action): Pipe
    requires ValidConfig(c) && Enabled(c, s, a)
  {
    match a
    case Submit =>
      var i := s.dl.i;
      if i < |s.tasks| && !s.stop then s.(tasks := s.tasks[i := Queued], dl := Submitting(i + 1))
      else s.(dl := Checking(0))
    case Begin(i) => s.(tasks := s.tasks[i := if s.stop then Finished(Cancelled) else Running])
    case Finish(i) => s.(tasks := s.tasks[i := Finished(TaskResult(c, i))])
    case Check =>
      var i := s.dl.i;
      if s.stop || i >= |s.tasks| || s.tasks[i].Unsubmitted? then s.(dl := Joining(i, Clean))
      else s.(dl := Waiting(i))
    case Collect =>
      var i := s.dl.i;
      (match s.tasks[i].outcome
       case Fetched => s.(dl := PuttingPart(i))
       case Raised => s.(dl := Joining(i, Thrown))
       case _ => s.(dl := PuttingError(i), errors := s.errors + [PartFault(i)]))
    case Put =>
      (match s.dl
       case PuttingPart(i) => s.(dl := Checking(i + 1), queue := s.queue + [PartItem(i)])
       case PuttingError(i) => s.(dl := Joining(i, Reported), queue := s.queue + [ErrorItem])
       case PuttingThrown(i) => s.(dl := PuttingEnd(i, true), queue := s.queue + [ErrorItem])
       case PuttingEnd(i, bad) => s.(dl := Gone(i, bad), queue := s.queue + [EndItem]))
    case Join =>
      var i := s.dl.i;
      (match s.dl.how
       case Thrown => s.(dl := PuttingThrown(i), errors := s.errors + [PartFault(i)])
       case how => s.(dl := PuttingEnd(i, how.Reported?)))
    case Get =>
      var rest := s.(queue := s.queue[1..], taken := s.taken + 1);
      (match s.queue[0]
       case PartItem(i) => rest.(feeder := Writing(i))
       case ErrorItem => rest.(feeder := Closed(false), errors := s.errors + [PartFault(s.taken)])
       case EndItem => rest.(feeder := Closed(false)))
    case Write => s.(feeder := Getting, fed := s.fed + Data(c)[s.feeder.i])
    case WriteFails(k) =>
      s.(feeder := Closed(true), fed := s.fed + Data(c)[s.feeder.i][..k],
         errors := s.errors + [WriteFault], stop := true)
  }

  predicate Terminal(s: Pipe) {
    s.dl.Gone? && s.feeder.Closed?
  }

  // ---- what every reachable state satisfies ----------------------------------------------

  /** How many parts the downloader has put. */
  function Sent(dl: Downloader): nat {
    if dl.Submitting? then 0 else dl.i
  }

  /** What the downloader puts after the parts. */
  function Tail(dl: Downloader): seq<Item> {
    match dl
    case Joining(_, Reported) => [ErrorItem]
    case PuttingEnd(_, true) => [ErrorItem]
    case Gone(_, true) => [ErrorItem, EndItem]
    case Gone(_, false) => [EndItem]
    case _ => []
  }

  /** Everything the downloader has put into the queue so far. */
  function Stream(dl: Downloader): seq<Item> {
    seq(Sent(dl), j requires 0 <= j => PartItem(j)) + Tail(dl)
  }

  /** The downloader has met a part that it must report. */
  predicate MetFault(dl: Downloader) {
    match dl
    case PuttingError(_) => true
    case Joining(_, how) => !how.Clean?
    case PuttingThrown(_) => true
    case PuttingEnd(_, bad) => bad
    case Gone(_, bad) => bad
    case _ => false
  }

  ghost predicate TasksInv(c: Config, s: Pipe)
    requires ValidConfig(c)
  {
    && |s.tasks| == |c.parts|
    && Sum(s.tasks, IsRunning) <= PoolSize(c)
    && (forall i | 0 <= i < |s.tasks| && s.tasks[i].Finished? ::
          s.tasks[i].outcome == TaskResult(c, i) || (s.stop && s.tasks[i].outcome.Cancelled?))
    && (s.dl.Submitting? ==>
          s.dl.i <= |s.tasks| && forall i | s.dl.i <= i < |s.tasks| :: s.tasks[i].Unsubmitted?)
    && (s.dl.Submitting? ==> forall i | 0 <= i < s.dl.i :: !s.tasks[i].Unsubmitted?)
    && (!s.dl.Submitting? && !s.stop ==> forall i | 0 <= i < |s.tasks| :: !s.tasks[i].Unsubmitted?)
  }

  ghost predicate DownloaderInv(c: Config, s: Pipe)
    requires ValidConfig(c)
  {
    && Sent(s.dl) <= |c.parts|
    && (forall i | 0 <= i < Sent(s.dl) :: Sound(c, i))
    && (s.dl.PuttingPart? || s.dl.Waiting? ==> s.dl.i < |c.parts|)
    && (s.dl.Waiting? ==> |s.tasks| == |c.parts| && !s.tasks[s.dl.i].Unsubmitted?)
    && (s.dl.PuttingPart? ==> Sound(c, s.dl.i))
    && (MetFault(s.dl) ==> s.dl.i < |c.parts|)
    && (MetFault(s.dl) && !s.stop ==> !Sound(c, s.dl.i))
    && ((s.dl.Joining? || s.dl.PuttingEnd? || s.dl.Gone?) && !MetFault(s.dl) && !s.stop ==> s.dl.i == |c.parts|)
  }

  ghost predicate FeederInv(c: Config, s: Pipe)
    requires ValidConfig(c)
  {
    && s.taken <= |Stream(s.dl)|
    && s.queue == Stream(s.dl)[s.taken..]
    && |s.queue| <= Capacity(c)
    && Sent(s.dl) <= |c.parts|
    && (match s.feeder
        case Getting => s.taken <= Sent(s.dl) && s.fed == Flatten(Data(c)[..s.taken])
        case Writing(i) => s.taken == i + 1 <= Sent(s.dl) && s.fed == Flatten(Data(c)[..i])
        case Closed(false) => s.taken == Sent(s.dl) + 1 && s.fed == Flatten(Data(c)[..Sent(s.dl)])
        case Closed(true) => s.stop && s.taken >= 1 && s.fed <= Flatten(Data(c)[..Sent(s.dl)]))
    && (s.stop ==> s.feeder == Closed(true))
  }

  ghost predicate ErrorsInv(s: Pipe) {
    && (s.stop ==> s.errors != [])
    && (!MetFault(s.dl) && !s.stop ==> s.errors == [])
    && (MetFault(s.dl) && !(s.dl.Joining? && s.dl.how.Thrown?) ==> s.errors != [])
    && (!s.stop ==> forall e | e in s.errors :: e == PartFault(s.dl.i))
  }

  ghost predicate Inv(c: Config, s: Pipe)
    requires ValidConfig(c)
  {
    TasksInv(c, s) && DownloaderInv(c, s) && FeederInv(c, s) && ErrorsInv(s)
  }

  lemma StartInv(c: Config)
    requires ValidConfig(c)
    ensures Inv(c, Start(c))
  {
    SumZero(Start(c).tasks, IsRunning);
    assert Data(c)[..0] == [];
  }

  /** The three steps that change a task, and the pool bound they keep. */
  lemma PoolStep(c: Config, s: Pipe, a: Action)
    requires ValidConfig(c) && TasksInv(c, s) && Enabled(c, s, a)
    ensures Sum(Step(c, s, a).tasks, IsRunning) <= PoolSize(c)
  {
    match a
    case Submit =>
      if s.dl.i < |s.tasks| {
        SumUpdate(s.tasks, s.dl.i, Queued, IsRunning);
      }
    case Begin(i) =>
      SumUpdate(s.tasks, i, if s.stop then Finished(Cancelled) else Running, IsRunning);
    case Finish(i) =>
      SumUpdate(s.tasks, i, Finished(TaskResult(c, i)), IsRunning);
    case _ =>
  }

  lemma SubmitKeepsTasks(c: Config, s: Pipe)
    requires ValidConfig(c) && TasksInv(c, s) && Enabled(c, s, Submit)
    ensures TasksInv(c, Step(c, s, Submit))
  {
    PoolStep(c, s, Submit);
  }

  lemma BeginKeepsTasks(c: Config, s: Pipe, i: nat)
    requires ValidConfig(c) && TasksInv(c, s) && Enabled(c, s, Begin(i))
    ensures TasksInv(c, Step(c, s, Begin(i)))
  {
    PoolStep(c, s, Begin(i));
  }

  lemma FinishKeepsTasks(c: Config, s: Pipe, i: nat)
    requires ValidConfig(c) && TasksInv(c, s) && Enabled(c, s, Finish(i))
    ensures TasksInv(c, Step(c, s, Finish(i)))
  {
    PoolStep(c, s, Finish(i));
  }

  lemma OthersKeepTasks(c: Config, s: Pipe, a: Action)
    requires ValidConfig(c) && TasksInv(c, s) && Enabled(c, s, a)
    requires !a.Submit? && !a.Begin? && !a.Finish?
    ensures TasksInv(c, Step(c, s, a))
  {
    var s' := Step(c, s, a);
    assert s'.tasks == s.tasks && (s.stop ==> s'.stop);
  }

  lemma TasksStep(c: Config, s: Pipe, a: Action)
    requires ValidConfig(c) && TasksInv(c, s) && Enabled(c, s, a)
    ensures TasksInv(c, Step(c, s, a))
  {
    match a
    case Submit => SubmitKeepsTasks(c, s);
    case Begin(i) => BeginKeepsTasks(c, s, i);
    case Finish(i) => FinishKeepsTasks(c, s, i);
    case _ => OthersKeepTasks(c, s, a);
  }

  lemma DownloaderStep(c: Config, s: Pipe, a: Action)
    requires ValidConfig(c) && TasksInv(c, s) && DownloaderInv(c, s) && Enabled(c, s, a)
    ensures DownloaderInv(c, Step(c, s, a))
  {
  }

  lemma StreamAfterPut(c: Config, s: Pipe)
    requires ValidConfig(c) && Enabled(c, s, Put)
    ensures var s' := Step(c, s, Put);
      && |s'.queue| == |s.queue| + 1
      && s'.queue == s.queue + s'.queue[|s.queue|..]
      && Stream(s'.dl) == Stream(s.dl) + s'.queue[|s.queue|..]
      && Sent(s.dl) <= Sent(s'.dl)
  {
  }

  lemma StreamUnchanged(c: Config, s: Pipe, a: Action)
    requires ValidConfig(c) && Enabled(c, s, a) && !a.Put?
    ensures Sent(Step(c, s, a).dl) == Sent(s.dl) && Stream(Step(c, s, a).dl) == Stream(s.dl)
  {
    if a.Submit? {
      assert Sent(s.dl) == 0;
    }
  }

  lemma QueueHead(c: Config, s: Pipe)
    requires ValidConfig(c) && FeederInv(c, s) && s.feeder.Getting? && s.queue != []
    ensures s.taken < Sent(s.dl) ==> s.queue[0] == PartItem(s.taken)
    ensures s.taken >= Sent(s.dl) ==> s.taken == Sent(s.dl) && Tail(s.dl) != [] && s.queue[0] == Tail(s.dl)[0]
  {
    assert s.queue[0] == Stream(s.dl)[s.taken];
  }

  lemma DropOfAppend(xs: seq<Item>, taken: nat, more: seq<Item>, queue: seq<Item>)
    requires taken <= |xs| && queue == xs[taken..] + more
    ensures (xs + more)[taken..] == queue
  {
  }

  lemma FlattenGrows(xs: seq<Bytes>, i: nat, j: nat)
    requires i <= j <= |xs|
    ensures Flatten(xs[..i]) <= Flatten(xs[..j])
  {
    assert xs[..j][..i] == xs[..i];
    FlattenPrefix(xs[..j], i);
  }

  lemma FeederPut(c: Config, s: Pipe)
    requires ValidConfig(c) && DownloaderInv(c, s) && FeederInv(c, s) && Enabled(c, s, Put)
    ensures FeederInv(c, Step(c, s, Put))
  {
    var s' := Step(c, s, Put);
    StreamAfterPut(c, s);
    DropOfAppend(Stream(s.dl), s.taken, s'.queue[|s.queue|..], s'.queue);
    FlattenGrows(Data(c), Sent(s.dl), Sent(s'.dl));
  }

  lemma FeederGet(c: Config, s: Pipe)
    requires ValidConfig(c) && DownloaderInv(c, s) && FeederInv(c, s) && Enabled(c, s, Get)
    ensures FeederInv(c, Step(c, s, Get))
  {
    QueueHead(c, s);
    assert s.queue[1..] == Stream(s.dl)[s.taken + 1..];
  }

  lemma FeederWrite(c: Config, s: Pipe)
    requires ValidConfig(c) && FeederInv(c, s) && Enabled(c, s, Write)
    ensures FeederInv(c, Step(c, s, Write))
  {
    FlattenSnoc(Data(c), s.feeder.i);
    assert Stream(Step(c, s, Write).dl) == Stream(s.dl);
  }

  lemma FeederWriteFails(c: Config, s: Pipe, k: nat)
    requires ValidConfig(c) && FeederInv(c, s) && Enabled(c, s, WriteFails(k))
    ensures FeederInv(c, Step(c, s, WriteFails(k)))
  {
    FlattenSnoc(Data(c), s.feeder.i);
    FlattenGrows(Data(c), s.feeder.i + 1, Sent(s.dl));
    assert Stream(Step(c, s, WriteFails(k)).dl) == Stream(s.dl);
  }

  lemma FeederUninvolved(c: Config, s: Pipe, a: Action)
    requires ValidConfig(c) && Enabled(c, s, a)
    requires !a.Put? && !a.Get? && !a.Write? && !a.WriteFails?
    ensures var s' := Step(c, s, a);
      s'.queue == s.queue && s'.taken == s.taken && s'.feeder == s.feeder && s'.fed == s.fed && s'.stop == s.stop
  {
  }

  lemma FeederStep(c: Config, s: Pipe, a: Action)
    requires ValidConfig(c) && DownloaderInv(c, s) && FeederInv(c, s) && Enabled(c, s, a)
    ensures FeederInv(c, Step(c, s, a))
  {
    if a.Put? {
      FeederPut(c, s);
    } else if a.Get? {
      FeederGet(c, s);
    } else if a.Write? {
      FeederWrite(c, s);
    } else if a.WriteFails? {
      FeederWriteFails(c, s, a.k);
    } else {
      FeederUninvolved(c, s, a);
      StreamUnchanged(c, s, a);
      var s' := Step(c, s, a);
      assert FeederInv(c, s'.(dl := s.dl, tasks := s.tasks, errors := s.errors));
    }
  }

  lemma ErrorsGet(c: Config, s: Pipe)
    requires ValidConfig(c) && FeederInv(c, s) && ErrorsInv(s) && Enabled(c, s, Get)
    ensures ErrorsInv(Step(c, s, Get))
  {
    QueueHead(c, s);
  }

  lemma ErrorsCollect(c: Config, s: Pipe)
    requires ValidConfig(c) && ErrorsInv(s) && Enabled(c, s, Collect)
    ensures ErrorsInv(Step(c, s, Collect))
  {
  }

  lemma ErrorsJoin(c: Config, s: Pipe)
    requires ValidConfig(c) && ErrorsInv(s) && Enabled(c, s, Join)
    ensures ErrorsInv(Step(c, s, Join))
  {
  }

  /** The other steps record nothing, but for a failed write, which stops everything. */
  lemma ErrorsUnchanged(c: Config, s: Pipe, a: Action)
    requires ValidConfig(c) && ErrorsInv(s) && Enabled(c, s, a)
    requires !a.Get? && !a.Collect? && !a.Join?
    ensures ErrorsInv(Step(c, s, a))
  {
    var s' := Step(c, s, a);
    if a.WriteFails? {
      assert s'.stop && s'.errors != [] && s'.dl == s.dl;
    } else {
      assert s'.errors == s.errors && s'.stop == s.stop && MetFault(s'.dl) == MetFault(s.dl);
    }
  }

  lemma ErrorsStep(c: Config, s: Pipe, a: Action)
    requires ValidConfig(c) && FeederInv(c, s) && ErrorsInv(s) && Enabled(c, s, a)
    ensures ErrorsInv(Step(c, s, a))
  {
    match a
    case Get => ErrorsGet(c, s);
    case Collect => ErrorsCollect(c, s);
    case Join => ErrorsJoin(c, s);
    case _ => ErrorsUnchanged(c, s, a);
  }

  lemma StepKeepsInv(c: Config, s: Pipe, a: Action)
    requires ValidConfig(c) && Inv(c, s) && Enabled(c, s, a)
    ensures Inv(c, Step(c, s, a))
  {
    TasksStep(c, s, a);
    DownloaderStep(c, s, a);
    FeederStep(c, s, a);
    ErrorsStep(c, s, a);
  }

  // ---- every schedule ends ---------------------------------------------------------------

  function TaskWork(t: Task): nat {
    match t
    case Unsubmitted => 3
    case Queued => 2
    case Running => 1
    case Finished(_) => 0
  }

  function DownloaderWork(n: nat, dl: Downloader): nat {
    match dl
    case Submitting(i) => 8 * n + 30 + Max(0, n - i)
    case Checking(i) => 8 * Max(0, n - i) + 20
    case Waiting(i) => 8 * Max(0, n - i) + 19
    case PuttingPart(i) => 8 * Max(0, n - i) + 18
    case PuttingError(_) => 18
    case Joining(_, _) => 12
    case PuttingThrown(_) => 11
    case PuttingEnd(_, _) => 4
    case Gone(_, _) => 0
  }

  function Work(c: Config, s: Pipe): nat {
    Sum(s.tasks, TaskWork) + DownloaderWork(|c.parts|, s.dl) + 3 * |s.queue| + if s.feeder.Writing? then 1 else 0
  }

  lemma TaskStepUsesWork(c: Config, s: Pipe, a: Action)
    requires ValidConfig(c) && TasksInv(c, s) && Enabled(c, s, a)
    requires a.Submit? || a.Begin? || a.Finish?
    ensures Work(c, Step(c, s, a)) < Work(c, s)
  {
    match a
    case Submit =>
      if s.dl.i < |s.tasks| {
        SumUpdate(s.tasks, s.dl.i, Queued, TaskWork);
      }
    case Begin(i) =>
      SumUpdate(s.tasks, i, if s.stop then Finished(Cancelled) else Running, TaskWork);
    case Finish(i) =>
      SumUpdate(s.tasks, i, Finished(TaskResult(c, i)), TaskWork);
  }

  /** Whatever the scheduler picks, and even when the decompressor fails, work is used up. */
  lemma StepUsesWork(c: Config, s: Pipe, a: Action)
    requires ValidConfig(c) && TasksInv(c, s) && DownloaderInv(c, s) && Enabled(c, s, a)
    ensures Work(c, Step(c, s, a)) < Work(c, s)
  {
    if a.Submit? || a.Begin? || a.Finish? {
      TaskStepUsesWork(c, s, a);
    } else {
      assert Step(c, s, a).tasks == s.tasks;
    }
  }

  /** The downloader waits for room in a queue that nobody empties any more. */
  predicate Blocked(c: Config, s: Pipe) {
    && s.stop
    && (s.dl.PuttingPart? || s.dl.PuttingError? || s.dl.PuttingThrown? || s.dl.PuttingEnd?)
    && |s.queue| >= Capacity(c)
  }

  lemma FirstQueued(tasks: seq<Task>, some: nat) returns (first: nat)
    requires some < |tasks| && tasks[some].Queued?
    ensures first <= some && tasks[first].Queued?
    ensures forall j | 0 <= j < first :: !tasks[j].Queued?
  {
    if j :| 0 <= j < some && tasks[j].Queued? {
      first := FirstQueued(tasks, j);
    } else {
      first := some;
    }
  }

  /** While some submitted task is unfinished, the pool can move. */
  lemma PoolProgress(c: Config, s: Pipe, busy: nat) returns (a: Action)
    requires ValidConfig(c) && TasksInv(c, s)
    requires busy < |s.tasks| && !Idle(s.tasks[busy])
    ensures Enabled(c, s, a) && !a.WriteFails?
  {
    if i :| 0 <= i < |s.tasks| && s.tasks[i].Running? {
      a := Finish(i);
    } else {
      SumZero(s.tasks, IsRunning);
      var first := FirstQueued(s.tasks, busy);
      a := Begin(first);
    }
  }

  /** With the downloader at the queue, or gone, the queue can move. */
  lemma QueueProgress(c: Config, s: Pipe) returns (a: Action)
    requires ValidConfig(c) && FeederInv(c, s) && !Terminal(s) && !Blocked(c, s)
    requires s.dl.PuttingPart? || s.dl.PuttingError? || s.dl.PuttingThrown? || s.dl.PuttingEnd? || s.dl.Gone?
    ensures Enabled(c, s, a) && !a.WriteFails?
  {
    if s.feeder.Writing? {
      a := Write;
    } else if s.feeder.Getting? && s.queue != [] {
      a := Get;
    } else {
      assert |s.queue| == Sent(s.dl) + |Tail(s.dl)| - s.taken;
      a := Put;
    }
  }

  /** A state from which no thread can move is a finished one, or the one deadlock. */
  lemma Progress(c: Config, s: Pipe) returns (a: Action)
    requires ValidConfig(c) && Inv(c, s) && !Terminal(s) && !Blocked(c, s)
    ensures Enabled(c, s, a) && !a.WriteFails?
  {
    match s.dl
    case Submitting(_) => a := Submit;
    case Checking(_) => a := Check;
    case Waiting(i) =>
      if s.tasks[i].Finished? {
        a := Collect;
      } else {
        a := PoolProgress(c, s, i);
      }
    case Joining(_, _) =>
      if i :| 0 <= i < |s.tasks| && !Idle(s.tasks[i]) {
        a := PoolProgress(c, s, i);
      } else {
        a := Join;
      }
    case _ => a := QueueProgress(c, s);
  }

  // ---- whole runs ------------------------------------------------------------------------

  /** The state after a schedule, or None when the schedule asks for a step nobody can take. */
  function Execute(c: Config, schedule: seq<Action>): Option<Pipe>
    requires ValidConfig(c)
  {
    if schedule == [] then Some(Start(c))
    else
      var last := |schedule| - 1;
      match Execute(c, schedule[..last])
      case None => None
      case Some(s) => if Enabled(c, s, schedule[last]) then Some(Step(c, s, schedule[last])) else None
  }

  lemma FedBound(c: Config, s: Pipe)
    requires ValidConfig(c) && Inv(c, s)
    ensures Sent(s.dl) <= FirstUnsound(c, 0)
    ensures s.fed <= Flatten(Data(c)[..FirstUnsound(c, 0)])
  {
    var k := FirstUnsound(c, 0);
    FlattenGrows(Data(c), Sent(s.dl), k);
    match s.feeder
    case Getting => FlattenGrows(Data(c), s.taken, k);
    case Writing(i) => FlattenGrows(Data(c), i, k);
    case _ =>
  }

  /** Over every interleaving, with or without a failing decompressor: never more than
      PoolSize downloads at once, never more than Capacity items queued, the bytes fed are a
      prefix of the leading sound parts in listed order, and the schedule is bounded. */
  lemma {:induction false} RunSafety(c: Config, schedule: seq<Action>)
    requires ValidConfig(c) && Execute(c, schedule).Some?
    ensures var s := Execute(c, schedule).value;
      && Inv(c, s)
      && Sum(s.tasks, IsRunning) <= PoolSize(c)
      && |s.queue| <= Capacity(c)
      && s.fed <= Flatten(Data(c)[..FirstUnsound(c, 0)])
      && |schedule| + Work(c, s) <= Work(c, Start(c))
  {
    if schedule == [] {
      StartInv(c);
      FedBound(c, Start(c));
    } else {
      var last := |schedule| - 1;
      RunSafety(c, schedule[..last]);
      var s := Execute(c, schedule[..last]).value;
      StepKeepsInv(c, s, schedule[last]);
      StepUsesWork(c, s, schedule[last]);
      FedBound(c, Step(c, s, schedule[last]));
    }
  }

  /** What a finished run means. With a working decompressor every schedule ends with the same
      bytes: all parts before the first unsound one; an error is recorded exactly when there is
      an unsound part, and it names that part. With a failed one an error is always recorded. */
  lemma RunResult(c: Config, s: Pipe)
    requires ValidConfig(c) && Inv(c, s) && Terminal(s)
    ensures s.stop ==> s.errors != []
    ensures !s.stop ==> s.fed == Flatten(Data(c)[..FirstUnsound(c, 0)])
    ensures !s.stop ==> (s.errors == [] <==> forall i | 0 <= i < |c.parts| :: Sound(c, i))
    ensures !s.stop && s.errors != [] ==> s.errors[0] == PartFault(FirstUnsound(c, 0))
  {
    FedBound(c, s);
    var k := FirstUnsound(c, 0);
    assert k < |c.parts| ==> !Sound(c, k);
    assert s.errors != [] ==> s.errors[0] in s.errors;
  }

  // ---- when the feeder fails -------------------------------------------------------------

  /** A blocked pipeline stays blocked: joining the downloader then waits for ever. */
  lemma BlockedForever(c: Config, s: Pipe, a: Action)
    requires ValidConfig(c) && Inv(c, s) && Blocked(c, s) && Enabled(c, s, a)
    ensures Blocked(c, Step(c, s, a)) && !Terminal(Step(c, s, a))
  {
  }

  lemma Extend(c: Config, schedule: seq<Action>, s: Pipe, a: Action) returns (longer: seq<Action>, s': Pipe)
    requires ValidConfig(c) && Execute(c, schedule) == Some(s) && Enabled(c, s, a)
    ensures s' == Step(c, s, a) && Execute(c, longer) == Some(s')
  {
    longer, s' := schedule + [a], Step(c, s, a);
    assert longer[..|schedule|] == schedule;
  }

  ghost predicate CanBlock(c: Config)
    requires ValidConfig(c)
  {
    exists schedule :: Execute(c, schedule).Some? && Blocked(c, Execute(c, schedule).value)
  }

  /** More parts than the queue holds, and as many sound ones in front. */
  predicate Overfull(c: Config)
    requires ValidConfig(c)
  {
    |c.parts| > Capacity(c) && FirstUnsound(c, 0) >= Capacity(c)
  }

  /** The failed feeder has taken a part out of the queue, so a full queue takes one more. */
  lemma BlockedIsOverfull(c: Config, s: Pipe)
    requires ValidConfig(c) && Inv(c, s) && Blocked(c, s)
    ensures Overfull(c)
  {
    FedBound(c, s);
    assert |s.queue| == Sent(s.dl) + |Tail(s.dl)| - s.taken;
  }

  function Submitted(c: Config, i: nat): seq<Task> {
    seq(|c.parts|, j => if j < i then Queued else Unsubmitted)
  }

  function Downloaded(c: Config, i: nat): seq<Task>
    requires ValidConfig(c) && i <= |c.parts|
  {
    seq(|c.parts|, j requires 0 <= j < |c.parts| => if j < i then Finished(TaskResult(c, j)) else Queued)
  }

  lemma {:induction false} SubmitSome(c: Config, i: nat) returns (schedule: seq<Action>)
    requires ValidConfig(c) && i <= |c.parts|
    ensures Execute(c, schedule) == Some(Start(c).(tasks := Submitted(c, i), dl := Submitting(i)))
  {
    if i == 0 {
      schedule := [];
      assert Start(c).tasks == Submitted(c, 0);
    } else {
      schedule := SubmitSome(c, i - 1);
      var s := Execute(c, schedule).value;
      schedule, s := Extend(c, schedule, s, Submit);
      assert s.tasks == Submitted(c, i);
    }
  }

  /** An idle pool takes the first queued part and finishes it. */
  lemma DownloadOne(c: Config, schedule: seq<Action>, s: Pipe, i: nat) returns (longer: seq<Action>, s': Pipe)
    requires ValidConfig(c) && Execute(c, schedule) == Some(s)
    requires !s.stop && Sum(s.tasks, IsRunning) == 0
    requires i < |s.tasks| == |c.parts| && s.tasks[i].Queued?
    requires forall j | 0 <= j < i :: !s.tasks[j].Queued?
    ensures s' == s.(tasks := s.tasks[i := Finished(TaskResult(c, i))])
    ensures Execute(c, longer) == Some(s')
  {
    SumUpdate(s.tasks, i, Running, IsRunning);
    longer, s' := Extend(c, schedule, s, Begin(i));
    longer, s' := Extend(c, longer, s', Finish(i));
  }

  lemma {:induction false} DownloadSome(c: Config, i: nat) returns (schedule: seq<Action>)
    requires ValidConfig(c) && i <= |c.parts|
    ensures Execute(c, schedule) == Some(Pipe(Downloaded(c, i), Checking(0), [], 0, Getting, [], [], false))
  {
    var s;
    if i == 0 {
      schedule := SubmitSome(c, |c.parts|);
      s := Execute(c, schedule).value;
      schedule, s := Extend(c, schedule, s, Submit);
      assert s.tasks == Downloaded(c, 0);
    } else {
      schedule := DownloadSome(c, i - 1);
      s := Execute(c, schedule).value;
      SumZero(s.tasks, IsRunning);
      schedule, s := DownloadOne(c, schedule, s, i - 1);
      assert s.tasks == Downloaded(c, i);
    }
  }

  /** The downloader hands over a part that is ready. */
  lemma HandOver(c: Config, schedule: seq<Action>, s: Pipe) returns (longer: seq<Action>, s': Pipe)
    requires ValidConfig(c) && Execute(c, schedule) == Some(s)
    requires s.dl.Checking? && !s.stop && |s.queue| < Capacity(c)
    requires s.dl.i < |s.tasks| && s.tasks[s.dl.i] == Finished(Fetched)
    ensures s' == s.(dl := Checking(s.dl.i + 1), queue := s.queue + [PartItem(s.dl.i)])
    ensures Execute(c, longer) == Some(s')
  {
    longer, s' := Extend(c, schedule, s, Check);
    longer, s' := Extend(c, longer, s', Collect);
    longer, s' := Extend(c, longer, s', Put);
  }

  /** The feeder is at the first part, and parts 1 to m - 1 wait in the queue. */
  function Filled(c: Config, m: nat): Pipe
    requires ValidConfig(c) && m >= 1
  {
    var waiting := seq(m - 1, j requires 0 <= j => PartItem(j + 1));
    Pipe(Downloaded(c, |c.parts|), Checking(m), waiting, 1, Writing(0), [], [], false)
  }

  lemma FillFirst(c: Config) returns (schedule: seq<Action>)
    requires ValidConfig(c) && FirstUnsound(c, 0) >= 1
    ensures Execute(c, schedule) == Some(Filled(c, 1))
  {
    schedule := DownloadSome(c, |c.parts|);
    var s := Execute(c, schedule).value;
    schedule, s := HandOver(c, schedule, s);
    schedule, s := Extend(c, schedule, s, Get);
    assert s == Filled(c, 1);
  }

  lemma NextIsReady(c: Config, m: nat)
    requires ValidConfig(c) && 1 <= m <= Capacity(c) && m < FirstUnsound(c, 0)
    ensures var s := Filled(c, m);
      && s.dl == Checking(m) && !s.stop && |s.queue| < Capacity(c)
      && m < |s.tasks| && s.tasks[m] == Finished(Fetched)
      && Filled(c, m + 1) == s.(dl := Checking(m + 1), queue := s.queue + [PartItem(m)])
  {
    assert Sound(c, m) && TaskResult(c, m) == Fetched;
    assert Filled(c, m + 1).queue == Filled(c, m).queue + [PartItem(m)];
  }

  lemma FillOne(c: Config, schedule: seq<Action>, m: nat) returns (longer: seq<Action>)
    requires ValidConfig(c) && 1 <= m <= Capacity(c) && m < FirstUnsound(c, 0)
    requires Execute(c, schedule) == Some(Filled(c, m))
    ensures Execute(c, longer) == Some(Filled(c, m + 1))
  {
    NextIsReady(c, m);
    var s;
    longer, s := HandOver(c, schedule, Filled(c, m));
  }

  lemma {:induction false} Fill(c: Config, m: nat) returns (schedule: seq<Action>)
    requires ValidConfig(c) && 1 <= m <= Capacity(c) + 1 && m <= FirstUnsound(c, 0)
    ensures Execute(c, schedule) == Some(Filled(c, m))
  {
    if m == 1 {
      schedule := FillFirst(c);
    } else {
      schedule := Fill(c, m - 1);
      schedule := FillOne(c, schedule, m - 1);
    }
  }

  /** With a sound part after the full queue: the end marker finds no room. */
  lemma BlockAtEnd(c: Config) returns (schedule: seq<Action>)
    requires ValidConfig(c) && FirstUnsound(c, 0) > Capacity(c)
    ensures Execute(c, schedule).Some? && Blocked(c, Execute(c, schedule).value)
  {
    schedule := Fill(c, Capacity(c) + 1);
    var s := Filled(c, Capacity(c) + 1);
    schedule, s := Extend(c, schedule, s, WriteFails(0));
    schedule, s := Extend(c, schedule, s, Check);
    schedule, s := Extend(c, schedule, s, Join);
  }

  /** With an unsound part there: its error takes the last place, and the end marker finds none. */
  lemma BlockAtFault(c: Config) returns (schedule: seq<Action>)
    requires ValidConfig(c) && FirstUnsound(c, 0) == Capacity(c) < |c.parts|
    ensures Execute(c, schedule).Some? && Blocked(c, Execute(c, schedule).value)
  {
    var k := Capacity(c);
    schedule := Fill(c, k);
    var s := Filled(c, k);
    schedule, s := Extend(c, schedule, s, Check);
    schedule, s := Extend(c, schedule, s, Collect);
    if c.wire[k].Fails? {
      schedule, s := Extend(c, schedule, s, Join);
      schedule, s := Extend(c, schedule, s, Put);
    } else {
      schedule, s := Extend(c, schedule, s, Put);
      schedule, s := Extend(c, schedule, s, Join);
    }
    schedule, s := Extend(c, schedule, s, WriteFails(0));
  }

  /** Exactly when a decompressor that dies can hang the restore: there are more parts than the
      queue holds, and the queue can be filled with sound ones. */
  lemma BlocksExactly(c: Config)
    requires ValidConfig(c)
    ensures CanBlock(c) <==> Overfull(c)
  {
    if CanBlock(c) {
      var schedule :| Execute(c, schedule).Some? && Blocked(c, Execute(c, schedule).value);
      RunSafety(c, schedule);
      BlockedIsOverfull(c, Execute(c, schedule).value);
    }
    if Overfull(c) {
      var schedule;
      if FirstUnsound(c, 0) > Capacity(c) {
        schedule := BlockAtEnd(c);
      } else {
        schedule := BlockAtFault(c);
      }
      assert CanBlock(c);
    }
  }

  /** The same in the terms of the call: more parts than max(1, prefetch), and the first
      max(1, prefetch) of them arrive, with their digest where one is listed. */
  lemma BlocksInTermsOfTheCall(c: Config)
    requires ValidConfig(c)
    ensures CanBlock(c) <==>
            && |c.parts| > Max(1, c.prefetch)
            && forall i | 0 <= i < Max(1, c.prefetch) ::
                 && c.wire[i].Delivered?
                 && (c.parts[i].sum.Some? ==> Digest(c.wire[i].data) == c.parts[i].sum.value)
  {
    BlocksExactly(c);
    var k := FirstUnsound(c, 0);
    if |c.parts| > Max(1, c.prefetch) {
      assert k < |c.parts| ==> !Sound(c, k);
      assert forall i: nat | i < |c.parts| :: Sound(c, i) <==>
          && c.wire[i].Delivered?
          && (c.parts[i].sum.Some? ==> Digest(c.wire[i].data) == c.parts[i].sum.value);
    }
  }

  /** And the bounds: never more items queued than max(1, prefetch), nor more downloads at once
      than max(1, workers). */
  lemma BoundsInTermsOfTheCall(c: Config, schedule: seq<Action>)
    requires ValidConfig(c) && Execute(c, schedule).Some?
    ensures var s := Execute(c, schedule).value;
      |s.queue| <= Max(1, c.prefetch) && Sum(s.tasks, IsRunning) <= Min(|c.parts|, Max(1, c.workers))
  {
    RunSafety(c, schedule);
  }

  predicate HasBegun(t: Task) {
    t.Running? || t.Finished?
  }

  /** Tasks that have begun come first, then the queued ones, then those not submitted. */
  ghost predicate InOrder(s: Pipe) {
    && (forall i, j | 0 <= i < j < |s.tasks| && HasBegun(s.tasks[j]) :: HasBegun(s.tasks[i]))
    && (forall i, j | 0 <= i < j < |s.tasks| && !s.tasks[j].Unsubmitted? :: !s.tasks[i].Unsubmitted?)
    && (s.dl.Submitting? ==>
          forall i | 0 <= i < |s.tasks| :: s.tasks[i].Unsubmitted? <==> i >= s.dl.i)
  }

  lemma SubmitKeepsOrder(c: Config, s: Pipe)
    requires ValidConfig(c) && s.dl.Submitting? && InOrder(s)
    ensures InOrder(Step(c, s, Submit))
  {
  }

  lemma BeginKeepsOrder(c: Config, s: Pipe, i: nat)
    requires ValidConfig(c) && Enabled(c, s, Begin(i)) && InOrder(s)
    ensures InOrder(Step(c, s, Begin(i)))
  {
  }

  lemma FinishKeepsOrder(c: Config, s: Pipe, i: nat)
    requires ValidConfig(c) && Enabled(c, s, Finish(i)) && InOrder(s)
    ensures InOrder(Step(c, s, Finish(i)))
  {
  }

  lemma OthersKeepOrder(c: Config, s: Pipe, a: Action)
    requires ValidConfig(c) && Enabled(c, s, a) && InOrder(s)
    requires !a.Submit? && !a.Begin? && !a.Finish?
    ensures InOrder(Step(c, s, a))
  {
    var s' := Step(c, s, a);
    assert s'.tasks == s.tasks && (s'.dl.Submitting? ==> s'.dl == s.dl);
  }

  lemma StepKeepsOrder(c: Config, s: Pipe, a: Action)
    requires ValidConfig(c) && Enabled(c, s, a) && InOrder(s)
    ensures InOrder(Step(c, s, a))
  {
    match a
    case Submit => SubmitKeepsOrder(c, s);
    case Begin(i) => BeginKeepsOrder(c, s, i);
    case Finish(i) => FinishKeepsOrder(c, s, i);
    case _ => OthersKeepOrder(c, s, a);
  }

  /** Downloads begin in listed order, whatever the scheduler does. */
  lemma {:induction false} BeginsInOrder(c: Config, schedule: seq<Action>)
    requires ValidConfig(c) && Execute(c, schedule).Some?
    ensures InOrder(Execute(c, schedule).value)
  {
    if schedule != [] {
      var last := |schedule| - 1;
      BeginsInOrder(c, schedule[..last]);
      StepKeepsOrder(c, Execute(c, schedule[..last]).value, schedule[last]);
    }
  }

  function Begun(c: Config, i: nat): seq<Task> {
    seq(|c.parts|, j => if j < i then Running else Queued)
  }

  lemma {:induction false} RunningCount(n: nat, i: nat)
    requires i <= n
    ensures Sum(seq(n, j => if j < i then Running else Queued), IsRunning) == i
  {
    if n > 0 {
      var tasks := seq(n, j => if j < i then Running else Queued);
      var rest: nat := if i == 0 then 0 else i - 1;
      assert tasks[1..] == seq(n - 1, j => if j < rest then Running else Queued);
      RunningCount(n - 1, rest);
    }
  }

  lemma {:induction false} BeginSome(c: Config, i: nat) returns (schedule: seq<Action>)
    requires ValidConfig(c) && i <= PoolSize(c)
    ensures Execute(c, schedule) == Some(Pipe(Begun(c, i), Checking(0), [], 0, Getting, [], [], false))
  {
    var s;
    if i == 0 {
      schedule := DownloadSome(c, 0);
      s := Execute(c, schedule).value;
      assert s.tasks == Begun(c, 0);
    } else {
      schedule := BeginSome(c, i - 1);
      s := Execute(c, schedule).value;
      RunningCount(|c.parts|, i - 1);
      schedule, s := Extend(c, schedule, s, Begin(i - 1));
      assert s.tasks == Begun(c, i);
    }
  }

  /** The pool's bound is reached, whatever the parts. */
  lemma PoolFills(c: Config) returns (schedule: seq<Action>)
    requires ValidConfig(c)
    ensures Execute(c, schedule).Some?
    ensures Sum(Execute(c, schedule).value.tasks, IsRunning) == Min(|c.parts|, Max(1, c.workers))
  {
    schedule := BeginSome(c, PoolSize(c));
    RunningCount(|c.parts|, PoolSize(c));
  }

  /** In every other case, with at most `prefetch` parts to begin with, every schedule that
      nobody can continue has ended all threads, even when writes fail. */
  lemma EndsUnlessOverfull(c: Config, schedule: seq<Action>)
    requires ValidConfig(c) && !Overfull(c) && Execute(c, schedule).Some?
    requires forall a :: !Enabled(c, Execute(c, schedule).value, a)
    ensures Terminal(Execute(c, schedule).value)
  {
    RunSafety(c, schedule);
    var s := Execute(c, schedule).value;
    if Blocked(c, s) {
      BlockedIsOverfull(c, s);
    } else if !Terminal(s) {
      var a := Progress(c, s);
      assert false;
    }
  }

  // ---- the function itself ---------------------------------------------------------------

  predicate Runnable(c: Config, s: Pipe, writable: bool, a: Action)
    requires ValidConfig(c)
  {
    Enabled(c, s, a) && (writable ==> !a.WriteFails?)
  }

  lemma OnlyFailedWritesStop(c: Config, s: Pipe, a: Action)
    requires ValidConfig(c) && Enabled(c, s, a) && !a.WriteFails?
    ensures Step(c, s, a).stop == s.stop
  {
  }

  lemma RunnableIsEnabled(c: Config, s: Pipe, writable: bool, a: Action)
    requires ValidConfig(c) && Runnable(c, s, writable, a)
    ensures Enabled(c, s, a) && (writable ==> !a.WriteFails?)
  {
  }

  /** One step of whichever thread the scheduler picks. */
  method RunOne(c: Config, s: Pipe, writable: bool) returns (s': Pipe)
    requires ValidConfig(c) && Inv(c, s) && !Terminal(s) && !Blocked(c, s) && (writable ==> !s.stop)
    ensures Inv(c, s') && (writable ==> !s'.stop) && Work(c, s') < Work(c, s)
  {
    ghost var possible := Progress(c, s);
    assert Runnable(c, s, writable, possible);
    var a: Action :| Runnable(c, s, writable, a);
    RunnableIsEnabled(c, s, writable, a);
    StepUsesWork(c, s, a);
    StepKeepsInv(c, s, a);
    if !a.WriteFails? {
      OnlyFailedWritesStop(c, s, a);
    }
    s' := Step(c, s, a);
  }

  /** unpack_from_store: the threads run under an arbitrary scheduler until they have all ended
      or hang. `writable` says that the decompressor accepts whatever it is given; otherwise any
      write may fail, anywhere. */
  method UnpackParts(c: Config, writable: bool) returns (hung: bool, fed: Bytes, errors: seq<Fault>)
    requires ValidConfig(c)
    ensures hung ==> !writable && Overfull(c)
    ensures fed <= Flatten(Data(c)[..FirstUnsound(c, 0)])
    ensures !hung && errors == [] ==> fed == Flatten(Data(c)) && forall i | 0 <= i < |c.parts| :: Sound(c, i)
    ensures writable ==> fed == Flatten(Data(c)[..FirstUnsound(c, 0)])
    ensures writable ==> (errors == [] <==> forall i | 0 <= i < |c.parts| :: Sound(c, i))
    ensures writable && errors != [] ==> errors[0] == PartFault(FirstUnsound(c, 0))
  {
    var s := Start(c);
    StartInv(c);
    while !Terminal(s) && !Blocked(c, s)
      invariant Inv(c, s) && (writable ==> !s.stop)
      decreases Work(c, s)
    {
      s := RunOne(c, s, writable);
    }
    hung, fed, errors := !Terminal(s), s.fed, s.errors;
    FedBound(c, s);
    if hung {
      BlockedIsOverfull(c, s);
    } else {
      RunResult(c, s);
      assert errors == [] ==> Data(c)[..|c.parts|] == Data(c);
    }
  }
}
