/** mine.gate: any number of candidate machines race for one lock; slower silicon waits out a
    scoreboard deadline first. The steps of all candidates interleave freely. */
module Mine {
  import opened Prelude

  datatype Candidate = Candidate(
    score: int, fleet: bool, strict: bool, minScore: int, wait: int, poll: int, keyed: bool)

  /** Claims at once: a fleet runner, or target silicon. */
  predicate Eager(c: Candidate) {
    c.fleet || c.score >= c.minScore
  }

  /** May claim at all. */
  predicate MayClaim(c: Candidate) {
    Eager(c) || !c.strict
  }

  datatype Role = Builder | Discarded | AlreadyDone | Raised

  /** Where a candidate stands in `gate`. Deadlines and times are absolute. */
  datatype Phase =
    | Starting
    | Checking(deadline: int)
    | Looking(deadline: int, seen: int)
    | Sleeping(deadline: int, until: int)
    | LastLook
    | Claiming
    | Creating
    | Ended(role: Role)

  datatype Holder = Nobody | Outsider | Held(who: nat, at: int)

  /** The clock, the INDEX, the lock, and the candidates with the time each started to wait.
      `honest` turns false when a claim's reply is lost. */
  datatype World = World(now: int, done: bool, lock: Holder, honest: bool, phases: seq<Phase>, start: seq<int>)

  /** How the store answers one step. */
  datatype Luck = Fine | Fails | ReplyLost

  predicate Seen(w: World, luck: Luck) {
    w.lock != Nobody && luck != Fails
  }

  /** The phase after candidate i's next step. */
  function NextPhase(c: Candidate, w: World, phase: Phase, luck: Luck): Phase {
    match phase
    case Starting =>
      if c.keyed && w.done && luck != Fails then Ended(AlreadyDone)
      else if Eager(c) then Claiming
      else Checking(w.now + c.wait)
    case Checking(d) => if w.now < d then Looking(d, w.now) else LastLook
    case Looking(d, _) => if Seen(w, luck) then Ended(Discarded) else Sleeping(d, w.now + c.poll)
    case Sleeping(d, _) => Checking(d)
    case LastLook => if Seen(w, luck) || c.strict then Ended(Discarded) else Claiming
    case Claiming =>
      if luck == Fails then Ended(Raised)
      else if w.lock != Nobody || luck == ReplyLost then Ended(Discarded)
      else Creating
    case Creating => Ended(if luck == Fails then Raised else Builder)
    case Ended(_) => phase
  }

  /** A claim that reaches the store makes the tag if it is absent. */
  predicate Takes(w: World, i: nat, luck: Luck)
    requires i < |w.phases|
  {
    w.phases[i] == Claiming && luck != Fails && w.lock == Nobody
  }

  predicate CanAct(w: World, i: nat) {
    && i < |w.phases| && !w.phases[i].Ended?
    && (w.phases[i].Sleeping? ==> w.now >= w.phases[i].until)
  }

  function Act(cs: seq<Candidate>, w: World, i: nat, luck: Luck): World
    requires |cs| == |w.phases| == |w.start| && CanAct(w, i)
  {
    w.(phases := w.phases[i := NextPhase(cs[i], w, w.phases[i], luck)],
       start := if w.phases[i] == Starting then w.start[i := w.now] else w.start,
       lock := if Takes(w, i, luck) then Held(i, w.now) else w.lock,
       honest := w.honest && !(Takes(w, i, luck) && luck == ReplyLost))
  }

  /** The step at which a candidate gets each of its four roles, and that a lookup which fails
      keeps it in the race. */
  lemma RolesExactly(c: Candidate, w: World, phase: Phase, luck: Luck)
    requires !phase.Ended?
    ensures NextPhase(c, w, phase, luck) == Ended(AlreadyDone) <==>
            phase == Starting && c.keyed && w.done && luck != Fails
    ensures NextPhase(c, w, phase, luck) == Ended(Builder) <==> phase == Creating && luck != Fails
    ensures NextPhase(c, w, phase, luck) == Ended(Raised) <==> phase in {Claiming, Creating} && luck == Fails
    ensures NextPhase(c, w, phase, luck) == Ended(Discarded) <==>
            || (w.lock != Nobody && luck != Fails && (phase.Looking? || phase in {LastLook, Claiming}))
            || (phase == Claiming && luck == ReplyLost)
            || (phase == LastLook && c.strict)
  {
  }

  datatype Event = Acts(i: nat, luck: Luck) | TimePasses(to: int) | IndexDone

  ghost predicate Happens(cs: seq<Candidate>, w: World, w': World, e: Event) {
    && |cs| == |w.phases| == |w.start|
    && match e
       case Acts(i, luck) => CanAct(w, i) && w' == Act(cs, w, i, luck)
       case TimePasses(to) => to >= w.now && w' == w.(now := to)
       case IndexDone => w' == w.(done := true)
  }

  ghost predicate IsStart(cs: seq<Candidate>, w: World) {
    && |cs| == |w.phases| == |w.start| && !w.lock.Held? && w.honest
    && forall i | 0 <= i < |cs| :: w.phases[i] == Starting
  }

  // ---- what every interleaving keeps -----------------------------------------------------

  ghost predicate Local(c: Candidate, phase: Phase, start: int, now: int, lock: Holder, i: nat) {
    match phase
    case Starting => true
    case Checking(d) => !Eager(c) && d == start + c.wait
    case Looking(d, seen) => !Eager(c) && d == start + c.wait && seen < d && seen <= now
    case Sleeping(d, _) => !Eager(c) && d == start + c.wait
    case LastLook => !Eager(c) && now >= start + c.wait
    case Claiming => Eager(c) || (!c.strict && now >= start + c.wait)
    case Creating => lock.Held? && lock.who == i
    case Ended(role) =>
      && (role == Builder ==> lock.Held? && lock.who == i)
      && (role == Discarded ==> lock != Nobody || !MayClaim(c))
  }

  /** Whoever holds the lock was entitled to it when it was taken, and has not been refused,
      unless its reply was lost. */
  ghost predicate LockInv(cs: seq<Candidate>, w: World)
    requires |cs| == |w.phases| == |w.start|
  {
    w.lock.Held? ==>
      && w.lock.who < |cs| && w.lock.at <= w.now
      && (Eager(cs[w.lock.who]) || (!cs[w.lock.who].strict && w.lock.at >= w.start[w.lock.who] + cs[w.lock.who].wait))
      && match w.phases[w.lock.who]
         case Creating => true
         case Ended(role) => role == Builder || role == Raised || (role == Discarded && !w.honest)
         case _ => false
  }

  ghost predicate Inv(cs: seq<Candidate>, w: World) {
    && |cs| == |w.phases| == |w.start|
    && (forall i: nat | i < |cs| :: Local(cs[i], w.phases[i], w.start[i], w.now, w.lock, i))
    && LockInv(cs, w)
  }

  lemma ActKeepsLocal(cs: seq<Candidate>, w: World, i: nat, luck: Luck, j: nat)
    requires Inv(cs, w) && CanAct(w, i) && j < |cs|
    ensures var w' := Act(cs, w, i, luck); Local(cs[j], w'.phases[j], w'.start[j], w'.now, w'.lock, j)
  {
    assert Local(cs[j], w.phases[j], w.start[j], w.now, w.lock, j);
    assert Local(cs[i], w.phases[i], w.start[i], w.now, w.lock, i);
  }

  lemma ActKeepsLock(cs: seq<Candidate>, w: World, i: nat, luck: Luck)
    requires Inv(cs, w) && CanAct(w, i)
    ensures LockInv(cs, Act(cs, w, i, luck))
  {
    assert Local(cs[i], w.phases[i], w.start[i], w.now, w.lock, i);
  }

  lemma StepKeepsInv(cs: seq<Candidate>, w: World, w': World, e: Event)
    requires Inv(cs, w) && Happens(cs, w, w', e)
    ensures Inv(cs, w')
    ensures w.lock != Nobody ==> w'.lock == w.lock
    ensures w'.now >= w.now
    ensures w.lock == Nobody ==> w'.lock != Outsider
  {
    match e
    case Acts(i, luck) =>
      forall j: nat | j < |cs|
        ensures Local(cs[j], w'.phases[j], w'.start[j], w'.now, w'.lock, j)
      {
        ActKeepsLocal(cs, w, i, luck, j);
      }
      ActKeepsLock(cs, w, i, luck);
    case TimePasses(to) =>
      forall j: nat | j < |cs|
        ensures Local(cs[j], w'.phases[j], w'.start[j], w'.now, w'.lock, j)
      {
        assert Local(cs[j], w.phases[j], w.start[j], w.now, w.lock, j);
      }
    case IndexDone =>
  }

  /** Every interleaving, with or without faults: no two candidates build, and none does when
      the lock was taken from outside. */
  lemma AtMostOneBuilder(cs: seq<Candidate>, w: World, i: nat, j: nat)
    requires Inv(cs, w) && i < |cs| && j < |cs|
    requires w.phases[i] == Ended(Builder) && w.phases[j] == Ended(Builder)
    ensures i == j && w.lock.Held? && w.lock.who == i && MayClaim(cs[i])
  {
    assert Local(cs[i], w.phases[i], w.start[i], w.now, w.lock, i);
    assert Local(cs[j], w.phases[j], w.start[j], w.now, w.lock, j);
  }

  ghost predicate AllReturned(w: World) {
    forall i | 0 <= i < |w.phases| :: w.phases[i] == Ended(Builder) || w.phases[i] == Ended(Discarded)
  }

  /** When all have returned, nothing raised and no reply was lost: someone builds exactly when
      the lock was free and someone may claim. */
  lemma ExactlyWhenSomeoneMayClaim(cs: seq<Candidate>, w: World)
    requires Inv(cs, w) && AllReturned(w) && w.honest && w.lock != Outsider
    ensures (exists i: nat :: i < |cs| && w.phases[i] == Ended(Builder)) <==>
            (exists i: nat :: i < |cs| && MayClaim(cs[i]))
  {
    if i: nat :| i < |cs| && w.phases[i] == Ended(Builder) {
      AtMostOneBuilder(cs, w, i, i);
    }
    if i: nat :| i < |cs| && MayClaim(cs[i]) {
      assert Local(cs[i], w.phases[i], w.start[i], w.now, w.lock, i);
      assert w.lock.Held?;
      assert w.phases[w.lock.who] == Ended(Builder);
    }
  }

  // ---- whole runs ------------------------------------------------------------------------

  ghost predicate IsRun(cs: seq<Candidate>, ws: seq<World>, es: seq<Event>) {
    && |ws| == |es| + 1
    && IsStart(cs, ws[0])
    && (forall k | 0 <= k < |ws| :: |ws[k].phases| == |cs| == |ws[k].start|)
    && forall k | 0 <= k < |es| :: Happens(cs, ws[k], ws[k + 1], es[k])
  }

  lemma {:induction false} RunKeepsInv(cs: seq<Candidate>, ws: seq<World>, es: seq<Event>, n: nat)
    requires IsRun(cs, ws, es) && n <= |es|
    ensures Inv(cs, ws[n])
    ensures ws[0].lock == Nobody ==> ws[n].lock != Outsider
  {
    if n > 0 {
      RunKeepsInv(cs, ws, es, n - 1);
      StepKeepsInv(cs, ws[n - 1], ws[n], es[n - 1]);
    }
  }

  lemma StepKeepsLock(cs: seq<Candidate>, w: World, w': World, e: Event)
    requires Happens(cs, w, w', e) && w.lock != Nobody
    ensures w'.lock == w.lock
  {
  }

  lemma {:induction false} LockSticks(cs: seq<Candidate>, ws: seq<World>, es: seq<Event>, k: nat, n: nat)
    requires IsRun(cs, ws, es) && k <= n <= |es| && ws[k].lock != Nobody
    ensures ws[n].lock == ws[k].lock
    decreases n
  {
    if k < n {
      LockSticks(cs, ws, es, k, n - 1);
      StepKeepsLock(cs, ws[n - 1], ws[n], es[n - 1]);
    }
  }

  /** Slower silicon claims only after its own wait. */
  lemma NoEarlyClaim(cs: seq<Candidate>, ws: seq<World>, es: seq<Event>, k: nat)
    requires IsRun(cs, ws, es) && k < |es| && es[k].Acts? && es[k].i < |cs|
    requires ws[k].phases[es[k].i] == Claiming
    requires !cs[es[k].i].fleet && cs[es[k].i].score < cs[es[k].i].minScore
    ensures ws[k].now >= ws[k].start[es[k].i] + cs[es[k].i].wait && !cs[es[k].i].strict
  {
    RunKeepsInv(cs, ws, es, k);
    var i := es[k].i;
    assert Local(cs[i], ws[k].phases[i], ws[k].start[i], ws[k].now, ws[k].lock, i);
  }

  /** Priority: on a lock that starts free, once a fleet runner or target silicon has made its
      claim before the deadline of every slower candidate, only one of its kind can build. */
  lemma EagerWins(cs: seq<Candidate>, ws: seq<World>, es: seq<Event>, k: nat, b: nat)
    requires IsRun(cs, ws, es) && ws[0].lock == Nobody
    requires k < |es| && es[k].Acts? && es[k].i < |cs| && es[k].luck != Fails && ws[k].phases[es[k].i] == Claiming
    requires var last := ws[|es|];
      forall j: nat | j < |cs| && !cs[j].fleet && cs[j].score < cs[j].minScore && last.phases[j] != Starting ::
        last.start[j] + cs[j].wait > ws[k].now
    requires b < |cs| && ws[|es|].phases[b] == Ended(Builder)
    ensures cs[b].fleet || cs[b].score >= cs[b].minScore
  {
    var w, last := ws[k], ws[|es|];
    RunKeepsInv(cs, ws, es, k);
    RunKeepsInv(cs, ws, es, k + 1);
    RunKeepsInv(cs, ws, es, |es|);
    assert ws[k + 1].lock != Nobody;
    LockSticks(cs, ws, es, k + 1, |es|);
    AtMostOneBuilder(cs, last, b, b);
    assert last.lock.at <= w.now;
  }

  // ---- termination -----------------------------------------------------------------------

  /** How many steps a candidate can still take. */
  function Weight(c: Candidate, phase: Phase, now: int): nat {
    match phase
    case Starting => 3 * Max(0, c.wait) + 5
    case Checking(d) => 3 * Max(0, d - now) + 4
    case Looking(d, seen) => 3 * Max(0, d - seen) + 3
    case Sleeping(d, until) => 3 * Max(0, d - Max(until, now)) + 5
    case LastLook => 3
    case Claiming => 2
    case Creating => 1
    case Ended(_) => 0
  }

  function Work(cs: seq<Candidate>, phases: seq<Phase>, now: int): nat
    requires |cs| == |phases|
  {
    if cs == [] then 0 else Weight(cs[0], phases[0], now) + Work(cs[1..], phases[1..], now)
  }

  lemma {:induction false} WorkUpdate(cs: seq<Candidate>, phases: seq<Phase>, now: int, i: nat, phase: Phase)
    requires |cs| == |phases| && i < |cs|
    ensures Work(cs, phases[i := phase], now) ==
            Work(cs, phases, now) - Weight(cs[i], phases[i], now) + Weight(cs[i], phase, now)
  {
    if i == 0 {
      assert phases[i := phase][1..] == phases[1..];
    } else {
      WorkUpdate(cs[1..], phases[1..], now, i - 1, phase);
      assert phases[i := phase][1..] == phases[1..][i - 1 := phase];
    }
  }

  lemma {:induction false} WorkShrinksWithTime(cs: seq<Candidate>, phases: seq<Phase>, now: int, later: int)
    requires |cs| == |phases| && now <= later
    ensures Work(cs, phases, later) <= Work(cs, phases, now)
  {
    if cs != [] {
      WorkShrinksWithTime(cs[1..], phases[1..], now, later);
    }
  }

  lemma PhaseLightens(c: Candidate, w: World, phase: Phase, luck: Luck)
    requires c.poll >= 1 && !phase.Ended? && (phase.Sleeping? ==> w.now >= phase.until)
    requires phase.Looking? ==> phase.seen < phase.deadline && phase.seen <= w.now
    ensures Weight(c, NextPhase(c, w, phase, luck), w.now) < Weight(c, phase, w.now)
  {
  }

  /** Every step of a candidate uses up work, whatever the others do meanwhile. */
  lemma {:induction false} ActUsesWork(cs: seq<Candidate>, w: World, i: nat, luck: Luck)
    requires Inv(cs, w) && CanAct(w, i) && cs[i].poll >= 1
    ensures Work(cs, Act(cs, w, i, luck).phases, w.now) < Work(cs, w.phases, w.now)
  {
    assert Local(cs[i], w.phases[i], w.start[i], w.now, w.lock, i);
    PhaseLightens(cs[i], w, w.phases[i], luck);
    WorkUpdate(cs, w.phases, w.now, i, NextPhase(cs[i], w, w.phases[i], luck));
  }

  // ---- a scheduler -----------------------------------------------------------------------

  /** One entry of a script: how much time goes by before the step, and how the store answers. */
  datatype Turn = Turn(delay: nat, luck: Luck)

  ghost predicate Untroubled(w: World) {
    w.honest && forall i | 0 <= i < |w.phases| && w.phases[i].Ended? :: w.phases[i].role in {Builder, Discarded}
  }

  lemma FineStaysUntroubled(cs: seq<Candidate>, w: World, i: nat)
    requires |cs| == |w.phases| == |w.start| && CanAct(w, i)
    requires Untroubled(w) && !w.done
    ensures Untroubled(Act(cs, w, i, Fine))
  {
  }

  lemma BuildersOf(cs: seq<Candidate>, w: World)
    requires Inv(cs, w)
    ensures forall i, j | 0 <= i < |cs| && 0 <= j < |cs| && w.phases[i] == w.phases[j] == Ended(Builder) :: i == j
    ensures w.lock == Outsider ==> forall i | 0 <= i < |cs| :: w.phases[i] != Ended(Builder)
    ensures AllReturned(w) && w.honest && w.lock != Outsider ==>
      ((exists i: nat :: i < |cs| && w.phases[i] == Ended(Builder)) <==> (exists i: nat :: i < |cs| && MayClaim(cs[i])))
  {
    forall i: nat, j: nat | i < |cs| && j < |cs| && w.phases[i] == w.phases[j] == Ended(Builder)
      ensures i == j && w.lock != Outsider
    {
      AtMostOneBuilder(cs, w, i, j);
    }
    if AllReturned(w) && w.honest && w.lock != Outsider {
      ExactlyWhenSomeoneMayClaim(cs, w);
    }
  }

  /** A sleeper is not scheduled before it wakes. */
  function Await(phase: Phase, now: int): int {
    if phase.Sleeping? then Max(now, phase.until) else now
  }

  function Ready(w: World, i: nat, delay: nat): World
    requires i < |w.phases|
  {
    w.(now := Await(w.phases[i], w.now + delay))
  }

  /** A scheduled step: time passes, long enough for a sleeper to wake, then the step. */
  function TakeTurn(cs: seq<Candidate>, w: World, i: nat, turn: Turn): World
    requires |cs| == |w.phases| == |w.start| && i < |cs| && !w.phases[i].Ended?
  {
    Act(cs, Ready(w, i, turn.delay), i, turn.luck)
  }

  lemma {:induction false} WaitKeepsInv(cs: seq<Candidate>, w: World, i: nat, turn: Turn)
    requires Inv(cs, w) && i < |cs| && !w.phases[i].Ended?
    ensures Inv(cs, Ready(w, i, turn.delay)) && CanAct(Ready(w, i, turn.delay), i)
  {
    var ready := Ready(w, i, turn.delay);
    StepKeepsInv(cs, w, ready, TimePasses(ready.now));
  }

  lemma {:induction false} ActKeepsInv(cs: seq<Candidate>, w: World, i: nat, luck: Luck)
    requires Inv(cs, w) && CanAct(w, i)
    ensures var w' := Act(cs, w, i, luck);
      && Inv(cs, w')
      && (w.lock != Nobody ==> w'.lock == w.lock)
      && (w.lock == Nobody ==> w'.lock != Outsider)
  {
    StepKeepsInv(cs, w, Act(cs, w, i, luck), Acts(i, luck));
  }

  lemma {:induction false} TurnKeepsInv(cs: seq<Candidate>, w: World, i: nat, turn: Turn)
    requires Inv(cs, w) && i < |cs| && !w.phases[i].Ended?
    ensures var w' := TakeTurn(cs, w, i, turn);
      && Inv(cs, w')
      && (w.lock != Nobody ==> w'.lock == w.lock)
      && (w.lock == Nobody ==> w'.lock != Outsider)
  {
    WaitKeepsInv(cs, w, i, turn);
    ActKeepsInv(cs, Ready(w, i, turn.delay), i, turn.luck);
  }

  lemma TurnKeepsCalm(cs: seq<Candidate>, w: World, i: nat, turn: Turn)
    requires |cs| == |w.phases| == |w.start| && i < |cs| && !w.phases[i].Ended?
    ensures TakeTurn(cs, w, i, turn).done == w.done
    ensures Untroubled(w) && !w.done && turn.luck == Fine ==> Untroubled(TakeTurn(cs, w, i, turn))
  {
    if Untroubled(w) && !w.done && turn.luck == Fine {
      FineStaysUntroubled(cs, Ready(w, i, turn.delay), i);
    }
  }

  lemma {:induction false} TurnUsesWork(cs: seq<Candidate>, w: World, i: nat, turn: Turn)
    requires Inv(cs, w) && i < |cs| && !w.phases[i].Ended? && cs[i].poll >= 1
    ensures var w' := TakeTurn(cs, w, i, turn); Work(cs, w'.phases, w'.now) < Work(cs, w.phases, w.now)
  {
    var ready := Ready(w, i, turn.delay);
    StepKeepsInv(cs, w, ready, TimePasses(ready.now));
    WorkShrinksWithTime(cs, w.phases, w.now, ready.now);
    ActUsesWork(cs, ready, i, turn.luck);
  }

  lemma SomeoneMayClaim(cs: seq<Candidate>)
    ensures (exists i: nat :: i < |cs| && MayClaim(cs[i])) <==>
            exists c | c in cs :: c.fleet || c.score >= c.minScore || !c.strict
  {
    if i: nat :| i < |cs| && MayClaim(cs[i]) {
      assert cs[i] in cs;
    }
    if c :| c in cs && (c.fleet || c.score >= c.minScore || !c.strict) {
      var i: nat :| i < |cs| && cs[i] == c;
      assert MayClaim(cs[i]);
    }
  }

  /** Runs any schedule to its end: time and faults as scripted, the next candidate picked
      arbitrarily. */
  method Race(cs: seq<Candidate>, first: World, script: seq<Turn>) returns (w: World)
    requires IsStart(cs, first)
    requires forall c | c in cs :: c.poll >= 1
    ensures |w.phases| == |cs| && forall i | 0 <= i < |cs| :: w.phases[i].Ended?
    ensures forall i, j | 0 <= i < |cs| && 0 <= j < |cs| && w.phases[i] == w.phases[j] == Ended(Builder) :: i == j
    ensures first.lock == Outsider ==> forall i | 0 <= i < |cs| :: w.phases[i] != Ended(Builder)
    ensures first.lock == Nobody && !first.done && (forall t | t in script :: t.luck == Fine) ==>
      ((exists i: nat :: i < |cs| && w.phases[i] == Ended(Builder)) <==>
        exists c | c in cs :: c.fleet || c.score >= c.minScore || !c.strict)
  {
    w := first;
    var k := 0;
    ghost var calm := !first.done && forall t | t in script :: t.luck == Fine;
    while exists i: nat :: i < |cs| && !w.phases[i].Ended?
      invariant Inv(cs, w) && w.done == first.done
      invariant first.lock == Nobody ==> w.lock != Outsider
      invariant first.lock == Outsider ==> w.lock == Outsider
      invariant calm ==> Untroubled(w)
      decreases Work(cs, w.phases, w.now)
    {
      var i: nat :| i < |cs| && !w.phases[i].Ended?;
      var turn := if k < |script| then script[k] else Turn(0, Fine);
      assert cs[i] in cs;
      TurnKeepsInv(cs, w, i, turn);
      TurnKeepsCalm(cs, w, i, turn);
      TurnUsesWork(cs, w, i, turn);
      w := TakeTurn(cs, w, i, turn);
      k := k + 1;
    }
    BuildersOf(cs, w);
    SomeoneMayClaim(cs);
  }
}
