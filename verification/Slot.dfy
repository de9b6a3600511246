/** cli.cmd_slice: the guards, the purge, the resume step, and then one slice or the fusion loop
    that fills a job's wall budget with slices. */
module Slot {
  import opened Prelude
  import opened Store
  import opened Restoring
  import opened Campaign
  import opened Cli
  import opened Resuming

  // ---- the fusion loop -------------------------------------------------------------------

  const BankReserve := 1800
  const MinSlice := 1800

  /** One pass of the loop: how long slice and bank took, how the engine returned, what it
      packed. */
  datatype Play = Play(took: real, r: SliceResult, p: Packing)

  ghost predicate ValidPlays(plays: seq<Play>) {
    forall play | play in plays :: ValidPacking(play.p) && NoReason !in play.r.stops && play.took >= 0.0
  }

  /** Seconds on the wall clock when the k-th slice starts. */
  function Elapsed(plays: seq<Play>, k: nat): real
    requires k <= |plays|
  {
    if k == 0 then 0.0 else Elapsed(plays, k - 1) + plays[k - 1].took
  }

  /** The budget that the k-th slice gets. */
  function Grant(plays: seq<Play>, wall: int, budget: int, k: nat): int
    requires k <= |plays|
  {
    Min(budget, (wall as real - Elapsed(plays, k) - BankReserve as real).Floor)
  }

  predicate HasRoom(plays: seq<Play>, wall: int, k: nat)
    requires k <= |plays|
  {
    wall as real - Elapsed(plays, k) >= (MinSlice + BankReserve) as real
  }

  /** A slice starts if and only if an hour is left, and gets as many whole seconds of it as the
      budget allows and half an hour more leaves. */
  lemma RoomAndGrant(plays: seq<Play>, wall: int, budget: int, k: nat, seconds: int)
    requires k <= |plays|
    ensures HasRoom(plays, wall, k) <==> Elapsed(plays, k) + 3600.0 <= wall as real
    ensures seconds <= Grant(plays, wall, budget, k) <==>
            seconds <= budget && Elapsed(plays, k) + seconds as real + 1800.0 <= wall as real
  {
  }

  /** How the k-th slice returns under the budget it is granted. */
  function Granted(plays: seq<Play>, wall: int, budget: int, k: nat): SliceResult
    requires k < |plays|
  {
    plays[k].r.(budget := Grant(plays, wall, budget, k) as real)
  }

  /** The results of the first n slices. */
  function Results(plays: seq<Play>, wall: int, budget: int, n: nat): seq<SliceResult>
    requires n <= |plays|
  {
    seq(n, k requires 0 <= k < n => Granted(plays, wall, budget, k))
  }

  ghost predicate AllHaveOut(plays: seq<Play>) {
    forall play | play in plays :: play.p.hasOut
  }

  ghost predicate Roomy(plays: seq<Play>, wall: int, n: nat)
    requires n <= |plays|
  {
    forall k: nat | k < n :: HasRoom(plays, wall, k)
  }

  /** The record after slices that were cut short and a last one. */
  ghost predicate Dispatched(key: string, first: Record, now: Record, results: seq<SliceResult>) {
    && now == Replay(key, first, results) && IsDispatch(results)
    && (results != [] ==> now.last == Classified(results[|results| - 1]))
  }

  lemma OneMoreResult(plays: seq<Play>, wall: int, budget: int, n: nat)
    requires n < |plays|
    ensures Results(plays, wall, budget, n + 1) ==
            Results(plays, wall, budget, n) + [Granted(plays, wall, budget, n)]
  {
  }

  lemma ReplaySnoc(key: string, first: Record, results: seq<SliceResult>, r: SliceResult)
    ensures Replay(key, first, results + [r]) == AfterSlice(key, Replay(key, first, results), r)
  {
    assert (results + [r])[..|results|] == results;
  }

  lemma DispatchSnoc(results: seq<SliceResult>, r: SliceResult)
    requires IsDispatch(results) && NoReason !in r.stops
    requires results != [] ==> Classified(results[|results| - 1]) == Sliced
    ensures IsDispatch(results + [r])
  {
    var longer := results + [r];
    assert forall i | 0 <= i < |results| :: longer[i] == results[i];
    assert forall x | x in longer :: x in results || x == r;
  }

  lemma LastOfSlice(key: string, rec: Record, r: SliceResult)
    requires NoReason !in r.stops
    ensures var next := AfterSlice(key, rec, r);
      && next.last == Classified(r)
      && (next.done || next.last in {Capacity, Error, Sliced, MemStall})
  {
    ClassifiedExactly(r);
  }

  lemma OneMoreSlice(key: string, first: Record, now: Record, results: seq<SliceResult>, r: SliceResult)
    requires Dispatched(key, first, now, results) && NoReason !in r.stops
    requires results != [] ==> now.last == Sliced
    ensures Dispatched(key, first, AfterSlice(key, now, r), results + [r])
  {
    ReplaySnoc(key, first, results, r);
    DispatchSnoc(results, r);
    LastOfSlice(key, now, r);
  }

  /** One slice, and what it does to a safe world. */
  method SafeSlice(forge: Forge, r: SliceResult, p: Packing) returns (f: Fate, rc: int)
    requires ValidPacking(p)
    modifies forge, forge.store
    ensures f == Works ==> forge.index == AfterSlice(forge.key, old(forge.index), r)
    ensures f == Works ==> rc == if Classified(r) == Error then 1 else 0
    ensures f != Works ==> forge.index == old(forge.index)
    ensures forge.store.Excused(old(forge.store.pos), old(forge.store.refusals), f)
    ensures p.hasOut && old(Safe(forge.key, forge.Now())) ==> Safe(forge.key, forge.Now())
  {
    ghost var w := forge.Now();
    f, rc := forge.RunSingleSlice(r, p);
    if p.hasOut && Safe(forge.key, w) {
      SliceKeepsSafe(forge.key, w, forge.Now(), r, p);
    }
  }

  /** Records on which the loop does not start a slice; a memory stall even when forced. */
  predicate StopsAtOnce(rec: Record, force: bool) {
    rec.last == MemStall || (!force && (rec.done || rec.last == Capacity))
  }

  /** The INDEX ends the loop; a memory stall does so even when forced. */
  predicate Ends(rec: Record, force: bool) {
    (rec.done && !force) || (rec.last == Capacity && !force) || rec.last == MemStall
  }

  /** Where the loop stands after n slices that wrote the INDEX and did not end it. */
  ghost predicate Head(key: string, first: Record, now: Record, force: bool, plays: seq<Play>, wall: int, budget: int,
                       n: nat)
    requires n <= |plays|
  {
    && Roomy(plays, wall, n) && Dispatched(key, first, now, Results(plays, wall, budget, n))
    && (n > 0 ==> (now.last == Sliced || now.last == MemStall) && !now.done && !StopsAtOnce(first, force))
  }

  /** How it ends after n slices that wrote the INDEX: for want of room, by the INDEX, by a failed
      build, or with the machine. */
  ghost predicate Looped(key: string, first: Record, now: Record, f: Fate, rc: int, force: bool, plays: seq<Play>,
                         wall: int, budget: int, n: nat)
    requires n <= |plays|
  {
    && Roomy(plays, wall, n) && Dispatched(key, first, now, Results(plays, wall, budget, n))
    && (n > 0 ==> !StopsAtOnce(first, force))
    && (f == Works && rc == 0 && HasRoom(plays, wall, n) ==>
          if n == 0 then StopsAtOnce(first, force) else now.done || now.last == Capacity || now.last == MemStall)
    && (f == Works ==> rc == if n > 0 && now.last == Error then 1 else 0)
  }

  lemma HeadEnds(key: string, first: Record, now: Record, force: bool, plays: seq<Play>, wall: int, budget: int, n: nat)
    requires n <= |plays| && Head(key, first, now, force, plays, wall, budget, n)
    ensures !HasRoom(plays, wall, n) || Ends(now, force) ==>
              Looped(key, first, now, Works, 0, force, plays, wall, budget, n)
    ensures Looped(key, first, now, Dies, 0, force, plays, wall, budget, n)
  {
    assert n == 0 ==> now == first by {
      assert n == 0 ==> Results(plays, wall, budget, n) == [];
    }
  }

  lemma PassEnds(key: string, first: Record, rec: Record, now: Record, f: Fate, rc: int, force: bool, plays: seq<Play>,
                 wall: int, budget: int, n: nat)
    requires n < |plays| && ValidPlays(plays) && Head(key, first, rec, force, plays, wall, budget, n)
    requires HasRoom(plays, wall, n) && !Ends(rec, force)
    requires f == Works ==> now == AfterSlice(key, rec, Granted(plays, wall, budget, n))
    requires f == Works ==> rc == if Classified(Granted(plays, wall, budget, n)) == Error then 1 else 0
    requires f != Works ==> now == rec
    ensures f == Works && rc == 0 && !now.done && now.last != Capacity ==>
              Head(key, first, now, force, plays, wall, budget, n + 1)
    ensures f == Works && !(rc == 0 && !now.done && now.last != Capacity) ==>
              Looped(key, first, now, f, rc, force, plays, wall, budget, n + 1)
    ensures f != Works ==> Looped(key, first, now, f, rc, force, plays, wall, budget, n)
  {
    var results := Results(plays, wall, budget, n);
    assert n == 0 ==> rec == first by {
      assert n == 0 ==> results == [];
    }
    if f == Works {
      var r := Granted(plays, wall, budget, n);
      assert plays[n] in plays;
      OneMoreResult(plays, wall, budget, n);
      OneMoreSlice(key, first, rec, results, r);
      LastOfSlice(key, rec, r);
    }
  }

  /** One pass of the loop: the n-th slice under its grant, and whether the loop goes on. */
  method Pass(forge: Forge, wall: int, budget: int, force: bool, plays: seq<Play>, n: nat,
              ghost first: Record, ghost safe: bool, ghost from: nat, ghost refused: nat)
    returns (f: Fate, rc: int, more: bool)
    requires ValidPlays(plays) && n < |plays|
    requires Head(forge.key, first, forge.index, force, plays, wall, budget, n)
    requires HasRoom(plays, wall, n) && !Ends(forge.index, force)
    requires safe ==> AllHaveOut(plays) && Safe(forge.key, forge.Now())
    requires forge.store.Excused(from, refused, Works)
    modifies forge, forge.store
    ensures forge.store.Excused(from, refused, f)
    ensures more ==> f == Works && Head(forge.key, first, forge.index, force, plays, wall, budget, n + 1)
    ensures !more ==>
      Looped(forge.key, first, forge.index, f, rc, force, plays, wall, budget, if f == Works then n + 1 else n)
    ensures safe ==> Safe(forge.key, forge.Now())
  {
    ghost var rec := forge.index;
    var r := Granted(plays, wall, budget, n);
    assert plays[n] in plays;
    f, rc := SafeSlice(forge, r, plays[n].p);
    more := f == Works && rc == 0 && !forge.index.done && forge.index.last != Capacity;
    PassEnds(forge.key, first, rec, forge.index, f, rc, force, plays, wall, budget, n);
  }

  /** Slices until the wall budget, the INDEX or a failure ends the job. `n` slices wrote the
      INDEX. The machine dies when no further play is given. */
  method Fusion(forge: Forge, wall: int, budget: int, force: bool, plays: seq<Play>) returns (f: Fate, rc: int, n: nat)
    requires ValidPlays(plays)
    modifies forge, forge.store
    ensures n <= |plays| && Looped(forge.key, old(forge.index), forge.index, f, rc, force, plays, wall, budget, n)
    ensures (f == Dies && n == |plays|) ||
            forge.store.Excused(old(forge.store.pos), old(forge.store.refusals), f)
    ensures AllHaveOut(plays) && old(Safe(forge.key, forge.Now())) ==> Safe(forge.key, forge.Now())
  {
    n := 0;
    ghost var first, safe := forge.index, AllHaveOut(plays) && Safe(forge.key, forge.Now());
    ghost var from, refused := forge.store.pos, forge.store.refusals;
    while true
      invariant n <= |plays| && Head(forge.key, first, forge.index, force, plays, wall, budget, n)
      invariant forge.store.Excused(from, refused, Works)
      invariant safe ==> AllHaveOut(plays) && Safe(forge.key, forge.Now())
      decreases |plays| - n
    {
      HeadEnds(forge.key, first, forge.index, force, plays, wall, budget, n);
      if !HasRoom(plays, wall, n) || Ends(forge.index, force) {
        return Works, 0, n;
      }
      if n == |plays| {
        return Dies, 0, n;
      }
      var more;
      f, rc, more := Pass(forge, wall, budget, force, plays, n, first, safe, from, refused);
      if f == Works {
        n := n + 1;
      }
      if !more {
        return;
      }
    }
  }

  /** The wall bound: no slice is granted less than min(budget, MinSlice); and when every slice
      and its bank fit in the grant and the reserve, the job is over within the wall budget. */
  lemma WallBound(plays: seq<Play>, wall: int, budget: int, n: nat)
    requires n <= |plays| && wall >= 0
    requires forall k: nat | k < n :: HasRoom(plays, wall, k)
    ensures forall k: nat | k < n :: Min(budget, MinSlice) <= Grant(plays, wall, budget, k) <= budget
    ensures (forall k: nat | k < n :: plays[k].took <= (Grant(plays, wall, budget, k) + BankReserve) as real) ==>
              Elapsed(plays, n) <= wall as real
  {
    forall k: nat | k < n
      ensures Min(budget, MinSlice) <= Grant(plays, wall, budget, k) <= budget
    {
      assert HasRoom(plays, wall, k);
    }
    if n > 0 && (forall k: nat | k < n :: plays[k].took <= (Grant(plays, wall, budget, k) + BankReserve) as real) {
      var last: nat := n - 1;
      assert plays[last].took <= (Grant(plays, wall, budget, last) + BankReserve) as real;
    }
  }

  /** n times delta, added up. */
  function Repeated(delta: real, n: nat): real {
    if n == 0 then 0.0 else Repeated(delta, n - 1) + delta
  }

  lemma OneTimeMore(k: real, delta: real)
    ensures (k + 1.0) * delta == k * delta + delta
  {
  }

  lemma {:induction false} RepeatedIsProduct(delta: real, n: nat)
    ensures Repeated(delta, n) == n as real * delta
  {
    if n > 0 {
      RepeatedIsProduct(delta, n - 1);
      OneTimeMore((n - 1) as real, delta);
      assert n as real == (n - 1) as real + 1.0;
    }
  }

  lemma {:induction false} ElapsedAtLeast(plays: seq<Play>, delta: real, n: nat)
    requires n <= |plays|
    requires forall k: nat | k < n :: plays[k].took >= delta
    ensures Elapsed(plays, n) >= Repeated(delta, n)
  {
    if n > 0 {
      ElapsedAtLeast(plays, delta, n - 1);
    }
  }

  lemma AtMostQuotient(n: real, delta: real, room: real)
    requires delta > 0.0 && n * delta <= room
    ensures n <= room / delta
  {
    var q := room / delta;
    assert q * delta == room;
    if n > q {
      assert (n - q) * delta > 0.0;
      assert n * delta == q * delta + (n - q) * delta;
    }
  }

  lemma StartsFit(plays: seq<Play>, wall: int, delta: real, n: nat)
    requires 0 < n <= |plays|
    requires forall k: nat | k < n :: HasRoom(plays, wall, k) && plays[k].took >= delta
    ensures Repeated(delta, n - 1) <= (wall - MinSlice - BankReserve) as real
  {
    ElapsedAtLeast(plays, delta, n - 1);
    assert HasRoom(plays, wall, n - 1);
  }

  /** Termination: a bound on the number of passes whose slices each take some positive time. */
  lemma FusionEnds(plays: seq<Play>, wall: int, delta: real, n: nat)
    requires 0 < n <= |plays| && delta > 0.0
    requires forall k: nat | k < n :: HasRoom(plays, wall, k) && plays[k].took >= delta
    ensures n as real <= 1.0 + (wall - MinSlice - BankReserve) as real / delta
  {
    StartsFit(plays, wall, delta, n);
    RepeatedIsProduct(delta, n - 1);
    AtMostQuotient((n - 1) as real, delta, (wall - MinSlice - BankReserve) as real);
  }

  // ---- cmd_slice -------------------------------------------------------------------------

  /** The choice of the resume step. */
  ghost predicate Resumes(tags: Tags, key: string, active: string, links: string -> Link, warm: bool, r: Resumed) {
    if warm then r == Warm else Chosen(OutcomesOf(tags, links), key, active, r)
  }

  /** What it leaves in out/. */
  ghost function OutFor(out: seq<Bytes>, linked: bool, tags: Tags, key: string, active: string, links: string -> Link,
                        warm: bool): seq<Bytes> {
    if warm then out else ResumeOut(out, linked, OutcomesOf(tags, links), key, active)
  }

  /** The first half of a slot: the purge, then the resume step, None when the machine dies. */
  method PurgeAndResume(forge: Forge, ws: Workspace, links: string -> Link, warm: bool)
    returns (f: Fate, resumed: Option<Resumed>)
    requires "" !in forge.store.tags
    modifies forge.store, ws
    ensures f != Raises && forge.store.Excused(old(forge.store.pos), old(forge.store.refusals), f)
    ensures (f == Works <==> resumed.Some?) && GcStep(old(forge.Now()), forge.Now())
    ensures resumed == None ==> ws.out == old(ws.out)
    ensures resumed.Some? ==>
      && forge.store.tags == Purged(old(forge.store.tags), forge.key, forge.index.stateTag)
      && Resumes(forge.store.tags, forge.key, forge.index.stateTag, links, warm, resumed.value)
      && ws.out == OutFor(old(ws.out), ws.linked, forge.store.tags, forge.key, forge.index.stateTag, links, warm)
  {
    resumed := None;
    f := Purge(forge);
    if f == Works {
      var r := Resume(forge, ws, links, warm);
      resumed := Some(r);
    }
  }

  /** Which slices a slot runs, and with what exit code it ends. */
  ghost predicate Ran(key: string, first: Record, now: Record, f: Fate, rc: int, force: bool, wall: nat, budget: int,
                      plays: seq<Play>, results: seq<SliceResult>) {
    var n := |results|;
    && n <= |plays|
    && if wall == 0 then
         f == Works ==> n == 1 && results == [plays[0].r] && rc == if now.last == Error then 1 else 0
       else
         results == Results(plays, wall, budget, n) && Looped(key, first, now, f, rc, force, plays, wall, budget, n)
  }

  /** The second half: one slice without a wall budget, the fusion loop with one. */
  method Work(forge: Forge, force: bool, wall: nat, budget: int, plays: seq<Play>)
    returns (f: Fate, rc: int, ghost results: seq<SliceResult>)
    requires ValidPlays(plays)
    modifies forge, forge.store
    ensures IsDispatch(results) && forge.index == Replay(forge.key, old(forge.index), results)
    ensures Ran(forge.key, old(forge.index), forge.index, f, rc, force, wall, budget, plays, results)
    ensures (f == Dies && |results| == |plays|) ||
            forge.store.Excused(old(forge.store.pos), old(forge.store.refusals), f)
    ensures AllHaveOut(plays) && old(Safe(forge.key, forge.Now())) ==> Safe(forge.key, forge.Now())
  {
    rc, results := 0, [];
    if wall != 0 {
      ghost var n;
      f, rc, n := Fusion(forge, wall, budget, force, plays);
      results := Results(plays, wall, budget, n);
      return;
    }
    if plays == [] {
      return Dies, 0, [];
    }
    assert plays[0] in plays;
    f, rc := SafeSlice(forge, plays[0].r, plays[0].p);
    if f == Works {
      results := [plays[0].r];
      assert results[..0] == [];
      LastOfSlice(forge.key, old(forge.index), plays[0].r);
    }
  }

  /** There is a safe record to resume from, over an honest network. */
  ghost predicate Restarts(forge: Forge, links: string -> Link)
    reads forge, forge.store
  {
    && Safe(forge.key, forge.Now()) && forge.index.slice > 0
    && links(forge.index.stateTag) == Link(Honest, true)
  }

  /** In a safe campaign, over an honest network, out/ starts as the archive on record. */
  lemma SafeOut(out: seq<Bytes>, w: World, key: string, links: string -> Link, r: Resumed)
    requires Safe(key, w) && w.rec.slice > 0 && links(w.rec.stateTag) == Link(Honest, true)
    requires Resumes(w.tags, key, w.rec.stateTag, links, false, r)
    ensures OutFor(out, false, w.tags, key, w.rec.stateTag, links, false) == [w.archive]
  {
    ResumesTheRecordedArchive(w, key, links, r);
    StateTagIsNotEmpty(key, w.rec.slice);
    var o := OutcomesOf(w.tags, links);
    assert Restorable(o, w.rec.stateTag);
  }

  /** A slot: refuse, or purge, resume, and then one slice (wall == 0) or the fusion loop. */
  method CmdSlice(forge: Forge, ws: Workspace, links: string -> Link, warm: bool, force: bool,
                  wall: nat, budget: int, plays: seq<Play>)
    returns (f: Fate, rc: int, ghost results: seq<SliceResult>, ghost tags: Tags, ghost resumed: Option<Resumed>)
    requires ValidPlays(plays) && "" !in forge.store.tags
    modifies forge, forge.store, ws
    ensures Guard(old(forge.index), force) == None || (f == Works && rc == Guard(old(forge.index), force).value)
    ensures Guard(old(forge.index), force) != None ==> forge.Now() == old(forge.Now()) && ws.out == old(ws.out)
    ensures IsDispatch(results) && forge.index == Replay(forge.key, old(forge.index), results)
    ensures AllHaveOut(plays) && old(Safe(forge.key, forge.Now())) ==> Safe(forge.key, forge.Now())
    ensures resumed.Some? ==>
      && tags == Purged(old(forge.store.tags), forge.key, old(forge.index).stateTag)
      && Resumes(tags, forge.key, old(forge.index).stateTag, links, warm, resumed.value)
      && ws.out == OutFor(old(ws.out), ws.linked, tags, forge.key, old(forge.index).stateTag, links, warm)
      && Ran(forge.key, old(forge.index), forge.index, f, rc, force, wall, budget, plays, results)
    ensures resumed == None ==>
      results == [] && ws.out == old(ws.out) && (Guard(old(forge.index), force) == None ==> f == Dies)
    ensures || f == Works || (f == Dies && |results| == |plays|)
            || forge.store.Excused(old(forge.store.pos), old(forge.store.refusals), f)
    ensures results != [] && warm ==> ws.out == old(ws.out)
    ensures results != [] && !warm && !ws.linked && old(Restarts(forge, links)) ==> ws.out == [old(forge.archive)]
  {
    rc, results, tags, resumed := 0, [], forge.store.tags, None;
    var guard := Guard(forge.index, force);
    if guard != None {
      return Works, guard.value, [], forge.store.tags, None;
    }
    ghost var w := forge.Now();
    f, resumed := PurgeAndResume(forge, ws, links, warm);
    tags := forge.store.tags;
    ghost var purged := forge.Now();
    if Safe(forge.key, w) {
      GcKeepsSafe(forge.key, w, purged);
      if resumed.Some? && !warm && !ws.linked && w.rec.slice > 0 && links(w.rec.stateTag) == Link(Honest, true) {
        SafeOut(old(ws.out), purged, forge.key, links, resumed.value);
      }
    }
    if f != Works {
      return;
    }
    f, rc, results := Work(forge, force, wall, budget, plays);
  }
}
