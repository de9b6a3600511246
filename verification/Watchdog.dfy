/** engine.memory_watchdog: one pass over the samples with three timers and a sliding window,
    against what the samples seen so far say about memory pressure. */
module Watchdog {
  import opened Prelude

  /** /proc/meminfo in kB, and the clock when it was read. */
  datatype Mem = Mem(at: real, swapTotal: int, swapFree: int, total: int, available: int)

  /** One poll: reading meminfo raised; or the PSI average if there is one, meminfo if all four
      fields were found, and the clock. */
  datatype Reading = Skipped | Sample(psi: Option<real>, mem: Option<Mem>, now: real)

  datatype Point = Point(at: real, used: int)

  datatype Verdict = Rise | Fall | Ignore

  function TimeOf(r: Reading): real {
    if r.Skipped? then 0.0 else r.now
  }

  /** The clock runs forward and is past the epoch. */
  ghost predicate Clocked(rs: seq<Reading>) {
    && (forall i | 0 <= i < |rs| && rs[i].Sample? ::
          rs[i].now > 0.0 && (rs[i].mem.Some? ==> 0.0 < rs[i].mem.value.at <= rs[i].now))
    && (forall i, j | 0 <= i < j < |rs| && rs[i].Sample? && rs[j].Sample? ::
          rs[i].now <= rs[j].now && (rs[j].mem.Some? ==> rs[i].now <= rs[j].mem.value.at))
  }

  // ---- what one sample says --------------------------------------------------------------

  function Used(m: Mem): int {
    m.swapTotal - m.swapFree
  }

  /** `part / max(1, whole) * 100.0 > pct` */
  predicate Over(part: int, whole: int, pct: int) {
    100 * part > pct * Max(1, whole)
  }

  lemma OverIsPercentage(part: int, whole: int, pct: int)
    ensures Over(part, whole, pct) <==> part as real / Max(1, whole) as real * 100.0 > pct as real
  {
    var w := Max(1, whole) as real;
    assert part as real / w * w == part as real;
    assert 100.0 * part as real > pct as real * w <==> part as real / w * 100.0 > pct as real;
  }

  /** Swap grew by `grown` kB in dt seconds: faster than 1 MiB/s, and the `left` kB last for
      less than six minutes. */
  predicate Saturates(grown: int, dt: real, left: int) {
    grown as real > 1024.0 * dt && left as real * dt < 360.0 * grown as real
  }

  lemma SaturatesIsExtrapolation(grown: int, dt: real, left: int)
    requires dt >= 30.0
    ensures var rate := grown as real / dt;
      Saturates(grown, dt, left) <==> rate > 1024.0 && left as real / rate < 360.0
  {
    var rate := grown as real / dt;
    assert rate * dt == grown as real;
    if rate > 1024.0 {
      var eta := left as real / rate;
      assert eta * rate == left as real;
      assert left as real * dt == eta * grown as real;
      assert eta < 360.0 <==> eta * grown as real < 360.0 * grown as real;
    }
  }

  /** (a) the PSI knee. */
  function Knee(r: Reading): Verdict {
    if r.Skipped? then Ignore else if r.psi.Some? && r.psi.value > 40.0 then Rise else Fall
  }

  predicate NearlyFull(m: Mem) {
    Over(Used(m), m.swapTotal, 80) && Over(m.total - m.available, m.total, 90)
  }

  /** (b) near-saturation; a missing field counts as 0%. */
  function Saturation(r: Reading): Verdict {
    if r.Skipped? then Ignore
    else if r.mem.Some? && NearlyFull(r.mem.value) then Rise
    else Fall
  }

  /** (c) swap fills up within six minutes at the rate of the last minute's window. */
  function Filling(r: Reading, window: seq<Point>): Verdict {
    if r.Skipped? || r.mem.None? || |window| < 10 || r.mem.value.swapTotal <= 0 then Ignore
    else
      var last := window[|window| - 1].used;
      var dt := r.now - window[0].at;
      if dt < 30.0 then Ignore
      else if Saturates(Max(0, last - window[0].used), dt, r.mem.value.swapTotal - last) then Rise
      else Fall
  }

  /** The conditions of the three triggers on one sample: a PSI average over 40; swap over 80% and
      RAM over 90%, a missing field counting as 0%; and, with ten points that span thirty seconds,
      a fill rate over 1 MiB/s that saturates swap within six minutes. A skipped sample says
      nothing. */
  lemma VerdictsExactly(r: Reading, window: seq<Point>)
    ensures r.Skipped? ==> Knee(r) == Saturation(r) == Filling(r, window) == Ignore
    ensures r.Sample? ==>
      && Knee(r) == (if r.psi.Some? && r.psi.value > 40.0 then Rise else Fall)
      && (r.mem.None? ==> Saturation(r) == Fall && Filling(r, window) == Ignore)
    ensures r.Sample? && r.mem.Some? ==>
      var m := r.mem.value;
      Saturation(r) ==
        if && (m.swapTotal - m.swapFree) as real / Max(1, m.swapTotal) as real * 100.0 > 80.0
           && (m.total - m.available) as real / Max(1, m.total) as real * 100.0 > 90.0
        then Rise else Fall
  {
    if r.Sample? && r.mem.Some? {
      var m := r.mem.value;
      OverIsPercentage(m.swapTotal - m.swapFree, m.swapTotal, 80);
      OverIsPercentage(m.total - m.available, m.total, 90);
    }
  }

  lemma FillingExactly(r: Reading, window: seq<Point>)
    requires r.Sample? && r.mem.Some?
    ensures Filling(r, window) == Ignore <==>
            |window| < 10 || r.mem.value.swapTotal <= 0 || r.now - window[0].at < 30.0
    ensures Filling(r, window) != Ignore ==>
      var u := window[|window| - 1].used;
      var rate := Max(0, u - window[0].used) as real / (r.now - window[0].at);
      Filling(r, window) ==
        if rate > 1024.0 && (r.mem.value.swapTotal - u) as real / rate < 360.0 then Rise else Fall
  {
    if Filling(r, window) != Ignore {
      var u := window[|window| - 1].used;
      SaturatesIsExtrapolation(Max(0, u - window[0].used), r.now - window[0].at, r.mem.value.swapTotal - u);
    }
  }

  // ---- what the history says -------------------------------------------------------------

  /** The points appended by these samples. */
  function Points(rs: seq<Reading>): seq<Point> {
    if rs == [] then []
    else
      var r := rs[|rs| - 1];
      Points(rs[..|rs| - 1]) + if r.Sample? && r.mem.Some? then [Point(r.mem.value.at, Used(r.mem.value))] else []
  }

  function Within(ps: seq<Point>, now: real): seq<Point> {
    if ps == [] then []
    else
      var rest := Within(ps[..|ps| - 1], now);
      if now - ps[|ps| - 1].at <= 60.0 then rest + [ps[|ps| - 1]] else rest
  }

  /** The points of the last 60 seconds before the latest point. */
  function Window(rs: seq<Reading>): seq<Point> {
    var ps := Points(rs);
    if ps == [] then [] else Within(ps, ps[|ps| - 1].at)
  }

  function Times(rs: seq<Reading>): seq<real> {
    seq(|rs|, i requires 0 <= i < |rs| => TimeOf(rs[i]))
  }

  function KneeHistory(rs: seq<Reading>): seq<Verdict> {
    seq(|rs|, i requires 0 <= i < |rs| => Knee(rs[i]))
  }

  function SaturationHistory(rs: seq<Reading>): seq<Verdict> {
    seq(|rs|, i requires 0 <= i < |rs| => Saturation(rs[i]))
  }

  function FillingHistory(rs: seq<Reading>): seq<Verdict> {
    seq(|rs|, i requires 0 <= i < |rs| => Filling(rs[i], Window(rs[..i + 1])))
  }

  /** The condition rose at sample j and has not fallen since. */
  ghost predicate HeldFrom(vs: seq<Verdict>, j: int) {
    0 <= j < |vs| && vs[j] == Rise && forall k | j <= k < |vs| :: vs[k] != Fall
  }

  /** It holds at the last sample, and has held since one that is `span` or more older. */
  ghost predicate HeldFor(vs: seq<Verdict>, ts: seq<real>, span: real)
    requires |vs| == |ts|
  {
    vs != [] && vs[|vs| - 1] == Rise && exists j | HeldFrom(vs, j) :: ts[|ts| - 1] - ts[j] >= span
  }

  ghost predicate HeldLonger(vs: seq<Verdict>, ts: seq<real>, span: real)
    requires |vs| == |ts|
  {
    vs != [] && vs[|vs| - 1] == Rise && exists j | HeldFrom(vs, j) :: ts[|ts| - 1] - ts[j] > span
  }

  datatype Cause = PsiKnee | NearSaturation | FillRate

  /** Which trigger the last of these samples pulls. */
  ghost function Trigger(rs: seq<Reading>): Option<Cause> {
    if HeldLonger(KneeHistory(rs), Times(rs), 90.0) then Some(PsiKnee)
    else if HeldLonger(SaturationHistory(rs), Times(rs), 60.0) then Some(NearSaturation)
    else if HeldFor(FillingHistory(rs), Times(rs), 4.0) then Some(FillRate)
    else None
  }

  // ---- timers ----------------------------------------------------------------------------

  /** `since = since or now` on a rise (0.0 counts as unset), None on a fall. */
  function Tick(since: Option<real>, v: Verdict, now: real): Option<real> {
    match v
    case Rise => if since.Some? && since.value != 0.0 then since else Some(now)
    case Fall => None
    case Ignore => since
  }

  function Timer(vs: seq<Verdict>, ts: seq<real>): Option<real>
    requires |vs| == |ts|
  {
    if vs == [] then None
    else Tick(Timer(vs[..|vs| - 1], ts[..|ts| - 1]), vs[|vs| - 1], ts[|ts| - 1])
  }

  ghost predicate Ascending(vs: seq<Verdict>, ts: seq<real>)
    requires |vs| == |ts|
  {
    && (forall i | 0 <= i < |vs| && vs[i] == Rise :: ts[i] > 0.0)
    && (forall i, j | 0 <= i < j < |vs| && vs[i] == Rise && vs[j] == Rise :: ts[i] <= ts[j])
  }

  /** A timer stands at the first sample since which the condition has held. */
  lemma {:induction false} TimerIsFirst(vs: seq<Verdict>, ts: seq<real>)
    requires |vs| == |ts| && Ascending(vs, ts)
    ensures Timer(vs, ts) == None <==> forall j :: !HeldFrom(vs, j)
    ensures Timer(vs, ts).Some? ==> exists j :: HeldFrom(vs, j) && ts[j] == Timer(vs, ts).value
    ensures forall j | HeldFrom(vs, j) :: Timer(vs, ts).Some? && 0.0 < Timer(vs, ts).value <= ts[j]
  {
    if vs != [] {
      var n := |vs| - 1;
      var front, before := vs[..n], ts[..n];
      TimerIsFirst(front, before);
      assert forall j | 0 <= j < n :: vs[n] != Fall ==> (HeldFrom(front, j) <==> HeldFrom(vs, j)) by {
        assert forall k | 0 <= k < n :: front[k] == vs[k];
      }
      assert vs[n] == Rise <==> HeldFrom(vs, n);
      if vs[n] == Rise && Timer(front, before).None? {
        assert HeldFrom(vs, n) && ts[n] == Timer(vs, ts).value;
      }
    }
  }

  lemma TimerDecides(vs: seq<Verdict>, ts: seq<real>, span: real)
    requires |vs| == |ts| && vs != [] && Ascending(vs, ts)
    ensures var since := Timer(vs, ts);
      && (HeldLonger(vs, ts, span) <==> vs[|vs| - 1] == Rise && since.Some? && ts[|ts| - 1] - since.value > span)
      && (HeldFor(vs, ts, span) <==> vs[|vs| - 1] == Rise && since.Some? && ts[|ts| - 1] - since.value >= span)
  {
    TimerIsFirst(vs, ts);
    if vs[|vs| - 1] == Rise {
      assert HeldFrom(vs, |vs| - 1);
    }
  }

  lemma RisesAscend(rs: seq<Reading>, vs: seq<Verdict>)
    requires Clocked(rs) && |vs| == |rs|
    requires forall i | 0 <= i < |vs| && vs[i] == Rise :: rs[i].Sample?
    ensures Ascending(vs, Times(rs))
  {
  }

  lemma HistoriesAscend(rs: seq<Reading>)
    requires Clocked(rs)
    ensures Ascending(KneeHistory(rs), Times(rs))
    ensures Ascending(SaturationHistory(rs), Times(rs))
    ensures Ascending(FillingHistory(rs), Times(rs))
  {
    RisesAscend(rs, KneeHistory(rs));
    RisesAscend(rs, SaturationHistory(rs));
    forall i | 0 <= i < |rs| && FillingHistory(rs)[i] == Rise
      ensures rs[i].Sample?
    {
      assert FillingHistory(rs)[i] == Filling(rs[i], Window(rs[..i + 1]));
    }
    RisesAscend(rs, FillingHistory(rs));
  }

  // ---- the window ------------------------------------------------------------------------

  lemma {:induction false} WithinTwice(ps: seq<Point>, now: real, later: real)
    requires now <= later
    ensures Within(Within(ps, now), later) == Within(ps, later)
  {
    if ps != [] {
      var front := ps[..|ps| - 1];
      WithinTwice(front, now, later);
      var kept := Within(front, now);
      assert (kept + [ps[|ps| - 1]])[..|kept|] == kept;
    }
  }

  lemma {:induction false} WithinExactly(ps: seq<Point>, now: real, p: Point)
    ensures p in Within(ps, now) <==> p in ps && now - p.at <= 60.0
  {
    if ps != [] {
      WithinExactly(ps[..|ps| - 1], now, p);
      assert ps == ps[..|ps| - 1] + [ps[|ps| - 1]];
    }
  }

  lemma WithinSnoc(ps: seq<Point>, p: Point, now: real)
    ensures Within(ps + [p], now) == if now - p.at <= 60.0 then Within(ps, now) + [p] else Within(ps, now)
  {
    assert (ps + [p])[..|ps|] == ps;
  }

  lemma {:induction false} PointsAreOlder(rs: seq<Reading>, at: real)
    requires Clocked(rs) && forall i | 0 <= i < |rs| && rs[i].Sample? :: rs[i].now <= at
    ensures forall p | p in Points(rs) :: p.at <= at
  {
    if rs != [] {
      PointsAreOlder(rs[..|rs| - 1], at);
    }
  }

  /** Dropping past points at each append keeps exactly the points of the last 60 seconds. */
  lemma WindowStep(rs: seq<Reading>, n: nat)
    requires n < |rs| && Clocked(rs)
    ensures var r := rs[n];
      Window(rs[..n + 1]) ==
        if r.Sample? && r.mem.Some?
        then Within(Window(rs[..n]) + [Point(r.mem.value.at, Used(r.mem.value))], r.mem.value.at)
        else Window(rs[..n])
  {
    var r, past, now := rs[n], rs[..n], rs[..n + 1];
    assert now[..n] == past && now[n] == r && |now| == n + 1;
    assert Clocked(past);
    if !(r.Sample? && r.mem.Some?) {
      assert Points(now) == Points(past);
    } else {
      var at := r.mem.value.at;
      var ps, p := Points(past), Point(at, Used(r.mem.value));
      PointsAreOlder(past, at);
      if ps != [] {
        WithinTwice(ps, ps[|ps| - 1].at, at);
      }
      WithinSnoc(ps, p, at);
      WithinSnoc(Window(past), p, at);
    }
  }

  // ---- the loop --------------------------------------------------------------------------

  lemma HistoryStep(rs: seq<Reading>, n: nat)
    requires n < |rs|
    ensures var now, past := rs[..n + 1], rs[..n];
      && KneeHistory(now)[..n] == KneeHistory(past)
      && SaturationHistory(now)[..n] == SaturationHistory(past)
      && FillingHistory(now)[..n] == FillingHistory(past)
      && Times(now)[..n] == Times(past)
  {
    var now, past := rs[..n + 1], rs[..n];
    forall i | 0 <= i < n
      ensures FillingHistory(now)[i] == FillingHistory(past)[i]
    {
      assert now[..i + 1] == past[..i + 1];
    }
  }

  /** The loop's variables. */
  datatype Vars = Vars(psiSince: Option<real>, satSince: Option<real>, etaSince: Option<real>, swapHist: seq<Point>)

  /** What they are after these samples. */
  function Tracked(rs: seq<Reading>): Vars {
    Vars(Timer(KneeHistory(rs), Times(rs)), Timer(SaturationHistory(rs), Times(rs)),
         Timer(FillingHistory(rs), Times(rs)), Window(rs))
  }

  function Appended(hist: seq<Point>, r: Reading): seq<Point> {
    if r.Sample? && r.mem.Some?
    then Within(hist + [Point(r.mem.value.at, Used(r.mem.value))], r.mem.value.at)
    else hist
  }

  lemma TimerStep(vs: seq<Verdict>, past: seq<Verdict>, ts: seq<real>, before: seq<real>)
    requires |vs| == |ts| == |past| + 1 == |before| + 1
    requires vs[..|past|] == past && ts[..|past|] == before
    ensures Timer(vs, ts) == Tick(Timer(past, before), vs[|past|], ts[|past|])
  {
  }

  /** One pass over a sample. */
  function Stepped(v: Vars, r: Reading): Vars {
    var hist := Appended(v.swapHist, r);
    Vars(Tick(v.psiSince, Knee(r), TimeOf(r)), Tick(v.satSince, Saturation(r), TimeOf(r)),
         Tick(v.etaSince, Filling(r, hist), TimeOf(r)), hist)
  }

  function TrackedAt(rs: seq<Reading>, n: nat): Vars
    requires n <= |rs|
  {
    Tracked(rs[..n])
  }

  ghost function TriggerAt(rs: seq<Reading>, n: nat): Option<Cause>
    requires n < |rs|
  {
    Trigger(rs[..n + 1])
  }

  /** One more sample moves each variable by one step. */
  lemma TrackStep(rs: seq<Reading>, n: nat)
    requires n < |rs| && Clocked(rs)
    ensures TrackedAt(rs, n + 1) == Stepped(TrackedAt(rs, n), rs[n])
  {
    HistoryStep(rs, n);
    WindowStep(rs, n);
    var now, past := rs[..n + 1], rs[..n];
    assert now[..n + 1] == now;
    TimerStep(KneeHistory(now), KneeHistory(past), Times(now), Times(past));
    TimerStep(SaturationHistory(now), SaturationHistory(past), Times(now), Times(past));
    TimerStep(FillingHistory(now), FillingHistory(past), Times(now), Times(past));
  }

  predicate Overdue(v: Verdict, since: Option<real>, now: real, span: real) {
    v == Rise && since.Some? && now - since.value > span
  }

  /** The trigger a sample pulls, from the variables after it. */
  function Fired(r: Reading, v: Vars): Option<Cause> {
    var now := TimeOf(r);
    if Overdue(Knee(r), v.psiSince, now, 90.0) then Some(PsiKnee)
    else if Overdue(Saturation(r), v.satSince, now, 60.0) then Some(NearSaturation)
    else if Filling(r, v.swapHist) == Rise && v.etaSince.Some? && now - v.etaSince.value >= 4.0 then Some(FillRate)
    else None
  }

  lemma LastSimpleVerdicts(rs: seq<Reading>)
    requires rs != []
    ensures KneeHistory(rs)[|rs| - 1] == Knee(rs[|rs| - 1])
    ensures SaturationHistory(rs)[|rs| - 1] == Saturation(rs[|rs| - 1])
    ensures Times(rs)[|rs| - 1] == TimeOf(rs[|rs| - 1])
  {
  }

  lemma LastFilling(rs: seq<Reading>)
    requires rs != []
    ensures FillingHistory(rs)[|rs| - 1] == Filling(rs[|rs| - 1], Window(rs))
  {
    var n := |rs| - 1;
    assert rs[..n + 1] == rs;
    assert FillingHistory(rs)[n] == Filling(rs[n], Window(rs[..n + 1]));
  }

  lemma KneeFires(rs: seq<Reading>)
    requires Clocked(rs) && rs != []
    ensures var r := rs[|rs| - 1];
      HeldLonger(KneeHistory(rs), Times(rs), 90.0) <==> Overdue(Knee(r), Tracked(rs).psiSince, TimeOf(r), 90.0)
  {
    HistoriesAscend(rs);
    LastSimpleVerdicts(rs);
    TimerDecides(KneeHistory(rs), Times(rs), 90.0);
  }

  lemma SaturationFires(rs: seq<Reading>)
    requires Clocked(rs) && rs != []
    ensures var r := rs[|rs| - 1];
      HeldLonger(SaturationHistory(rs), Times(rs), 60.0) <==>
        Overdue(Saturation(r), Tracked(rs).satSince, TimeOf(r), 60.0)
  {
    HistoriesAscend(rs);
    LastSimpleVerdicts(rs);
    TimerDecides(SaturationHistory(rs), Times(rs), 60.0);
  }

  lemma FillingFires(rs: seq<Reading>)
    requires Clocked(rs) && rs != []
    ensures var r, since := rs[|rs| - 1], Tracked(rs).etaSince;
      HeldFor(FillingHistory(rs), Times(rs), 4.0) <==>
        Filling(r, Window(rs)) == Rise && since.Some? && TimeOf(r) - since.value >= 4.0
  {
    HistoriesAscend(rs);
    LastSimpleVerdicts(rs);
    LastFilling(rs);
    TimerDecides(FillingHistory(rs), Times(rs), 4.0);
  }

  lemma FiredIsTrigger(rs: seq<Reading>, n: nat)
    requires n < |rs| && Clocked(rs)
    ensures TriggerAt(rs, n) == Fired(rs[n], TrackedAt(rs, n + 1))
  {
    var now := rs[..n + 1];
    KneeFires(now);
    SaturationFires(now);
    FillingFires(now);
  }

  /** The body of the loop: the three triggers in turn, the first to fire ending it. */
  method Poll(v: Vars, r: Reading) returns (next: Vars, cause: Option<Cause>)
    ensures cause == Fired(r, Stepped(v, r))
    ensures cause == None ==> next == Stepped(v, r)
  {
    next, cause := v, None;
    if r.Skipped? {
      return;
    }
    var now := r.now;
    next := next.(swapHist := Appended(v.swapHist, r), psiSince := Tick(v.psiSince, Knee(r), now));
    if Overdue(Knee(r), next.psiSince, now, 90.0) {
      return next, Some(PsiKnee);
    }
    next := next.(satSince := Tick(v.satSince, Saturation(r), now));
    if Overdue(Saturation(r), next.satSince, now, 60.0) {
      return next, Some(NearSaturation);
    }
    var fill := Filling(r, next.swapHist);
    next := next.(etaSince := Tick(v.etaSince, fill, now));
    if fill == Rise && now - next.etaSince.value >= 4.0 {
      return next, Some(FillRate);
    }
  }

  /** None of the first n samples pulls a trigger. */
  ghost predicate Quiet(rs: seq<Reading>, n: nat)
    requires n <= |rs|
  {
    forall k: nat | k < n :: TriggerAt(rs, k) == None
  }

  ghost predicate FiresFirst(rs: seq<Reading>, n: nat, cause: Cause)
    requires n < |rs|
  {
    TriggerAt(rs, n) == Some(cause) && Quiet(rs, n)
  }

  /** One pass of the loop over the n-th sample. */
  method PollAt(rs: seq<Reading>, n: nat, v: Vars) returns (next: Vars, cause: Option<Cause>)
    requires Clocked(rs) && n < |rs| && v == TrackedAt(rs, n) && Quiet(rs, n)
    ensures cause == None ==> next == TrackedAt(rs, n + 1) && Quiet(rs, n + 1)
    ensures cause.Some? ==> FiresFirst(rs, n, cause.value)
  {
    TrackStep(rs, n);
    FiredIsTrigger(rs, n);
    next, cause := Poll(v, rs[n]);
  }

  /** The watchdog stops at the first sample that pulls a trigger, and at no other; None is a
      build that ended first. */
  method MemoryWatchdog(rs: seq<Reading>) returns (fired: Option<(nat, Cause)>)
    requires Clocked(rs)
    ensures match fired
      case None => Quiet(rs, |rs|)
      case Some((i, cause)) => i < |rs| && FiresFirst(rs, i, cause)
  {
    var v := Vars(None, None, None, []);
    var i: nat := 0;
    while i < |rs|
      invariant i <= |rs|
      invariant v == TrackedAt(rs, i) && Quiet(rs, i)
    {
      var cause;
      v, cause := PollAt(rs, i, v);
      if cause.Some? {
        return Some((i, cause.value));
      }
      i := i + 1;
    }
    fired := None;
  }
}
