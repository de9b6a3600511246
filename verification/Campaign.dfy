/** The campaign's decisions: how a finished slice is classified, what is recorded of it in the
    INDEX, what the conveyor does next, and what cmd_slice and its fusion loop refuse. */
module Campaign {
  import opened Prelude
  import opened TagNames

  // ---- classification --------------------------------------------------------------------

  datatype Reason = NoReason | Budget | Disk | RootDisk | Memory

  /** `last_classification`; Unknown is any other string. */
  datatype Class = Cold | Done | Sliced | Capacity | MemStall | Error | NoBuilder | Unknown

  /** A finished engine run. `stops` are the `_graceful_stop` calls of the watchdog threads in
      the order they took effect; `zip` is what find_rom_zip returns. */
  datatype SliceResult = SliceResult(rc: int, stops: seq<Reason>, elapsed: real, budget: real, zip: Option<string>)

  /** Each `_graceful_stop` overwrites the shared reason. */
  function LastReason(stops: seq<Reason>): Reason {
    if stops == [] then NoReason else stops[|stops| - 1]
  }

  function ClassifyExit(rc: int, fired: bool, reason: Reason, elapsed: real, budget: real): Class {
    if rc == 0 then Done
    else
      var reason := if reason == NoReason && elapsed >= budget - 5.0 then Budget else reason;
      if fired || reason != NoReason then
        match reason
        case Disk => Capacity
        case Memory => MemStall
        case _ => Sliced
      else Error
  }

  /** dag.finalize_classification, applied by _run_single_slice to `done` only. */
  function Finalize(c: Class, zip: Option<string>): Class {
    if c == Done && zip == None then Error else c
  }

  function Classified(r: SliceResult): Class {
    Finalize(ClassifyExit(r.rc, r.stops != [], LastReason(r.stops), r.elapsed, r.budget), r.zip)
  }

  /** Which slice ends how. Every watchdog stop carries a reason other than NoReason. */
  lemma ClassifiedExactly(r: SliceResult)
    requires NoReason !in r.stops
    ensures Classified(r) == Done <==> r.rc == 0 && r.zip.Some?
    ensures Classified(r) == Capacity <==> r.rc != 0 && LastReason(r.stops) == Disk
    ensures Classified(r) == MemStall <==> r.rc != 0 && LastReason(r.stops) == Memory
    ensures Classified(r) == Error <==>
            (r.rc == 0 && r.zip == None) || (r.rc != 0 && r.stops == [] && r.elapsed < r.budget - 5.0)
    ensures Classified(r) in {Done, Capacity, MemStall, Error, Sliced}
  {
    assert r.stops != [] ==> LastReason(r.stops) in r.stops;
  }

  /** The stop that takes effect last decides, whatever came before it. */
  lemma LastStopDecides(r: SliceResult, stops: seq<Reason>, last: Reason)
    requires r.rc != 0 && last != NoReason
    ensures Classified(r.(stops := stops + [last])) ==
            if last == Disk then Capacity else if last == Memory then MemStall else Sliced
  {
  }

  /** Without any stop a failed build is an error, unless its budget was up. */
  lemma NoStopIsAnError(r: SliceResult)
    requires r.rc != 0 && r.stops == []
    ensures Classified(r) == if r.elapsed >= r.budget - 5.0 then Sliced else Error
  {
  }

  /** A disk stop is not always `capacity`: a budget or root-disk stop that takes effect before
      the process has exited overwrites the reason, and the slice counts as resumable. */
  lemma DiskStopCanBecomeSliced(r: SliceResult, before: seq<Reason>, after: seq<Reason>)
    requires r.rc != 0 && r.stops == before + [Disk] + after && NoReason !in r.stops
    ensures Classified(r) == Capacity <==> after == [] || after[|after| - 1] == Disk
    ensures Classified(r) == Sliced <==>
            after != [] && (after[|after| - 1] == Budget || after[|after| - 1] == RootDisk)
  {
    var last := r.stops[|r.stops| - 1];
    assert last in r.stops && last == if after == [] then Disk else after[|after| - 1];
    assert r.stops == r.stops[..|r.stops| - 1] + [last];
    LastStopDecides(r, r.stops[..|r.stops| - 1], last);
    assert r.(stops := r.stops[..|r.stops| - 1] + [last]) == r;
  }

  // ---- the INDEX record ------------------------------------------------------------------

  datatype Record = Record(
    slice: nat, stateTag: string, done: bool, romZip: Option<string>, last: Class, memRetries: nat)

  const Fresh := Record(0, "", false, None, Cold, 0)

  /** The target_update that ends _run_single_slice, on each of its three paths. */
  function AfterSlice(key: string, rec: Record, r: SliceResult): Record {
    var n := rec.slice + 1;
    var next := rec.(slice := n, stateTag := StateTag(key, n), last := Classified(r));
    match Classified(r)
    case Done => next.(done := true, romZip := r.zip)
    case Sliced => next.(done := false)
    case Capacity => next.(done := false)
    case MemStall => next.(memRetries := rec.memRetries + 1)
    case _ => next
  }

  /** What a slice leaves on record, field by field. An error or a memory stall does not unset
      `done`, which a forced slice may have found set. */
  lemma SliceIsRecorded(key: string, rec: Record, r: SliceResult)
    requires NoReason !in r.stops
    ensures var next := AfterSlice(key, rec, r);
      && next.slice == rec.slice + 1 && next.stateTag == "state-" + key + "-s" + Decimal(rec.slice + 1)
      && next.last == Classified(r)
      && (next.done <==> (r.rc == 0 && r.zip.Some?) || (rec.done && Classified(r) in {Error, MemStall}))
      && next.romZip == (if r.rc == 0 && r.zip.Some? then r.zip else rec.romZip)
      && next.memRetries ==
           rec.memRetries + if r.rc != 0 && r.stops != [] && r.stops[|r.stops| - 1] == Memory then 1 else 0
  {
    ClassifiedExactly(r);
  }

  // ---- dag.next_action -------------------------------------------------------------------

  datatype Phase = SlicePhase | VerifyPhase | FailPhase

  const MaxSlices := 24
  const MemStallRetries := 1

  function NextAction(rec: Record, maxSlices: nat): Phase {
    if rec.done then VerifyPhase
    else
      match rec.last
      case NoBuilder => SlicePhase
      case MemStall => if rec.memRetries < MemStallRetries then SlicePhase else FailPhase
      case Capacity => FailPhase
      case Error => FailPhase
      case Done => FailPhase
      case _ => if rec.slice >= maxSlices then FailPhase else SlicePhase
  }

  /** What cmd_slice answers before it touches anything, None when it goes on. */
  function Guard(rec: Record, force: bool): Option<int> {
    if force then None
    else if rec.done then Some(0)
    else if rec.last == Capacity then Some(1)
    else if rec.last == MemStall && rec.memRetries >= 1 then Some(1)
    else None
  }

  /** Which calls cmd_slice answers at once, and how: a finished campaign with success, a stop on
      capacity and a second memory stall with failure; a forced call never. */
  lemma GuardExactly(rec: Record, force: bool)
    ensures Guard(rec, force) == Some(0) <==> !force && rec.done
    ensures Guard(rec, force) == Some(1) <==>
            !force && !rec.done && (rec.last == Capacity || (rec.last == MemStall && rec.memRetries >= 1))
    ensures Guard(rec, force) == None <==>
            force || (!rec.done && rec.last != Capacity && !(rec.last == MemStall && rec.memRetries >= 1))
  {
  }

  /** What the conveyor does with any record. */
  lemma NextActionExactly(rec: Record, maxSlices: nat)
    ensures NextAction(rec, maxSlices) == VerifyPhase <==> rec.done
    ensures NextAction(rec, maxSlices) == SlicePhase <==>
            && !rec.done
            && (|| rec.last == NoBuilder || (rec.last == MemStall && rec.memRetries < 1)
                || (rec.last in {Cold, Sliced, Unknown} && rec.slice < maxSlices))
  {
  }

  // ---- what every unforced campaign keeps ------------------------------------------------

  /** Holds of a fresh record and of everything the slices write. */
  ghost predicate Written(key: string, rec: Record) {
    && (rec.slice == 0 <==> rec.last == Cold)
    && (rec.slice == 0 <==> rec.stateTag == "")
    && (rec.slice > 0 ==> rec.stateTag == StateTag(key, rec.slice))
    && (rec.done <==> rec.last == Done)
    && (rec.done ==> rec.romZip.Some?)
    && (rec.last == MemStall ==> rec.memRetries >= 1)
    && rec.last in {Cold, Done, Sliced, Capacity, MemStall, Error}
  }

  /** The build failed on its last stop, for budget or root disk, or on its budget alone. */
  predicate CutShort(r: SliceResult) {
    && r.rc != 0
    && if r.stops == [] then r.elapsed >= r.budget - 5.0 else r.stops[|r.stops| - 1] in {Budget, RootDisk}
  }

  lemma StateTagIsNotEmpty(key: string, n: nat)
    ensures StateTag(key, n) != ""
  {
    assert StateTag(key, n)[0] == 's';
  }

  /** One unforced slice: the invariant holds again, the slice number grows by one, and the
      conveyor goes on exactly when the slice was merely cut short and the cap is not reached.
      It verifies exactly when the build exited 0 and left a ROM zip. */
  lemma SliceDecision(key: string, rec: Record, r: SliceResult, maxSlices: nat)
    requires Written(key, rec) && Guard(rec, false) == None
    requires NoReason !in r.stops
    ensures var next := AfterSlice(key, rec, r);
      && Written(key, next) && next.slice == rec.slice + 1
      && (NextAction(next, maxSlices) == SlicePhase <==> Classified(r) == Sliced && next.slice < maxSlices)
      && (NextAction(next, maxSlices) == SlicePhase <==> CutShort(r) && rec.slice + 1 < maxSlices)
      && (NextAction(next, maxSlices) == VerifyPhase <==> r.rc == 0 && r.zip.Some?)
      && (next.done ==> next.romZip == r.zip)
  {
    ClassifiedExactly(r);
    StateTagIsNotEmpty(key, rec.slice + 1);
  }

  /** The conveyor's "one re-dispatch" for a memory stall never happens: the slice that records
      the stall has already counted it. */
  lemma MemStallIsNeverRedispatched(key: string, rec: Record, r: SliceResult, maxSlices: nat)
    requires Classified(r) == MemStall && !rec.done
    ensures NextAction(AfterSlice(key, rec, r), maxSlices) == FailPhase
    ensures Guard(AfterSlice(key, rec, r), false) == Some(1)
  {
  }

  /** Done, capacity and memory stall are absorbing for cmd_slice as for the conveyor; an error
      is absorbing for the conveyor only. */
  lemma Absorbing(key: string, rec: Record, maxSlices: nat)
    requires Written(key, rec)
    ensures Guard(rec, false) != None <==> rec.last in {Done, Capacity, MemStall}
    ensures Guard(rec, false) != None ==> NextAction(rec, maxSlices) != SlicePhase
    ensures rec.last == Error ==> NextAction(rec, maxSlices) == FailPhase && Guard(rec, false) == None
  {
  }

  // ---- several slices --------------------------------------------------------------------

  /** The record after these slices. */
  function Replay(key: string, rec: Record, results: seq<SliceResult>): Record {
    if results == [] then rec
    else AfterSlice(key, Replay(key, rec, results[..|results| - 1]), results[|results| - 1])
  }

  /** What one unforced dispatch may do to the record: slices that were cut short, and then a
      last one that ended in any way. */
  ghost predicate IsDispatch(results: seq<SliceResult>) {
    && (forall i | 0 <= i < |results| - 1 :: Classified(results[i]) == Sliced)
    && (forall r | r in results :: NoReason !in r.stops)
  }

  lemma {:induction false} DispatchKeeps(key: string, rec: Record, results: seq<SliceResult>)
    requires Written(key, rec) && Guard(rec, false) == None && IsDispatch(results)
    ensures Written(key, Replay(key, rec, results))
    ensures Replay(key, rec, results).slice == rec.slice + |results|
    ensures results != [] ==> Replay(key, rec, results).last == Classified(results[|results| - 1])
  {
    if results != [] {
      var front := results[..|results| - 1];
      DispatchKeeps(key, rec, front);
      SliceDecision(key, Replay(key, rec, front), results[|results| - 1], MaxSlices);
    }
  }

  /** The conveyor's records, each dispatch writing the INDEX at least once. */
  ghost predicate IsCampaign(key: string, records: seq<Record>, dispatches: seq<seq<SliceResult>>) {
    && |records| == |dispatches| + 1
    && Written(key, records[0])
    && (forall i | 0 <= i < |dispatches| ::
          && NextAction(records[i], MaxSlices) == SlicePhase
          && dispatches[i] != [] && IsDispatch(dispatches[i])
          && records[i + 1] == Replay(key, records[i], dispatches[i]))
  }

  lemma {:induction false} CampaignKeeps(key: string, records: seq<Record>, dispatches: seq<seq<SliceResult>>)
    requires IsCampaign(key, records, dispatches)
    ensures Written(key, records[|dispatches|])
    ensures records[|dispatches|].slice >= records[0].slice + |dispatches|
  {
    if dispatches != [] {
      var last := |dispatches| - 1;
      CampaignKeeps(key, records[..last + 1], dispatches[..last]);
      Absorbing(key, records[last], MaxSlices);
      DispatchKeeps(key, records[last], dispatches[last]);
    }
  }

  /** Termination: at most MaxSlices dispatches, less the slices already banked, before the
      campaign verifies or fails; and it verifies only with a ROM zip on record. */
  lemma CampaignEnds(key: string, records: seq<Record>, dispatches: seq<seq<SliceResult>>)
    requires IsCampaign(key, records, dispatches)
    ensures dispatches != [] ==> |dispatches| <= MaxSlices - records[0].slice
    ensures |dispatches| >= MaxSlices - records[0].slice ==> NextAction(records[|dispatches|], MaxSlices) != SlicePhase
    ensures NextAction(records[|dispatches|], MaxSlices) == VerifyPhase ==> records[|dispatches|].romZip.Some?
  {
    CampaignKeeps(key, records, dispatches);
    if dispatches != [] {
      var last := |dispatches| - 1;
      CampaignKeeps(key, records[..last + 1], dispatches[..last]);
    }
  }
}
