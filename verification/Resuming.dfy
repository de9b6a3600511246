/** The resume step of cli.cmd_slice: the recorded bank, else a scan of the other slice banks, and
    what each leaves in out/. */
module Resuming {
  import opened Prelude
  import opened Store
  import opened TagNames
  import opened Banks
  import opened Restoring
  import opened Campaign
  import opened Cli
  import H = History
  import Gc

  /** How a restore of one tag would go: its downloads, and whether tar then exits with 0. */
  datatype Link = Link(net: Net, extracted: bool)

  /** What an attempt to restore a bank does to out/: nothing, as it is refused; emptying it; or a
      stream into it, with success if it is `good`. */
  datatype Outcome = Untouched | Emptied | Streamed(fed: Bytes, good: bool)

  type Outcomes = map<string, Outcome>

  ghost function OutcomeOf(assets: Assets, link: Link): Outcome {
    match AttemptOn(assets, link.net)
    case Refused => Untouched
    case NothingListed => Emptied
    case Unpacking(c) => Streamed(Fed(c), AllSound(c) && link.extracted)
  }

  /** The outcome for every tag of a store. */
  ghost function OutcomesOf(tags: Tags, links: string -> Link): (o: Outcomes)
    ensures o.Keys == tags.Keys
  {
    map t | t in tags :: OutcomeOf(tags[t], links(t))
  }

  ghost predicate Describes(o: Outcomes, tags: Tags, links: string -> Link) {
    && o.Keys == tags.Keys
    && forall t {:trigger OutcomeOf(tags[t], links(t))} | t in tags :: o[t] == OutcomeOf(tags[t], links(t))
  }

  ghost predicate Restorable(o: Outcomes, t: string) {
    t in o && o[t].Streamed? && o[t].good
  }

  ghost function FedFrom(o: Outcomes, t: string): Bytes
    requires Restorable(o, t)
  {
    o[t].fed
  }

  function Applied(out: seq<Bytes>, linked: bool, outcome: Outcome): seq<Bytes> {
    var base := if linked then out else [];
    match outcome
    case Untouched => out
    case Emptied => base
    case Streamed(fed, _) => base + [fed]
  }

  /** out/ after an attempt to restore this tag. */
  function OutAfter(out: seq<Bytes>, linked: bool, o: Outcomes, t: string): seq<Bytes> {
    if t in o then Applied(out, linked, o[t]) else out
  }

  datatype Resumed = Warm | From(tag: string) | ColdStart

  /** A tag the fallback scan looks at. */
  predicate IsCandidate(o: Outcomes, key: string, active: string, t: string) {
    t in o && StartsWith(t, SlicePrefix(key)) && t != active
  }

  /** What the resume step chooses: the recorded bank if it restores; otherwise the last
      candidate, in the order of the names, that restores; otherwise nothing. */
  ghost predicate Chosen(o: Outcomes, key: string, active: string, r: Resumed) {
    match r
    case Warm => false
    case From(t) =>
      && Restorable(o, t)
      && (t == active
          || (!Restorable(o, active) && IsCandidate(o, key, active, t)
              && forall u | IsCandidate(o, key, active, u) && Before(t, u) :: !Restorable(o, u)))
    case ColdStart =>
      && (active != "" ==> !Restorable(o, active))
      && forall u | IsCandidate(o, key, active, u) :: !Restorable(o, u)
  }

  /** relay.restore of one tag. */
  method TryRestore(ws: Workspace, store: FsStore, tag: string, link: Link) returns (ok: bool, ghost outcome: Outcome)
    modifies ws
    ensures outcome == if tag in store.tags then OutcomeOf(store.tags[tag], link) else Untouched
    ensures ok <==> outcome.Streamed? && outcome.good
    ensures ws.out == Applied(old(ws.out), ws.linked, outcome)
  {
    outcome := if tag in store.tags then OutcomeOf(store.tags[tag], link) else Untouched;
    ok := Restore(ws, store, tag, link.net, link.extracted);
  }

  /** One bank of the scan: without a verdict it is skipped, any other is tried. */
  method ScanOne(ws: Workspace, store: FsStore, tag: string, link: Link) returns (ok: bool, ghost outcome: Outcome)
    requires tag in store.tags
    modifies ws
    ensures outcome == OutcomeOf(store.tags[tag], link)
    ensures ok <==> outcome.Streamed? && outcome.good
    ensures ws.out == Applied(old(ws.out), ws.linked, outcome)
  {
    if Judge(store.tags[tag], link.net) == None {
      return false, OutcomeOf(store.tags[tag], link);
    }
    ok, outcome := TryRestore(ws, store, tag, link);
  }

  /** None of these names from the i-th on is a bank that restores, but perhaps the active one. */
  ghost predicate NoneFrom(o: Outcomes, active: string, names: seq<string>, i: nat) {
    forall j | i <= j < |names| && names[j] != active :: !Restorable(o, names[j])
  }

  ghost predicate ListsSlices(o: Outcomes, key: string, names: seq<string>) {
    Increasing(names) && forall t :: t in names <==> t in o && StartsWith(t, SlicePrefix(key))
  }

  lemma NoneAtAll(o: Outcomes, key: string, active: string, names: seq<string>)
    requires ListsSlices(o, key, names) && NoneFrom(o, active, names, 0)
    ensures forall u | IsCandidate(o, key, active, u) :: !Restorable(o, u)
  {
    forall u | IsCandidate(o, key, active, u)
      ensures !Restorable(o, u)
    {
      assert u in names;
    }
  }

  lemma NoneAfter(o: Outcomes, key: string, active: string, names: seq<string>, i: nat)
    requires i < |names| && ListsSlices(o, key, names) && NoneFrom(o, active, names, i + 1)
    ensures forall u | IsCandidate(o, key, active, u) && Before(names[i], u) :: !Restorable(o, u)
  {
    forall u | IsCandidate(o, key, active, u) && Before(names[i], u)
      ensures !Restorable(o, u)
    {
      assert u in names;
      var j :| 0 <= j < |names| && names[j] == u;
      BeforeIrreflexive(u);
      if j < i {
        BeforeTransitive(names[i], names[j], names[i]);
        BeforeIrreflexive(names[i]);
      }
    }
  }

  /** out/ after the scan has gone through the first i of these names, last one first. */
  ghost function ScanOut(out: seq<Bytes>, linked: bool, o: Outcomes, active: string,
                         names: seq<string>, i: nat): seq<Bytes>
    requires i <= |names|
    decreases i
  {
    if i == 0 then out
    else
      var t := names[i - 1];
      if t == active then ScanOut(out, linked, o, active, names, i - 1)
      else
        var next := OutAfter(out, linked, o, t);
        if Restorable(o, t) then next else ScanOut(next, linked, o, active, names, i - 1)
  }

  ghost function Names(o: Outcomes, key: string): (names: seq<string>)
    ensures ListsSlices(o, key, names)
  {
    var names := SortedNames(set t | t in o && StartsWith(t, SlicePrefix(key)));
    assert forall t :: t in names <==> t in Elements(names);
    names
  }

  /** One turn of the scan, on the name before the i-th. */
  method ScanTurn(ws: Workspace, store: FsStore, active: string, links: string -> Link, names: seq<string>, i: nat,
                  ghost o: Outcomes) returns (ok: bool)
    requires Describes(o, store.tags, links)
    requires 0 < i <= |names| && names[i - 1] in o && NoneFrom(o, active, names, i)
    modifies ws
    ensures ok ==> names[i - 1] != active && Restorable(o, names[i - 1])
    ensures ok ==> ws.out == ScanOut(old(ws.out), ws.linked, o, active, names, i)
    ensures ok && !ws.linked ==> ws.out == [FedFrom(o, names[i - 1])]
    ensures !ok ==> NoneFrom(o, active, names, i - 1)
    ensures !ok ==> ScanOut(ws.out, ws.linked, o, active, names, i - 1) ==
                    ScanOut(old(ws.out), ws.linked, o, active, names, i)
  {
    ok := false;
    if names[i - 1] != active {
      ghost var outcome;
      ok, outcome := ScanOne(ws, store, names[i - 1], links(names[i - 1]));
      assert o[names[i - 1]] == outcome;
    }
  }

  method ListSlices(store: FsStore, key: string, ghost o: Outcomes) returns (names: seq<string>)
    requires o.Keys == store.tags.Keys
    ensures names == Names(o, key)
  {
    var listing := Gc.ListTags(store, SlicePrefix(key));
    names := SortNames(listing);
    assert Elements(names) == Gc.Matching(store.tags, SlicePrefix(key));
    assert forall t :: t in Elements(Names(o, key)) <==> t in Names(o, key);
    assert Elements(Names(o, key)) == Gc.Matching(store.tags, SlicePrefix(key));
    IncreasingUnique(names, Names(o, key));
  }

  /** The scan over these names, newest first. */
  method ScanNames(ws: Workspace, store: FsStore, key: string, active: string, links: string -> Link,
                   names: seq<string>, ghost o: Outcomes) returns (r: Resumed)
    requires Describes(o, store.tags, links) && !Restorable(o, active) && ListsSlices(o, key, names)
    modifies ws
    ensures Chosen(o, key, active, r)
    ensures ws.out == ScanOut(old(ws.out), ws.linked, o, active, names, |names|)
    ensures r.From? && !ws.linked ==> ws.out == [FedFrom(o, r.tag)]
  {
    ghost var result := ScanOut(ws.out, ws.linked, o, active, names, |names|);
    var i: nat := |names|;
    while i > 0
      invariant i <= |names|
      invariant ScanOut(ws.out, ws.linked, o, active, names, i) == result
      invariant NoneFrom(o, active, names, i)
    {
      assert names[i - 1] in names;
      var ok := ScanTurn(ws, store, active, links, names, i, o);
      i := i - 1;
      if ok {
        NoneAfter(o, key, active, names, i);
        return From(names[i]);
      }
    }
    NoneAtAll(o, key, active, names);
    r := ColdStart;
  }

  /** The fallback scan, newest name first; banks without a verdict are skipped. */
  method Scan(forge: Forge, ws: Workspace, links: string -> Link, ghost o: Outcomes) returns (r: Resumed)
    requires Describes(o, forge.store.tags, links) && !Restorable(o, forge.index.stateTag)
    modifies ws
    ensures Chosen(o, forge.key, forge.index.stateTag, r)
    ensures ws.out == ScanOut(old(ws.out), ws.linked, o, forge.index.stateTag,
                              Names(o, forge.key), |Names(o, forge.key)|)
    ensures r.From? && !ws.linked ==> ws.out == [FedFrom(o, r.tag)]
  {
    var names := ListSlices(forge.store, forge.key, o);
    r := ScanNames(ws, forge.store, forge.key, forge.index.stateTag, links, names, o);
  }

  /** out/ after the resume step. */
  ghost function ResumeOut(out: seq<Bytes>, linked: bool, o: Outcomes, key: string, active: string): seq<Bytes> {
    var tried := if active == "" then out else OutAfter(out, linked, o, active);
    if active != "" && Restorable(o, active) then tried
    else ScanOut(tried, linked, o, active, Names(o, key), |Names(o, key)|)
  }

  /** Resume, with the outcomes named. */
  method ResumeBy(forge: Forge, ws: Workspace, links: string -> Link, ghost o: Outcomes) returns (r: Resumed)
    requires Describes(o, forge.store.tags, links)
    requires forge.index.stateTag == "" ==> "" !in forge.store.tags
    modifies ws
    ensures Chosen(o, forge.key, forge.index.stateTag, r)
    ensures ws.out == ResumeOut(old(ws.out), ws.linked, o, forge.key, forge.index.stateTag)
    ensures r.From? && !ws.linked ==> ws.out == [FedFrom(o, r.tag)]
  {
    var active := forge.index.stateTag;
    var ok := false;
    if active != "" {
      ghost var outcome;
      ok, outcome := TryRestore(ws, forge.store, active, links(active));
      assert active in o ==> o[active] == outcome;
    }
    if ok {
      return From(active);
    }
    r := Scan(forge, ws, links, o);
  }

  /** The resume step of cmd_slice: nothing is done to a warm out/. */
  method Resume(forge: Forge, ws: Workspace, links: string -> Link, warm: bool) returns (r: Resumed)
    requires forge.index.stateTag == "" ==> "" !in forge.store.tags
    modifies ws
    ensures r == Warm <==> warm
    ensures warm ==> ws.out == old(ws.out)
    ensures var o := OutcomesOf(forge.store.tags, links);
      !warm ==>
        && Chosen(o, forge.key, forge.index.stateTag, r)
        && ws.out == ResumeOut(old(ws.out), ws.linked, o, forge.key, forge.index.stateTag)
        && (r.From? && !ws.linked ==> ws.out == [FedFrom(o, r.tag)])
  {
    if warm {
      return Warm;
    }
    r := ResumeBy(forge, ws, links, OutcomesOf(forge.store.tags, links));
  }

  // ---- what a cold start leaves in out/ --------------------------------------------------

  /** A bank that gets as far as being unpacked. */
  predicate Unpacks(o: Outcomes, t: string) {
    t in o && o[t].Streamed?
  }

  /** out/ holds what it held, or nothing, or the stream of one of these banks. */
  ghost predicate OneStream(before: seq<Bytes>, after: seq<Bytes>, o: Outcomes) {
    after == before || after == [] || exists t | Unpacks(o, t) :: after == [o[t].fed]
  }

  lemma {:induction false} ScanLeavesOneStream(before: seq<Bytes>, out: seq<Bytes>, o: Outcomes, active: string,
                                               names: seq<string>, i: nat)
    requires i <= |names| && OneStream(before, out, o)
    ensures OneStream(before, ScanOut(out, false, o, active, names, i), o)
    decreases i
  {
    if i > 0 {
      var t := names[i - 1];
      var next := OutAfter(out, false, o, t);
      assert OneStream(before, next, o) by {
        assert Unpacks(o, t) ==> next == [o[t].fed];
      }
      if t == active {
        ScanLeavesOneStream(before, out, o, active, names, i - 1);
      } else if !Restorable(o, t) {
        ScanLeavesOneStream(before, next, o, active, names, i - 1);
      }
    }
  }

  /** Unless out/ is a link, the resume step never mixes two banks in it, even when it gives up. */
  lemma ResumeLeavesOneStream(out: seq<Bytes>, o: Outcomes, key: string, active: string)
    ensures OneStream(out, ResumeOut(out, false, o, key, active), o)
  {
    var tried := if active == "" then out else OutAfter(out, false, o, active);
    assert OneStream(out, tried, o) by {
      assert active != "" && Unpacks(o, active) ==> tried == [o[active].fed];
    }
    ScanLeavesOneStream(out, tried, o, active, Names(o, key), |Names(o, key)|);
  }

  lemma {:induction false} ScanOfRefused(linked: bool, o: Outcomes, active: string, names: seq<string>, i: nat)
    requires i <= |names| && forall j | 0 <= j < i && names[j] != active :: !Unpacks(o, names[j])
    ensures ScanOut([], linked, o, active, names, i) == []
  {
    if i > 0 {
      ScanOfRefused(linked, o, active, names, i - 1);
    }
  }

  lemma {:induction false} LinkedGrows(out: seq<Bytes>, o: Outcomes, active: string, names: seq<string>, i: nat)
    requires i <= |names|
    ensures |ScanOut(out, true, o, active, names, i)| >= |out|
    decreases i
  {
    if i > 0 {
      LinkedGrows(out, o, active, names, i - 1);
      LinkedGrows(OutAfter(out, true, o, names[i - 1]), o, active, names, i - 1);
    }
  }

  lemma {:induction false} LinkedScanOfUnpacked(o: Outcomes, active: string, names: seq<string>, i: nat, j: nat)
    requires j < i <= |names| && names[j] != active && Unpacks(o, names[j])
    ensures ScanOut([], true, o, active, names, i) != []
    decreases i
  {
    var t := names[i - 1];
    if t == active || !Unpacks(o, t) {
      LinkedScanOfUnpacked(o, active, names, i - 1, j);
    } else {
      LinkedGrows(OutAfter([], true, o, t), o, active, names, i - 1);
    }
  }

  /** A tag the resume step may get to. */
  predicate Tries(o: Outcomes, key: string, active: string, t: string) {
    (active != "" && t == active) || IsCandidate(o, key, active, t)
  }

  /** A cold out/ stays cold when no bank in reach gets as far as being unpacked. */
  lemma StaysCold(linked: bool, o: Outcomes, key: string, active: string)
    requires forall t | Tries(o, key, active, t) :: !Unpacks(o, t)
    ensures ResumeOut([], linked, o, key, active) == []
  {
    var names := Names(o, key);
    forall j | 0 <= j < |names| && names[j] != active
      ensures !Unpacks(o, names[j])
    {
      assert names[j] in names;
      assert Tries(o, key, active, names[j]);
    }
    assert active != "" ==> Tries(o, key, active, active);
    ScanOfRefused(linked, o, active, names, |names|);
  }

  lemma LinkedUnpackedShows(o: Outcomes, key: string, active: string, t: string)
    requires Tries(o, key, active, t) && Unpacks(o, t)
    ensures ResumeOut([], true, o, key, active) != []
  {
    var names := Names(o, key);
    var tried := if active == "" then [] else OutAfter([], true, o, active);
    LinkedGrows(tried, o, active, names, |names|);
    if tried == [] {
      assert t != active && t in names;
      var j :| 0 <= j < |names| && names[j] == t;
      LinkedScanOfUnpacked(o, active, names, |names|, j);
    }
  }

  /** When out/ is a link nothing is ever removed again, so there it is the exact condition. */
  lemma LinkedStaysColdExactly(o: Outcomes, key: string, active: string)
    ensures ResumeOut([], true, o, key, active) == [] <==> forall t | Tries(o, key, active, t) :: !Unpacks(o, t)
  {
    if t :| Tries(o, key, active, t) && Unpacks(o, t) {
      LinkedUnpackedShows(o, key, active, t);
    } else {
      StaysCold(true, o, key, active);
    }
  }

  /** A store of one slice bank: it is chosen exactly when it restores, and tried in any case. */
  lemma AloneIsTried(o: Outcomes, key: string, active: string, t: string, linked: bool, r: Resumed)
    requires o.Keys == {t} && StartsWith(t, SlicePrefix(key)) && active != t
    ensures Chosen(o, key, active, r) <==> r == if Restorable(o, t) then From(t) else ColdStart
    ensures ResumeOut([], linked, o, key, active) == Applied([], linked, o[t])
  {
    BeforeIrreflexive(t);
    assert IsCandidate(o, key, active, t);
    var names := Names(o, key);
    assert t in names;
    assert Elements(names) == {t} == Elements([t]) by {
      assert forall u | u in names :: u in o;
    }
    IncreasingUnique(names, [t]);
    assert ScanOut(Applied([], linked, o[t]), linked, o, active, names, 0) == Applied([], linked, o[t]);
    assert ScanOut([], linked, o, active, names, 1) == Applied([], linked, o[t]);
  }

  /** What trying a staged bank cut after k assets comes to. */
  lemma StagedOutcome(run: Run, k: nat)
    requires ValidRun(run) && !run.crit && k <= |run.parts| + 2
    ensures OutcomeOf(Uploaded(Uploads(run, Stage)[..k]), Link(Honest, true)) ==
            if k < 2 then Untouched
            else Streamed(Flatten(run.parts[..Min(k - 1, |run.parts|)]), k > |run.parts|)
  {
    H.CutRestores(H.Call(run, Stage), k);
    H.StagedCutFeeds(run, k);
  }

  /** A staged bank, cut after k assets, alone in the store: the resume step gives up exactly when
      a part is missing, and out/ is then cold only if the cut came before the first part. */
  lemma ColdStartNeedNotBeCold(key: string, active: string, slice: nat, run: Run, k: nat, linked: bool,
                               links: string -> Link, r: Resumed)
    requires ValidRun(run) && !run.crit && k <= |run.parts| + 2 && active != StateTag(key, slice)
    requires links(StateTag(key, slice)) == Link(Honest, true)
    requires Chosen(OutcomesOf(map[StateTag(key, slice) := Uploaded(Uploads(run, Stage)[..k])], links), key, active, r)
    ensures r == ColdStart <==> k <= |run.parts|
    ensures
      var o := OutcomesOf(map[StateTag(key, slice) := Uploaded(Uploads(run, Stage)[..k])], links);
      ResumeOut([], linked, o, key, active) ==
        if k < 2 then [] else [Flatten(run.parts[..Min(k - 1, |run.parts|)])]
  {
    var t := StateTag(key, slice);
    var o := OutcomesOf(map[t := Uploaded(Uploads(run, Stage)[..k])], links);
    StagedOutcome(run, k);
    SliceTagIsApart(key, slice);
    AloneIsTried(o, key, active, t, linked, r);
  }

  // ---- what is resumed -------------------------------------------------------------------

  /** In a safe world an honest restore resumes from exactly the archive on record. */
  lemma ResumesTheRecordedArchive(w: World, key: string, links: string -> Link, r: Resumed)
    requires Safe(key, w) && w.rec.slice > 0
    requires links(w.rec.stateTag) == Link(Honest, true)
    requires Chosen(OutcomesOf(w.tags, links), key, w.rec.stateTag, r)
    ensures r == From(w.rec.stateTag) && FedFrom(OutcomesOf(w.tags, links), r.tag) == w.archive
  {
    var o := OutcomesOf(w.tags, links);
    assert o[w.rec.stateTag] == OutcomeOf(w.tags[w.rec.stateTag], Link(Honest, true));
    assert Restorable(o, w.rec.stateTag);
    StateTagIsNotEmpty(key, w.rec.slice);
  }

  ghost predicate IsOfRun(assets: Assets, net: Net, fed: Bytes, run: Run)
    requires ValidRun(run)
  {
    && (Checkable(assets, net) ==> fed == Archive(run))
    && (net.parts == map[] ==> fed == Flatten(KeptParts(run.names, run.parts, assets.Keys)))
  }

  /** Whatever slice bank the resume step falls back to, of this campaign or another whose tags it
      finds, what it unpacks is of one packing: the whole archive if there was something to check
      it against; the parts of it that are there, if they came as stored. */
  lemma FallbackIsOneRun(tags: Tags, owner: string, n: nat, links: string -> Link)
    requires Unmixed(owner, tags) && Restorable(OutcomesOf(tags, links), StateTag(owner, n))
    ensures exists run | ValidRun(run) ::
      IsOfRun(tags[StateTag(owner, n)], links(StateTag(owner, n)).net,
              FedFrom(OutcomesOf(tags, links), StateTag(owner, n)), run)
  {
    var t := StateTag(owner, n);
    var assets, link := tags[t], links(t);
    assert OneRun(assets);
    var run :| ValidRun(run) && Submap(assets, Full(run));
    RestoreSound(assets, run, link.net);
    assert OutcomesOf(tags, links)[t] == OutcomeOf(assets, link);
    assert IsOfRun(assets, link.net, FedFrom(OutcomesOf(tags, links), t), run);
  }

  lemma SomeRun() returns (run: Run)
    ensures ValidRun(run) && !run.crit
  {
    run := Run(false, ["out.part.aa"], [[]]);
    assert "out.part.aa"[..9] == Mark("out") && "out.part.aa"[9..] == "aa";
  }

  lemma FullOutcome(run: Run)
    requires ValidRun(run)
    ensures OutcomeOf(Full(run), Link(Honest, true)) == Streamed(Archive(run), true)
  {
    FullContents(run);
    RestoreExact(Full(run), run);
  }

  lemma ResumesForeign(key: string, other: string, active: string, n: nat, links: string -> Link) returns (tags: Tags)
    requires StartsWith(other, key + "-s")
    requires active != StateTag(other, n) && links(StateTag(other, n)) == Link(Honest, true)
    ensures Chosen(OutcomesOf(tags, links), key, active, From(StateTag(other, n)))
  {
    var t := StateTag(other, n);
    var run := SomeRun();
    tags := map[t := Full(run)];
    var o := OutcomesOf(tags, links);
    FullOutcome(run);
    assert o[t] == Streamed(Archive(run), true);
    Gc.ForeignSliceTags(key, other, n);
    AloneIsTried(o, key, active, t, false, From(t));
  }

  /** Exactly when the resume step can unpack the bank of another campaign: when that one's key
      continues this one with "-s". */
  lemma ResumesForeignExactly(key: string, other: string, active: string, n: nat, links: string -> Link)
    requires other != key && active != StateTag(other, n) && links(StateTag(other, n)) == Link(Honest, true)
    ensures StartsWith(other, key + "-s") <==>
            exists tags :: Chosen(OutcomesOf(tags, links), key, active, From(StateTag(other, n)))
  {
    if StartsWith(other, key + "-s") {
      var tags := ResumesForeign(key, other, active, n, links);
    } else {
      Gc.ForeignSliceTags(key, other, n);
    }
  }

  /** A candidate that restores. */
  ghost predicate CanFallBackTo(o: Outcomes, key: string, active: string, t: string) {
    IsCandidate(o, key, active, t) && Restorable(o, t)
  }

  ghost predicate IsOwn(key: string, t: string) {
    exists n: nat :: t == StateTag(key, n)
  }

  /** When the resume step falls back to the campaign's numerically newest bank that restores:
      exactly when no older one has a name after it, that is, none has fewer digits and makes a
      larger number than as many leading digits of the newest, and no foreign one has either. */
  lemma FallsBackToNewest(o: Outcomes, key: string, active: string, r: Resumed, newest: nat)
    requires Chosen(o, key, active, r) && !Restorable(o, active)
    requires CanFallBackTo(o, key, active, StateTag(key, newest))
    requires forall n: nat | CanFallBackTo(o, key, active, StateTag(key, n)) :: n <= newest
    ensures r == From(StateTag(key, newest)) <==>
      && (forall n: nat | n < newest && CanFallBackTo(o, key, active, StateTag(key, n)) ::
            Leading(newest, |Decimal(n)|) >= n)
      && (forall u | CanFallBackTo(o, key, active, u) && !IsOwn(key, u) :: !Before(StateTag(key, newest), u))
  {
    var last := StateTag(key, newest);
    assert r.From? && CanFallBackTo(o, key, active, r.tag);
    if r.tag == last {
      forall n: nat | n < newest && CanFallBackTo(o, key, active, StateTag(key, n))
        ensures Leading(newest, |Decimal(n)|) >= n
      {
        NameOrder(key, n, newest);
      }
    } else {
      BeforeTotal(r.tag, last);
      assert Before(last, r.tag);
      if IsOwn(key, r.tag) {
        var m: nat :| r.tag == StateTag(key, m);
        NameOrder(key, m, newest);
      }
    }
  }
}
