/** cli._run_single_slice and the resume step of cmd_slice: banking a slice, then recording it
    in the INDEX, on a machine that may die at any store operation. */
module Cli {
  import opened Prelude
  import opened Store
  import opened TagNames
  import opened Banks
  import opened Relay
  import opened Restoring
  import opened Campaign
  import H = History
  import I = IndexStore
  import Gc

  /** What one slice packs: the critical set (no parts when there is nothing critical), out/
      itself, and the product state; the order of the backend; whether out/ exists at all. */
  datatype Packing = Packing(crit: Run, out: Run, product: Run, order: Order, hasOut: bool)

  ghost predicate ValidPacking(p: Packing) {
    && ValidRun(p.out) && !p.out.crit
    && ValidRun(p.product) && !p.product.crit
    && p.crit.crit && |p.crit.names| == |p.crit.parts| && (p.crit.parts != [] ==> ValidRun(p.crit))
    && p.order != CritFirst
  }

  // ---- what is kept ----------------------------------------------------------------------

  /** The store, the INDEX record, and the out/ archive of the slice the record speaks of. */
  datatype World = World(tags: Tags, rec: Record, archive: Bytes)

  ghost predicate RestoresTo(assets: Assets, archive: Bytes) {
    var a := AttemptOn(assets, Honest);
    a.Unpacking? && AllSound(a.c) && Fed(a.c) == archive
  }

  /** Nothing but remains of a single run. */
  ghost predicate OneRun(assets: Assets) {
    exists run :: ValidRun(run) && Submap(assets, Full(run))
  }

  ghost predicate Named(key: string, rec: Record) {
    rec.stateTag == if rec.slice == 0 then "" else StateTag(key, rec.slice)
  }

  ghost predicate Recorded(w: World) {
    w.rec.slice > 0 ==> w.rec.stateTag in w.tags && RestoresTo(w.tags[w.rec.stateTag], w.archive)
  }

  ghost predicate Unmixed(key: string, tags: Tags) {
    forall n: nat :: StateTag(key, n) in tags ==> OneRun(tags[StateTag(key, n)])
  }

  /** The record names the bank of its own slice, that bank restores to the archive of that
      slice, and no slice tag of the campaign mixes two runs. */
  ghost predicate Safe(key: string, w: World) {
    Named(key, w.rec) && Recorded(w) && Unmixed(key, w.tags)
  }

  /** What may be under a tag while a slice is being banked there. */
  ghost predicate Remains(before: Tags, after: Tags, tag: string, p: Packing)
    requires ValidPacking(p)
  {
    tag in after ==>
      || after[tag] == map[]
      || (tag in before && Submap(after[tag], before[tag]))
      || (p.crit.parts != [] && Submap(after[tag], Full(p.crit)))
      || Submap(after[tag], Full(p.out))
  }

  /** Only these two tags may differ. */
  ghost predicate SameBut(before: Tags, after: Tags, a: string, b: string) {
    forall t | t != a && t != b :: (t in before <==> t in after) && (t in before ==> before[t] == after[t])
  }

  /** Everything landed but, possibly, the manifest. */
  ghost predicate BankedWhole(assets: Assets, run: Run, order: Order)
    requires |run.names| == |run.parts|
  {
    exists k | |run.parts| + 1 <= k <= |run.parts| + 2 :: assets == Uploaded(Uploads(run, order)[..k])
  }

  /** A bank of out/ in full; without an out/ the tag as it was. */
  ghost predicate Stored(before: Assets, after: Assets, p: Packing)
    requires ValidPacking(p)
  {
    if p.hasOut then BankedWhole(after, p.out, p.order) else after == before
  }

  predicate SameAt(before: Tags, after: Tags, tag: string) {
    (tag in before <==> tag in after) && (tag in before ==> before[tag] == after[tag])
  }

  /** The build exited with 0 and left a ROM zip. */
  predicate BuildDone(r: SliceResult) {
    r.rc == 0 && r.zip.Some?
  }

  /** What a completed slice has stored before the INDEX write: the bank of out/, and for a build
      that is done the product bank. */
  ghost predicate SliceStored(key: string, w: World, w': World, r: SliceResult, p: Packing)
    requires ValidPacking(p)
  {
    var tag, product := StateTag(key, w.rec.slice + 1), ProductTag(key);
    && tag in w'.tags && Stored(AssetsOf(w.tags, tag), w'.tags[tag], p)
    && (BuildDone(r) && p.hasOut ==> product in w'.tags && BankedWhole(w'.tags[product], p.product, p.order))
  }

  /** One run of _run_single_slice, cut anywhere or completed. The record moves only in the
      last step, and only the next slice's tag and, by a build that is done, the product tag are
      ever touched. */
  ghost predicate SliceStep(key: string, w: World, w': World, r: SliceResult, p: Packing)
    requires ValidPacking(p)
  {
    var tag := StateTag(key, w.rec.slice + 1);
    && SameBut(w.tags, w'.tags, tag, ProductTag(key))
    && Remains(w.tags, w'.tags, tag, p)
    && (!BuildDone(r) || !p.hasOut ==> SameAt(w.tags, w'.tags, ProductTag(key)))
    && ( || (w'.rec == w.rec && w'.archive == w.archive)
         || ( && w'.rec == AfterSlice(key, w.rec, r) && w'.archive == (if p.hasOut then Archive(p.out) else w.archive)
              && SliceStored(key, w, w', r, p)))
  }

  lemma BankedWholeRestores(assets: Assets, run: Run, order: Order)
    requires ValidRun(run) && !run.crit && order != CritFirst && BankedWhole(assets, run, order)
    ensures RestoresTo(assets, Archive(run)) && Submap(assets, Full(run))
  {
    var k :| |run.parts| + 1 <= k <= |run.parts| + 2 && assets == Uploaded(Uploads(run, order)[..k]);
    CutContents(run, order, k);
    RestoreExact(assets, run);
  }

  lemma SubmapTransitive(a: Assets, b: Assets, c: Assets)
    requires Submap(a, b) && Submap(b, c)
    ensures Submap(a, c)
  {
  }

  lemma RemainsAreOneRun(before: Tags, after: Tags, tag: string, p: Packing)
    requires ValidPacking(p) && Remains(before, after, tag, p) && tag in after
    requires tag in before ==> OneRun(before[tag])
    ensures OneRun(after[tag])
  {
    if tag in before && Submap(after[tag], before[tag]) {
      var run :| ValidRun(run) && Submap(before[tag], Full(run));
      SubmapTransitive(after[tag], before[tag], Full(run));
    } else if p.crit.parts != [] && Submap(after[tag], Full(p.crit)) {
      assert ValidRun(p.crit);
    } else {
      assert Submap(after[tag], Full(p.out));
    }
  }

  lemma SliceTagsStayOneRun(key: string, w: World, w': World, r: SliceResult, p: Packing, n: nat)
    requires ValidPacking(p) && SliceStep(key, w, w', r, p)
    requires StateTag(key, n) in w.tags ==> OneRun(w.tags[StateTag(key, n)])
    ensures StateTag(key, n) in w'.tags ==> OneRun(w'.tags[StateTag(key, n)])
  {
    SliceTagIsApart(key, n);
    var next := w.rec.slice + 1;
    if n == next {
      if StateTag(key, n) in w'.tags {
        RemainsAreOneRun(w.tags, w'.tags, StateTag(key, n), p);
      }
    } else {
      StateTagsDiffer(key, n, next);
    }
  }

  lemma SliceKeepsUnmixed(key: string, w: World, w': World, r: SliceResult, p: Packing)
    requires ValidPacking(p) && SliceStep(key, w, w', r, p) && Unmixed(key, w.tags)
    ensures Unmixed(key, w'.tags)
  {
    forall n: nat | StateTag(key, n) in w'.tags
      ensures OneRun(w'.tags[StateTag(key, n)])
    {
      SliceTagsStayOneRun(key, w, w', r, p, n);
    }
  }

  /** The bank on record is not the one being written. */
  lemma RecordedBankIsUntouched(key: string, w: World, w': World, r: SliceResult, p: Packing)
    requires ValidPacking(p) && SliceStep(key, w, w', r, p)
    ensures var t := StateTag(key, w.rec.slice); t in w.tags ==> t in w'.tags && w.tags[t] == w'.tags[t]
  {
    StateTagsDiffer(key, w.rec.slice, w.rec.slice + 1);
    SliceTagIsApart(key, w.rec.slice);
  }

  lemma AfterSliceMoves(key: string, rec: Record, r: SliceResult)
    ensures AfterSlice(key, rec, r) != rec
  {
    assert AfterSlice(key, rec, r).slice == rec.slice + 1;
  }

  lemma CutKeepsArchive(key: string, w: World, w': World, r: SliceResult, p: Packing)
    requires ValidPacking(p) && SliceStep(key, w, w', r, p) && w'.rec == w.rec
    ensures w'.archive == w.archive
  {
    AfterSliceMoves(key, w.rec, r);
  }

  lemma SameBankIsRecorded(w: World, w': World)
    requires Recorded(w) && w'.rec == w.rec && w'.archive == w.archive
    requires var t := w.rec.stateTag; t in w.tags ==> t in w'.tags && w.tags[t] == w'.tags[t]
    ensures Recorded(w')
  {
  }

  lemma CutKeepsRecorded(key: string, w: World, w': World, r: SliceResult, p: Packing)
    requires ValidPacking(p) && SliceStep(key, w, w', r, p) && w'.rec == w.rec
    requires Named(key, w.rec) && Recorded(w)
    ensures Recorded(w')
  {
    if w.rec.slice > 0 {
      RecordedBankIsUntouched(key, w, w', r, p);
      CutKeepsArchive(key, w, w', r, p);
      SameBankIsRecorded(w, w');
    }
  }

  lemma NamedAfterSlice(key: string, rec: Record, r: SliceResult)
    ensures Named(key, AfterSlice(key, rec, r)) && AfterSlice(key, rec, r).slice == rec.slice + 1
  {
  }

  lemma MovedWithOut(key: string, w: World, w': World, r: SliceResult, p: Packing)
    requires ValidPacking(p) && p.hasOut && SliceStep(key, w, w', r, p) && w'.rec != w.rec
    ensures var t := StateTag(key, w.rec.slice + 1);
      && w'.rec == AfterSlice(key, w.rec, r) && w'.archive == Archive(p.out)
      && t in w'.tags && BankedWhole(w'.tags[t], p.out, p.order)
  {
  }

  lemma BankIsRecorded(w: World, tag: string, p: Packing)
    requires ValidPacking(p) && w.rec.stateTag == tag && w.archive == Archive(p.out)
    requires tag in w.tags && BankedWhole(w.tags[tag], p.out, p.order)
    ensures Recorded(w)
  {
    BankedWholeRestores(w.tags[tag], p.out, p.order);
  }

  lemma CompletionIsRecorded(key: string, w: World, w': World, r: SliceResult, p: Packing)
    requires ValidPacking(p) && p.hasOut && SliceStep(key, w, w', r, p) && w'.rec != w.rec
    ensures Named(key, w'.rec) && Recorded(w') && w'.rec == AfterSlice(key, w.rec, r)
  {
    MovedWithOut(key, w, w', r, p);
    NamedAfterSlice(key, w.rec, r);
    BankIsRecorded(w', StateTag(key, w.rec.slice + 1), p);
  }

  lemma NothingRestores(archive: Bytes)
    ensures !RestoresTo(map[], archive)
  {
    assert AttemptOn(map[], Honest) == Refused;
  }

  lemma MovedWithoutOut(key: string, w: World, w': World, r: SliceResult, p: Packing)
    requires ValidPacking(p) && !p.hasOut && SliceStep(key, w, w', r, p) && w'.rec != w.rec
    ensures var t := StateTag(key, w.rec.slice + 1);
      && w'.rec == AfterSlice(key, w.rec, r) && w'.archive == w.archive
      && t in w'.tags && w'.tags[t] == AssetsOf(w.tags, t)
  {
  }

  lemma EmptyOrEarlier(before: Tags, after: Tags, tag: string, archive: Bytes)
    requires tag in after && after[tag] == AssetsOf(before, tag)
    ensures RestoresTo(after[tag], archive) <==> tag in before && RestoresTo(before[tag], archive)
  {
    NothingRestores(archive);
  }

  /** Without an out/ directory bank ships nothing and the INDEX is written all the same. The new
      record is good exactly when an earlier attempt at this very slice has left a bank that
      restores to the same archive. */
  lemma WithoutOutExactly(key: string, w: World, w': World, r: SliceResult, p: Packing)
    requires ValidPacking(p) && !p.hasOut && SliceStep(key, w, w', r, p) && w'.rec != w.rec
    ensures Named(key, w'.rec) && w'.rec == AfterSlice(key, w.rec, r)
    ensures var t := StateTag(key, w.rec.slice + 1);
      Recorded(w') <==> t in w.tags && RestoresTo(w.tags[t], w.archive)
  {
    MovedWithoutOut(key, w, w', r, p);
    NamedAfterSlice(key, w.rec, r);
    EmptyOrEarlier(w.tags, w'.tags, StateTag(key, w.rec.slice + 1), w.archive);
  }

  /** The bank under this tag restores in full, to whatever archive. */
  ghost predicate BankRestores(tags: Tags, tag: string) {
    tag in tags && exists archive :: RestoresTo(tags[tag], archive)
  }

  /** It can be restored at all exactly when an earlier attempt left any bank that can: that may
      be the bank of a later archive than the one on record. */
  lemma WithoutOutRestoresExactly(key: string, w: World, w': World, r: SliceResult, p: Packing)
    requires ValidPacking(p) && !p.hasOut && SliceStep(key, w, w', r, p) && w'.rec != w.rec
    ensures BankRestores(w'.tags, w'.rec.stateTag) <==> BankRestores(w.tags, StateTag(key, w.rec.slice + 1))
  {
    var t := StateTag(key, w.rec.slice + 1);
    assert w'.rec.stateTag == t && w'.tags[t] == AssetsOf(w.tags, t);
    forall archive
      ensures !RestoresTo(map[], archive)
    {
      NothingRestores(archive);
    }
  }

  /** The step leaves a good record: it was cut before the INDEX write, or it had an out/ to
      bank, or the tag already held a bank of the same archive. */
  ghost predicate LeavesGoodRecord(key: string, w: World, w': World, p: Packing) {
    var t := StateTag(key, w.rec.slice + 1);
    w'.rec == w.rec || p.hasOut || (t in w.tags && RestoresTo(w.tags[t], w.archive))
  }

  lemma CutKeepsSafe(key: string, w: World, w': World, r: SliceResult, p: Packing)
    requires ValidPacking(p) && Safe(key, w) && SliceStep(key, w, w', r, p) && w'.rec == w.rec
    ensures Safe(key, w')
  {
    SliceKeepsUnmixed(key, w, w', r, p);
    CutKeepsRecorded(key, w, w', r, p);
  }

  lemma CompletionIsSafe(key: string, w: World, w': World, r: SliceResult, p: Packing)
    requires ValidPacking(p) && p.hasOut && Safe(key, w) && SliceStep(key, w, w', r, p) && w'.rec != w.rec
    ensures Safe(key, w')
  {
    SliceKeepsUnmixed(key, w, w', r, p);
    CompletionIsRecorded(key, w, w', r, p);
  }

  lemma SafeIffGood(key: string, w: World, w': World, p: Packing)
    requires Named(key, w'.rec) && Unmixed(key, w'.tags) && w'.rec != w.rec && !p.hasOut
    requires var t := StateTag(key, w.rec.slice + 1);
      Recorded(w') <==> t in w.tags && RestoresTo(w.tags[t], w.archive)
    ensures Safe(key, w') <==> LeavesGoodRecord(key, w, w', p)
  {
  }

  lemma SafeWithoutOut(key: string, w: World, w': World, r: SliceResult, p: Packing)
    requires ValidPacking(p) && !p.hasOut && Unmixed(key, w.tags)
    requires SliceStep(key, w, w', r, p) && w'.rec != w.rec
    ensures Safe(key, w') <==> LeavesGoodRecord(key, w, w', p)
  {
    SliceKeepsUnmixed(key, w, w', r, p);
    WithoutOutExactly(key, w, w', r, p);
    SafeIffGood(key, w, w', p);
  }

  /** Crash safety of one slice, forced or not, cut anywhere or completed, exactly. */
  lemma SliceKeepsSafeExactly(key: string, w: World, w': World, r: SliceResult, p: Packing)
    requires ValidPacking(p) && Safe(key, w) && SliceStep(key, w, w', r, p)
    ensures Safe(key, w') <==> LeavesGoodRecord(key, w, w', p)
  {
    if w'.rec == w.rec {
      CutKeepsSafe(key, w, w', r, p);
    } else if p.hasOut {
      CompletionIsSafe(key, w, w', r, p);
    } else {
      SafeWithoutOut(key, w, w', r, p);
    }
  }

  /** With an out/ to bank, safety survives every cut of every slice. */
  lemma SliceKeepsSafe(key: string, w: World, w': World, r: SliceResult, p: Packing)
    requires ValidPacking(p) && p.hasOut && Safe(key, w) && SliceStep(key, w, w', r, p)
    ensures Safe(key, w')
  {
    SliceKeepsSafeExactly(key, w, w', r, p);
  }

  /** A collection (complete or cut) that spares the active tag. */
  ghost predicate GcStep(w: World, w': World) {
    && w'.rec == w.rec && w'.archive == w.archive
    && (forall t | t in w'.tags :: t in w.tags && Submap(w'.tags[t], w.tags[t]))
    && (w.rec.stateTag in w.tags ==> w.rec.stateTag in w'.tags && w'.tags[w.rec.stateTag] == w.tags[w.rec.stateTag])
  }

  lemma GcKeepsSafe(key: string, w: World, w': World)
    requires Safe(key, w) && GcStep(w, w')
    ensures Safe(key, w')
  {
    forall n: nat | StateTag(key, n) in w'.tags
      ensures OneRun(w'.tags[StateTag(key, n)])
    {
      var t := StateTag(key, n);
      var run :| ValidRun(run) && Submap(w.tags[t], Full(run));
      SubmapTransitive(w'.tags[t], w.tags[t], Full(run));
    }
  }

  /** Collecting another campaign that does not endanger this one is such a step. */
  lemma ForeignCollectionIsGcStep(key: string, w: World, w': World, collected: string, active: string, keep: int)
    requires Named(key, w.rec) && w'.rec == w.rec && w'.archive == w.archive
    requires key != collected && !Gc.Endangers(collected, key, keep)
    requires Gc.OnlyRemoves(w.tags, w'.tags, Gc.Collectable(w.tags, collected, active, keep))
    requires "" !in w.tags
    ensures GcStep(w, w')
  {
    Gc.ForeignBanksSpared(w.tags, w'.tags, collected, active, keep, key, w.rec.slice);
  }

  function RomTag(key: string): string {
    "rom-" + key
  }

  /** publish marks the record done, whatever it was, and fills a tag of its own. */
  ghost predicate PublishStep(key: string, w: World, w': World) {
    && w'.archive == w.archive
    && (w'.rec == w.rec || w'.rec == w.rec.(done := true))
    && SameElsewhere(w.tags, w'.tags, RomTag(key))
  }

  lemma RomTagIsApart(key: string, n: nat)
    ensures StateTag(key, n) != RomTag(key) && "" != RomTag(key)
  {
    assert StateTag(key, n)[0] == 's' && RomTag(key)[0] == 'r';
  }

  lemma PublishKeepsSafe(key: string, w: World, w': World)
    requires Safe(key, w) && PublishStep(key, w, w')
    ensures Safe(key, w')
    ensures SameElsewhere(w.tags, w'.tags, "rom-" + key)
  {
    forall n: nat | StateTag(key, n) in w'.tags
      ensures OneRun(w'.tags[StateTag(key, n)])
    {
      RomTagIsApart(key, n);
    }
    RomTagIsApart(key, w.rec.slice);
  }

  // ---- whole runs ------------------------------------------------------------------------

  /** A slice, forced or not, that leaves a good record; a collection of any campaign; a
      publication. */
  datatype Event = SliceEvent(r: SliceResult, p: Packing) | GcEvent | PublishEvent

  ghost predicate Happens(key: string, w: World, w': World, e: Event) {
    match e
    case SliceEvent(r, p) => ValidPacking(p) && SliceStep(key, w, w', r, p) && LeavesGoodRecord(key, w, w', p)
    case GcEvent => GcStep(w, w')
    case PublishEvent => PublishStep(key, w, w')
  }

  lemma EventKeepsSafe(key: string, w: World, w': World, e: Event)
    requires Safe(key, w) && Happens(key, w, w', e)
    ensures Safe(key, w') && w'.rec.slice <= w.rec.slice + 1
  {
    match e
    case SliceEvent(r, p) =>
      SliceKeepsSafeExactly(key, w, w', r, p);
      NamedAfterSlice(key, w.rec, r);
    case GcEvent => GcKeepsSafe(key, w, w');
    case PublishEvent => PublishKeepsSafe(key, w, w');
  }

  /** From an empty store and a fresh record, after any slices, collections and publications,
      each completed or killed at any store operation, the INDEX still names a bank that restores
      in full, and the slice it records is one whose INDEX write took effect. */
  lemma {:induction false} EveryRunIsSafe(key: string, worlds: seq<World>, events: seq<Event>)
    requires |worlds| == |events| + 1
    requires worlds[0].tags == map[] && worlds[0].rec == Fresh
    requires forall i | 0 <= i < |events| :: Happens(key, worlds[i], worlds[i + 1], events[i])
    ensures Safe(key, worlds[|events|])
    ensures worlds[|events|].rec.slice <= |events|
  {
    if events != [] {
      var last := |events| - 1;
      EveryRunIsSafe(key, worlds[..last + 1], events[..last]);
      EventKeepsSafe(key, worlds[last], worlds[last + 1], events[last]);
    }
  }

  // ---- the product bank ------------------------------------------------------------------

  lemma ClassifiedDone(r: SliceResult)
    ensures Classified(r) == Done <==> BuildDone(r)
  {
  }

  /** A slice whose build is done, and that completed with an out/, leaves a product bank that
      restores to what it packed. */
  lemma DoneBanksTheProduct(key: string, w: World, w': World, r: SliceResult, p: Packing)
    requires ValidPacking(p) && SliceStep(key, w, w', r, p) && w'.rec != w.rec
    requires BuildDone(r) && p.hasOut
    ensures w'.rec.done && ProductTag(key) in w'.tags && RestoresTo(w'.tags[ProductTag(key)], Archive(p.product))
  {
    ClassifiedDone(r);
    BankedWholeRestores(w'.tags[ProductTag(key)], p.product, p.order);
  }

  lemma SameBankRestores(before: Tags, after: Tags, tag: string, archive: Bytes)
    requires SameAt(before, after, tag) && tag in before && RestoresTo(before[tag], archive)
    ensures tag in after && RestoresTo(after[tag], archive)
  {
  }

  /** It stays so through any events that leave the tag alone. */
  lemma {:induction false} ProductSurvives(key: string, worlds: seq<World>, events: seq<Event>, i: nat, n: nat)
    requires |worlds| == |events| + 1 && i < n <= |events|
    requires forall j | 0 <= j < |events| :: Happens(key, worlds[j], worlds[j + 1], events[j])
    requires events[i].SliceEvent? && BuildDone(events[i].r) && events[i].p.hasOut
    requires worlds[i + 1].rec != worlds[i].rec
    requires forall j | i < j < n :: SameAt(worlds[j].tags, worlds[j + 1].tags, ProductTag(key))
    ensures ProductTag(key) in worlds[n].tags
    ensures RestoresTo(worlds[n].tags[ProductTag(key)], Archive(events[i].p.product))
    decreases n
  {
    if n == i + 1 {
      DoneBanksTheProduct(key, worlds[i], worlds[i + 1], events[i].r, events[i].p);
    } else {
      ProductSurvives(key, worlds, events, i, n - 1);
      SameBankRestores(worlds[n - 1].tags, worlds[n].tags, ProductTag(key), Archive(events[i].p.product));
    }
  }

  /** Which events those are: a slice whose build is not done, and a publication. */
  lemma LeavesTheProduct(key: string, w: World, w': World, e: Event)
    requires Happens(key, w, w', e) && !e.GcEvent? && (e.SliceEvent? ==> !BuildDone(e.r) || !e.p.hasOut)
    ensures SameAt(w.tags, w'.tags, ProductTag(key))
  {
    assert ProductTag(key)[0] == 's' && RomTag(key)[0] == 'r';
  }

  // ---- whole runs over the two copies of the INDEX ---------------------------------------

  /** What is really stored: the tags, and two copies of the INDEX. */
  datatype Disk = Disk(tags: Tags, copies: I.Copies<Record>, archive: Bytes)

  /** An INDEX that cannot be read has a fresh record for every campaign. */
  function RecordIn(c: I.Copies<Record>): Record {
    match I.Load(c)
    case None => Fresh
    case Some(rec) => rec
  }

  function View(d: Disk): World {
    World(d.tags, RecordIn(d.copies), d.archive)
  }

  /** An event, and where its INDEX save is cut. One that does not get to its save, or has none,
      counts as cut before the primary. */
  datatype DiskEvent = DiskEvent(e: Event, cut: I.Cut)

  /** What a slice does when its save takes effect; when not, the record and the archive stay. */
  ghost predicate DiskSlice(key: string, d: Disk, d': Disk, r: SliceResult, p: Packing, cut: I.Cut)
    requires ValidPacking(p)
  {
    var w := View(d);
    if cut == I.BeforePrimary then
      d'.copies == d.copies && d'.archive == d.archive && SliceStep(key, w, View(d'), r, p)
    else
      exists w' ::
        && SliceStep(key, w, w', r, p) && w'.rec == AfterSlice(key, w.rec, r) && d'.tags == w'.tags
        && d'.copies == I.Save(d.copies, w'.rec, cut)
        && d'.archive == if I.Effective(cut) then w'.archive else w.archive
  }

  ghost predicate DiskHappens(key: string, d: Disk, d': Disk, de: DiskEvent) {
    match de.e
    case SliceEvent(r, p) =>
      ValidPacking(p) && DiskSlice(key, d, d', r, p, de.cut) && LeavesGoodRecord(key, View(d), View(d'), p)
    case GcEvent => de.cut == I.BeforePrimary && d'.copies == d.copies && GcStep(View(d), View(d'))
    case PublishEvent =>
      && d'.archive == d.archive && SameElsewhere(d.tags, d'.tags, RomTag(key))
      && d'.copies == I.Save(d.copies, RecordIn(d.copies).(done := true), de.cut)
  }

  /** The INDEX write of a slice over its two copies is the atomic one of the model, wherever the
      save is cut, unless it is cut inside the primary copy while the backup lags. */
  lemma TwoCopiesTakeTheStep(key: string, w: World, w': World, r: SliceResult, p: Packing,
                             c: I.Copies<Record>, cut: I.Cut)
    requires ValidPacking(p) && SliceStep(key, w, w', r, p) && w'.rec == AfterSlice(key, w.rec, r)
    requires RecordIn(c) == w.rec && !(cut.InPrimary? && I.Lagging(c))
    ensures var now := if I.Effective(cut) then w' else w'.(rec := w.rec, archive := w.archive);
      RecordIn(I.Save(c, w'.rec, cut)) == now.rec && SliceStep(key, w, now, r, p)
  {
    I.SaveIsAtomicUnless(c, w'.rec, cut);
  }

  lemma DiskSliceIsASlice(key: string, d: Disk, d': Disk, r: SliceResult, p: Packing, cut: I.Cut)
    requires ValidPacking(p) && DiskSlice(key, d, d', r, p, cut) && !(cut.InPrimary? && I.Lagging(d.copies))
    ensures SliceStep(key, View(d), View(d'), r, p)
  {
    if cut != I.BeforePrimary {
      var w := View(d);
      var w' :| SliceStep(key, w, w', r, p) && w'.rec == AfterSlice(key, w.rec, r) && d'.tags == w'.tags
        && d'.copies == I.Save(d.copies, w'.rec, cut)
        && d'.archive == if I.Effective(cut) then w'.archive else w.archive;
      TwoCopiesTakeTheStep(key, w, w', r, p, d.copies, cut);
      assert View(d') == if I.Effective(cut) then w' else w'.(rec := w.rec, archive := w.archive);
    }
  }

  /** What happens on the disk happens, seen through the INDEX, in the model of one record. */
  lemma DiskEventIsAnEvent(key: string, d: Disk, d': Disk, de: DiskEvent)
    requires DiskHappens(key, d, d', de) && !(de.cut.InPrimary? && I.Lagging(d.copies))
    ensures Happens(key, View(d), View(d'), de.e)
  {
    match de.e
    case SliceEvent(r, p) => DiskSliceIsASlice(key, d, d', r, p, de.cut);
    case GcEvent =>
    case PublishEvent => I.SaveIsAtomicUnless(d.copies, RecordIn(d.copies).(done := true), de.cut);
  }

  lemma DiskEventKeepsUp(key: string, d: Disk, d': Disk, de: DiskEvent, cuts: seq<I.Cut>)
    requires DiskHappens(key, d, d', de) && cuts != [] && cuts[|cuts| - 1] == de.cut
    requires I.BackedUp(cuts[..|cuts| - 1]) ==> !I.Lagging(d.copies)
    ensures I.BackedUp(cuts) ==> !I.Lagging(d'.copies)
  {
    var rec := Fresh;
    if de.cut != I.BeforePrimary {
      rec :| d'.copies == I.Save(d.copies, rec, de.cut);
    }
    I.KeepsUp(d.copies, rec, cuts);
  }

  function CutsOf(events: seq<DiskEvent>): (cuts: seq<I.Cut>)
    ensures |cuts| == |events|
  {
    seq(|events|, i requires 0 <= i < |events| => events[i].cut)
  }

  ghost predicate IsDiskRun(key: string, disks: seq<Disk>, events: seq<DiskEvent>) {
    && |disks| == |events| + 1
    && disks[0].tags == map[] && disks[0].copies == I.Copies(I.Absent, I.Absent)
    && forall i | 0 <= i < |events| :: DiskHappens(key, disks[i], disks[i + 1], events[i])
  }

  lemma DiskFront(key: string, disks: seq<Disk>, events: seq<DiskEvent>)
    requires IsDiskRun(key, disks, events) && I.Spaced(CutsOf(events)) && events != []
    ensures var last := |events| - 1;
      && IsDiskRun(key, disks[..last + 1], events[..last])
      && CutsOf(events[..last]) == CutsOf(events)[..last] && I.Spaced(CutsOf(events[..last]))
      && (events[last].cut.InPrimary? ==> I.BackedUp(CutsOf(events[..last])))
  {
    var last := |events| - 1;
    assert CutsOf(events[..last]) == CutsOf(events)[..last];
    I.SpacedFront(CutsOf(events), last);
    assert CutsOf(events)[last] == events[last].cut;
  }

  lemma FreshIsSafe(key: string, d: Disk)
    requires d.tags == map[] && d.copies == I.Copies(I.Absent, I.Absent)
    ensures Safe(key, View(d)) && !I.Lagging(d.copies)
  {
  }

  /** The same safety over what is really stored: from an empty store without an INDEX, as long as
      no save is cut inside the primary copy while the backup may lag. */
  lemma {:induction false} EveryDiskRunIsSafe(key: string, disks: seq<Disk>, events: seq<DiskEvent>)
    requires IsDiskRun(key, disks, events) && I.Spaced(CutsOf(events))
    ensures Safe(key, View(disks[|events|]))
    ensures I.BackedUp(CutsOf(events)) ==> !I.Lagging(disks[|events|].copies)
  {
    if events != [] {
      var last := |events| - 1;
      var d, d', de := disks[last], disks[last + 1], events[last];
      DiskFront(key, disks, events);
      EveryDiskRunIsSafe(key, disks[..last + 1], events[..last]);
      DiskEventIsAnEvent(key, d, d', de);
      EventKeepsSafe(key, View(d), View(d'), de.e);
      DiskEventKeepsUp(key, d, d', de, CutsOf(events));
    } else {
      FreshIsSafe(key, disks[0]);
    }
  }

  // ---- the code --------------------------------------------------------------------------

  lemma Grow(before: Tags, mid: Tags, after: Tags, tag: string, p: Packing)
    requires ValidPacking(p) && Remains(before, mid, tag, p)
    requires tag in after ==>
      || after[tag] == map[]
      || (tag in mid && Submap(after[tag], mid[tag]))
      || Submap(after[tag], Full(p.out))
    ensures Remains(before, after, tag, p)
  {
    if tag in after && tag in mid && Submap(after[tag], mid[tag]) {
      if mid[tag] == map[] {
        assert after[tag] == map[];
      } else if tag in before && Submap(mid[tag], before[tag]) {
        SubmapTransitive(after[tag], mid[tag], before[tag]);
      } else if p.crit.parts != [] && Submap(mid[tag], Full(p.crit)) {
        SubmapTransitive(after[tag], mid[tag], Full(p.crit));
      } else {
        SubmapTransitive(after[tag], mid[tag], Full(p.out));
      }
    }
  }

  lemma CallCutElsewhere(before: Tags, after: Tags, tag: string, us: seq<Upload>)
    requires CallCut(before, after, tag, us)
    ensures SameElsewhere(before, after, tag)
  {
  }

  lemma CritRemains(before: Tags, after: Tags, tag: string, p: Packing)
    requires ValidPacking(p) && p.crit.parts != []
    requires H.CallStep(before, after, tag, H.Call(p.crit, CritFirst))
    ensures Remains(before, after, tag, p)
  {
    if tag in after {
      H.StepRemains(before, after, tag, H.Call(p.crit, CritFirst));
    }
  }

  lemma OutRemains(before: Tags, mid: Tags, after: Tags, tag: string, p: Packing)
    requires ValidPacking(p) && Remains(before, mid, tag, p)
    requires CallCut(mid, after, tag, Uploads(p.out, p.order))
    ensures Remains(before, after, tag, p)
  {
    if tag in after {
      H.StepRemains(mid, after, tag, H.Call(p.out, p.order));
    }
    Grow(before, mid, after, tag, p);
  }

  lemma BankedRemains(before: Tags, after: Tags, tag: string, p: Packing)
    requires ValidPacking(p) && tag in after && BankedWhole(after[tag], p.out, p.order)
    ensures Remains(before, after, tag, p)
  {
    BankedWholeRestores(after[tag], p.out, p.order);
  }

  // ---- what a slice asks of the store, in order ------------------------------------------

  predicate Flushes(p: Packing) {
    p.hasOut && p.crit.parts != []
  }

  function FlushOps(present: bool, tag: string, p: Packing): seq<Op>
    requires |p.crit.names| == |p.crit.parts|
  {
    BankOps(present, tag, Uploads(p.crit, CritFirst))
  }

  function OutOps(tag: string, p: Packing): seq<Op>
    requires |p.out.names| == |p.out.parts|
  {
    if p.hasOut then BankOps(true, tag, Uploads(p.out, p.order)) else []
  }

  function CreateOps(present: bool, tag: string, p: Packing): seq<Op>
    requires |p.out.names| == |p.out.parts|
  {
    (if present then [] else [Make(tag)]) + OutOps(tag, p)
  }

  /** The product bank has no manifest, which a full bank sends last. */
  function ProductOps(present: bool, tag: string, p: Packing): seq<Op>
    requires |p.product.names| == |p.product.parts|
  {
    BankOps(present, tag, Uploads(p.product, p.order)[..|p.product.parts| + 1])
  }

  /** A slice that is not done flushes first. */
  ghost function OutStoreOps(present: bool, tag: string, done: bool, p: Packing): seq<Op>
    requires ValidPacking(p)
  {
    if !done && Flushes(p) then FlushOps(present, tag, p) + CreateOps(true, tag, p) else CreateOps(present, tag, p)
  }

  lemma Logged(before: seq<Op>, a: seq<Op>, b: seq<Op>)
    ensures before + a + b == before + (a + b)
  {
  }

  /** One that is done banks the product last. */
  ghost function StoreOps(present: bool, productPresent: bool, tag: string, product: string, done: bool,
                          p: Packing): seq<Op>
    requires ValidPacking(p)
  {
    OutStoreOps(present, tag, done, p) + if done && p.hasOut then ProductOps(productPresent, product, p) else []
  }

  /** And the INDEX comes after everything. */
  ghost function SliceOps(key: string, tags: Tags, slice: nat, done: bool, p: Packing): seq<Op>
    requires ValidPacking(p)
  {
    var tag, product := StateTag(key, slice), ProductTag(key);
    StoreOps(tag in tags, product in tags, tag, product, done, p) + [WriteIndex]
  }

  lemma DoneIsBuildDone(r: SliceResult)
    ensures Classified(r) == Done <==> BuildDone(r)
  {
  }

  /** The tags while a slice is stored, and when it has been. */
  ghost predicate Storing(before: Tags, after: Tags, tag: string, product: string, done: bool, p: Packing, whole: bool)
    requires ValidPacking(p)
  {
    && SameBut(before, after, tag, product) && Remains(before, after, tag, p)
    && (!done || !p.hasOut ==> SameAt(before, after, product))
    && (whole ==> tag in after && Stored(AssetsOf(before, tag), after[tag], p))
    && (whole && done && p.hasOut ==> product in after && BankedWhole(after[product], p.product, p.order))
  }

  lemma StoringIsAStep(key: string, w: World, w': World, r: SliceResult, p: Packing, whole: bool)
    requires ValidPacking(p)
    requires Storing(w.tags, w'.tags, StateTag(key, w.rec.slice + 1), ProductTag(key), BuildDone(r), p, whole)
    requires || (w'.rec == w.rec && w'.archive == w.archive)
             || (&& whole && w'.rec == AfterSlice(key, w.rec, r)
                 && w'.archive == if p.hasOut then Archive(p.out) else w.archive)
    ensures SliceStep(key, w, w', r, p)
  {
  }

  class Forge {
    const key: string
    const store: FsStore
    var index: Record
    /** The out/ archive of the slice on record. */
    ghost var archive: Bytes

    constructor (key: string, store: FsStore)
      ensures this.key == key && this.store == store && index == Fresh
    {
      this.key, this.store, index, archive := key, store, Fresh, [];
    }

    ghost function Now(): World
      reads this, store
    {
      World(store.tags, index, archive)
    }

    /** bank_critical, its exceptions swallowed. */
    method FlushCritical(tag: string, p: Packing) returns (f: Fate)
      requires ValidPacking(p)
      modifies store
      ensures f != Raises && store.Excused(old(store.pos), old(store.refusals), f)
      ensures SameElsewhere(old(store.tags), store.tags, tag)
      ensures Remains(old(store.tags), store.tags, tag, p)
      ensures !p.hasOut ==> f == Works && store.tags == old(store.tags)
      ensures Flushes(p) && f == Works && store.refusals == old(store.refusals) ==>
        tag in store.tags && store.log == old(store.log) + FlushOps(tag in old(store.tags), tag, p)
      ensures !Flushes(p) ==> store.tags == old(store.tags) && store.log == old(store.log)
    {
      ghost var before := store.tags;
      var banked;
      f, banked := BankCritical(store, tag, p.crit, p.hasOut);
      if p.hasOut && p.crit.parts != [] {
        if f != Works {
          CallCutElsewhere(before, store.tags, tag, Uploads(p.crit, CritFirst));
        }
        CritRemains(before, store.tags, tag, p);
      }
      if f == Raises {
        f := Works;
      }
    }

    /** bank out/ into a tag that is there. */
    method BankOut(tag: string, p: Packing, ghost before: Tags) returns (f: Fate)
      requires ValidPacking(p) && tag in store.tags
      requires Remains(before, store.tags, tag, p)
      modifies store
      ensures SameElsewhere(old(store.tags), store.tags, tag)
      ensures Remains(before, store.tags, tag, p)
      ensures f == Works ==> tag in store.tags && Stored(old(store.tags)[tag], store.tags[tag], p)
      ensures store.Excused(old(store.pos), old(store.refusals), f)
      ensures f == Works ==> store.log == old(store.log) + OutOps(tag, p)
    {
      ghost var mid := store.tags;
      var landed;
      f, landed := Bank(store, tag, p.out, p.order, p.hasOut);
      if f != Works {
        CallCutElsewhere(mid, store.tags, tag, Uploads(p.out, p.order));
        OutRemains(before, mid, store.tags, tag, p);
      } else if p.hasOut {
        BankedRemains(before, store.tags, tag, p);
      }
    }

    /** Create the tag if it is absent. */
    method EnsureTag(tag: string, p: Packing, ghost before: Tags) returns (f: Fate)
      requires ValidPacking(p) && Remains(before, store.tags, tag, p)
      modifies store
      ensures SameElsewhere(old(store.tags), store.tags, tag)
      ensures Remains(before, store.tags, tag, p)
      ensures f == Works ==> tag in store.tags && store.tags[tag] == AssetsOf(old(store.tags), tag)
      ensures store.Excused(old(store.pos), old(store.refusals), f)
      ensures f == Works ==> store.log == old(store.log) + if tag in old(store.tags) then [] else [Make(tag)]
    {
      f := Works;
      if tag !in store.tags {
        f := store.Create(tag);
      }
    }

    /** Create the tag if it is absent, then bank out/ into it. */
    method CreateAndBank(tag: string, p: Packing, ghost before: Tags) returns (f: Fate)
      requires ValidPacking(p)
      requires Remains(before, store.tags, tag, p)
      modifies store
      ensures SameElsewhere(old(store.tags), store.tags, tag)
      ensures Remains(before, store.tags, tag, p)
      ensures f == Works ==> tag in store.tags && Stored(AssetsOf(old(store.tags), tag), store.tags[tag], p)
      ensures store.Excused(old(store.pos), old(store.refusals), f)
      ensures f == Works ==>
        store.log == old(store.log) + CreateOps(tag in old(store.tags), tag, p)
    {
      ghost var made := if tag in store.tags then [] else [Make(tag)];
      f := EnsureTag(tag, p, before);
      if f == Works {
        f := BankOut(tag, p, before);
        Logged(old(store.log), made, OutOps(tag, p));
      }
    }

    /** bank_product_state: a bank of its own, under its own tag, complete but for a manifest. */
    method BankProduct(p: Packing) returns (f: Fate)
      requires ValidPacking(p)
      modifies store
      ensures SameElsewhere(old(store.tags), store.tags, ProductTag(key))
      ensures !p.hasOut ==> f == Works && store.tags == old(store.tags) && store.log == old(store.log)
      ensures f == Works && p.hasOut ==>
        ProductTag(key) in store.tags && BankedWhole(store.tags[ProductTag(key)], p.product, p.order)
      ensures store.Excused(old(store.pos), old(store.refusals), f)
      ensures f == Works && p.hasOut ==>
        store.log == old(store.log) + ProductOps(ProductTag(key) in old(store.tags), ProductTag(key), p)
    {
      f := Works;
      if p.hasOut {
        f := BankPrefix(store, ProductTag(key), Uploads(p.product, p.order)[..|p.product.parts| + 1]);
      }
    }

    /** The critical flush unless the build is done, then the bank of out/. */
    method StoreOut(tag: string, done: bool, p: Packing) returns (f: Fate)
      requires ValidPacking(p)
      modifies store
      ensures SameElsewhere(old(store.tags), store.tags, tag)
      ensures Remains(old(store.tags), store.tags, tag, p)
      ensures f == Works ==> tag in store.tags && Stored(AssetsOf(old(store.tags), tag), store.tags[tag], p)
      ensures store.Excused(old(store.pos), old(store.refusals), f)
      ensures f == Works && store.refusals == old(store.refusals) ==>
        store.log == old(store.log) + OutStoreOps(tag in old(store.tags), tag, done, p)
    {
      ghost var before := store.tags;
      f := Works;
      if !done {
        f := FlushCritical(tag, p);
        if f != Works {
          return;
        }
      }
      f := CreateAndBank(tag, p, before);
      if !done && Flushes(p) {
        Logged(old(store.log), FlushOps(tag in before, tag, p), CreateOps(true, tag, p));
      }
    }

    /** Everything _run_single_slice stores before it writes the INDEX: the critical flush
        unless the build is done, the bank, and the product state when it is. */
    method StoreSlice(tag: string, done: bool, p: Packing) returns (f: Fate)
      requires ValidPacking(p) && tag != ProductTag(key)
      modifies store
      ensures Storing(old(store.tags), store.tags, tag, ProductTag(key), done, p, f == Works)
      ensures store.Excused(old(store.pos), old(store.refusals), f)
      ensures f == Works && store.refusals == old(store.refusals) ==>
        store.log == old(store.log) +
          StoreOps(tag in old(store.tags), ProductTag(key) in old(store.tags), tag, ProductTag(key), done, p)
    {
      ghost var before := store.tags;
      f := StoreOut(tag, done, p);
      if f == Works && done {
        f := BankProduct(p);
        Logged(old(store.log), OutStoreOps(tag in before, tag, done, p),
               ProductOps(ProductTag(key) in before, ProductTag(key), p));
      }
    }

    /** The INDEX write that ends a slice. */
    method WriteRecord(r: SliceResult, p: Packing) returns (f: Fate)
      modifies this, store`pos, store`log, store`refusals
      ensures f == Works ==> index == AfterSlice(key, old(index), r)
      ensures f == Works ==> archive == if p.hasOut then Archive(p.out) else old(archive)
      ensures f != Works ==> index == old(index) && archive == old(archive)
      ensures store.Excused(old(store.pos), old(store.refusals), f)
      ensures store.log == old(store.log) + [WriteIndex]
    {
      f := store.SaveIndex();
      if f == Works {
        index := AfterSlice(key, index, r);
        archive := if p.hasOut then Archive(p.out) else archive;
      }
    }

    /** _run_single_slice after the engine has returned: bank, then write the INDEX. Any exception
        but those of the flush, a reset or a manifest ends it. */
    method RunSingleSlice(r: SliceResult, p: Packing) returns (f: Fate, rc: int)
      requires ValidPacking(p)
      modifies this, store
      ensures SliceStep(key, old(Now()), Now(), r, p)
      ensures f == Works ==> index == AfterSlice(key, old(index), r) && rc == if Classified(r) == Error then 1 else 0
      ensures f != Works ==> index == old(index)
      ensures store.Excused(old(store.pos), old(store.refusals), f)
      ensures f == Works && store.refusals == old(store.refusals) ==>
        store.log == old(store.log) + SliceOps(key, old(store.tags), old(index).slice + 1, BuildDone(r), p)
    {
      rc := 0;
      ghost var w, tag := Now(), StateTag(key, index.slice + 1);
      SliceTagIsApart(key, index.slice + 1);
      DoneIsBuildDone(r);
      f := StoreSlice(StateTag(key, index.slice + 1), Classified(r) == Done, p);
      ghost var whole := f == Works;
      if f == Works {
        f := WriteRecord(r, p);
        Logged(old(store.log), StoreOps(tag in w.tags, ProductTag(key) in w.tags, tag, ProductTag(key),
                                        BuildDone(r), p), [WriteIndex]);
      }
      StoringIsAStep(key, w, Now(), r, p, whole);
      if f == Works {
        rc := if Classified(r) == Error then 1 else 0;
      }
    }
  }

  // ---- collecting ------------------------------------------------------------------------

  /** gc_state with the record's own bank as the active one, cut anywhere. */
  method Collect(forge: Forge, keep: int) returns (f: Fate)
    requires Named(forge.key, forge.index) && "" !in forge.store.tags
    modifies forge.store
    ensures forge.store.Excused(old(forge.store.pos), old(forge.store.refusals), f) && f != Raises
    ensures GcStep(old(forge.Now()), forge.Now())
    ensures SameAt(old(forge.store.tags), forge.store.tags, ProductTag(forge.key))
    ensures f == Works ==>
      Gc.Collected(old(forge.store.tags), forge.store.tags, forge.key, forge.index.stateTag, keep)
  {
    if forge.index.slice > 0 {
      SliceTagIsApart(forge.key, forge.index.slice);
    }
    ProductTagIsApart(forge.key);
    var dropped;
    f, dropped := Gc.GcState(forge.store, forge.key, forge.index.stateTag, keep);
  }

  /** A store without the orphans of a campaign, its active tag aside. */
  function Purged(tags: Tags, key: string, active: string): Tags {
    tags - Gc.Orphans(tags, key, {active})
  }

  /** The orphan purge that starts every slot. */
  method Purge(forge: Forge) returns (f: Fate)
    modifies forge.store
    ensures forge.store.Excused(old(forge.store.pos), old(forge.store.refusals), f) && f != Raises
    ensures GcStep(old(forge.Now()), forge.Now())
    ensures SameAt(old(forge.store.tags), forge.store.tags, ProductTag(forge.key))
    ensures f == Works ==> forge.store.tags == Purged(old(forge.store.tags), forge.key, forge.index.stateTag)
  {
    ProductTagIsApart(forge.key);
    var dropped;
    f, dropped := Gc.GcOrphans(forge.store, forge.key, {forge.index.stateTag});
  }
}
