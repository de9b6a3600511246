/** relay.bank, relay.bank_critical and relay.restore over a store whose machine may die at any
    operation. */
module Relay {
  import opened Store
  import opened Banks

  // ---- banking ---------------------------------------------------------------------------

  /** A call was cut: its tag is what a removal left of it, or a prefix of the new uploads. */
  ghost predicate CallCut(before: Tags, after: Tags, tag: string, us: seq<Upload>) {
    || Gnawed(before, after, tag)
    || (&& SameElsewhere(before, after, tag) && tag in after
        && exists k | 0 <= k <= |us| :: after[tag] == Uploaded(us[..k]))
  }

  /** The requests of these uploads, in their order. */
  function UploadOps(tag: string, us: seq<Upload>): (ops: seq<Op>)
    ensures |ops| == |us|
  {
    seq(|us|, i requires 0 <= i < |us| => Send(tag, us[i].0))
  }

  /** The requests of a whole bank: the tag made fresh, then its uploads. */
  function BankOps(present: bool, tag: string, us: seq<Upload>): seq<Op> {
    (if present then [Drop(tag), Make(tag)] else [Make(tag)]) + UploadOps(tag, us)
  }

  /** Uploads in list order into a tag that is absent or empty. */
  method UploadAll(store: FsStore, tag: string, us: seq<Upload>) returns (f: Fate, done: nat)
    requires AssetsOf(store.tags, tag) == map[]
    modifies store
    ensures done <= |us| && (f == Works <==> done == |us|)
    ensures store.tags == old(store.tags) || store.tags == old(store.tags)[tag := Uploaded(us[..done])]
    ensures done > 0 ==> store.tags == old(store.tags)[tag := Uploaded(us[..done])]
    ensures store.Excused(old(store.pos), old(store.refusals), f)
    ensures f == Works ==> store.log == old(store.log) + UploadOps(tag, us)
    ensures f != Works ==> store.log == old(store.log) + UploadOps(tag, us[..done + 1])
    ensures f == Works ==> store.refusals == old(store.refusals)
  {
    f, done := Works, 0;
    while done < |us|
      invariant done <= |us| && f == Works && old(store.pos) <= store.pos
      invariant AssetsOf(store.tags, tag) == Uploaded(us[..done])
      invariant done == 0 ==> store.tags == old(store.tags)
      invariant done > 0 ==> store.tags == old(store.tags)[tag := Uploaded(us[..done])]
      invariant store.log == old(store.log) + UploadOps(tag, us[..done]) && store.refusals == old(store.refusals)
    {
      f := store.Put(tag, us[done].0, us[done].1);
      assert UploadOps(tag, us[..done + 1]) == UploadOps(tag, us[..done]) + [Send(tag, us[done].0)];
      if f != Works {
        return;
      }
      assert us[..done + 1][..done] == us[..done];
      done := done + 1;
    }
    assert us[..done] == us;
  }

  /** The tag is made fresh; an exception from a reset is swallowed, one from a create is not. */
  method Prepare(store: FsStore, tag: string, swallow: bool) returns (f: Fate)
    modifies store
    ensures f == Works ==> AssetsOf(store.tags, tag) == map[]
    ensures f == Works ==> store.tags == old(store.tags)[tag := map[]] || store.tags == old(store.tags) - {tag}
    ensures Gnawed(old(store.tags), store.tags, tag) || store.tags == old(store.tags)[tag := map[]]
    ensures store.Excused(old(store.pos), old(store.refusals), f)
    ensures f == Raises ==> tag !in old(store.tags) || !swallow
    ensures f == Works ==>
      store.log == old(store.log) + if tag in old(store.tags) then [Drop(tag), Make(tag)] else [Make(tag)]
    ensures f == Works && !swallow ==> store.refusals == old(store.refusals)
  {
    if tag in store.tags {
      f := store.Reset(tag);
      if f == Raises && swallow {
        f := Works;
      }
    } else {
      f := store.Create(tag);
    }
  }

  lemma Overwrite(before: Tags, clean: Tags, tag: string, assets: Assets)
    requires clean == before[tag := map[]] || clean == before - {tag}
    ensures clean[tag := assets] == before[tag := assets]
  {
  }

  lemma CutAfterPreparing(before: Tags, clean: Tags, after: Tags, tag: string, us: seq<Upload>, k: nat)
    requires clean == before[tag := map[]] || clean == before - {tag}
    requires k <= |us|
    requires after == clean || after == clean[tag := Uploaded(us[..k])]
    ensures CallCut(before, after, tag, us)
  {
    assert us[..0] == [];
    if after == before[tag := map[]] {
      assert after[tag] == Uploaded(us[..0]);
    }
  }

  lemma CutWhilePreparing(before: Tags, after: Tags, tag: string, us: seq<Upload>)
    requires Gnawed(before, after, tag) || after == before[tag := map[]]
    ensures CallCut(before, after, tag, us)
  {
    if after == before[tag := map[]] {
      CutAfterPreparing(before, after, after, tag, us, 0);
    }
  }

  /** All uploads must land except the last, the manifest, which may fail with a warning. */
  method UploadBank(store: FsStore, tag: string, us: seq<Upload>) returns (f: Fate, landed: nat)
    requires AssetsOf(store.tags, tag) == map[] && |us| >= 2
    modifies store
    ensures f == Works ==> |us| - 1 <= landed
    ensures f == Raises ==> landed < |us| - 1
    ensures landed <= |us|
    ensures store.tags == old(store.tags) || store.tags == old(store.tags)[tag := Uploaded(us[..landed])]
    ensures landed > 0 ==> store.tags == old(store.tags)[tag := Uploaded(us[..landed])]
    ensures store.Excused(old(store.pos), old(store.refusals), f)
    ensures f == Works ==> store.log == old(store.log) + UploadOps(tag, us)
    ensures |store.log| > |old(store.log)|
    ensures f == Works && store.refusals == old(store.refusals) ==> landed == |us|
  {
    var last := |us| - 1;
    f, landed := UploadAll(store, tag, us[..last]);
    assert us[..last][..landed] == us[..landed];
    if f != Works {
      return;
    }
    f := store.Put(tag, us[last].0, us[last].1);
    assert UploadOps(tag, us) == UploadOps(tag, us[..last]) + [Send(tag, us[last].0)];
    if f == Works {
      landed := |us|;
      assert us[..|us|] == us;
    } else if f == Raises {
      f := Works;
    }
  }

  ghost predicate Emptied(before: Tags, now: Tags, tag: string) {
    now == before[tag := map[]] || now == before - {tag}
  }

  /** The uploads of a bank whose tag has just been made fresh. */
  method FillBank(store: FsStore, tag: string, us: seq<Upload>, ghost before: Tags) returns (f: Fate, landed: nat)
    requires Emptied(before, store.tags, tag) && |us| >= 2
    modifies store
    ensures f == Works ==> |us| - 1 <= landed <= |us| && store.tags == before[tag := Uploaded(us[..landed])]
    ensures f != Works ==> CallCut(before, store.tags, tag, us)
    ensures f == Raises ==> landed < |us| - 1
    ensures store.Excused(old(store.pos), old(store.refusals), f)
    ensures f == Works ==> store.log == old(store.log) + UploadOps(tag, us)
    ensures |store.log| > |old(store.log)|
    ensures f == Works && store.refusals == old(store.refusals) ==> landed == |us|
  {
    ghost var clean := store.tags;
    f, landed := UploadBank(store, tag, us);
    if f == Works {
      Overwrite(before, clean, tag, Uploaded(us[..landed]));
    } else {
      CutAfterPreparing(before, clean, store.tags, tag, us, landed);
    }
  }

  /** A tag made fresh, an exception from a reset ignored, and filled. */
  method BankUploads(store: FsStore, tag: string, us: seq<Upload>) returns (f: Fate, landed: nat)
    requires |us| >= 2
    modifies store
    ensures f == Works ==>
      |us| - 1 <= landed <= |us| && store.tags == old(store.tags)[tag := Uploaded(us[..landed])]
    ensures f != Works ==> CallCut(old(store.tags), store.tags, tag, us)
    ensures store.Excused(old(store.pos), old(store.refusals), f)
    ensures f == Raises ==> landed < |us| - 1
    ensures f == Raises && tag in old(store.tags) ==> |store.log| > |old(store.log)| + 2
    ensures f == Works ==> store.log == old(store.log) + BankOps(tag in old(store.tags), tag, us)
    ensures f == Works && store.refusals == old(store.refusals) ==> landed == |us|
  {
    ghost var before := store.tags;
    landed := 0;
    f := Prepare(store, tag, true);
    if f != Works {
      CutWhilePreparing(before, store.tags, tag, us);
      return;
    }
    f, landed := FillBank(store, tag, us, before);
  }

  /** bank: everything but the manifest must land. `landed` counts the assets under the tag. An
      exception from the reset does not end it, and one from the manifest neither. */
  method Bank(store: FsStore, tag: string, run: Run, order: Order, hasOut: bool) returns (f: Fate, landed: nat)
    requires |run.names| == |run.parts| && order != CritFirst
    modifies store
    ensures !hasOut ==> f == Works && landed == 0 && store.tags == old(store.tags) && store.log == old(store.log)
    ensures hasOut && f == Works ==>
      && |run.parts| + 1 <= landed <= |run.parts| + 2
      && store.tags == old(store.tags)[tag := Uploaded(Uploads(run, order)[..landed])]
    ensures f != Works ==> CallCut(old(store.tags), store.tags, tag, Uploads(run, order))
    ensures store.Excused(old(store.pos), old(store.refusals), f)
    ensures f == Raises ==> landed <= |run.parts|
    ensures f == Raises && tag in old(store.tags) ==> |store.log| > |old(store.log)| + 2
    ensures hasOut && f == Works ==>
      store.log == old(store.log) + BankOps(tag in old(store.tags), tag, Uploads(run, order))
    ensures hasOut && f == Works && store.refusals == old(store.refusals) ==> landed == |run.parts| + 2
  {
    f, landed := Works, 0;
    if hasOut {
      f, landed := BankUploads(store, tag, Uploads(run, order));
    }
  }

  /** A tag made fresh, an exception from a reset ignored, and filled, any other ending it. */
  method BankPrefix(store: FsStore, tag: string, us: seq<Upload>) returns (f: Fate)
    requires us != []
    modifies store
    ensures SameElsewhere(old(store.tags), store.tags, tag)
    ensures f == Works ==> tag in store.tags && store.tags[tag] == Uploaded(us)
    ensures store.Excused(old(store.pos), old(store.refusals), f)
    ensures f == Raises && tag in old(store.tags) ==> |store.log| > |old(store.log)| + 2
    ensures f == Works ==> store.log == old(store.log) + BankOps(tag in old(store.tags), tag, us)
  {
    f := Prepare(store, tag, true);
    if f == Works {
      var landed;
      f, landed := UploadAll(store, tag, us);
      assert us[..|us|] == us;
    }
  }

  method FillAll(store: FsStore, tag: string, us: seq<Upload>, ghost before: Tags) returns (f: Fate)
    requires Emptied(before, store.tags, tag) && us != []
    modifies store
    ensures f == Works ==> store.tags == before[tag := Uploaded(us)]
    ensures f != Works ==> CallCut(before, store.tags, tag, us)
    ensures store.Excused(old(store.pos), old(store.refusals), f)
    ensures f == Works ==>
      store.refusals == old(store.refusals) && store.log == old(store.log) + UploadOps(tag, us)
  {
    ghost var clean := store.tags;
    var landed;
    f, landed := UploadAll(store, tag, us);
    if f == Works {
      assert us[..landed] == us;
      Overwrite(before, clean, tag, Uploaded(us));
    } else {
      CutAfterPreparing(before, clean, store.tags, tag, us, landed);
    }
  }

  /** A tag made fresh and filled, any exception ending it. */
  method BankAll(store: FsStore, tag: string, us: seq<Upload>) returns (f: Fate)
    requires us != []
    modifies store
    ensures f == Works ==> store.tags == old(store.tags)[tag := Uploaded(us)]
    ensures f != Works ==> CallCut(old(store.tags), store.tags, tag, us)
    ensures store.Excused(old(store.pos), old(store.refusals), f)
    ensures f == Works ==> store.refusals == old(store.refusals)
    ensures f == Works ==> store.log == old(store.log) + BankOps(tag in old(store.tags), tag, us)
  {
    ghost var before := store.tags;
    f := Prepare(store, tag, false);
    if f != Works {
      CutWhilePreparing(before, store.tags, tag, us);
      return;
    }
    f := FillAll(store, tag, us, before);
  }

  /** bank_critical: manifest first, then sums, then parts. Nothing to bank is not an error; any
      exception ends it. */
  method BankCritical(store: FsStore, tag: string, run: Run, hasOut: bool) returns (f: Fate, banked: bool)
    requires |run.names| == |run.parts|
    modifies store
    ensures !hasOut || run.parts == [] ==>
      f == Works && !banked && store.tags == old(store.tags) && store.log == old(store.log)
    ensures hasOut && run.parts != [] && f == Works ==>
      banked && store.tags == old(store.tags)[tag := Uploaded(Uploads(run, CritFirst))]
    ensures f != Works ==> CallCut(old(store.tags), store.tags, tag, Uploads(run, CritFirst))
    ensures store.Excused(old(store.pos), old(store.refusals), f)
    ensures f == Works ==> store.refusals == old(store.refusals)
    ensures hasOut && run.parts != [] && f == Works ==>
      store.log == old(store.log) + BankOps(tag in old(store.tags), tag, Uploads(run, CritFirst))
  {
    f, banked := Works, false;
    if hasOut && run.parts != [] {
      f := BankAll(store, tag, Uploads(run, CritFirst));
      banked := f == Works;
    }
  }
}
