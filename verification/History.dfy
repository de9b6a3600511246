/** Whole histories of banking calls on one tag, each cut off anywhere: what a restore of the
    tag can and cannot give back. */
module History {
  import opened Prelude
  import opened Store
  import opened Banks
  import opened Relay
  import opened Restoring
  import P = Pipeline

  /** One call of bank or bank_critical: a packing and the order its assets go up in. */
  datatype Call = Call(run: Run, order: Order)

  ghost predicate ValidCall(c: Call) {
    ValidRun(c.run) && (c.order == CritFirst <==> c.run.crit)
  }

  /** A call that completes, completes but for its manifest, or is cut at any operation, with
      the store's other tags left alone; an empty tag may also be created in between. */
  ghost predicate CallStep(before: Tags, after: Tags, tag: string, c: Call)
    requires ValidCall(c)
  {
    || CallCut(before, after, tag, Uploads(c.run, c.order))
    || after == before[tag := Uploaded(Uploads(c.run, c.order))]
    || (tag !in before && after == before[tag := map[]])
  }

  /** A call that returns, its manifest landed or not, is such a step too. */
  lemma ReturnIsAStep(before: Tags, after: Tags, tag: string, c: Call, landed: nat)
    requires ValidCall(c) && landed <= |c.run.parts| + 2
    requires after == before[tag := Uploaded(Uploads(c.run, c.order)[..landed])]
    ensures CallStep(before, after, tag, c)
  {
    assert SameElsewhere(before, after, tag) && after[tag] == Uploaded(Uploads(c.run, c.order)[..landed]);
  }

  ghost predicate IsHistory(states: seq<Tags>, tag: string, calls: seq<Call>) {
    && |states| == |calls| + 1
    && (forall i | 0 <= i < |calls| :: ValidCall(calls[i]) && CallStep(states[i], states[i + 1], tag, calls[i]))
  }

  lemma StepRemains(before: Tags, after: Tags, tag: string, c: Call)
    requires ValidCall(c) && CallStep(before, after, tag, c) && tag in after
    ensures (tag in before && Submap(after[tag], before[tag])) || Submap(after[tag], Full(c.run))
  {
    var us := Uploads(c.run, c.order);
    if SameElsewhere(before, after, tag) && exists k | 0 <= k <= |us| :: after[tag] == Uploaded(us[..k]) {
      var k :| 0 <= k <= |us| && after[tag] == Uploaded(us[..k]);
      UploadsWithinFull(c.run, c.order, k);
    } else if after == before[tag := Uploaded(us)] {
      UploadsWithinFull(c.run, c.order, |us|);
      assert us[..|us|] == us;
    }
  }

  /** After any history the assets under the tag all come from a single call. */
  lemma {:induction false} SingleSource(states: seq<Tags>, tag: string, calls: seq<Call>) returns (source: nat)
    requires IsHistory(states, tag, calls)
    requires tag !in states[0] && tag in states[|calls|]
    ensures source < |calls| && Submap(states[|calls|][tag], Full(calls[source].run))
  {
    if calls == [] {
      assert false;
    } else {
      var last := |calls| - 1;
      StepRemains(states[last], states[last + 1], tag, calls[last]);
      if Submap(states[last + 1][tag], Full(calls[last].run)) {
        source := last;
      } else {
        source := SingleSource(states[..last + 1], tag, calls[..last]);
      }
    }
  }

  /** Restore soundness over histories, never a mix of two runs: a successful restore that could
      check its parts has fed the whole archive of one call; one whose parts came as stored has
      fed those parts of one call that are there. */
  lemma HistoryRestoresOneRun(states: seq<Tags>, tag: string, calls: seq<Call>, net: Net) returns (source: nat)
    requires IsHistory(states, tag, calls)
    requires tag !in states[0] && tag in states[|calls|]
    ensures source < |calls|
    ensures var assets, run := states[|calls|][tag], calls[source].run; var a := AttemptOn(assets, net);
      && (a.Unpacking? && AllSound(a.c) && Checkable(assets, net) ==> Fed(a.c) == Archive(run))
      && (a.Unpacking? && AllSound(a.c) && net.parts == map[] ==>
            Fed(a.c) == Flatten(KeptParts(run.names, run.parts, assets.Keys)))
  {
    source := SingleSource(states, tag, calls);
    RestoreSound(states[|calls|][tag], calls[source].run, net);
  }

  /** What one cut bank restores to over an honest network: a streamed bank or a critical set
      restores exactly when it was accepted; a staged bank from k = n + 1 on, although it is
      accepted from k = 2 on. */
  lemma CutRestores(c: Call, k: nat)
    requires ValidCall(c) && k <= |c.run.parts| + 2
    ensures var assets, n := Uploaded(Uploads(c.run, c.order)[..k]), |c.run.parts|;
      var a := AttemptOn(assets, Honest);
      && (a.Unpacking? && AllSound(a.c) <==> k >= if c.order == CritFirst then n + 2 else n + 1)
      && (BankIsComplete(assets) != None && !(a.Unpacking? && AllSound(a.c)) <==> c.order == Stage && 2 <= k <= n)
  {
    CutContents(c.run, c.order, k);
    RestoreExact(Uploaded(Uploads(c.run, c.order)[..k]), c.run);
    VerdictOfCut(c.run, c.order, k);
  }

  lemma SoundPrefix(c: P.Config, parts: seq<Bytes>, m: nat)
    requires P.ValidConfig(c) && |c.parts| == |parts| && m <= |parts|
    requires forall i: nat | i < |parts| :: P.Sound(c, i) <==> i < m
    requires forall i: nat | i < m :: P.Data(c)[i] == parts[i]
    ensures Fed(c) == Flatten(parts[..m])
  {
    var k := P.FirstUnsound(c, 0);
    assert k < |parts| ==> !P.Sound(c, k);
    assert m < |parts| ==> !P.Sound(c, m);
    assert P.Data(c)[..m] == parts[..m];
  }

  lemma StagedPartIsSound(run: Run, k: nat, i: nat)
    requires ValidRun(run) && 2 <= k <= |run.parts| + 2 && i < |run.parts|
    ensures var c := ConfigFor(Uploaded(Uploads(run, Stage)[..k]), Honest, ListedLines(Entries(run)));
      && P.ValidConfig(c) && |c.parts| == |run.parts|
      && (P.Sound(c, i) <==> i < k - 1) && (P.Sound(c, i) ==> P.Data(c)[i] == run.parts[i])
  {
    CutContents(run, Stage, k);
    PartLanded(run, Stage, k, i);
    SumsPlanSound(Uploaded(Uploads(run, Stage)[..k]), run, Honest, i);
  }

  lemma StagedPartsFed(run: Run, k: nat)
    requires ValidRun(run) && 2 <= k <= |run.parts| + 2
    ensures var c := ConfigFor(Uploaded(Uploads(run, Stage)[..k]), Honest, ListedLines(Entries(run)));
      P.ValidConfig(c) && Fed(c) == Flatten(run.parts[..Min(k - 1, |run.parts|)])
  {
    StagedPartIsSound(run, k, 0);
    var c := ConfigFor(Uploaded(Uploads(run, Stage)[..k]), Honest, ListedLines(Entries(run)));
    forall i: nat | i < |run.parts|
      ensures (P.Sound(c, i) <==> i < k - 1) && (P.Sound(c, i) ==> P.Data(c)[i] == run.parts[i])
    {
      StagedPartIsSound(run, k, i);
    }
    SoundPrefix(c, run.parts, Min(k - 1, |run.parts|));
  }

  /** What a restore of a staged bank cut after k assets writes into out/ over an honest network,
      whether it then succeeds or not: from k == 2 on, the parts that had landed. */
  lemma StagedCutFeeds(run: Run, k: nat)
    requires ValidRun(run) && !run.crit && k <= |run.parts| + 2
    ensures var a := AttemptOn(Uploaded(Uploads(run, Stage)[..k]), Honest);
      && (k < 2 ==> a == Refused)
      && (k >= 2 ==> a.Unpacking? && Fed(a.c) == Flatten(run.parts[..Min(k - 1, |run.parts|)]))
  {
    var assets := Uploaded(Uploads(run, Stage)[..k]);
    CutContents(run, Stage, k);
    VerdictOfCut(run, Stage, k);
    AttemptOnRemains(assets, run, Honest);
    if k >= 2 {
      StagedPartsFed(run, k);
    }
  }

  lemma StagedCutKeeps(run: Run, k: nat)
    requires ValidRun(run) && 1 <= k <= |run.parts| + 2
    ensures KeptParts(run.names, run.parts, Uploaded(Uploads(run, Stage)[..k]).Keys) ==
            run.parts[..Min(k - 1, |run.parts|)]
  {
    var keys, m := Uploaded(Uploads(run, Stage)[..k]).Keys, Min(k - 1, |run.parts|);
    forall i | 0 <= i < |run.names|
      ensures run.names[i] in keys <==> i < m
    {
      PartLanded(run, Stage, k, i);
    }
    KeptPrefix(run.names, run.parts, keys, m);
  }

  /** A staged bank cut after k assets, restored while its sums file fails to arrive: it reports
      success from the first part on, and feeds the parts that had landed. */
  lemma LegacyWithoutSumsIsUnchecked(run: Run, k: nat)
    requires ValidRun(run) && !run.crit && k <= |run.parts| + 2
    ensures var a := AttemptOn(Uploaded(Uploads(run, Stage)[..k]), Honest.(sums := false));
      && (a.Unpacking? && AllSound(a.c) <==> k >= 2)
      && (k >= 2 ==> Fed(a.c) == Flatten(run.parts[..Min(k - 1, |run.parts|)]))
  {
    var assets, net := Uploaded(Uploads(run, Stage)[..k]), Honest.(sums := false);
    CutContents(run, Stage, k);
    RestoredWithoutSums(assets, run, net);
    if k >= 2 {
      RestoreSound(assets, run, net);
      StagedCutKeeps(run, k);
    }
  }
}
