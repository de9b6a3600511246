/** relay.restore: the verdict, the download plan of chunker.unpack_from_store, and what a
    successful restore has written into out/. */
module Restoring {
  import opened Prelude
  import opened Sums
  import opened Store
  import opened Banks
  import P = Pipeline

  /** How the downloads of one restore go: whether the manifest (for the verdict, then again
      for its kind) and the sums file arrive, and which parts arrive otherwise than stored. */
  datatype Net = Net(verdict: bool, kind: bool, sums: bool, parts: map<string, P.Delivery>)

  const Honest := Net(true, true, true, map[])

  function Judge(assets: Assets, net: Net): Option<Verdict> {
    if MANIFEST in assets && !net.verdict then None else BankIsComplete(assets)
  }

  /** bank_kind(...) == "crit", asked only of a bank accepted by its manifest. */
  predicate SeenAsCritical(assets: Assets, net: Net) {
    && Judge(assets, net) == Some(ByManifest) && net.kind
    && MANIFEST in assets && assets[MANIFEST].Json? && assets[MANIFEST].kind == "crit"
  }

  // ---- the download plan -----------------------------------------------------------------

  /** The lines of the sums file that name a part of this prefix; none when it is missing or
      does not arrive. */
  function PlannedLines(assets: Assets, prefix: string, net: Net): seq<Entry> {
    if net.sums && SUMS in assets && assets[SUMS].Text?
    then Select(ReadEntries(assets[SUMS].text), Mark(prefix))
    else []
  }

  function MatchingNames(assets: Assets, prefix: string): set<string> {
    set a | a in assets && Contains(a, Mark(prefix))
  }

  lemma {:induction false} ListingExists(names: set<string>) returns (listing: seq<string>)
    ensures Elements(listing) == names && Increasing(listing)
  {
    if names == {} {
      listing := [];
    } else {
      var x :| x in names;
      var rest := ListingExists(names - {x});
      listing := InsertName(x, rest);
    }
  }

  ghost function SortedNames(names: set<string>): (r: seq<string>)
    ensures Elements(r) == names && Increasing(r)
  {
    assert exists r: seq<string> :: Elements(r) == names && Increasing(r) by {
      var listing := ListingExists(names);
    }
    var r: seq<string> :| Elements(r) == names && Increasing(r);
    r
  }

  function ListedLines(lines: seq<Entry>): (r: seq<P.Listed>)
    ensures |r| == |lines|
  {
    seq(|lines|, i requires 0 <= i < |lines| =>
      assert lines[i] in lines;
      P.Listed(lines[i].name, Some(Table(lines)[lines[i].name])))
  }

  function ListedNames(names: seq<string>): (r: seq<P.Listed>)
    ensures |r| == |names|
  {
    seq(|names|, i requires 0 <= i < |names| => P.Listed(names[i], None))
  }

  function Fetch(assets: Assets, net: Net, name: string): P.Delivery {
    if name !in assets || !assets[name].Blob? then P.Fails
    else if name in net.parts then net.parts[name]
    else P.Delivered(assets[name].data)
  }

  function ConfigFor(assets: Assets, net: Net, plan: seq<P.Listed>): P.Config {
    P.Config(plan, seq(|plan|, i requires 0 <= i < |plan| => Fetch(assets, net, plan[i].name)), 4, 4)
  }

  ghost function Plan(assets: Assets, prefix: string, net: Net): seq<P.Listed> {
    var lines := PlannedLines(assets, prefix, net);
    if lines != [] then ListedLines(lines) else ListedNames(SortedNames(MatchingNames(assets, prefix)))
  }

  /** What a restore gets as far as: refused outright, nothing to unpack, or an unpacking. */
  datatype Attempt = Refused | NothingListed | Unpacking(c: P.Config)

  ghost function AttemptOn(assets: Assets, net: Net): (r: Attempt)
    ensures r.Unpacking? ==> P.ValidConfig(r.c)
  {
    if Judge(assets, net) == None then Refused
    else
      var plan := Plan(assets, Prefix(SeenAsCritical(assets, net)), net);
      if plan == [] then NothingListed else Unpacking(ConfigFor(assets, net, plan))
  }

  predicate AllSound(c: P.Config)
    requires P.ValidConfig(c)
  {
    forall i | 0 <= i < |c.parts| :: P.Sound(c, i)
  }

  function Fed(c: P.Config): Bytes
    requires P.ValidConfig(c)
  {
    Flatten(P.Data(c)[..P.FirstUnsound(c, 0)])
  }

  /** A restore downloads four parts at once and keeps four waiting for the decompressor. */
  lemma FourAtOnce(assets: Assets, net: Net) returns (schedule: seq<P.Action>)
    requires AttemptOn(assets, net).Unpacking?
    ensures var c := AttemptOn(assets, net).c;
      && (forall other | P.Execute(c, other).Some? ::
            && |P.Execute(c, other).value.queue| <= 4
            && Sum(P.Execute(c, other).value.tasks, P.IsRunning) <= 4)
      && P.Execute(c, schedule).Some?
      && Sum(P.Execute(c, schedule).value.tasks, P.IsRunning) == Min(|c.parts|, 4)
      && (P.CanBlock(c) <==> |c.parts| > 4 && forall i | 0 <= i < 4 :: P.Sound(c, i))
  {
    var c := AttemptOn(assets, net).c;
    forall other | P.Execute(c, other).Some?
      ensures |P.Execute(c, other).value.queue| <= 4
      ensures Sum(P.Execute(c, other).value.tasks, P.IsRunning) <= 4
    {
      P.BoundsInTermsOfTheCall(c, other);
    }
    P.BlocksInTermsOfTheCall(c);
    if |c.parts| > 4 {
      assert forall i: nat | i < 4 :: P.Sound(c, i) <==>
          && c.wire[i].Delivered?
          && (c.parts[i].sum.Some? ==> Digest(c.wire[i].data) == c.parts[i].sum.value);
    }
    schedule := P.PoolFills(c);
  }

  // ---- the method ------------------------------------------------------------------------

  class Workspace {
    /** The streams extracted into out/ since it was last emptied. */
    var out: seq<Bytes>
    /** out/ is a symbolic link: restore then extracts over what is there. */
    const linked: bool

    constructor (linked: bool)
      ensures out == [] && this.linked == linked
    {
      out := [];
      this.linked := linked;
    }
  }

  datatype Unpacked = NoParts | Ended(fed: Bytes, clean: bool)

  /** `[a for a in assets if f"{prefix}.part." in a]` */
  function MatchingOf(names: seq<string>, prefix: string): (r: seq<string>)
    ensures Elements(r) == set a | a in names && Contains(a, Mark(prefix))
  {
    if names == [] then []
    else
      var rest := MatchingOf(names[1..], prefix);
      assert Elements(names) == {names[0]} + Elements(names[1..]);
      assert Elements([names[0]] + rest) == {names[0]} + Elements(rest);
      if Contains(names[0], Mark(prefix)) then [names[0]] + rest else rest
  }

  /** chunker.unpack_from_store: plan from the sums file, else from the sorted listing, then run
      the pipeline. */
  method UnpackFromStore(store: FsStore, tag: string, prefix: string, net: Net) returns (r: Unpacked)
    ensures var assets := AssetsOf(store.tags, tag); var plan := Plan(assets, prefix, net);
      && (plan == [] ==> r == NoParts)
      && (plan != [] ==>
            P.ValidConfig(ConfigFor(assets, net, plan)) &&
            r == Ended(Fed(ConfigFor(assets, net, plan)), AllSound(ConfigFor(assets, net, plan))))
  {
    var assets := AssetsOf(store.tags, tag);
    var lines := PlannedLines(assets, prefix, net);
    var plan := ListedLines(lines);
    if lines == [] {
      var listing := store.ListAssets(tag);
      var names := MatchingOf(listing, prefix);
      assert Elements(names) == MatchingNames(assets, prefix);
      IncreasingUnique(SortNames(names), SortedNames(MatchingNames(assets, prefix)));
      plan := ListedNames(SortNames(names));
    }
    assert plan == Plan(assets, prefix, net);
    if plan == [] {
      return NoParts;
    }
    var c := ConfigFor(assets, net, plan);
    var hung, fed, errors := P.UnpackParts(c, true);
    r := Ended(fed, errors == []);
  }

  /** A refused bank leaves out/ alone; otherwise out/ is emptied (unless it is a link) and
      holds what was fed. `extracted` says whether the decompressor and tar exit with 0. */
  method Restore(ws: Workspace, store: FsStore, tag: string, net: Net, extracted: bool) returns (ok: bool)
    modifies ws
    ensures tag !in store.tags ==> !ok && ws.out == old(ws.out)
    ensures tag in store.tags && MANIFEST in store.tags[tag] && !net.verdict ==> !ok && ws.out == old(ws.out)
    ensures tag in store.tags ==>
      var base := if ws.linked then old(ws.out) else [];
      match AttemptOn(store.tags[tag], net)
      case Refused => !ok && ws.out == old(ws.out)
      case NothingListed => !ok && ws.out == base
      case Unpacking(c) => ok == (AllSound(c) && extracted) && ws.out == base + [Fed(c)]
  {
    if tag !in store.tags {
      return false;
    }
    var assets := store.tags[tag];
    if Judge(assets, net) == None {
      return false;
    }
    if !ws.linked {
      ws.out := [];
    }
    var r := UnpackFromStore(store, tag, Prefix(SeenAsCritical(assets, net)), net);
    match r
    case NoParts => ok := false;
    case Ended(fed, clean) =>
      ws.out := ws.out + [fed];
      ok := clean && extracted;
  }

  // ---- soundness -------------------------------------------------------------------------

  /** What a restore must be able to check parts against: the sums file, or a manifest and a
      network that delivers parts as stored. */
  predicate Checkable(assets: Assets, net: Net) {
    (net.sums && SUMS in assets) || (net.parts == map[] && MANIFEST in assets)
  }

  lemma MarkContainsBareMark(s: string, prefix: string)
    ensures Contains(s, Mark(prefix)) ==> Contains(s, Mark(""))
  {
    if Contains(s, Mark(prefix)) {
      var i: nat :| i <= |s| && OccursAt(s, Mark(prefix), i);
      assert s[i + |prefix|..i + |prefix| + 6] == s[i..i + |Mark(prefix)|][|prefix|..] == Mark("");
      assert OccursAt(s, Mark(""), i + |prefix|);
    }
  }

  /** The names of a full bank that carry a mark: its parts, for the mark of its own set. */
  lemma MarkedInFull(run: Run, crit: bool, a: string)
    requires ValidRun(run) && a in Full(run)
    ensures Contains(a, Mark(Prefix(crit))) <==> crit == run.crit && a in run.names
  {
    FullContents(run);
    NamesAreParts(run);
    MarkIsNotInFixedNames();
    MarkContainsBareMark(a, Prefix(crit));
    assert a in run.names || a == SUMS || a == MANIFEST;
  }

  lemma MarkedNamesAreParts(assets: Assets, run: Run, crit: bool)
    requires ValidRun(run) && Submap(assets, Full(run))
    ensures MatchingNames(assets, Prefix(crit)) == if crit == run.crit then Elements(run.names) * assets.Keys else {}
  {
    forall a | a in assets
      ensures Contains(a, Mark(Prefix(crit))) <==> crit == run.crit && a in Elements(run.names)
    {
      MarkedInFull(run, crit, a);
    }
  }

  lemma PlannedLinesOfRemains(assets: Assets, run: Run, crit: bool, net: Net)
    requires ValidRun(run) && Submap(assets, Full(run))
    ensures PlannedLines(assets, Prefix(crit), net) ==
            if net.sums && SUMS in assets && crit == run.crit then Entries(run) else []
  {
    FullContents(run);
    SumsOfRun(run);
    assert SUMS in assets ==> assets[SUMS] == Text(SumsText(run));
  }

  lemma EmptyListing(names: seq<string>)
    ensures names == [] <==> Elements(names) == {}
  {
    if names != [] {
      assert names[0] in Elements(names);
    }
  }

  /** The only prefix a restore can pick without finding nothing is the run's own. */
  lemma WrongPrefixFindsNothing(assets: Assets, run: Run, net: Net)
    requires ValidRun(run) && Submap(assets, Full(run))
    ensures SeenAsCritical(assets, net) ==> run.crit
    ensures Plan(assets, Prefix(!run.crit), net) == []
  {
    FullContents(run);
    TableOfRun(run);
    PlannedLinesOfRemains(assets, run, !run.crit, net);
    MarkedNamesAreParts(assets, run, !run.crit);
    EmptyListing(SortedNames({}));
  }

  lemma AllSoundFed(c: P.Config)
    requires P.ValidConfig(c) && AllSound(c)
    ensures Fed(c) == Flatten(P.Data(c))
  {
    assert P.FirstUnsound(c, 0) == |c.parts|;
    assert P.Data(c)[..|c.parts|] == P.Data(c);
  }

  lemma SumsPlan(run: Run)
    requires ValidRun(run)
    ensures ListedLines(Entries(run)) ==
            seq(|run.parts|, i requires 0 <= i < |run.parts| => P.Listed(run.names[i], Some(Digest(run.parts[i]))))
  {
    TableOfEntries(Entries(run), run.names);
  }

  lemma VerifiedPart(assets: Assets, run: Run, net: Net, i: nat)
    requires ValidRun(run) && i < |run.parts|
    ensures var d := Fetch(assets, net, run.names[i]);
      && (d.Delivered? && Digest(d.data) == Digest(run.parts[i]) ==> d.data == run.parts[i])
      && (Submap(assets, Full(run)) && net.parts == map[] ==>
            if run.names[i] in assets then d == P.Delivered(run.parts[i]) else d == P.Fails)
  {
    FullContents(run);
    var d := Fetch(assets, net, run.names[i]);
    if d.Delivered? && Digest(d.data) == Digest(run.parts[i]) {
      DigestInjective(d.data, run.parts[i]);
    }
  }

  lemma SumsPlanSound(assets: Assets, run: Run, net: Net, i: nat)
    requires ValidRun(run) && i < |run.parts|
    ensures P.ValidConfig(ConfigFor(assets, net, ListedLines(Entries(run))))
    ensures var c := ConfigFor(assets, net, ListedLines(Entries(run)));
      && |c.parts| == |run.parts|
      && (P.Sound(c, i) ==> P.Data(c)[i] == run.parts[i])
      && (Submap(assets, Full(run)) && net.parts == map[] ==> (P.Sound(c, i) <==> run.names[i] in assets))
  {
    SumsPlan(run);
    VerifiedPart(assets, run, net, i);
  }

  lemma PartByPart(c: P.Config, run: Run)
    requires P.ValidConfig(c) && |c.parts| == |run.parts|
    requires forall i: nat | i < |c.parts| :: P.Sound(c, i) ==> P.Data(c)[i] == run.parts[i]
    ensures AllSound(c) ==> P.Data(c) == run.parts
  {
    if AllSound(c) {
      forall i: nat | i < |c.parts|
        ensures P.Data(c)[i] == run.parts[i]
      {
        assert P.Sound(c, i);
      }
    }
  }

  lemma NameByName(c: P.Config, names: seq<string>, keys: set<string>)
    requires P.ValidConfig(c) && |c.parts| == |names|
    requires forall i: nat | i < |c.parts| :: P.Sound(c, i) <==> names[i] in keys
    ensures AllSound(c) <==> Elements(names) <= keys
  {
    if Elements(names) <= keys {
      forall i: nat | i < |c.parts|
        ensures P.Sound(c, i)
      {
        assert names[i] in Elements(names);
      }
    }
  }

  /** Parts that pass the digests of the run's sums file are the run's parts, whatever the
      network did. */
  lemma VerifiedPartsAreTheRun(assets: Assets, run: Run, net: Net)
    requires ValidRun(run)
    ensures P.ValidConfig(ConfigFor(assets, net, ListedLines(Entries(run))))
    ensures var c := ConfigFor(assets, net, ListedLines(Entries(run))); AllSound(c) ==> P.Data(c) == run.parts
    ensures var c := ConfigFor(assets, net, ListedLines(Entries(run)));
      Submap(assets, Full(run)) && net.parts == map[] ==> (AllSound(c) <==> Elements(run.names) <= assets.Keys)
  {
    SumsPlanSound(assets, run, net, 0);
    var c := ConfigFor(assets, net, ListedLines(Entries(run)));
    forall i: nat | i < |c.parts|
      ensures P.Sound(c, i) ==> P.Data(c)[i] == run.parts[i]
      ensures Submap(assets, Full(run)) && net.parts == map[] ==> (P.Sound(c, i) <==> run.names[i] in assets.Keys)
    {
      SumsPlanSound(assets, run, net, i);
    }
    PartByPart(c, run);
    if Submap(assets, Full(run)) && net.parts == map[] {
      NameByName(c, run.names, assets.Keys);
    }
  }

  // ---- what a listing gives --------------------------------------------------------------

  /** The parts that are still there, in order. */
  function KeptParts(names: seq<string>, parts: seq<Bytes>, keys: set<string>): seq<Bytes>
    requires |names| == |parts|
  {
    if names == [] then []
    else
      var n := |names| - 1;
      var front := KeptParts(names[..n], parts[..n], keys);
      if names[n] in keys then front + [parts[n]] else front
  }

  function KeptNames(names: seq<string>, keys: set<string>): seq<string> {
    if names == [] then []
    else
      var n := |names| - 1;
      var front := KeptNames(names[..n], keys);
      if names[n] in keys then front + [names[n]] else front
  }

  lemma AppendName(names: seq<string>, last: string)
    ensures Elements(names + [last]) == Elements(names) + {last}
    ensures Increasing(names) && (forall n | n in Elements(names) :: Before(n, last)) ==> Increasing(names + [last])
  {
    assert forall k | 0 <= k < |names| :: names[k] in Elements(names);
  }

  lemma {:induction false} KeptNamesSorted(names: seq<string>, keys: set<string>)
    requires Increasing(names)
    ensures Increasing(KeptNames(names, keys)) && Elements(KeptNames(names, keys)) == Elements(names) * keys
  {
    if names != [] {
      var n := |names| - 1;
      var front, last := names[..n], names[n];
      KeptNamesSorted(front, keys);
      forall x | x in Elements(front)
        ensures Before(x, last)
      {
        var i :| 0 <= i < n && front[i] == x;
        assert names[i] == x;
      }
      assert names == front + [last];
      AppendName(front, last);
      AppendName(KeptNames(front, keys), last);
    }
  }

  lemma {:induction false} KeptAligned(run: Run, assets: Assets, n: nat)
    requires n <= |run.names| == |run.parts|
    requires forall i | 0 <= i < n && run.names[i] in assets :: assets[run.names[i]] == Blob(run.parts[i])
    ensures var names := KeptNames(run.names[..n], assets.Keys);
      var parts := KeptParts(run.names[..n], run.parts[..n], assets.Keys);
      |names| == |parts| && forall k | 0 <= k < |names| :: names[k] in assets && assets[names[k]] == Blob(parts[k])
  {
    if n > 0 {
      KeptAligned(run, assets, n - 1);
      assert run.names[..n][..n - 1] == run.names[..n - 1] && run.parts[..n][..n - 1] == run.parts[..n - 1];
    }
  }

  lemma {:induction false} KeptPrefix(names: seq<string>, parts: seq<Bytes>, keys: set<string>, m: nat)
    requires |names| == |parts| && m <= |names|
    requires forall i | 0 <= i < |names| :: names[i] in keys <==> i < m
    ensures KeptParts(names, parts, keys) == parts[..m]
  {
    if names != [] {
      var n := |names| - 1;
      KeptPrefix(names[..n], parts[..n], keys, Min(m, n));
      assert parts[..n][..Min(m, n)] == parts[..Min(m, n)];
    }
  }

  lemma FlattenLength(xs: seq<Bytes>, last: Bytes)
    ensures |Flatten(xs + [last])| == |Flatten(xs)| + |last|
  {
    assert (xs + [last])[..|xs|] == xs;
  }

  lemma LastKept(names: seq<string>, parts: seq<Bytes>, keys: set<string>)
    requires |names| == |parts| && names != []
    ensures var n := |names| - 1;
      |Flatten(KeptParts(names, parts, keys))| ==
        |Flatten(KeptParts(names[..n], parts[..n], keys))| + if names[n] in keys then |parts[n]| else 0
    ensures |Flatten(parts)| == |Flatten(parts[..|parts| - 1])| + |parts[|parts| - 1]|
  {
    var n := |names| - 1;
    FlattenLength(KeptParts(names[..n], parts[..n], keys), parts[n]);
  }

  lemma LastName(names: seq<string>, keys: set<string>)
    requires names != []
    ensures Elements(names) <= keys <==> Elements(names[..|names| - 1]) <= keys && names[|names| - 1] in keys
  {
    var n := |names| - 1;
    AppendName(names[..n], names[n]);
    assert names == names[..n] + [names[n]];
  }

  /** A missing part is missed: with no empty part, less is kept as soon as one is gone. */
  lemma {:induction false} KeptLength(names: seq<string>, parts: seq<Bytes>, keys: set<string>)
    requires |names| == |parts| && forall i | 0 <= i < |parts| :: parts[i] != []
    ensures |Flatten(KeptParts(names, parts, keys))| <= |Flatten(parts)|
    ensures Elements(names) <= keys || |Flatten(KeptParts(names, parts, keys))| < |Flatten(parts)|
  {
    if names != [] {
      KeptLength(names[..|names| - 1], parts[..|names| - 1], keys);
      LastKept(names, parts, keys);
      LastName(names, keys);
    }
  }

  lemma KeptAssets(assets: Assets, run: Run)
    requires ValidRun(run) && Submap(assets, Full(run))
    ensures var names, parts := KeptNames(run.names, assets.Keys), KeptParts(run.names, run.parts, assets.Keys);
      |names| == |parts| && forall k | 0 <= k < |names| :: names[k] in assets && assets[names[k]] == Blob(parts[k])
  {
    FullContents(run);
    KeptAligned(run, assets, |run.names|);
    assert run.names[..|run.names|] == run.names && run.parts[..|run.parts|] == run.parts;
  }

  lemma KeptListing(assets: Assets, run: Run)
    requires ValidRun(run) && Submap(assets, Full(run))
    ensures SortedNames(MatchingNames(assets, Prefix(run.crit))) == KeptNames(run.names, assets.Keys)
    ensures KeptNames(run.names, assets.Keys) == [] <==> Elements(run.names) * assets.Keys == {}
  {
    MarkedNamesAreParts(assets, run, run.crit);
    KeptNamesSorted(run.names, assets.Keys);
    IncreasingUnique(SortedNames(MatchingNames(assets, Prefix(run.crit))), KeptNames(run.names, assets.Keys));
    EmptyListing(KeptNames(run.names, assets.Keys));
  }

  lemma DeliveredAsStored(c: P.Config, parts: seq<Bytes>)
    requires P.ValidConfig(c) && |parts| == |c.parts|
    requires forall k | 0 <= k < |parts| :: c.wire[k] == P.Delivered(parts[k]) && c.parts[k].sum == None
    ensures AllSound(c) && P.Data(c) == parts
  {
  }

  /** Without digests, what is delivered as stored is what is kept of the run. */
  lemma ListedPartsAreKept(assets: Assets, run: Run, net: Net)
    requires ValidRun(run) && Submap(assets, Full(run)) && net.parts == map[]
    requires Elements(run.names) * assets.Keys != {}
    ensures var c := ConfigFor(assets, net, ListedNames(KeptNames(run.names, assets.Keys)));
      P.ValidConfig(c) && AllSound(c) && P.Data(c) == KeptParts(run.names, run.parts, assets.Keys)
  {
    KeptListing(assets, run);
    KeptAssets(assets, run);
    DeliveredAsStored(ConfigFor(assets, net, ListedNames(KeptNames(run.names, assets.Keys))),
                      KeptParts(run.names, run.parts, assets.Keys));
  }

  lemma AllKept(run: Run, keys: set<string>)
    requires |run.names| == |run.parts| && Elements(run.names) <= keys
    ensures KeptParts(run.names, run.parts, keys) == run.parts
  {
    assert forall i | 0 <= i < |run.names| :: run.names[i] in Elements(run.names);
    KeptPrefix(run.names, run.parts, keys, |run.names|);
  }

  // ---- soundness of a restore ------------------------------------------------------------

  /** The config of a restore that goes ahead on these remains. */
  ghost function ConfigOn(assets: Assets, run: Run, net: Net): P.Config
    requires |run.names| == |run.parts|
  {
    ConfigFor(assets, net,
      if net.sums && SUMS in assets then ListedLines(Entries(run)) else ListedNames(KeptNames(run.names, assets.Keys)))
  }

  lemma PlanForRun(assets: Assets, run: Run, net: Net)
    requires ValidRun(run) && Submap(assets, Full(run))
    ensures Plan(assets, Prefix(run.crit), net) ==
            if net.sums && SUMS in assets then ListedLines(Entries(run))
            else ListedNames(KeptNames(run.names, assets.Keys))
  {
    PlannedLinesOfRemains(assets, run, run.crit, net);
    KeptListing(assets, run);
  }

  /** The plan of a restore that goes ahead, by whether its sums file arrives. */
  lemma PlanOnRemains(assets: Assets, run: Run, net: Net)
    requires ValidRun(run) && Submap(assets, Full(run)) && AttemptOn(assets, net).Unpacking?
    ensures AttemptOn(assets, net).c == ConfigOn(assets, run, net)
  {
    WrongPrefixFindsNothing(assets, run, net);
    assert SeenAsCritical(assets, net) == run.crit;
    PlanForRun(assets, run, net);
  }

  lemma AllThere(names: seq<string>, keys: set<string>)
    requires names != []
    ensures Elements(names) <= keys ==> Elements(names) * keys != {}
  {
    assert names[0] in Elements(names);
    assert Elements(names) <= keys ==> names[0] in Elements(names) * keys;
  }

  lemma AcceptedRemains(assets: Assets, run: Run, net: Net)
    requires ValidRun(run) && Submap(assets, Full(run)) && Judge(assets, net) != None
    ensures Elements(run.names) * assets.Keys != {}
    ensures MANIFEST in assets ==> Elements(run.names) <= assets.Keys
  {
    VerdictOnRemains(assets, run);
    AllThere(run.names, assets.Keys);
  }

  lemma CheckedIsWhole(assets: Assets, run: Run, net: Net)
    requires ValidRun(run) && Submap(assets, Full(run)) && Checkable(assets, net)
    requires AttemptOn(assets, net).Unpacking? && AllSound(AttemptOn(assets, net).c)
    ensures Fed(AttemptOn(assets, net).c) == Archive(run)
  {
    var c := AttemptOn(assets, net).c;
    PlanOnRemains(assets, run, net);
    AllSoundFed(c);
    if net.sums && SUMS in assets {
      VerifiedPartsAreTheRun(assets, run, net);
    } else {
      AcceptedRemains(assets, run, net);
      ListedPartsAreKept(assets, run, net);
      AllKept(run, assets.Keys);
    }
  }

  lemma StoredIsKept(assets: Assets, run: Run, net: Net)
    requires ValidRun(run) && Submap(assets, Full(run)) && net.parts == map[]
    requires AttemptOn(assets, net).Unpacking? && AllSound(AttemptOn(assets, net).c)
    ensures Fed(AttemptOn(assets, net).c) == Flatten(KeptParts(run.names, run.parts, assets.Keys))
  {
    var c := AttemptOn(assets, net).c;
    PlanOnRemains(assets, run, net);
    AllSoundFed(c);
    if net.sums && SUMS in assets {
      VerifiedPartsAreTheRun(assets, run, net);
      AllKept(run, assets.Keys);
    } else {
      AcceptedRemains(assets, run, net);
      ListedPartsAreKept(assets, run, net);
    }
  }

  /** Restore soundness: whatever is left of one run under a tag, a restore that reports success
      has fed exactly that run's archive when it could check its parts; and when its parts came
      as stored, exactly the run's parts that are there, checked or not. */
  lemma RestoreSound(assets: Assets, run: Run, net: Net)
    requires ValidRun(run) && Submap(assets, Full(run))
    ensures var a := AttemptOn(assets, net);
      && (a.Unpacking? && AllSound(a.c) && Checkable(assets, net) ==> Fed(a.c) == Archive(run))
      && (a.Unpacking? && AllSound(a.c) && net.parts == map[] ==>
            Fed(a.c) == Flatten(KeptParts(run.names, run.parts, assets.Keys)))
  {
    var a := AttemptOn(assets, net);
    if a.Unpacking? && AllSound(a.c) && Checkable(assets, net) {
      CheckedIsWhole(assets, run, net);
    }
    if a.Unpacking? && AllSound(a.c) && net.parts == map[] {
      StoredIsKept(assets, run, net);
    }
  }

  /** Exactly when a successful restore of parts that came as stored is the whole archive. */
  lemma WholeExactly(assets: Assets, run: Run, net: Net)
    requires ValidRun(run) && Submap(assets, Full(run)) && net.parts == map[]
    requires forall i | 0 <= i < |run.parts| :: run.parts[i] != []
    ensures var a := AttemptOn(assets, net);
      a.Unpacking? && AllSound(a.c) ==> (Fed(a.c) == Archive(run) <==> Elements(run.names) <= assets.Keys)
  {
    RestoreSound(assets, run, net);
    KeptLength(run.names, run.parts, assets.Keys);
    if Elements(run.names) <= assets.Keys {
      AllKept(run, assets.Keys);
    }
  }

  /** The verdict of a restore, and the set it goes for, for every network. */
  lemma SeenByManifest(assets: Assets, run: Run, net: Net)
    requires ValidRun(run) && Submap(assets, Full(run)) && Judge(assets, net) != None
    ensures SeenAsCritical(assets, net) <==> run.crit && MANIFEST in assets && net.kind
  {
    VerdictOnRemains(assets, run);
    FullContents(run);
    assert MANIFEST in assets ==> assets[MANIFEST] == ManifestOf(run);
  }

  /** A restore goes ahead exactly on an accepted bank whose manifest, if there is one, arrives for
      the verdict, and for a critical set again for its kind; a critical set without its manifest
      is taken for a full bank. */
  lemma AttemptOnRemains(assets: Assets, run: Run, net: Net)
    requires ValidRun(run) && Submap(assets, Full(run))
    ensures AttemptOn(assets, net).Unpacking? <==>
            && BankIsComplete(assets) != None
            && if MANIFEST in assets then net.verdict && (run.crit ==> net.kind) else !run.crit
    ensures AttemptOn(assets, net) == Refused <==>
            BankIsComplete(assets) == None || (MANIFEST in assets && !net.verdict)
    ensures AttemptOn(assets, net).Unpacking? ==> AttemptOn(assets, net).c == ConfigOn(assets, run, net)
  {
    if Judge(assets, net) != None {
      SeenByManifest(assets, run, net);
      WrongPrefixFindsNothing(assets, run, net);
      PlanForRun(assets, run, net);
      AcceptedRemains(assets, run, net);
      KeptListing(assets, run);
    }
  }

  /** Exactly which remains a restore takes, and what it then feeds, over every network that
      delivers the parts as stored. */
  lemma RestoreExactly(assets: Assets, run: Run, net: Net)
    requires ValidRun(run) && Submap(assets, Full(run)) && net.parts == map[]
    ensures var a := AttemptOn(assets, net);
      && (a.Unpacking? && AllSound(a.c) <==>
            if MANIFEST in assets then net.verdict && (run.crit ==> net.kind) && Elements(run.names) <= assets.Keys
            else
              && !run.crit && SUMS in assets && Elements(run.names) * assets.Keys != {}
              && (net.sums ==> Elements(run.names) <= assets.Keys))
      && (a.Unpacking? && AllSound(a.c) ==> Fed(a.c) == Flatten(KeptParts(run.names, run.parts, assets.Keys)))
  {
    VerdictOnRemains(assets, run);
    AttemptOnRemains(assets, run, net);
    AllThere(run.names, assets.Keys);
    if AttemptOn(assets, net).Unpacking? {
      AcceptedRemains(assets, run, net);
      RestoreSound(assets, run, net);
      if net.sums && SUMS in assets {
        VerifiedPartsAreTheRun(assets, run, net);
      } else {
        ListedPartsAreKept(assets, run, net);
      }
    }
  }

  /** When the sums file does not arrive: those with a manifest and every part, and those of a full
      bank with any part and a sums file but no manifest. The latter are never counted. */
  lemma RestoredWithoutSums(assets: Assets, run: Run, net: Net)
    requires ValidRun(run) && Submap(assets, Full(run)) && net == Honest.(sums := false)
    ensures var a := AttemptOn(assets, net);
      a.Unpacking? && AllSound(a.c) <==>
        if MANIFEST in assets then Elements(run.names) <= assets.Keys
        else !run.crit && SUMS in assets && Elements(run.names) * assets.Keys != {}
  {
    RestoreExactly(assets, run, net);
  }

  /** Over an honest network, exactly these remains restore: every part, and the manifest or,
      for a full bank, the sums file. Then the whole archive is fed. */
  lemma RestoreExact(assets: Assets, run: Run)
    requires ValidRun(run) && Submap(assets, Full(run))
    ensures var a := AttemptOn(assets, Honest);
      && (a.Unpacking? && AllSound(a.c) <==>
            Elements(run.names) <= assets.Keys && (MANIFEST in assets || (SUMS in assets && !run.crit)))
      && (a.Unpacking? && AllSound(a.c) ==> Fed(a.c) == Archive(run))
  {
    RestoreExactly(assets, run, Honest);
    AllThere(run.names, assets.Keys);
    if Elements(run.names) <= assets.Keys {
      AllKept(run, assets.Keys);
    }
  }
}
