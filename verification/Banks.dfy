/** What a bank is: the assets one call of relay.bank or relay.bank_critical uploads, in which
    order, and how relay.bank_is_complete judges the assets found under a tag. */
module Banks {
  import opened Prelude
  import opened Sums
  import opened Store

  const MANIFEST := "MANIFEST.json"
  const SUMS := "SHA256SUMS"

  /** One packing: the archive cut into named parts. `crit` marks the critical graph set. */
  datatype Run = Run(crit: bool, names: seq<string>, parts: seq<Bytes>)

  function Prefix(crit: bool): string {
    if crit then "crit" else "out"
  }

  /** `f"{prefix}.part."` */
  function Mark(prefix: string): string {
    prefix + ".part."
  }

  /** What GNU split appends: lower-case letters. */
  predicate IsSuffix(s: string) {
    s != "" && forall i | 0 <= i < |s| :: 'a' <= s[i] <= 'z'
  }

  ghost predicate IsPartName(name: string, prefix: string) {
    StartsWith(name, Mark(prefix)) && IsSuffix(name[|Mark(prefix)|..])
  }

  ghost predicate ValidRun(run: Run) {
    && run.parts != [] && |run.names| == |run.parts|
    && Increasing(run.names)
    && forall i | 0 <= i < |run.names| :: IsPartName(run.names[i], Prefix(run.crit))
  }

  function Archive(run: Run): Bytes {
    Flatten(run.parts)
  }

  // ---- the three kinds of asset ----------------------------------------------------------

  function Entries(run: Run): seq<Entry>
    requires |run.names| == |run.parts|
  {
    seq(|run.parts|, i requires 0 <= i < |run.parts| => Entry(Digest(run.parts[i]), run.names[i]))
  }

  function SumsText(run: Run): string
    requires |run.names| == |run.parts|
  {
    PrintEntries(Entries(run))
  }

  /** The last digest given for each name. */
  function Table(es: seq<Entry>): (m: map<string, string>)
    ensures forall e | e in es :: e.name in m
    ensures forall n | n in m :: exists e | e in es :: e.name == n && e.digest == m[n]
  {
    if es == [] then map[]
    else
      var last := |es| - 1;
      var m := Table(es[..last]);
      assert es == es[..last] + [es[last]];
      m[es[last].name := es[last].digest]
  }

  /** Entries whose name contains `mark`. */
  function Select(es: seq<Entry>, mark: string): seq<Entry> {
    if es == [] then []
    else
      var rest := Select(es[1..], mark);
      if Contains(es[0].name, mark) then [es[0]] + rest else rest
  }

  /** relay._manifest_from_sums, without the nonce and the informational fields. */
  function ManifestOf(run: Run): Asset
    requires |run.names| == |run.parts|
  {
    Json(if run.crit then "crit" else "out-state", Table(Select(ReadEntries(SumsText(run)), Mark(""))))
  }

  // ---- upload orders ---------------------------------------------------------------------

  /** bank with a plain directory store, bank with a streaming sink, bank_critical. */
  datatype Order = Stage | Stream | CritFirst

  type Upload = (string, Asset)

  function PartUploads(run: Run): seq<Upload>
    requires |run.names| == |run.parts|
  {
    seq(|run.parts|, i requires 0 <= i < |run.parts| => (run.names[i], Blob(run.parts[i])))
  }

  function Arrange(sums: Upload, manifest: Upload, parts: seq<Upload>, order: Order): (u: seq<Upload>)
    ensures |u| == |parts| + 2
  {
    match order
    case Stage => [sums] + parts + [manifest]
    case Stream => parts + [sums, manifest]
    case CritFirst => [manifest, sums] + parts
  }

  function Uploads(run: Run, order: Order): (u: seq<Upload>)
    requires |run.names| == |run.parts|
    ensures |u| == |run.parts| + 2
  {
    Arrange((SUMS, Text(SumsText(run))), (MANIFEST, ManifestOf(run)), PartUploads(run), order)
  }

  /** A tag after these uploads. */
  function Uploaded(us: seq<Upload>): Assets {
    if us == [] then map[] else Uploaded(us[..|us| - 1])[us[|us| - 1].0 := us[|us| - 1].1]
  }

  /** Everything a completed call leaves under its tag. */
  function Full(run: Run): Assets
    requires |run.names| == |run.parts|
  {
    Uploaded(PartUploads(run))[SUMS := Text(SumsText(run))][MANIFEST := ManifestOf(run)]
  }

  // ---- names -----------------------------------------------------------------------------

  lemma OccursChars(s: string, needle: string, i: nat, k: nat)
    requires k < |needle|
    ensures OccursAt(s, needle, i) ==> i + k < |s| && s[i + k] == needle[k]
  {
    if OccursAt(s, needle, i) {
      assert s[i..i + |needle|][k] == s[i + k];
    }
  }

  lemma MarkIsNotInFixedNames()
    ensures !Contains(MANIFEST, Mark("")) && !Contains(SUMS, Mark(""))
  {
    assert Mark("") == ".part.";
    assert forall j | 0 <= j < |MANIFEST| :: MANIFEST[j] == '.' ==> j == 8;
    assert forall j | 0 <= j < |SUMS| :: SUMS[j] != '.';
    forall i: nat
      ensures !OccursAt(MANIFEST, Mark(""), i) && !OccursAt(SUMS, Mark(""), i)
    {
      OccursChars(MANIFEST, Mark(""), i, 0);
      OccursChars(MANIFEST, Mark(""), i, 1);
      OccursChars(SUMS, Mark(""), i, 0);
    }
  }

  lemma PartNameChars(name: string, crit: bool)
    requires IsPartName(name, Prefix(crit))
    ensures IsWord(name)
    ensures forall i | 0 <= i < |name| && name[i] == '.' :: i == |Prefix(crit)| || i == |Prefix(crit)| + 5
  {
    var own, suffix := Mark(Prefix(crit)), name[|Mark(Prefix(crit))|..];
    assert name == own + suffix;
    assert forall i | 0 <= i < |own| ::
        !IsSpace(own[i]) && (own[i] == '.' ==> i == |Prefix(crit)| || i == |Prefix(crit)| + 5);
  }

  lemma OtherMarkCannotOccur(name: string, crit: bool, i: nat)
    requires StartsWith(name, Mark(Prefix(crit)))
    requires forall j | 0 <= j < |name| && name[j] == '.' :: j == |Prefix(crit)| || j == |Prefix(crit)| + 5
    ensures !OccursAt(name, Mark(Prefix(!crit)), i)
  {
    var own, other, q := Mark(Prefix(crit)), Mark(Prefix(!crit)), |Prefix(!crit)|;
    OccursChars(name, other, i, q);
    OccursChars(name, other, i, q + 5);
    OccursChars(name, other, i, 0);
    assert name[..|own|][1] == name[1] == own[1];
  }

  /** A part name carries its own prefix's mark and the bare mark, never the other prefix's. */
  lemma PartNameMarks(name: string, crit: bool)
    requires IsPartName(name, Prefix(crit))
    ensures Contains(name, Mark("")) && Contains(name, Mark(Prefix(crit)))
    ensures !Contains(name, Mark(Prefix(!crit)))
    ensures IsWord(name) && name != MANIFEST && name != SUMS
  {
    var own := Mark(Prefix(crit));
    assert OccursAt(name, own, 0);
    assert name[|Prefix(crit)|..|own|] == name[..|own|][|Prefix(crit)|..] == Mark("");
    assert OccursAt(name, Mark(""), |Prefix(crit)|);
    PartNameChars(name, crit);
    var other := Mark(Prefix(!crit));
    forall i: nat
      ensures !OccursAt(name, other, i)
    {
      OtherMarkCannotOccur(name, crit, i);
    }
    MarkIsNotInFixedNames();
  }

  // ---- the contents of a full bank -------------------------------------------------------

  lemma {:induction false} SelectAll(es: seq<Entry>, mark: string)
    requires forall e | e in es :: Contains(e.name, mark)
    ensures Select(es, mark) == es
  {
    if es != [] {
      SelectAll(es[1..], mark);
      assert es[0] in es;
    }
  }

  lemma {:induction false} SelectNone(es: seq<Entry>, mark: string)
    requires forall e | e in es :: !Contains(e.name, mark)
    ensures Select(es, mark) == []
  {
    if es != [] {
      SelectNone(es[1..], mark);
      assert es[0] in es;
    }
  }

  /** Reading a run's own sums file gives its entries back; the reader for the other prefix
      sees nothing. */
  lemma SumsOfRun(run: Run)
    requires ValidRun(run)
    ensures ReadEntries(SumsText(run)) == Entries(run)
    ensures Select(Entries(run), Mark("")) == Entries(run)
    ensures Select(Entries(run), Mark(Prefix(run.crit))) == Entries(run)
    ensures Select(Entries(run), Mark(Prefix(!run.crit))) == []
  {
    forall e | e in Entries(run)
      ensures PrintableEntry(e) && Contains(e.name, Mark("")) && Contains(e.name, Mark(Prefix(run.crit)))
      ensures !Contains(e.name, Mark(Prefix(!run.crit)))
    {
      var i :| 0 <= i < |run.parts| && Entries(run)[i] == e;
      PartNameMarks(run.names[i], run.crit);
      DigestIsWord(run.parts[i]);
    }
    SumsRoundTrip(Entries(run));
    SelectAll(Entries(run), Mark(""));
    SelectAll(Entries(run), Mark(Prefix(run.crit)));
    SelectNone(Entries(run), Mark(Prefix(!run.crit)));
  }

  lemma TableOfEntries(es: seq<Entry>, names: seq<string>)
    requires Increasing(names) && |es| == |names|
    requires forall i | 0 <= i < |es| :: es[i].name == names[i]
    ensures Table(es).Keys == Elements(names)
    ensures forall i | 0 <= i < |es| :: Table(es)[names[i]] == es[i].digest
  {
    IncreasingNoDuplicates(names);
    var m := Table(es);
    forall i | 0 <= i < |es|
      ensures names[i] in m && m[names[i]] == es[i].digest
    {
      assert es[i] in es;
      var e :| e in es && e.name == names[i] && e.digest == m[names[i]];
      var j :| 0 <= j < |es| && es[j] == e;
      assert names[j] == names[i];
    }
    forall n | n in m
      ensures n in names
    {
      var e :| e in es && e.name == n && e.digest == m[n];
    }
  }

  lemma TableOfRun(run: Run)
    requires ValidRun(run)
    ensures Table(Entries(run)).Keys == Elements(run.names)
    ensures forall i | 0 <= i < |run.names| :: Table(Entries(run))[run.names[i]] == Digest(run.parts[i])
    ensures ManifestOf(run) == Json(if run.crit then "crit" else "out-state", Table(Entries(run)))
  {
    SumsOfRun(run);
    TableOfEntries(Entries(run), run.names);
  }

  lemma {:induction false} UploadedKeys(us: seq<Upload>)
    ensures Uploaded(us).Keys == set i | 0 <= i < |us| :: us[i].0
  {
    if us != [] {
      var last := |us| - 1;
      UploadedKeys(us[..last]);
      assert (set i | 0 <= i < |us| :: us[i].0) == (set i | 0 <= i < last :: us[..last][i].0) + {us[last].0};
    }
  }

  lemma {:induction false} UploadedSubmap(us: seq<Upload>, whole: Assets)
    requires forall u | u in us :: u.0 in whole && whole[u.0] == u.1
    ensures Submap(Uploaded(us), whole)
  {
    if us != [] {
      var last := |us| - 1;
      UploadedSubmap(us[..last], whole);
      assert us[last] in us;
    }
  }

  lemma {:induction false} UploadedValue(us: seq<Upload>, i: nat)
    requires i < |us|
    requires forall j | 0 <= j < |us| && us[j].0 == us[i].0 :: j == i
    ensures us[i].0 in Uploaded(us) && Uploaded(us)[us[i].0] == us[i].1
  {
    if i < |us| - 1 {
      UploadedValue(us[..|us| - 1], i);
      assert us[|us| - 1].0 != us[i].0;
    }
  }

  lemma PartUploadsContents(run: Run)
    requires ValidRun(run)
    ensures Uploaded(PartUploads(run)).Keys == Elements(run.names)
    ensures forall i | 0 <= i < |run.names| ::
      run.names[i] in Uploaded(PartUploads(run)) && Uploaded(PartUploads(run))[run.names[i]] == Blob(run.parts[i])
  {
    var us := PartUploads(run);
    UploadedKeys(us);
    assert forall i | 0 <= i < |us| :: us[i].0 == run.names[i];
    IncreasingNoDuplicates(run.names);
    forall i | 0 <= i < |run.names|
      ensures run.names[i] in Uploaded(us) && Uploaded(us)[run.names[i]] == Blob(run.parts[i])
    {
      UploadedValue(us, i);
    }
  }

  lemma NamesAreParts(run: Run)
    requires ValidRun(run)
    ensures forall n | n in run.names ::
      && n != SUMS && n != MANIFEST && Contains(n, Mark(""))
      && Contains(n, Mark(Prefix(run.crit))) && !Contains(n, Mark(Prefix(!run.crit)))
  {
    forall n | n in run.names
      ensures n != SUMS && n != MANIFEST && Contains(n, Mark(""))
      ensures Contains(n, Mark(Prefix(run.crit))) && !Contains(n, Mark(Prefix(!run.crit)))
    {
      var i :| 0 <= i < |run.names| && run.names[i] == n;
      PartNameMarks(n, run.crit);
    }
  }

  lemma WithSumsAndManifest(parts: Assets, sums: Asset, manifest: Asset)
    requires SUMS !in parts && MANIFEST !in parts
    ensures var full := parts[SUMS := sums][MANIFEST := manifest];
      && full.Keys == parts.Keys + {SUMS, MANIFEST} && full[SUMS] == sums && full[MANIFEST] == manifest
      && Submap(parts, full)
  {
    assert |SUMS| != |MANIFEST|;
  }

  /** Names, sums file and manifest: nothing else, and each with the run's own content. */
  lemma FullContents(run: Run)
    requires ValidRun(run)
    ensures Full(run).Keys == Elements(run.names) + {SUMS, MANIFEST}
    ensures forall i | 0 <= i < |run.names| ::
      run.names[i] in Full(run) && Full(run)[run.names[i]] == Blob(run.parts[i])
    ensures Full(run)[SUMS] == Text(SumsText(run)) && Full(run)[MANIFEST] == ManifestOf(run)
  {
    PartUploadsContents(run);
    NamesAreParts(run);
    assert SUMS !in Elements(run.names) && MANIFEST !in Elements(run.names);
    WithSumsAndManifest(Uploaded(PartUploads(run)), Text(SumsText(run)), ManifestOf(run));
  }

  // ---- upload positions ------------------------------------------------------------------

  function ManifestAt(n: nat, order: Order): nat {
    if order == CritFirst then 0 else n + 1
  }

  function SumsAt(n: nat, order: Order): nat {
    match order case Stage => 0 case Stream => n case CritFirst => 1
  }

  /** The position of the first part. */
  function PartsAt(order: Order): nat {
    match order case Stage => 1 case Stream => 0 case CritFirst => 2
  }

  lemma ArrangeAt(sums: Upload, manifest: Upload, parts: seq<Upload>, order: Order, i: nat)
    requires i < |parts| + 2
    ensures var n, p := |parts|, PartsAt(order);
      if i == ManifestAt(n, order) then Arrange(sums, manifest, parts, order)[i] == manifest
      else if i == SumsAt(n, order) then Arrange(sums, manifest, parts, order)[i] == sums
      else p <= i < p + n && Arrange(sums, manifest, parts, order)[i] == parts[i - p]
  {
  }

  /** Every position of an upload list holds the sums file, the manifest or one part. */
  lemma UploadAt(run: Run, order: Order, i: nat)
    requires |run.names| == |run.parts| && i < |run.parts| + 2
    ensures var n, p := |run.parts|, PartsAt(order);
      if i == ManifestAt(n, order) then Uploads(run, order)[i] == (MANIFEST, ManifestOf(run))
      else if i == SumsAt(n, order) then Uploads(run, order)[i] == (SUMS, Text(SumsText(run)))
      else p <= i < p + n && Uploads(run, order)[i] == (run.names[i - p], Blob(run.parts[i - p]))
  {
    ArrangeAt((SUMS, Text(SumsText(run))), (MANIFEST, ManifestOf(run)), PartUploads(run), order, i);
  }

  lemma UploadKey(run: Run, order: Order, i: nat)
    requires ValidRun(run) && i < |run.parts| + 2
    ensures var n, p, key := |run.parts|, PartsAt(order), Uploads(run, order)[i].0;
      && (key == MANIFEST <==> i == ManifestAt(n, order))
      && (key == SUMS <==> i == SumsAt(n, order))
      && (key != MANIFEST && key != SUMS ==> p <= i < p + n && key == run.names[i - p])
  {
    UploadAt(run, order, i);
    assert |MANIFEST| != |SUMS|;
    if i != ManifestAt(|run.parts|, order) && i != SumsAt(|run.parts|, order) {
      PartNameMarks(run.names[i - PartsAt(order)], run.crit);
    }
  }

  lemma UploadPositions(run: Run, order: Order)
    requires ValidRun(run)
    ensures var us, n := Uploads(run, order), |run.parts|;
      && us[ManifestAt(n, order)].0 == MANIFEST
      && us[SumsAt(n, order)].0 == SUMS
      && (forall i | 0 <= i < n :: us[PartsAt(order) + i].0 == run.names[i])
      && (forall i, j | 0 <= i < |us| && 0 <= j < |us| && us[i].0 == us[j].0 :: i == j)
  {
    IncreasingNoDuplicates(run.names);
    forall i | 0 <= i < |run.parts| + 2
      ensures var n, p, key := |run.parts|, PartsAt(order), Uploads(run, order)[i].0;
        && (key == MANIFEST <==> i == ManifestAt(n, order))
        && (key == SUMS <==> i == SumsAt(n, order))
        && (key != MANIFEST && key != SUMS ==> p <= i < p + n && key == run.names[i - p])
    {
      UploadKey(run, order, i);
    }
  }

  /** Whatever the order, and wherever the upload is cut, the tag holds part of the full bank. */
  lemma UploadsWithinFull(run: Run, order: Order, k: nat)
    requires ValidRun(run) && k <= |run.parts| + 2
    ensures Submap(Uploaded(Uploads(run, order)[..k]), Full(run))
  {
    FullContents(run);
    var us := Uploads(run, order);
    forall u | u in us[..k]
      ensures u.0 in Full(run) && Full(run)[u.0] == u.1
    {
      var i :| 0 <= i < k && us[..k][i] == u;
      UploadAt(run, order, i);
    }
    UploadedSubmap(us[..k], Full(run));
  }

  // ---- relay.bank_is_complete ------------------------------------------------------------

  datatype Verdict = ByManifest | Legacy

  function PartNames(assets: Assets): set<string> {
    set a | a in assets && Contains(a, Mark(""))
  }

  function BankIsComplete(assets: Assets): Option<Verdict> {
    if assets == map[] then None
    else if MANIFEST in assets then
      if assets[MANIFEST].Json? && assets[MANIFEST].parts.Keys != {} && assets[MANIFEST].parts.Keys == PartNames(assets)
      then Some(ByManifest) else None
    else if SUMS in assets && PartNames(assets) != {} then Some(Legacy)
    else None
  }

  lemma PartNamesOfRemains(assets: Assets, run: Run)
    requires ValidRun(run) && Submap(assets, Full(run))
    ensures PartNames(assets) == Elements(run.names) * assets.Keys
  {
    FullContents(run);
    NamesAreParts(run);
    MarkIsNotInFixedNames();
    assert assets.Keys <= Full(run).Keys;
  }

  lemma ManifestOfRemains(assets: Assets, run: Run)
    requires ValidRun(run) && Submap(assets, Full(run)) && MANIFEST in assets
    ensures assets[MANIFEST].Json? && assets[MANIFEST].parts.Keys == Elements(run.names)
  {
    FullContents(run);
    TableOfRun(run);
  }

  lemma ManifestVerdict(assets: Assets, run: Run)
    requires ValidRun(run) && Submap(assets, Full(run)) && MANIFEST in assets
    ensures BankIsComplete(assets) == if Elements(run.names) <= assets.Keys then Some(ByManifest) else None
  {
    ManifestOfRemains(assets, run);
    PartNamesOfRemains(assets, run);
    assert run.names[0] in Elements(run.names);
  }

  lemma LegacyVerdict(assets: Assets, run: Run)
    requires ValidRun(run) && Submap(assets, Full(run)) && MANIFEST !in assets
    ensures BankIsComplete(assets) ==
            if SUMS in assets && Elements(run.names) * assets.Keys != {} then Some(Legacy) else None
  {
    PartNamesOfRemains(assets, run);
  }

  /** How many parts have landed does not matter to a legacy verdict; to a manifest it is all
      that matters. */
  lemma VerdictOnRemains(assets: Assets, run: Run)
    requires ValidRun(run) && Submap(assets, Full(run))
    ensures BankIsComplete(assets) == Some(ByManifest) <==> MANIFEST in assets && Elements(run.names) <= assets.Keys
    ensures BankIsComplete(assets) == Some(Legacy) <==>
            MANIFEST !in assets && SUMS in assets && Elements(run.names) * assets.Keys != {}
  {
    if MANIFEST in assets {
      ManifestVerdict(assets, run);
    } else {
      LegacyVerdict(assets, run);
    }
  }

  // ---- where a cut upload stands ---------------------------------------------------------

  /** An asset is under the tag exactly when the cut came after its place in the order. */
  lemma LandedIff(us: seq<Upload>, k: nat, i: nat)
    requires i < |us| && k <= |us|
    requires forall i, j | 0 <= i < |us| && 0 <= j < |us| && us[i].0 == us[j].0 :: i == j
    ensures us[i].0 in Uploaded(us[..k]) <==> i < k
  {
    UploadedKeys(us[..k]);
    assert forall j | 0 <= j < k :: us[..k][j] == us[j];
    assert i < k ==> us[..k][i].0 == us[i].0;
  }

  lemma PartLanded(run: Run, order: Order, k: nat, i: nat)
    requires ValidRun(run) && k <= |run.parts| + 2 && i < |run.parts|
    ensures run.names[i] in Uploaded(Uploads(run, order)[..k]) <==> PartsAt(order) + i < k
  {
    UploadPositions(run, order);
    var us, at := Uploads(run, order), PartsAt(order) + i;
    assert us[at].0 == run.names[i];
    LandedIff(us, k, at);
  }

  lemma PartsLanded(run: Run, order: Order, k: nat)
    requires ValidRun(run) && k <= |run.parts| + 2
    ensures var a, p := Uploaded(Uploads(run, order)[..k]), PartsAt(order);
      && (Elements(run.names) <= a.Keys <==> k >= p + |run.parts|)
      && (Elements(run.names) * a.Keys != {} <==> k > p)
  {
    var a, n, p := Uploaded(Uploads(run, order)[..k]), |run.parts|, PartsAt(order);
    forall i | 0 <= i < n
      ensures run.names[i] in a <==> p + i < k
    {
      PartLanded(run, order, k, i);
    }
    assert run.names[0] in Elements(run.names) && run.names[n - 1] in Elements(run.names);
    if k > p {
      assert run.names[0] in Elements(run.names) * a.Keys;
    }
  }

  lemma CutContents(run: Run, order: Order, k: nat)
    requires ValidRun(run) && k <= |run.parts| + 2
    ensures var assets, n := Uploaded(Uploads(run, order)[..k]), |run.parts|;
      && (MANIFEST in assets <==> ManifestAt(n, order) < k)
      && (SUMS in assets <==> SumsAt(n, order) < k)
      && (Elements(run.names) <= assets.Keys <==> PartsAt(order) + n <= k)
      && (Elements(run.names) * assets.Keys != {} <==> PartsAt(order) < k)
      && Submap(assets, Full(run))
  {
    var us, n := Uploads(run, order), |run.parts|;
    UploadsWithinFull(run, order, k);
    UploadPositions(run, order);
    LandedIff(us, k, ManifestAt(n, order));
    LandedIff(us, k, SumsAt(n, order));
    PartsLanded(run, order, k);
  }

  /** bank_is_complete on an upload cut after k of its n + 2 assets. With the streaming sink and
      for the critical set a verdict means every part is there. A staged bank puts its sums file
      first, so it already passes as `legacy` with one part out of n. */
  lemma VerdictOfCut(run: Run, order: Order, k: nat)
    requires ValidRun(run) && k <= |run.parts| + 2
    ensures var v, n := BankIsComplete(Uploaded(Uploads(run, order)[..k])), |run.parts|;
      match order
      case Stage => (v == None <==> k < 2) && (v == Some(Legacy) <==> 2 <= k <= n + 1)
      case Stream => (v == None <==> k <= n) && (v == Some(Legacy) <==> k == n + 1)
      case CritFirst => v == None <==> k < n + 2
  {
    CutContents(run, order, k);
    VerdictOnRemains(Uploaded(Uploads(run, order)[..k]), run);
  }
}
