/** chunker.pack, verify and unpack on a directory of parts: a stream is cut into parts, hashed,
    checked and joined again. */
module Chunker {
  import opened Prelude
  import opened Sums
  import opened Banks
  import R = Restoring

  const PART_BYTES: nat := 1900 * 1024 * 1024

  // ---- split -----------------------------------------------------------------------------

  /** `split -b size` */
  function Split(stream: Bytes, size: nat): seq<Bytes>
    requires size > 0
  {
    if stream == [] then []
    else
      var n := Min(size, |stream|);
      [stream[..n]] + Split(stream[n..], size)
  }

  /** Every part is full but the last, and none is empty. */
  lemma {:induction false} SplitSizes(stream: Bytes, size: nat)
    requires size > 0
    ensures var parts := Split(stream, size);
      && (forall i | 0 <= i < |parts| :: 0 < |parts[i]| <= size && (i < |parts| - 1 ==> |parts[i]| == size))
      && (parts == [] <==> stream == [])
  {
    if stream != [] {
      var n := Min(size, |stream|);
      SplitSizes(stream[n..], size);
      var rest := Split(stream[n..], size);
      var parts := Split(stream, size);
      assert forall i | 0 < i < |parts| :: parts[i] == rest[i - 1];
    }
  }

  /** Joining the parts gives the stream back. */
  lemma {:induction false} SplitJoins(stream: Bytes, size: nat)
    requires size > 0
    ensures Flatten(Split(stream, size)) == stream
  {
    if stream != [] {
      var n := Min(size, |stream|);
      SplitJoins(stream[n..], size);
      var parts := Split(stream, size);
      FlattenCons(parts);
      assert parts[0] == stream[..n] && parts[1..] == Split(stream[n..], size);
      assert stream == stream[..n] + stream[n..];
    }
  }

  // ---- pack ------------------------------------------------------------------------------

  type Files = map<string, Bytes>

  /** A staging directory: part files, and the sums file if there is one. */
  class PartsDir {
    var files: Files
    var sums: Option<string>

    constructor ()
      ensures files == map[] && sums == None
    {
      files, sums := map[], None;
    }
  }

  /** Enough names, in the order split makes them. */
  ghost predicate PartNamesFor(names: seq<string>, crit: bool, n: nat) {
    && |names| == n && Increasing(names)
    && forall i | 0 <= i < n :: IsPartName(names[i], Prefix(crit))
  }

  function PackedRun(stream: Bytes, crit: bool, names: seq<string>): Run {
    Run(crit, names, Split(stream, PART_BYTES))
  }

  lemma PackedRunIsValid(stream: Bytes, crit: bool, names: seq<string>)
    requires PartNamesFor(names, crit, |Split(stream, PART_BYTES)|)
    ensures stream != [] ==> ValidRun(PackedRun(stream, crit, names))
    ensures Archive(PackedRun(stream, crit, names)) == stream
  {
    SplitSizes(stream, PART_BYTES);
    SplitJoins(stream, PART_BYTES);
  }

  function FilesOf(names: seq<string>, parts: seq<Bytes>): Files
    requires |names| == |parts|
  {
    if names == [] then map[]
    else
      var n := |names| - 1;
      FilesOf(names[..n], parts[..n])[names[n] := parts[n]]
  }

  lemma {:induction false} FilesOfAt(names: seq<string>, parts: seq<Bytes>)
    requires |names| == |parts|
    requires forall i, j | 0 <= i < j < |names| :: names[i] != names[j]
    ensures FilesOf(names, parts).Keys == Elements(names)
    ensures forall i | 0 <= i < |names| ::
            names[i] in FilesOf(names, parts) && FilesOf(names, parts)[names[i]] == parts[i]
  {
    if names != [] {
      var n := |names| - 1;
      FilesOfAt(names[..n], parts[..n]);
      assert names == names[..n] + [names[n]];
      assert Elements(names) == Elements(names[..n]) + {names[n]};
    }
  }

  /** split: one part after the other into an empty directory. */
  method SplitInto(dir: PartsDir, stream: Bytes, names: seq<string>)
    requires dir.files == map[] && |names| == |Split(stream, PART_BYTES)|
    modifies dir
    ensures dir.files == FilesOf(names, Split(stream, PART_BYTES)) && dir.sums == old(dir.sums)
  {
    var offset: nat, i: nat := 0, 0;
    ghost var parts := Split(stream, PART_BYTES);
    while offset < |stream|
      invariant offset <= |stream| && i <= |parts|
      invariant parts[i..] == Split(stream[offset..], PART_BYTES)
      invariant dir.files == FilesOf(names[..i], parts[..i]) && dir.sums == old(dir.sums)
    {
      var n := Min(PART_BYTES, |stream| - offset);
      assert stream[offset..][..n] == stream[offset..offset + n];
      assert stream[offset..][n..] == stream[offset + n..];
      assert parts[i..][0] == parts[i] == stream[offset..offset + n];
      assert parts[i..][1..] == parts[i + 1..];
      assert names[..i + 1][..i] == names[..i] && parts[..i + 1][..i] == parts[..i];
      dir.files := dir.files[names[i] := stream[offset..offset + n]];
      offset, i := offset + n, i + 1;
    }
    assert i == |parts| && parts[..i] == parts && names[..i] == names;
  }

  /** `sorted(glob("<prefix>.part.*"))` */
  ghost predicate IsGlob(files: Files, prefix: string, listing: seq<string>) {
    Increasing(listing) && Elements(listing) == set f | f in files && StartsWith(f, Mark(prefix))
  }

  method Glob(files: Files, prefix: string) returns (listing: seq<string>)
    ensures IsGlob(files, prefix, listing)
  {
    var found: seq<string> := [];
    var left := set f | f in files && StartsWith(f, Mark(prefix));
    ghost var all := left;
    while left != {}
      invariant Elements(found) + left == all
      decreases left
    {
      var f :| f in left;
      assert Elements(found + [f]) == Elements(found) + {f};
      found, left := found + [f], left - {f};
    }
    listing := SortNames(found);
  }

  function EntriesOf(files: Files, parts: seq<string>): seq<Entry>
    requires forall p | p in parts :: p in files
  {
    seq(|parts|, i requires 0 <= i < |parts| => assert parts[i] in parts; Entry(Digest(files[parts[i]]), parts[i]))
  }

  /** _write_sums */
  method WriteSums(files: Files, parts: seq<string>) returns (text: string)
    requires forall p | p in parts :: p in files
    ensures text == PrintEntries(EntriesOf(files, parts))
  {
    ghost var es := EntriesOf(files, parts);
    text := "";
    var i: nat := 0;
    while i < |parts|
      invariant i <= |parts| && text == PrintEntries(es[..i])
    {
      assert parts[i] in parts;
      assert EntryLines(es[..i + 1])[..i] == EntryLines(es[..i]);
      text := text + PrintEntry(Entry(Digest(files[parts[i]]), parts[i]));
      i := i + 1;
    }
    assert es[..i] == es;
  }

  lemma GlobOfParts(run: Run, listing: seq<string>)
    requires ValidRun(run) && IsGlob(FilesOf(run.names, run.parts), Prefix(run.crit), listing)
    ensures listing == run.names
  {
    IncreasingNoDuplicates(run.names);
    FilesOfAt(run.names, run.parts);
    assert Elements(listing) == Elements(run.names);
    IncreasingUnique(listing, run.names);
  }

  lemma OwnEntries(run: Run)
    requires ValidRun(run)
    ensures forall p | p in run.names :: p in FilesOf(run.names, run.parts)
    ensures EntriesOf(FilesOf(run.names, run.parts), run.names) == Entries(run)
    ensures run.names != []
  {
    IncreasingNoDuplicates(run.names);
    FilesOfAt(run.names, run.parts);
  }

  lemma NothingListed(listing: seq<string>, prefix: string)
    requires IsGlob(map[], prefix, listing)
    ensures listing == []
  {
    R.EmptyListing(listing);
    assert Elements(listing) == {};
  }

  /** pack: parts and sums file, or an error when the pipeline gave nothing. */
  method Pack(dir: PartsDir, stream: Bytes, crit: bool, names: seq<string>) returns (ok: bool)
    requires dir.files == map[] && PartNamesFor(names, crit, |Split(stream, PART_BYTES)|)
    modifies dir
    ensures ok <==> stream != []
    ensures var run := PackedRun(stream, crit, names);
      dir.files == FilesOf(run.names, run.parts) && (ok ==> dir.sums == Some(SumsText(run)))
  {
    SplitInto(dir, stream, names);
    SplitSizes(stream, PART_BYTES);
    ghost var run := PackedRun(stream, crit, names);
    var listing := Glob(dir.files, Prefix(crit));
    if stream != [] {
      PackedRunIsValid(stream, crit, names);
      GlobOfParts(run, listing);
      OwnEntries(run);
    } else {
      NothingListed(listing, Prefix(crit));
    }
    if listing == [] {
      return false;
    }
    var text := WriteSums(dir.files, listing);
    dir.sums := Some(text);
    ok := true;
  }

  // ---- verify ----------------------------------------------------------------------------

  /** Malformed stands for the ValueError of a line that is not two words. */
  datatype Check = Passed | Failed | Malformed

  /** What the lines say of the files, the first bad line deciding. */
  function CheckLines(lines: seq<seq<string>>, files: Files): Check {
    if lines == [] then Passed
    else if |lines[0]| != 2 then Malformed
    else if lines[0][1] !in files || Digest(files[lines[0][1]]) != lines[0][0] then Failed
    else CheckLines(lines[1..], files)
  }

  method Verify(dir: PartsDir) returns (r: Check)
    ensures dir.sums == None ==> r == Passed
    ensures dir.sums.Some? ==> r == CheckLines(WordLines(Lines(dir.sums.value)), dir.files)
  {
    if dir.sums == None {
      return Passed;
    }
    var lines := Lines(dir.sums.value);
    ghost var verdict := CheckLines(WordLines(lines), dir.files);
    var i: nat := 0;
    while i < |lines|
      invariant i <= |lines| && CheckLines(WordLines(lines[i..]), dir.files) == verdict
    {
      var words := Words(lines[i]);
      assert lines[i..][1..] == lines[i + 1..];
      if words != [] {
        assert WordLines(lines[i..])[1..] == WordLines(lines[i + 1..]);
        if |words| != 2 {
          return Malformed;
        }
        if words[1] !in dir.files || Digest(dir.files[words[1]]) != words[0] {
          return Failed;
        }
      }
      i := i + 1;
    }
    r := Passed;
  }

  lemma {:induction false} CheckPairs(es: seq<Entry>, files: Files)
    ensures CheckLines(Pairs(es), files) == Passed <==>
            forall e | e in es :: e.name in files && Digest(files[e.name]) == e.digest
    ensures CheckLines(Pairs(es), files) != Malformed
  {
    if es != [] {
      assert Pairs(es)[1..] == Pairs(es[1..]);
      assert es == [es[0]] + es[1..];
      CheckPairs(es[1..], files);
    }
  }

  /** Against a run's own sums file exactly its own parts pass: one changed, swapped or missing
      part is enough to fail. Without a sums file anything passes. */
  lemma VerifyExactly(run: Run, files: Files)
    requires ValidRun(run)
    ensures var r := CheckLines(WordLines(Lines(SumsText(run))), files);
      && r != Malformed
      && (r == Passed <==> forall i | 0 <= i < |run.parts| ::
          run.names[i] in files && files[run.names[i]] == run.parts[i])
  {
    forall e | e in Entries(run)
      ensures PrintableEntry(e)
    {
      var i :| 0 <= i < |run.parts| && Entries(run)[i] == e;
      PartNameMarks(run.names[i], run.crit);
      DigestIsWord(run.parts[i]);
    }
    SumsRoundTrip(Entries(run));
    CheckPairs(Entries(run), files);
    forall i | 0 <= i < |run.parts|
      ensures Entries(run)[i] in Entries(run)
      ensures run.names[i] in files && Digest(files[run.names[i]]) == Digest(run.parts[i]) ==>
              files[run.names[i]] == run.parts[i]
    {
      if run.names[i] in files && Digest(files[run.names[i]]) == Digest(run.parts[i]) {
        DigestInjective(files[run.names[i]], run.parts[i]);
      }
    }
    if forall i | 0 <= i < |run.parts| :: run.names[i] in files && files[run.names[i]] == run.parts[i] {
      forall e | e in Entries(run)
        ensures e.name in files && Digest(files[e.name]) == e.digest
      {
        var i :| 0 <= i < |run.parts| && Entries(run)[i] == e;
      }
    }
  }

  // ---- unpack ----------------------------------------------------------------------------

  datatype Unpacked = Refused(check: Check) | NoParts | Streamed(fed: Bytes)

  /** What the feeder sends: each file once, then unlinked; it stops at one that is gone. */
  function FeedOf(parts: seq<string>, files: Files): Bytes {
    if parts == [] || parts[0] !in files then [] else files[parts[0]] + FeedOf(parts[1..], files - {parts[0]})
  }

  method Feed(dir: PartsDir, parts: seq<string>) returns (fed: Bytes)
    modifies dir
    ensures fed == FeedOf(parts, old(dir.files))
    ensures dir.sums == old(dir.sums) && dir.files.Keys <= old(dir.files).Keys
  {
    fed := [];
    var i: nat := 0;
    ghost var whole := FeedOf(parts, dir.files);
    while i < |parts| && parts[i] in dir.files
      invariant i <= |parts| && fed + FeedOf(parts[i..], dir.files) == whole
      invariant dir.sums == old(dir.sums) && dir.files.Keys <= old(dir.files).Keys
    {
      assert parts[i..][0] == parts[i] && parts[i..][1..] == parts[i + 1..];
      fed := fed + dir.files[parts[i]];
      dir.files := dir.files - {parts[i]};
      i := i + 1;
    }
    assert FeedOf(parts[i..], dir.files) == [];
  }

  /** The second word of each line whose file exists. */
  function Existing(lines: seq<seq<string>>, files: Files): seq<string> {
    if lines == [] then []
    else
      var rest := Existing(lines[1..], files);
      if |lines[0]| >= 2 && lines[0][1] in files then [lines[0][1]] + rest else rest
  }

  method Unpack(dir: PartsDir, prefix: string) returns (r: Unpacked)
    modifies dir
    ensures old(dir.sums).Some? ==>
      var lines, files := WordLines(Lines(old(dir.sums).value)), old(dir.files);
      if CheckLines(lines, files) != Passed then r == Refused(CheckLines(lines, files)) && dir.files == files
      else if Existing(lines, files) == [] then r == NoParts
      else r == Streamed(FeedOf(Existing(lines, files), files))
    ensures old(dir.sums).None? ==> exists listing ::
      && IsGlob(old(dir.files), prefix, listing)
      && r == if listing == [] then NoParts else Streamed(FeedOf(listing, old(dir.files)))
  {
    var check := Verify(dir);
    if check != Passed {
      return Refused(check);
    }
    var parts;
    if dir.sums.Some? {
      parts := Existing(WordLines(Lines(dir.sums.value)), dir.files);
    } else {
      parts := Glob(dir.files, prefix);
    }
    if parts == [] {
      return NoParts;
    }
    var fed := Feed(dir, parts);
    r := Streamed(fed);
  }

  lemma {:induction false} FeedOfParts(names: seq<string>, parts: seq<Bytes>, files: Files)
    requires |names| == |parts|
    requires forall i, j | 0 <= i < j < |names| :: names[i] != names[j]
    requires forall i | 0 <= i < |names| :: names[i] in files && files[names[i]] == parts[i]
    ensures FeedOf(names, files) == Flatten(parts)
  {
    if names != [] {
      FlattenCons(parts);
      var rest := files - {names[0]};
      FeedOfParts(names[1..], parts[1..], rest);
    }
  }

  lemma {:induction false} ExistingPairs(es: seq<Entry>, files: Files)
    requires forall e | e in es :: e.name in files
    ensures Existing(Pairs(es), files) == seq(|es|, i requires 0 <= i < |es| => es[i].name)
  {
    if es != [] {
      assert Pairs(es)[1..] == Pairs(es[1..]);
      assert es == [es[0]] + es[1..];
      ExistingPairs(es[1..], files);
    }
  }

  lemma ListedExist(run: Run, files: Files)
    requires ValidRun(run) && forall i | 0 <= i < |run.names| :: run.names[i] in files
    ensures Existing(WordLines(Lines(SumsText(run))), files) == run.names
  {
    forall e | e in Entries(run)
      ensures PrintableEntry(e) && e.name in files
    {
      var i :| 0 <= i < |run.parts| && Entries(run)[i] == e;
      PartNameMarks(run.names[i], run.crit);
      DigestIsWord(run.parts[i]);
    }
    SumsRoundTrip(Entries(run));
    ExistingPairs(Entries(run), files);
  }

  /** pack, then unpack: the whole round trip, for every stream. The directory may hold other
      files; only the listed parts are fed, in their order. */
  lemma PackUnpack(stream: Bytes, crit: bool, names: seq<string>, files: Files)
    requires stream != [] && PartNamesFor(names, crit, |Split(stream, PART_BYTES)|)
    ensures var run := PackedRun(stream, crit, names); var lines := WordLines(Lines(SumsText(run)));
      CheckLines(lines, files) == Passed ==>
        Existing(lines, files) == names && names != [] && FeedOf(Existing(lines, files), files) == stream
    ensures var run := PackedRun(stream, crit, names); var lines := WordLines(Lines(SumsText(run)));
      CheckLines(lines, FilesOf(run.names, run.parts)) == Passed
  {
    var run := PackedRun(stream, crit, names);
    PackedRunIsValid(stream, crit, names);
    IncreasingNoDuplicates(names);
    FilesOfAt(run.names, run.parts);
    VerifyExactly(run, FilesOf(run.names, run.parts));
    VerifyExactly(run, files);
    if CheckLines(WordLines(Lines(SumsText(run))), files) == Passed {
      ListedExist(run, files);
      FeedOfParts(names, run.parts, files);
    }
  }

  /** pack, bank and restore: over an honest network the bank of a packed stream feeds the
      stream back. */
  lemma PackBankRestore(stream: Bytes, crit: bool, names: seq<string>)
    requires stream != [] && PartNamesFor(names, crit, |Split(stream, PART_BYTES)|)
    ensures var a := R.AttemptOn(Full(PackedRun(stream, crit, names)), R.Honest);
      a.Unpacking? && R.AllSound(a.c) && R.Fed(a.c) == stream
  {
    var run := PackedRun(stream, crit, names);
    PackedRunIsValid(stream, crit, names);
    FullContents(run);
    R.RestoreExact(Full(run), run);
  }
}
