/** turbo.merge_turbo_states: donor archives are extracted over out/ with --skip-old-files, each
    of them possibly failing part way. */
module Turbo {
  import opened Prelude
  import opened Store

  type Tree = map<string, Bytes>

  datatype File = File(path: string, data: Bytes)

  /** An archive, and after how many files its extraction fails, if it does. */
  datatype Donor = Donor(files: seq<File>, fails: Option<nat>)

  /** What of a donor reaches out/. */
  function Delivered(d: Donor): seq<File> {
    if d.fails.Some? then d.files[..Min(d.fails.value, |d.files|)] else d.files
  }

  /** `tar --skip-old-files -x` */
  function Extract(out: Tree, files: seq<File>): Tree {
    if files == [] then out
    else
      var f := files[|files| - 1];
      var before := Extract(out, files[..|files| - 1]);
      if f.path in before then before else before[f.path := f.data]
  }

  /** The first file with this path. */
  function First(files: seq<File>, p: string): Option<Bytes> {
    if files == [] then None
    else if files[0].path == p then Some(files[0].data)
    else First(files[1..], p)
  }

  function Deliveries(donors: seq<Donor>): (r: seq<seq<File>>)
    ensures |r| == |donors|
  {
    seq(|donors|, i requires 0 <= i < |donors| => Delivered(donors[i]))
  }

  function Donated(donors: seq<Donor>): seq<File> {
    Flatten(Deliveries(donors))
  }

  function Succeeded(donors: seq<Donor>): nat {
    if donors == [] then 0
    else Succeeded(donors[..|donors| - 1]) + if donors[|donors| - 1].fails == None then 1 else 0
  }

  // ---- what an extraction leaves ---------------------------------------------------------

  lemma {:induction false} FirstOfJoin(a: seq<File>, b: seq<File>, p: string)
    ensures First(a + b, p) == if First(a, p).Some? then First(a, p) else First(b, p)
  {
    if a == [] {
      assert a + b == b;
    } else {
      assert (a + b)[1..] == a[1..] + b;
      FirstOfJoin(a[1..], b, p);
    }
  }

  /** A path keeps what out/ had; a new path gets the first file offered for it. */
  lemma {:induction false} ExtractAt(out: Tree, files: seq<File>, p: string)
    ensures p in Extract(out, files) <==> p in out || First(files, p).Some?
    ensures p in out ==> Extract(out, files)[p] == out[p]
    ensures p !in out && First(files, p).Some? ==> Extract(out, files)[p] == First(files, p).value
  {
    if files != [] {
      var n := |files| - 1;
      ExtractAt(out, files[..n], p);
      FirstOfJoin(files[..n], [files[n]], p);
      assert files == files[..n] + [files[n]];
      assert First([files[n]], p) == if files[n].path == p then Some(files[n].data) else None;
    }
  }

  lemma {:induction false} ExtractJoin(out: Tree, a: seq<File>, b: seq<File>)
    ensures Extract(Extract(out, a), b) == Extract(out, a + b)
    decreases |b|
  {
    if b == [] {
      assert a + b == a;
    } else {
      var n := |b| - 1;
      assert (a + b)[..|a| + n] == a + b[..n];
      ExtractJoin(out, a, b[..n]);
    }
  }

  /** Nothing in out/ is ever changed, however many donors fail and wherever. */
  lemma NeverOverwrites(out: Tree, donors: seq<Donor>)
    ensures Submap(out, Extract(out, Donated(donors)))
  {
    forall p | p in out
      ensures p in Extract(out, Donated(donors)) && Extract(out, Donated(donors))[p] == out[p]
    {
      ExtractAt(out, Donated(donors), p);
    }
  }

  lemma DonatedSnoc(donors: seq<Donor>, n: nat)
    requires n < |donors|
    ensures Donated(donors[..n + 1]) == Donated(donors[..n]) + Delivered(donors[n])
  {
    assert donors[..n + 1][..n] == donors[..n];
    assert Deliveries(donors[..n + 1])[..n] == Deliveries(donors[..n]);
  }

  lemma {:induction false} NoneDonated(donors: seq<Donor>, n: nat, p: string)
    requires n <= |donors| && forall j | 0 <= j < n :: First(Delivered(donors[j]), p).None?
    ensures First(Donated(donors[..n]), p).None?
  {
    if n > 0 {
      NoneDonated(donors, n - 1, p);
      DonatedSnoc(donors, n - 1);
      FirstOfJoin(Donated(donors[..n - 1]), Delivered(donors[n - 1]), p);
    }
  }

  lemma {:induction false} FirstDonated(donors: seq<Donor>, i: nat, n: nat, p: string)
    requires i < n <= |donors| && First(Delivered(donors[i]), p).Some?
    requires forall j | 0 <= j < i :: First(Delivered(donors[j]), p).None?
    ensures First(Donated(donors[..n]), p) == First(Delivered(donors[i]), p)
    decreases n
  {
    DonatedSnoc(donors, n - 1);
    FirstOfJoin(Donated(donors[..n - 1]), Delivered(donors[n - 1]), p);
    if i < n - 1 {
      FirstDonated(donors, i, n - 1, p);
    } else {
      NoneDonated(donors, i, p);
    }
  }

  /** The left-biased union: out/ first, then for each path the first donor that delivers it. */
  lemma LeftBiasedUnion(out: Tree, donors: seq<Donor>, i: nat, p: string)
    requires i < |donors| && p !in out
    requires First(Delivered(donors[i]), p).Some?
    requires forall j | 0 <= j < i :: First(Delivered(donors[j]), p).None?
    ensures p in Extract(out, Donated(donors)) &&
            Extract(out, Donated(donors))[p] == First(Delivered(donors[i]), p).value
  {
    FirstDonated(donors, i, |donors|, p);
    assert donors[..|donors|] == donors;
    ExtractAt(out, Donated(donors), p);
  }

  lemma {:induction false} NothingNew(out: Tree, files: seq<File>)
    requires forall f | f in files :: f.path in out
    ensures Extract(out, files) == out
  {
    if files != [] {
      NothingNew(out, files[..|files| - 1]);
      assert files[|files| - 1] in files;
    }
  }

  lemma {:induction false} FirstWith(donors: seq<Donor>, p: string, k: nat) returns (i: nat)
    requires k < |donors| && First(Delivered(donors[k]), p).Some?
    ensures i <= k && First(Delivered(donors[i]), p).Some?
    ensures forall j | 0 <= j < i :: First(Delivered(donors[j]), p).None?
  {
    if j: nat :| j < k && First(Delivered(donors[j]), p).Some? {
      i := FirstWith(donors, p, j);
    } else {
      i := k;
    }
  }

  /** out/ gets every path that some donor delivers, and no other. */
  lemma UnionOfDelivered(out: Tree, donors: seq<Donor>, p: string)
    ensures p in Extract(out, Donated(donors)) <==>
            p in out || exists i: nat :: i < |donors| && First(Delivered(donors[i]), p).Some?
  {
    ExtractAt(out, Donated(donors), p);
    if k: nat :| k < |donors| && First(Delivered(donors[k]), p).Some? {
      var i := FirstWith(donors, p, k);
      FirstDonated(donors, i, |donors|, p);
    } else {
      NoneDonated(donors, |donors|, p);
    }
    assert donors[..|donors|] == donors;
  }

  /** A donor that succeeds delivers all its files, one that fails those before that. */
  lemma FailureDelivers(files: seq<File>, n: nat)
    ensures Delivered(Donor(files, Some(n))) == if n <= |files| then files[..n] else files
    ensures Delivered(Donor(files, None)) == files
  {
  }

  /** Once every donor has been merged in full, merging any of their files again, in any order,
      with any failures, changes nothing. */
  lemma MergeAgain(out: Tree, donors: seq<Donor>, again: seq<File>)
    requires forall f | f in again :: First(Donated(donors), f.path).Some?
    ensures Extract(Extract(out, Donated(donors)), again) == Extract(out, Donated(donors))
  {
    var merged := Extract(out, Donated(donors));
    forall f | f in again
      ensures f.path in merged
    {
      ExtractAt(out, Donated(donors), f.path);
    }
    NothingNew(merged, again);
  }

  /** Two orders of the same files give the same tree exactly when they put the same file first
      for each path that out/ does not have. */
  lemma OrderMatters(out: Tree, a: seq<File>, b: seq<File>)
    ensures Extract(out, a) == Extract(out, b) <==> forall p | p !in out :: First(a, p) == First(b, p)
  {
    forall p
      ensures p in out || First(a, p) == First(b, p) <==>
        && (p in Extract(out, a) <==> p in Extract(out, b))
        && (p in Extract(out, a) ==> Extract(out, a)[p] == Extract(out, b)[p])
    {
      ExtractAt(out, a, p);
      ExtractAt(out, b, p);
    }
  }

  // ---- the code --------------------------------------------------------------------------

  class OutDir {
    var tree: Tree

    constructor (tree: Tree)
      ensures this.tree == tree
    {
      this.tree := tree;
    }
  }

  /** One donor streamed into out/, file by file, up to where it fails. */
  method ExtractInto(out: OutDir, d: Donor) returns (ok: bool)
    modifies out
    ensures out.tree == Extract(old(out.tree), Delivered(d)) && (ok <==> d.fails == None)
  {
    var files := Delivered(d);
    var i: nat := 0;
    while i < |files|
      invariant i <= |files| && out.tree == Extract(old(out.tree), files[..i])
    {
      assert files[..i + 1][..i] == files[..i];
      if files[i].path !in out.tree {
        out.tree := out.tree[files[i].path := files[i].data];
      }
      i := i + 1;
    }
    assert files[..i] == files;
    ok := d.fails == None;
  }

  method MergeTurboStates(out: OutDir, donors: seq<Donor>) returns (merged: nat)
    modifies out
    ensures out.tree == Extract(old(out.tree), Donated(donors))
    ensures merged == Succeeded(donors)
  {
    merged := 0;
    var i: nat := 0;
    while i < |donors|
      invariant i <= |donors| && merged == Succeeded(donors[..i])
      invariant out.tree == Extract(old(out.tree), Donated(donors[..i]))
    {
      var ok := ExtractInto(out, donors[i]);
      ExtractJoin(old(out.tree), Donated(donors[..i]), Delivered(donors[i]));
      DonatedSnoc(donors, i);
      assert donors[..i + 1][..i] == donors[..i];
      if ok {
        merged := merged + 1;
      }
      i := i + 1;
    }
    assert donors[..i] == donors;
  }
}
