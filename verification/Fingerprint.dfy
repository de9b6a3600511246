/** syncer.mhash: the text that is hashed into a source's fingerprint. */
module Fingerprint {
  import opened Prelude

  datatype Repo = Repo(path: string, url: string, branch: string)

  datatype Patch = Patch(src: string, dst: string)

  datatype Plan = Plan(
    name: string, manifestBranch: string, androidVersion: string,
    deviceRepos: seq<Repo>, localManifests: seq<string>, patches: seq<Patch>)

  /** Something to be hashed, with the key it is sorted by. */
  datatype Item = Item(key: string, text: string)

  function RepoItem(r: Repo): Item {
    Item(r.path, r.path + "|" + r.url + "|" + r.branch)
  }

  function ManifestItem(lm: string): Item {
    Item(lm, lm)
  }

  function PatchItem(p: Patch): Item {
    Item(p.dst, p.src + "->" + p.dst)
  }

  function Map<A, B>(f: A -> B, xs: seq<A>): (ys: seq<B>)
    ensures |ys| == |xs| && forall i | 0 <= i < |xs| :: ys[i] == f(xs[i])
  {
    seq(|xs|, i requires 0 <= i < |xs| => f(xs[i]))
  }

  // ---- sorted(..., key=...) --------------------------------------------------------------

  /** Before the first item whose key is not smaller: equal keys keep their order. */
  function Insert(x: Item, xs: seq<Item>): seq<Item> {
    if xs == [] || !Before(xs[0].key, x.key) then [x] + xs else [xs[0]] + Insert(x, xs[1..])
  }

  function Sort(xs: seq<Item>): seq<Item> {
    if xs == [] then [] else Insert(xs[0], Sort(xs[1..]))
  }

  ghost predicate Sorted(xs: seq<Item>) {
    forall i, j | 0 <= i < j < |xs| :: !Before(xs[j].key, xs[i].key)
  }

  lemma FrontIsLeast(x: Item, xs: seq<Item>)
    requires Sorted(xs) && (xs == [] || !Before(xs[0].key, x.key))
    ensures Sorted([x] + xs)
  {
    forall j | 0 <= j < |xs|
      ensures !Before(xs[j].key, x.key)
    {
      if Before(xs[j].key, x.key) && j > 0 {
        BeforeTotal(xs[0].key, xs[j].key);
        if Before(xs[0].key, xs[j].key) {
          BeforeTransitive(xs[0].key, xs[j].key, x.key);
        }
      }
    }
  }

  lemma KeyAbove(x: Item, xs: seq<Item>, y: Item)
    requires Sorted(xs) && xs != [] && Before(xs[0].key, x.key)
    requires y == x || y in xs[1..]
    ensures !Before(y.key, xs[0].key)
  {
    if y == x {
      if Before(x.key, xs[0].key) {
        BeforeTransitive(xs[0].key, x.key, xs[0].key);
        BeforeIrreflexive(xs[0].key);
      }
    } else {
      var i :| 0 <= i < |xs| - 1 && xs[1..][i] == y;
      assert xs[i + 1] == y;
    }
  }

  lemma {:induction false} InsertKeeps(x: Item, xs: seq<Item>)
    ensures multiset(Insert(x, xs)) == multiset(xs) + multiset{x}
    ensures Sorted(xs) ==> Sorted(Insert(x, xs))
  {
    if xs == [] || !Before(xs[0].key, x.key) {
      if Sorted(xs) {
        FrontIsLeast(x, xs);
      }
    } else {
      InsertKeeps(x, xs[1..]);
      var rest := Insert(x, xs[1..]);
      assert xs == [xs[0]] + xs[1..];
      if Sorted(xs) {
        forall j | 0 <= j < |rest|
          ensures !Before(rest[j].key, xs[0].key)
        {
          assert rest[j] in multiset(rest);
          KeyAbove(x, xs, rest[j]);
        }
      }
    }
  }

  lemma {:induction false} SortFacts(xs: seq<Item>)
    ensures multiset(Sort(xs)) == multiset(xs) && Sorted(Sort(xs))
  {
    if xs != [] {
      SortFacts(xs[1..]);
      InsertKeeps(xs[0], Sort(xs[1..]));
      assert xs == [xs[0]] + xs[1..];
    }
  }

  /** Two items under one key are the same item. */
  ghost predicate Consistent(xs: seq<Item>) {
    forall a, b | a in xs && b in xs && a.key == b.key :: a == b
  }

  lemma HeadsEqual(xs: seq<Item>, ys: seq<Item>)
    requires Sorted(xs) && Sorted(ys) && multiset(xs) == multiset(ys) && Consistent(xs) && xs != [] && ys != []
    ensures xs[0] == ys[0]
  {
    assert xs[0] in multiset(ys) && ys[0] in multiset(xs);
    var i :| 0 <= i < |ys| && ys[i] == xs[0];
    var j :| 0 <= j < |xs| && xs[j] == ys[0];
    BeforeTotal(xs[0].key, ys[0].key);
    BeforeIrreflexive(xs[0].key);
  }

  lemma TailOfSorted(xs: seq<Item>)
    requires xs != [] && Sorted(xs) && Consistent(xs)
    ensures Sorted(xs[1..]) && Consistent(xs[1..])
    ensures multiset(xs[1..]) == multiset(xs) - multiset{xs[0]}
    ensures xs == [xs[0]] + xs[1..]
  {
    assert xs == [xs[0]] + xs[1..];
  }

  lemma SameItemsConsistent(xs: seq<Item>, ys: seq<Item>)
    requires multiset(xs) == multiset(ys) && Consistent(xs)
    ensures Consistent(ys) && |xs| == |ys|
  {
    assert |xs| == |multiset(xs)| == |multiset(ys)| == |ys|;
    forall a, b | a in ys && b in ys && a.key == b.key
      ensures a == b
    {
      assert a in multiset(xs) && b in multiset(xs);
    }
  }

  /** A sorted arrangement of consistent items is unique. */
  lemma {:induction false} SortedUnique(xs: seq<Item>, ys: seq<Item>)
    requires Sorted(xs) && Sorted(ys) && multiset(xs) == multiset(ys) && Consistent(xs)
    ensures xs == ys
  {
    SameItemsConsistent(xs, ys);
    if xs != [] {
      HeadsEqual(xs, ys);
      TailOfSorted(xs);
      TailOfSorted(ys);
      SortedUnique(xs[1..], ys[1..]);
    }
  }

  /** What `sorted` gives depends only on which items there are. */
  lemma SortIsCanonical(xs: seq<Item>, ys: seq<Item>)
    requires multiset(xs) == multiset(ys) && Consistent(xs)
    ensures Sort(xs) == Sort(ys)
  {
    SortFacts(xs);
    SortFacts(ys);
    forall a, b | a in Sort(xs) && b in Sort(xs) && a.key == b.key
      ensures a == b
    {
      assert a in multiset(Sort(xs)) && b in multiset(Sort(xs));
    }
    SortedUnique(Sort(xs), Sort(ys));
  }

  // ---- mhash -----------------------------------------------------------------------------

  function Texts(items: seq<Item>): string {
    Flatten(Map((x: Item) => x.text, items))
  }

  /** Everything fed to the hash, in order. */
  function HashInput(plan: Plan, xml: string): string {
    xml + plan.name + plan.manifestBranch + plan.androidVersion
    + Texts(Sort(Map(RepoItem, plan.deviceRepos)))
    + Texts(Sort(Map(ManifestItem, plan.localManifests)))
    + Texts(Sort(Map(PatchItem, plan.patches)))
  }

  method UpdateAll(h: string, items: seq<Item>) returns (h': string)
    ensures h' == h + Texts(items)
  {
    h' := h;
    var i: nat := 0;
    var texts := Map((x: Item) => x.text, items);
    while i < |items|
      invariant i <= |items| && h' == h + Flatten(texts[..i])
    {
      FlattenSnoc(texts, i);
      h' := h' + items[i].text;
      i := i + 1;
    }
    assert texts[..i] == texts;
  }

  method Mhash(plan: Plan, xml: string) returns (h: string)
    ensures h == HashInput(plan, xml)
  {
    h := xml + plan.name + plan.manifestBranch + plan.androidVersion;
    h := UpdateAll(h, Sort(Map(RepoItem, plan.deviceRepos)));
    h := UpdateAll(h, Sort(Map(ManifestItem, plan.localManifests)));
    h := UpdateAll(h, Sort(Map(PatchItem, plan.patches)));
  }

  ghost predicate Permutation<T>(xs: seq<T>, ys: seq<T>) {
    multiset(xs) == multiset(ys)
  }

  function Drop<T>(xs: seq<T>, i: nat): seq<T>
    requires i < |xs|
  {
    xs[..i] + xs[i + 1..]
  }

  lemma Without<T>(xs: seq<T>, i: nat)
    requires i < |xs|
    ensures multiset(Drop(xs, i)) == multiset(xs) - multiset{xs[i]}
  {
    assert xs == xs[..i] + [xs[i]] + xs[i + 1..];
  }

  lemma MapWithout<A, B>(f: A -> B, xs: seq<A>, i: nat)
    requires i < |xs|
    ensures f(xs[i]) in multiset(Map(f, xs))
    ensures multiset(Map(f, Drop(xs, i))) == multiset(Map(f, xs)) - multiset{f(xs[i])}
  {
    assert Map(f, Drop(xs, i)) == Drop(Map(f, xs), i);
    Without(Map(f, xs), i);
    assert Map(f, xs)[i] == f(xs[i]);
  }

  lemma SameAfterRemoval<T>(a: multiset<T>, b: multiset<T>, x: T)
    requires x in a && x in b && a - multiset{x} == b - multiset{x}
    ensures a == b
  {
    assert a == a - multiset{x} + multiset{x};
    assert b == b - multiset{x} + multiset{x};
  }

  lemma {:induction false} MapPermutes<A, B>(f: A -> B, xs: seq<A>, ys: seq<A>)
    requires Permutation(xs, ys)
    ensures Permutation(Map(f, xs), Map(f, ys))
  {
    assert |xs| == |multiset(xs)| == |multiset(ys)| == |ys|;
    if xs != [] {
      assert xs[0] in multiset(ys);
      var i :| 0 <= i < |ys| && ys[i] == xs[0];
      Without(ys, i);
      Without(xs, 0);
      MapPermutes(f, Drop(xs, 0), Drop(ys, i));
      MapWithout(f, xs, 0);
      MapWithout(f, ys, i);
      SameAfterRemoval(multiset(Map(f, xs)), multiset(Map(f, ys)), f(xs[0]));
    }
  }

  /** The fingerprint does not depend on the order of device repos with distinct paths, of
      patches with distinct destinations, or of local manifests. */
  lemma Canonical(a: Plan, b: Plan, xml: string)
    requires a.(deviceRepos := [], localManifests := [], patches := []) ==
            b.(deviceRepos := [], localManifests := [], patches := [])
    requires Permutation(a.deviceRepos, b.deviceRepos)
    requires Permutation(a.localManifests, b.localManifests)
    requires Permutation(a.patches, b.patches)
    requires forall r, s | r in a.deviceRepos && s in a.deviceRepos && r.path == s.path :: r == s
    requires forall p, q | p in a.patches && q in a.patches && p.dst == q.dst :: p == q
    ensures HashInput(a, xml) == HashInput(b, xml)
  {
    MapPermutes(RepoItem, a.deviceRepos, b.deviceRepos);
    MapPermutes(ManifestItem, a.localManifests, b.localManifests);
    MapPermutes(PatchItem, a.patches, b.patches);
    SortIsCanonical(Map(RepoItem, a.deviceRepos), Map(RepoItem, b.deviceRepos));
    SortIsCanonical(Map(ManifestItem, a.localManifests), Map(ManifestItem, b.localManifests));
    SortIsCanonical(Map(PatchItem, a.patches), Map(PatchItem, b.patches));
  }

  lemma TextsOfTwo(r: Item, s: Item)
    ensures Texts([r, s]) == r.text + s.text
  {
    var texts := Map((x: Item) => x.text, [r, s]);
    assert texts == [r.text, s.text];
    assert texts[..1] == [r.text] && [r.text][..0] == [];
    assert Flatten([r.text]) == r.text;
  }

  /** Two items under one key, repos at one path say, are hashed in the order given. There the
      order shows exactly when their texts do not commute. */
  lemma SharedKeyShows(r: Item, s: Item)
    requires r.key == s.key
    ensures Texts(Sort([r, s])) != Texts(Sort([s, r])) <==> r.text + s.text != s.text + r.text
  {
    BeforeIrreflexive(r.key);
    assert [r, s][1..] == [s] && [s, r][1..] == [r] && [s][1..] == [] && [r][1..] == [];
    assert Sort([s]) == [s] && Sort([r]) == [r];
    assert Sort([r, s]) == [r, s] && Sort([s, r]) == [s, r];
    TextsOfTwo(r, s);
    TextsOfTwo(s, r);
  }

  /** The fields that are hashed with nothing between them. */
  function Fields(plan: Plan): string {
    plan.name + plan.manifestBranch + plan.androidVersion
  }

  lemma Cancel(head: string, x: string, y: string, tail: string)
    ensures head + x + tail == head + y + tail <==> x == y
  {
    var a, b := head + x + tail, head + y + tail;
    if a == b {
      assert |x| == |y|;
      assert x == a[|head|..|head| + |x|] && y == b[|head|..|head| + |y|];
    }
  }

  function ListsText(plan: Plan): string {
    Texts(Sort(Map(RepoItem, plan.deviceRepos)))
    + Texts(Sort(Map(ManifestItem, plan.localManifests)))
    + Texts(Sort(Map(PatchItem, plan.patches)))
  }

  lemma HashInputParts(plan: Plan, xml: string)
    ensures HashInput(plan, xml) == xml + Fields(plan) + ListsText(plan)
  {
  }

  /** Exactly when two plans with the same repos, manifests and patches, in any order, have one
      fingerprint: their three fields make one text. */
  lemma CollideExactly(a: Plan, b: Plan, xml: string)
    requires Permutation(a.deviceRepos, b.deviceRepos)
    requires Permutation(a.localManifests, b.localManifests)
    requires Permutation(a.patches, b.patches)
    requires forall r, s | r in a.deviceRepos && s in a.deviceRepos && r.path == s.path :: r == s
    requires forall p, q | p in a.patches && q in a.patches && p.dst == q.dst :: p == q
    ensures HashInput(a, xml) == HashInput(b, xml) <==> Fields(a) == Fields(b)
  {
    var c := a.(name := b.name, manifestBranch := b.manifestBranch, androidVersion := b.androidVersion);
    Canonical(c, b, xml);
    HashInputParts(a, xml);
    HashInputParts(c, xml);
    assert ListsText(c) == ListsText(a) && Fields(c) == Fields(b);
    Cancel(xml, Fields(a), Fields(b), ListsText(a));
  }

  lemma FieldsSplit(plan: Plan)
    ensures Fields(plan) == "" + plan.name + (plan.manifestBranch + plan.androidVersion)
    ensures Fields(plan) == (plan.name + plan.manifestBranch) + plan.androidVersion + ""
  {
  }

  /** So a change of a single field always shows. */
  lemma OneFieldShows(plan: Plan, xml: string, name: string, branch: string, version: string)
    ensures HashInput(plan.(name := name), xml) == HashInput(plan, xml) <==> name == plan.name
    ensures HashInput(plan.(manifestBranch := branch), xml) == HashInput(plan, xml) <==> branch == plan.manifestBranch
    ensures HashInput(plan.(androidVersion := version), xml) == HashInput(plan, xml) <==>
            version == plan.androidVersion
  {
    var lists := ListsText(plan);
    HashInputParts(plan, xml);
    HashInputParts(plan.(name := name), xml);
    HashInputParts(plan.(manifestBranch := branch), xml);
    HashInputParts(plan.(androidVersion := version), xml);
    Cancel(xml, Fields(plan), Fields(plan.(name := name)), lists);
    Cancel(xml, Fields(plan), Fields(plan.(manifestBranch := branch)), lists);
    Cancel(xml, Fields(plan), Fields(plan.(androidVersion := version)), lists);
    Cancel("", name, plan.name, plan.manifestBranch + plan.androidVersion);
    Cancel(plan.name, branch, plan.manifestBranch, plan.androidVersion);
    Cancel(plan.name + plan.manifestBranch, version, plan.androidVersion, "");
    FieldsSplit(plan.(name := name));
    FieldsSplit(plan);
    FieldsSplit(plan.(androidVersion := version));
  }

  lemma TextsOfOne(xs: seq<Item>, item: Item)
    requires xs == [item]
    ensures Texts(Sort(xs)) == item.text
  {
    assert xs[1..] == [];
    assert Sort(xs) == [item];
    var texts := Map((x: Item) => x.text, [item]);
    assert texts == [item.text] && texts[..0] == [];
    assert Flatten(texts) == item.text;
  }

  /** The whole input of a plan with one repo, one local manifest and one patch. */
  lemma HashInputOfOne(plan: Plan, xml: string, r: Repo, lm: string, p: Patch)
    requires plan.deviceRepos == [r] && plan.localManifests == [lm] && plan.patches == [p]
    ensures HashInput(plan, xml) ==
            xml + plan.name + plan.manifestBranch + plan.androidVersion
            + (r.path + "|" + r.url + "|" + r.branch) + lm + (p.src + "->" + p.dst)
  {
    TextsOfOne(Map(RepoItem, plan.deviceRepos), RepoItem(r));
    TextsOfOne(Map(ManifestItem, plan.localManifests), ManifestItem(lm));
    TextsOfOne(Map(PatchItem, plan.patches), PatchItem(p));
  }

  lemma {:induction false} InsertSameKey(x: Item, y: Item, xs: seq<Item>) returns (at: nat)
    requires x.key == y.key
    ensures at < |Insert(x, xs)| && Insert(x, xs)[at] == x && Insert(y, xs) == Insert(x, xs)[at := y]
  {
    if xs == [] || !Before(xs[0].key, x.key) {
      at := 0;
      assert ([x] + xs)[0 := y] == [y] + xs;
    } else {
      var i := InsertSameKey(x, y, xs[1..]);
      at := i + 1;
      assert ([xs[0]] + Insert(x, xs[1..]))[at := y] == [xs[0]] + Insert(x, xs[1..])[i := y];
    }
  }

  lemma {:induction false} InsertBeside(z: Item, xs: seq<Item>, i: nat, y: Item) returns (at: nat)
    requires i < |xs| && xs[i].key == y.key
    ensures at < |Insert(z, xs)| && Insert(z, xs)[at] == xs[i] && Insert(z, xs[i := y]) == Insert(z, xs)[at := y]
  {
    if !Before(xs[0].key, z.key) {
      at := i + 1;
      assert ([z] + xs)[at := y] == [z] + xs[i := y];
    } else if i == 0 {
      at := 0;
      assert xs[0 := y][1..] == xs[1..];
      assert ([xs[0]] + Insert(z, xs[1..]))[0 := y] == [y] + Insert(z, xs[1..]);
    } else {
      var j := InsertBeside(z, xs[1..], i - 1, y);
      at := j + 1;
      assert xs[i := y][1..] == xs[1..][i - 1 := y];
      assert ([xs[0]] + Insert(z, xs[1..]))[at := y] == [xs[0]] + Insert(z, xs[1..])[j := y];
    }
  }

  /** Replacing an item by one of the same key replaces it in the sorted list. */
  lemma {:induction false} SortReplaced(xs: seq<Item>, i: nat, y: Item) returns (at: nat)
    requires i < |xs| && xs[i].key == y.key
    ensures at < |Sort(xs)| && Sort(xs)[at] == xs[i] && Sort(xs[i := y]) == Sort(xs)[at := y]
  {
    if i == 0 {
      assert xs[0 := y][1..] == xs[1..];
      at := InsertSameKey(xs[0], y, Sort(xs[1..]));
    } else {
      var j := SortReplaced(xs[1..], i - 1, y);
      assert xs[i := y][1..] == xs[1..][i - 1 := y];
      at := InsertBeside(xs[0], Sort(xs[1..]), j, y);
    }
  }

  lemma {:induction false} FlattenAround(xs: seq<string>, i: nat)
    requires i < |xs|
    ensures Flatten(xs) == Flatten(xs[..i]) + xs[i] + Flatten(xs[i + 1..])
  {
    if i == 0 {
      FlattenCons(xs);
      assert xs[..0] == [];
    } else {
      FlattenCons(xs);
      FlattenAround(xs[1..], i - 1);
      FlattenCons(xs[..i]);
      assert xs[..i][1..] == xs[1..][..i - 1] && xs[1..][i..] == xs[i + 1..];
    }
  }

  lemma {:induction false} FlattenReplaced(xs: seq<string>, i: nat, y: string)
    requires i < |xs|
    ensures Flatten(xs) == Flatten(xs[..i]) + xs[i] + Flatten(xs[i + 1..])
    ensures Flatten(xs[i := y]) == Flatten(xs) <==> y == xs[i]
  {
    FlattenAround(xs, i);
    FlattenAround(xs[i := y], i);
    assert xs[i := y][..i] == xs[..i] && xs[i := y][i + 1..] == xs[i + 1..];
    Cancel(Flatten(xs[..i]), y, xs[i], Flatten(xs[i + 1..]));
  }

  lemma ReplacedShows(xs: seq<Item>, i: nat, y: Item)
    requires i < |xs| && xs[i].key == y.key
    ensures Texts(Sort(xs[i := y])) == Texts(Sort(xs)) <==> y.text == xs[i].text
  {
    var at := SortReplaced(xs, i, y);
    var texts := Map((x: Item) => x.text, Sort(xs));
    assert Map((x: Item) => x.text, Sort(xs)[at := y]) == texts[at := y.text];
    FlattenReplaced(texts, at, y.text);
  }

  lemma RepoReplaced(plan: Plan, xml: string, i: nat, r: Repo)
    requires i < |plan.deviceRepos| && r.path == plan.deviceRepos[i].path
    ensures HashInput(plan.(deviceRepos := plan.deviceRepos[i := r]), xml) == HashInput(plan, xml) <==>
            RepoItem(r).text == RepoItem(plan.deviceRepos[i]).text
  {
    var items := Map(RepoItem, plan.deviceRepos);
    assert Map(RepoItem, plan.deviceRepos[i := r]) == items[i := RepoItem(r)];
    ReplacedShows(items, i, RepoItem(r));
    var head := xml + plan.name + plan.manifestBranch + plan.androidVersion;
    var tail := Texts(Sort(Map(ManifestItem, plan.localManifests))) + Texts(Sort(Map(PatchItem, plan.patches)));
    Cancel(head, Texts(Sort(items[i := RepoItem(r)])), Texts(Sort(items)), tail);
    assert HashInput(plan, xml) == head + Texts(Sort(items)) + tail;
    assert HashInput(plan.(deviceRepos := plan.deviceRepos[i := r]), xml) ==
        head + Texts(Sort(items[i := RepoItem(r)])) + tail;
  }

  /** A changed url or branch of one repo, or source of one patch, always shows. */
  lemma RepoChangeShows(plan: Plan, xml: string, i: nat, url: string, branch: string)
    requires i < |plan.deviceRepos|
    ensures var r := plan.deviceRepos[i];
      && (HashInput(plan.(deviceRepos := plan.deviceRepos[i := r.(url := url)]), xml) == HashInput(plan, xml) <==>
            url == r.url)
      && (HashInput(plan.(deviceRepos := plan.deviceRepos[i := r.(branch := branch)]), xml) == HashInput(plan, xml) <==>
            branch == r.branch)
  {
    var r := plan.deviceRepos[i];
    RepoReplaced(plan, xml, i, r.(url := url));
    RepoReplaced(plan, xml, i, r.(branch := branch));
    Cancel(r.path + "|", url, r.url, "|" + r.branch);
    assert RepoItem(r.(url := url)).text == r.path + "|" + url + ("|" + r.branch);
    assert RepoItem(r).text == r.path + "|" + r.url + ("|" + r.branch);
    Cancel(r.path + "|" + r.url + "|", branch, r.branch, "");
    assert RepoItem(r.(branch := branch)).text == r.path + "|" + r.url + "|" + branch + "";
    assert RepoItem(r).text == r.path + "|" + r.url + "|" + r.branch + "";
  }

  lemma PatchChangeShows(plan: Plan, xml: string, i: nat, src: string)
    requires i < |plan.patches|
    ensures var p := plan.patches[i];
      HashInput(plan.(patches := plan.patches[i := p.(src := src)]), xml) == HashInput(plan, xml) <==> src == p.src
  {
    var p := plan.patches[i];
    var q := p.(src := src);
    var items := Map(PatchItem, plan.patches);
    assert Map(PatchItem, plan.patches[i := q]) == items[i := PatchItem(q)];
    ReplacedShows(items, i, PatchItem(q));
    var head := xml + plan.name + plan.manifestBranch + plan.androidVersion
      + Texts(Sort(Map(RepoItem, plan.deviceRepos))) + Texts(Sort(Map(ManifestItem, plan.localManifests)));
    Cancel(head, Texts(Sort(items[i := PatchItem(q)])), Texts(Sort(items)), "");
    Cancel("", src, p.src, "->" + p.dst);
    assert PatchItem(q).text == "" + src + ("->" + p.dst) && PatchItem(p).text == "" + p.src + ("->" + p.dst);
    assert HashInput(plan, xml) == head + Texts(Sort(items)) + "";
    assert HashInput(plan.(patches := plan.patches[i := q]), xml) == head + Texts(Sort(items[i := PatchItem(q)])) + "";
  }

  /** Text moved from the end of the name to the start of the branch does not. */
  lemma FieldsRunTogether(plan: Plan, xml: string, tail: string)
    ensures HashInput(plan.(name := plan.name + tail), xml) ==
            HashInput(plan.(manifestBranch := tail + plan.manifestBranch), xml)
  {
    assert xml + (plan.name + tail) + plan.manifestBranch == xml + plan.name + (tail + plan.manifestBranch);
  }
}
