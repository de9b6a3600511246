/** syncer.stamp_manifest and normalize_tree_mtimes against engine's G3 freshness gate: the
    mtimes of the build files are recorded once and put back before every bypass. */
module Freshness {
  import opened Prelude

  // ---- paths -----------------------------------------------------------------------------

  /** `s.split(c)` for a single character. */
  function SplitOn(s: string, c: char): (fields: seq<string>)
    ensures fields != []
  {
    if s == "" then [""]
    else
      var rest := SplitOn(s[1..], c);
      if s[0] == c then [""] + rest else [[s[0]] + rest[0]] + rest[1..]
  }

  /** `f` stands at the front of `s`, up to the separator or the end. */
  predicate IsFront(s: string, c: char, f: string) {
    c !in f && StartsWith(s, f) && (|f| == |s| || s[|f|] == c)
  }

  lemma {:induction false} FrontField(s: string, c: char, f: string)
    ensures SplitOn(s, c)[0] == f <==> IsFront(s, c, f)
  {
    if s != "" && s[0] != c {
      if f != "" {
        FrontField(s[1..], c, f[1..]);
        assert f == [f[0]] + f[1..];
        if |f| <= |s| {
          assert s[..|f|] == [s[0]] + s[1..][..|f| - 1];
        }
      }
    }
  }

  /** `f` stands between a separator and the next, or the end. */
  ghost predicate Follows(s: string, c: char, f: string) {
    exists i | 0 < i <= |s| :: s[i - 1] == c && IsFront(s[i..], c, f)
  }

  lemma FollowsStep(s: string, c: char, f: string)
    requires s != ""
    ensures Follows(s, c, f) <==> (s[0] == c && IsFront(s[1..], c, f)) || Follows(s[1..], c, f)
  {
    var t := s[1..];
    if i :| 0 < i <= |s| && s[i - 1] == c && IsFront(s[i..], c, f) && i > 1 {
      assert t[i - 1 - 1] == c && s[i..] == t[i - 1..];
    }
    if i :| 0 < i <= |t| && t[i - 1] == c && IsFront(t[i..], c, f) {
      assert s[i + 1 - 1] == c && s[i + 1..] == t[i..];
    }
    if s[0] == c && IsFront(t, c, f) {
      assert s[1 - 1] == c;
    }
  }

  /** The fields are what stands between two separators or an end. */
  lemma {:induction false} FieldsExactly(s: string, c: char, f: string)
    ensures f in SplitOn(s, c)[1..] <==> Follows(s, c, f)
    ensures f in SplitOn(s, c) <==> IsFront(s, c, f) || Follows(s, c, f)
  {
    FrontField(s, c, f);
    var fields := SplitOn(s, c);
    assert fields == [fields[0]] + fields[1..];
    if s != "" {
      FieldsExactly(s[1..], c, f);
      FollowsStep(s, c, f);
    }
  }

  lemma {:induction false} FieldCount(s: string, c: char)
    ensures |SplitOn(s, c)| == 1 + multiset(s)[c]
  {
    if s != "" {
      FieldCount(s[1..], c);
      assert s == [s[0]] + s[1..];
    }
  }

  ghost predicate IsBack(s: string, c: char, f: string) {
    c !in f && |f| <= |s| && s[|s| - |f|..] == f && (|f| == |s| || s[|s| - |f| - 1] == c)
  }

  lemma BackStep(s: string, c: char, f: string)
    requires s != ""
    ensures s[0] == c || c in s[1..] ==> (IsBack(s, c, f) <==> IsBack(s[1..], c, f))
    ensures c !in s ==> (IsBack(s, c, f) <==> f == s)
  {
    var t := s[1..];
    if |f| < |s| {
      assert s[|s| - |f|..] == t[|t| - |f|..];
    } else if |f| == |s| {
      assert s[0..] == s;
    }
  }

  lemma {:induction false} LastField(s: string, c: char, f: string)
    ensures var fields := SplitOn(s, c); fields[|fields| - 1] == f <==> IsBack(s, c, f)
  {
    if s != "" {
      LastField(s[1..], c, f);
      BackStep(s, c, f);
      FieldCount(s[1..], c);
      FrontField(s[1..], c, s[1..]);
      assert s == [s[0]] + s[1..];
    }
  }

  predicate SafeRelPath(rel: string) {
    && rel != "" && rel[0] != '/' && ".." !in SplitOn(rel, '/')
    && forall c | c in rel :: c !in {'\n', '\r', '\0', '\''}
  }

  /** A build file outside any directory called out: what stamp_manifest lists. */
  predicate IsStamped(rel: string) {
    var fields := SplitOn(rel, '/');
    fields[|fields| - 1] in {"Android.bp", "Android.mk"} && "out" !in fields
  }

  /** What the freshness probe looks at: the same, but six levels deep at most. */
  predicate IsProbed(rel: string) {
    IsStamped(rel) && |SplitOn(rel, '/')| <= 6
  }

  /** `f` is one of the names between the slashes of a path. */
  ghost predicate HasName(rel: string, f: string) {
    exists i | 0 <= i <= |rel| ::
      && (i == 0 || rel[i - 1] == '/') && StartsWith(rel[i..], f)
      && (i + |f| == |rel| || rel[i + |f|] == '/')
  }

  lemma NameIsField(rel: string, f: string)
    requires '/' !in f
    ensures f in SplitOn(rel, '/') <==> HasName(rel, f)
  {
    FieldsExactly(rel, '/', f);
    assert rel[0..] == rel;
    if IsFront(rel, '/', f) {
      assert StartsWith(rel[0..], f);
    }
    if i :| 0 < i <= |rel| && rel[i - 1] == '/' && IsFront(rel[i..], '/', f) {
      assert StartsWith(rel[i..], f);
    }
    if i :| 0 <= i <= |rel| && (i == 0 || rel[i - 1] == '/') && StartsWith(rel[i..], f)
            && (i + |f| == |rel| || rel[i + |f|] == '/') {
      assert IsFront(rel[i..], '/', f);
    }
  }

  /** Which paths are accepted, listed and probed, in terms of their text. */
  lemma PathsExactly(rel: string)
    ensures SafeRelPath(rel) <==>
            && rel != "" && !StartsWith(rel, "/") && !HasName(rel, "..")
            && '\n' !in rel && '\r' !in rel && '\0' !in rel && '\'' !in rel
    ensures IsStamped(rel) <==>
            && (IsBack(rel, '/', "Android.bp") || IsBack(rel, '/', "Android.mk"))
            && !HasName(rel, "out")
    ensures IsProbed(rel) <==> IsStamped(rel) && multiset(rel)['/'] <= 5
  {
    NameIsField(rel, "..");
    NameIsField(rel, "out");
    LastField(rel, '/', "Android.bp");
    LastField(rel, '/', "Android.mk");
    FieldCount(rel, '/');
  }

  // ---- the manifest ----------------------------------------------------------------------

  /** A manifest line: a path and the number beside it, or no two fields. */
  datatype Line = Line(rel: string, stamp: Option<real>) | Junk

  /** Python's `int` of a float: toward zero. */
  function Trunc(x: real): int {
    if x >= 0.0 then x.Floor else -((-x).Floor)
  }

  predicate IsUsable(line: Line) {
    line.Line? && SafeRelPath(line.rel) && line.stamp.Some?
  }

  function StampOf(line: Line): int
    requires IsUsable(line)
  {
    Trunc(line.stamp.value)
  }

  ghost predicate Lists(lines: seq<Line>, p: string, ts: int) {
    exists i | 0 <= i < |lines| :: IsUsable(lines[i]) && lines[i].rel == p && StampOf(lines[i]) == ts
  }

  ghost predicate Covers(lines: seq<Line>, p: string) {
    exists i | 0 <= i < |lines| :: IsUsable(lines[i]) && lines[i].rel == p
  }

  /** The largest second listed for a path. */
  ghost predicate IsLatest(lines: seq<Line>, p: string, ts: int) {
    Lists(lines, p, ts) && forall u | Lists(lines, p, u) :: u <= ts
  }

  // ---- groups ----------------------------------------------------------------------------

  type Groups = map<int, seq<string>>

  ghost predicate InGroup(groups: Groups, p: string, ts: int) {
    ts in groups && p in groups[ts]
  }

  lemma ListsOneMore(lines: seq<Line>, i: nat, p: string, ts: int)
    requires i < |lines|
    ensures Lists(lines[..i + 1], p, ts) <==>
            Lists(lines[..i], p, ts) || (IsUsable(lines[i]) && lines[i].rel == p && StampOf(lines[i]) == ts)
  {
    var more, less := lines[..i + 1], lines[..i];
    assert forall k | 0 <= k < i :: more[k] == less[k];
    assert more[i] == lines[i];
  }

  /** The defaultdict that the lines fill, and its keys in order of insertion. */
  method Grouped(lines: seq<Line>) returns (groups: Groups, order: seq<int>)
    ensures forall p, ts :: InGroup(groups, p, ts) <==> Lists(lines, p, ts)
    ensures Elements(order) == groups.Keys
  {
    groups, order := map[], [];
    var i := 0;
    while i < |lines|
      invariant 0 <= i <= |lines|
      invariant forall p, ts :: InGroup(groups, p, ts) <==> Lists(lines[..i], p, ts)
      invariant Elements(order) == groups.Keys
    {
      ghost var before := groups;
      if IsUsable(lines[i]) {
        var ts := StampOf(lines[i]);
        if ts !in groups {
          assert Elements(order + [ts]) == Elements(order) + {ts};
          groups, order := groups[ts := []], order + [ts];
        }
        groups := groups[ts := groups[ts] + [lines[i].rel]];
      }
      forall p, ts
        ensures InGroup(groups, p, ts) <==> Lists(lines[..i + 1], p, ts)
      {
        ListsOneMore(lines, i, p, ts);
        assert InGroup(before, p, ts) <==> Lists(lines[..i], p, ts);
      }
      i := i + 1;
    }
    assert lines[..i] == lines;
  }

  // ---- touching --------------------------------------------------------------------------

  type Mtimes = map<string, real>

  /** `touch -c -d @ts`: paths that do not exist are not created. */
  function Touch(m: Mtimes, paths: seq<string>, ts: int): Mtimes {
    map p | p in m :: if p in paths then ts as real else m[p]
  }

  lemma TouchTwice(m: Mtimes, a: seq<string>, b: seq<string>, ts: int)
    ensures Touch(Touch(m, a, ts), b, ts) == Touch(m, a + b, ts)
  {
  }

  predicate Known(groups: Groups, keys: seq<int>) {
    forall i | 0 <= i < |keys| :: keys[i] in groups
  }

  /** All groups in order. */
  function TouchAll(m: Mtimes, groups: Groups, keys: seq<int>): Mtimes
    requires Known(groups, keys)
  {
    if keys == [] then m
    else
      var ts := keys[|keys| - 1];
      Touch(TouchAll(m, groups, keys[..|keys| - 1]), groups[ts], ts)
  }

  ghost predicate Rising(keys: seq<int>) {
    forall i, j | 0 <= i < j < |keys| :: keys[i] < keys[j]
  }

  /** What the groups leave on one path: the last, hence largest, second that lists it. */
  lemma {:induction false} LastTouchWins(m: Mtimes, groups: Groups, keys: seq<int>, p: string)
    requires Known(groups, keys) && Rising(keys) && p in m
    ensures p in TouchAll(m, groups, keys)
    ensures (forall ts | ts in keys :: p !in groups[ts]) ==> TouchAll(m, groups, keys)[p] == m[p]
    ensures forall ts | ts in keys && p in groups[ts] && (forall u | u in keys && p in groups[u] :: u <= ts) ::
      TouchAll(m, groups, keys)[p] == ts as real
  {
    if keys != [] {
      var n := |keys| - 1;
      var front, last := keys[..n], keys[n];
      LastTouchWins(m, groups, front, p);
      assert forall ts :: ts in keys <==> ts in front || ts == last by {
        assert keys == front + [last];
      }
      assert forall u | u in front :: u < last;
      var before, after := TouchAll(m, groups, front), TouchAll(m, groups, keys);
      assert after == Touch(before, groups[last], last);
      assert p in after && after[p] == if p in groups[last] then last as real else before[p];
      forall ts | ts in keys && p in groups[ts] && (forall u | u in keys && p in groups[u] :: u <= ts)
        ensures after[p] == ts as real
      {
        if p in groups[last] {
          assert last <= ts;
        }
      }
    }
  }

  // ---- the tree after normalisation ------------------------------------------------------

  /** Every listed path at its latest second, everything else as it was. */
  ghost predicate Normalised(before: Mtimes, after: Mtimes, lines: seq<Line>) {
    && after.Keys == before.Keys
    && forall p | p in before ::
         && (!Covers(lines, p) ==> after[p] == before[p])
         && (forall ts | IsLatest(lines, p, ts) :: after[p] == ts as real)
  }

  /** Touches that failed leave a path as it was or at an earlier second of its own. */
  ghost predicate PartlyNormalised(before: Mtimes, after: Mtimes, lines: seq<Line>) {
    && after.Keys == before.Keys
    && forall p | p in before :: after[p] == before[p] || exists ts :: Lists(lines, p, ts) && after[p] == ts as real
  }

  lemma ListsCovers(lines: seq<Line>, p: string)
    ensures Covers(lines, p) <==> exists ts :: Lists(lines, p, ts)
  {
    if Covers(lines, p) {
      var i :| 0 <= i < |lines| && IsUsable(lines[i]) && lines[i].rel == p;
      assert Lists(lines, p, StampOf(lines[i]));
    }
  }

  lemma {:induction false} TouchAllKeys(m: Mtimes, groups: Groups, keys: seq<int>)
    requires Known(groups, keys)
    ensures TouchAll(m, groups, keys).Keys == m.Keys
  {
    if keys != [] {
      TouchAllKeys(m, groups, keys[..|keys| - 1]);
    }
  }

  lemma TouchAllNormalises(m: Mtimes, lines: seq<Line>, groups: Groups, keys: seq<int>)
    requires Rising(keys) && Elements(keys) == groups.Keys
    requires forall p, ts :: InGroup(groups, p, ts) <==> Lists(lines, p, ts)
    requires Known(groups, keys)
    ensures Normalised(m, TouchAll(m, groups, keys), lines)
  {
    TouchAllKeys(m, groups, keys);
    forall p | p in m
      ensures !Covers(lines, p) ==> TouchAll(m, groups, keys)[p] == m[p]
      ensures forall ts | IsLatest(lines, p, ts) :: TouchAll(m, groups, keys)[p] == ts as real
    {
      ListsCovers(lines, p);
      LastTouchWins(m, groups, keys, p);
      assert forall ts :: ts in keys <==> ts in groups by {
        assert forall ts :: ts in Elements(keys) <==> ts in keys;
      }
      assert forall ts | ts in keys :: p in groups[ts] <==> InGroup(groups, p, ts);
    }
  }

  // ---- the code --------------------------------------------------------------------------

  class Tree {
    var mtimes: Mtimes

    constructor (mtimes: Mtimes)
      ensures this.mtimes == mtimes
    {
      this.mtimes := mtimes;
    }
  }

  lemma ConsKey(x: int, rest: seq<int>)
    ensures Elements([x] + rest) == {x} + Elements(rest)
    ensures Rising(rest) && (forall k | k in Elements(rest) :: x < k) ==> Rising([x] + rest)
  {
    assert forall i | 0 <= i < |rest| :: rest[i] in Elements(rest);
  }

  lemma TailKeys(xs: seq<int>)
    requires xs != []
    ensures Elements(xs) == {xs[0]} + Elements(xs[1..])
    ensures Rising(xs) ==> Rising(xs[1..]) && forall k | k in Elements(xs[1..]) :: xs[0] < k
  {
    assert xs == [xs[0]] + xs[1..];
  }

  function InsertKey(x: int, xs: seq<int>): (r: seq<int>)
    ensures Elements(r) == Elements(xs) + {x}
    ensures Rising(xs) ==> Rising(r)
  {
    if xs == [] then [x]
    else
      TailKeys(xs);
      if x == xs[0] then xs
      else if x < xs[0] then
        ConsKey(x, xs);
        [x] + xs
      else
        ConsKey(xs[0], InsertKey(x, xs[1..]));
        [xs[0]] + InsertKey(x, xs[1..])
  }

  /** `sorted` on the timestamps. */
  function SortKeys(xs: seq<int>): (r: seq<int>)
    ensures Elements(r) == Elements(xs) && Rising(r)
  {
    if xs == [] then []
    else
      TailKeys(xs);
      InsertKey(xs[0], SortKeys(xs[1..]))
  }

  /** Some of these paths may have been touched. */
  ghost predicate Touched(before: Mtimes, after: Mtimes, paths: seq<string>, ts: int) {
    && after.Keys == before.Keys
    && forall p | p in before :: after[p] == before[p] || (p in paths && after[p] == ts as real)
  }

  const Batch := 400

  /** One timestamp's paths, 400 at a time. `reach` says how many paths of the next batches are
      touched before touch is killed; a batch without an entry goes through. */
  method TouchGroup(tree: Tree, paths: seq<string>, ts: int, reach: seq<nat>) returns (rest: seq<nat>, clean: bool)
    modifies tree
    ensures clean ==> tree.mtimes == Touch(old(tree.mtimes), paths, ts)
    ensures Touched(old(tree.mtimes), tree.mtimes, paths, ts)
    ensures reach == [] ==> clean && rest == []
  {
    rest, clean := reach, true;
    ghost var before := tree.mtimes;
    var i: nat := 0;
    while i < |paths|
      invariant i <= |paths|
      invariant clean ==> tree.mtimes == Touch(before, paths[..i], ts)
      invariant Touched(before, tree.mtimes, paths, ts)
      invariant reach == [] ==> clean && rest == []
    {
      var batch := paths[i..Min(i + Batch, |paths|)];
      var done := if rest == [] then |batch| else Min(rest[0], |batch|);
      clean := clean && done == |batch|;
      rest := if rest == [] then [] else rest[1..];
      TouchTwice(before, paths[..i], batch, ts);
      assert paths[..i] + batch == paths[..i + |batch|];
      assert batch[..|batch|] == batch;
      assert forall p | p in batch[..done] :: p in paths;
      tree.mtimes := Touch(tree.mtimes, batch[..done], ts);
      i := i + |batch|;
    }
    assert paths[..i] == paths;
  }

  ghost predicate FromGroups(before: Mtimes, after: Mtimes, groups: Groups) {
    && after.Keys == before.Keys
    && forall p | p in before :: after[p] == before[p] || exists ts :: InGroup(groups, p, ts) && after[p] == ts as real
  }

  lemma OneMoreGroup(m: Mtimes, groups: Groups, keys: seq<int>, i: nat)
    requires Known(groups, keys) && i < |keys|
    ensures TouchAll(m, groups, keys[..i + 1]) == Touch(TouchAll(m, groups, keys[..i]), groups[keys[i]], keys[i])
  {
    assert keys[..i + 1][..i] == keys[..i];
  }

  lemma FromOneMore(before: Mtimes, between: Mtimes, after: Mtimes, groups: Groups, ts: int)
    requires FromGroups(before, between, groups) && ts in groups && Touched(between, after, groups[ts], ts)
    ensures FromGroups(before, after, groups)
  {
    forall p | p in before
      ensures after[p] == before[p] || exists u :: InGroup(groups, p, u) && after[p] == u as real
    {
      if after[p] != between[p] {
        assert InGroup(groups, p, ts);
      }
    }
  }

  /** The groups in the order of their timestamps. */
  method TouchGroups(tree: Tree, groups: Groups, keys: seq<int>, reach: seq<nat>) returns (clean: bool)
    requires Known(groups, keys)
    modifies tree
    ensures clean ==> tree.mtimes == TouchAll(old(tree.mtimes), groups, keys)
    ensures FromGroups(old(tree.mtimes), tree.mtimes, groups)
    ensures reach == [] ==> clean
  {
    ghost var before := tree.mtimes;
    var rest, i: nat := reach, 0;
    clean := true;
    while i < |keys|
      invariant i <= |keys|
      invariant clean ==> tree.mtimes == TouchAll(before, groups, keys[..i])
      invariant FromGroups(before, tree.mtimes, groups)
      invariant reach == [] ==> clean && rest == []
    {
      ghost var between := tree.mtimes;
      var whole;
      rest, whole := TouchGroup(tree, groups[keys[i]], keys[i], rest);
      FromOneMore(before, between, tree.mtimes, groups, keys[i]);
      OneMoreGroup(before, groups, keys, i);
      clean := clean && whole;
      i := i + 1;
    }
    assert keys[..i] == keys;
  }

  /** normalize_tree_mtimes. When no touch is killed the tree is exactly the one the manifest
      describes; otherwise every path is as it was or at a second listed for it. */
  method NormalizeTreeMtimes(tree: Tree, lines: seq<Line>, reach: seq<nat>) returns (clean: bool)
    modifies tree
    ensures clean ==> Normalised(old(tree.mtimes), tree.mtimes, lines)
    ensures PartlyNormalised(old(tree.mtimes), tree.mtimes, lines)
    ensures reach == [] ==> clean
  {
    var groups, order := Grouped(lines);
    var keys := SortKeys(order);
    assert Known(groups, keys) by {
      assert forall i | 0 <= i < |keys| :: keys[i] in Elements(keys);
    }
    ghost var before := tree.mtimes;
    clean := TouchGroups(tree, groups, keys, reach);
    TouchAllNormalises(before, lines, groups, keys);
  }

  // ---- the gate --------------------------------------------------------------------------

  /** G3: no probed build file is more than a second newer than the graph. */
  ghost predicate Fresh(m: Mtimes, graph: real) {
    forall p | p in m && IsProbed(p) :: m[p] <= graph + 1.0
  }

  lemma {:induction false} LatestExists(lines: seq<Line>, p: string) returns (ts: int)
    requires Covers(lines, p)
    ensures IsLatest(lines, p, ts)
  {
    var n := |lines| - 1;
    var front := lines[..n];
    assert lines[..n + 1] == lines;
    forall u
      ensures Lists(lines, p, u) <==>
              Lists(front, p, u) || (IsUsable(lines[n]) && lines[n].rel == p && StampOf(lines[n]) == u)
    {
      ListsOneMore(lines, n, p, u);
    }
    if Covers(front, p) {
      ts := LatestExists(front, p);
      if IsUsable(lines[n]) && lines[n].rel == p {
        ts := Max(ts, StampOf(lines[n]));
      }
    } else {
      ListsCovers(front, p);
      assert forall k | 0 <= k < n :: front[k] == lines[k];
      ts := StampOf(lines[n]);
    }
  }

  /** After normalisation the gate passes exactly when every probed file is old enough: a
      covered one by its latest listed second, any other by the mtime it has. */
  lemma GateExactly(before: Mtimes, after: Mtimes, lines: seq<Line>, graph: real)
    requires Normalised(before, after, lines)
    ensures Fresh(after, graph) <==> forall p | p in before && IsProbed(p) ::
      && (Covers(lines, p) ==> forall ts | IsLatest(lines, p, ts) :: ts as real <= graph + 1.0)
      && (!Covers(lines, p) ==> before[p] <= graph + 1.0)
  {
    forall p | p in before && Covers(lines, p)
      ensures exists ts :: IsLatest(lines, p, ts) && after[p] == ts as real
    {
      var ts := LatestExists(lines, p);
    }
    forall p, ts, u | IsLatest(lines, p, ts) && IsLatest(lines, p, u)
      ensures ts == u
    {
    }
  }

  /** A manifest cut from this tree: every build file outside out/, with its mtime. */
  ghost predicate CutFrom(lines: seq<Line>, minted: Mtimes) {
    && (forall i | 0 <= i < |lines| ::
          lines[i].Line? && lines[i].rel in minted && lines[i].stamp == Some(minted[lines[i].rel]))
    && (forall p | p in minted && IsStamped(p) :: exists i | 0 <= i < |lines| :: lines[i].rel == p)
  }

  /** Only listed safe paths were stamped anew, to anything. */
  ghost predicate Restamped(minted: Mtimes, now: Mtimes) {
    forall p | p in now && IsProbed(p) :: p in minted && (SafeRelPath(p) || now[p] == minted[p])
  }

  /** The whole seconds of a time, the fraction cut off. */
  lemma TruncExactly(x: real)
    ensures if x >= 0.0 then Trunc(x) as real <= x < (Trunc(x) + 1) as real
            else (Trunc(x) - 1) as real < x <= Trunc(x) as real
  {
    if x < 0.0 {
      var f := (-x).Floor;
      assert f as real <= -x < (f + 1) as real;
      assert (Trunc(x) - 1) as real == -((f + 1) as real);
    }
  }

  lemma WholeNegation(x: real)
    requires x.Floor as real == x
    ensures (-x).Floor as real == -x
  {
    var n := -x.Floor;
    assert n as real == -x;
    assert (n as real).Floor == n;
  }

  lemma TruncBeforeEpoch(x: real)
    requires x < 0.0
    ensures Trunc(x) as real <= x <==> x.Floor as real == x
  {
    var f := (-x).Floor;
    assert f as real <= -x && Trunc(x) as real == -(f as real);
    if x.Floor as real == x {
      WholeNegation(x);
    }
    if Trunc(x) as real <= x {
      WholeNegation(-x);
    }
  }

  /** Cutting toward zero does not raise a second exactly when it is not before the epoch, or
      whole. */
  lemma TruncIsBelow(x: real)
    ensures Trunc(x) as real <= x <==> x >= 0.0 || x.Floor as real == x
  {
    if x < 0.0 {
      TruncBeforeEpoch(x);
    }
  }

  lemma CutStamps(lines: seq<Line>, minted: Mtimes, p: string)
    requires CutFrom(lines, minted) && p in minted && IsStamped(p)
    ensures Covers(lines, p) <==> SafeRelPath(p)
    ensures forall ts | Lists(lines, p, ts) :: ts == Trunc(minted[p])
  {
    var i :| 0 <= i < |lines| && lines[i].rel == p;
    assert IsUsable(lines[i]) <==> SafeRelPath(p);
  }

  /** The round trip, exactly: if the tree was fresh when the manifest was cut, then however its
      listed paths have been stamped since, normalising makes it fresh again if and only if the
      whole second of every listed build file is. */
  lemma FreshAgainExactly(minted: Mtimes, now: Mtimes, after: Mtimes, lines: seq<Line>, graph: real)
    requires CutFrom(lines, minted) && Fresh(minted, graph)
    requires Restamped(minted, now) && Normalised(now, after, lines)
    ensures Fresh(after, graph) <==>
      forall p | p in now && IsProbed(p) && SafeRelPath(p) :: Trunc(minted[p]) as real <= graph + 1.0
  {
    forall p | p in now && IsProbed(p)
      ensures after[p] == if SafeRelPath(p) then Trunc(minted[p]) as real else minted[p]
    {
      CutStamps(lines, minted, p);
      if Covers(lines, p) {
        var ts := LatestExists(lines, p);
      }
    }
  }

  /** For mtimes since 1970 it always is. */
  lemma FreshAgain(minted: Mtimes, now: Mtimes, after: Mtimes, lines: seq<Line>, graph: real)
    requires CutFrom(lines, minted) && Fresh(minted, graph)
    requires forall p | p in minted :: minted[p] >= 0.0
    requires Restamped(minted, now) && Normalised(now, after, lines)
    ensures Fresh(after, graph)
  {
    FreshAgainExactly(minted, now, after, lines, graph);
    forall p | p in now && IsProbed(p)
      ensures Trunc(minted[p]) as real <= minted[p]
    {
      TruncIsBelow(minted[p]);
    }
  }

  /** For a tree of one file it is, whatever the graph, exactly when the file's mtime is since
      1970 or whole: before, the second is cut upward. */
  lemma OldStampsRise(p: string, x: real, now: Mtimes, after: Mtimes)
    requires SafeRelPath(p) && IsProbed(p) && now.Keys == {p}
    requires Normalised(now, after, [Line(p, Some(x))])
    ensures CutFrom([Line(p, Some(x))], map[p := x])
    ensures (forall graph: real | Fresh(map[p := x], graph) :: Fresh(after, graph)) <==>
            x >= 0.0 || x.Floor as real == x
  {
    var lines := [Line(p, Some(x))];
    assert lines[0].rel == p && IsUsable(lines[0]) && StampOf(lines[0]) == Trunc(x);
    assert Lists(lines, p, Trunc(x));
    assert IsLatest(lines, p, Trunc(x));
    assert after[p] == Trunc(x) as real;
    TruncIsBelow(x);
    assert Fresh(map[p := x], x - 1.0);
    if Trunc(x) as real > x {
      assert !Fresh(after, x - 1.0);
    }
  }

  /** Two trees normalised by one manifest agree on every path it covers, and normalising again
      changes nothing. */
  lemma Deterministic(a: Mtimes, a': Mtimes, b: Mtimes, b': Mtimes, lines: seq<Line>)
    requires Normalised(a, a', lines) && Normalised(b, b', lines)
    ensures forall p | p in a && p in b && Covers(lines, p) :: a'[p] == b'[p]
    ensures b == a' ==> b' == a'
  {
    forall p | p in a && p in b && Covers(lines, p)
      ensures a'[p] == b'[p]
    {
      var ts := LatestExists(lines, p);
    }
    if b == a' {
      forall p | p in a'
        ensures b'[p] == a'[p]
      {
        if Covers(lines, p) {
          var ts := LatestExists(lines, p);
        }
      }
    }
  }
}
