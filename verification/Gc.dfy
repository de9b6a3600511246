/** The two collectors of state tags: Router.gc_state and relay.gc_orphan_state_banks. */
module Gc {
  import opened Prelude
  import opened Store
  import opened TagNames
  import opened Banks

  function Matching(tags: Tags, prefix: string): set<string> {
    set t | t in tags && StartsWith(t, prefix)
  }

  ghost predicate NoDuplicates(xs: seq<string>) {
    forall i, j | 0 <= i < j < |xs| :: xs[i] != xs[j]
  }

  /** `list_tags(prefix)`: in whatever order the directory gives them. */
  method ListTags(store: FsStore, prefix: string) returns (listing: seq<string>)
    ensures Elements(listing) == Matching(store.tags, prefix) && NoDuplicates(listing)
  {
    listing := [];
    var left := Matching(store.tags, prefix);
    while left != {}
      invariant Elements(listing) + left == Matching(store.tags, prefix)
      invariant NoDuplicates(listing) && Elements(listing) !! left
      decreases left
    {
      var t :| t in left;
      assert t !in Elements(listing);
      assert Elements(listing + [t]) == Elements(listing) + {t};
      listing, left := listing + [t], left - {t};
    }
  }

  // ---- sorted(..., key=_slice_num) -------------------------------------------------------

  ghost predicate SortedByNum(xs: seq<string>) {
    forall i, j | 0 <= i < j < |xs| :: SliceNum(xs[i]) <= SliceNum(xs[j])
  }

  function InsertByNum(x: string, xs: seq<string>): seq<string> {
    if xs == [] || SliceNum(x) <= SliceNum(xs[0]) then [x] + xs else [xs[0]] + InsertByNum(x, xs[1..])
  }

  function SortByNum(xs: seq<string>): seq<string> {
    if xs == [] then [] else InsertByNum(xs[0], SortByNum(xs[1..]))
  }

  lemma {:induction false} InsertElements(x: string, xs: seq<string>)
    ensures Elements(InsertByNum(x, xs)) == Elements(xs) + {x}
    ensures |InsertByNum(x, xs)| == |xs| + 1
  {
    if xs == [] || SliceNum(x) <= SliceNum(xs[0]) {
      assert Elements([x] + xs) == Elements(xs) + {x};
    } else {
      InsertElements(x, xs[1..]);
      assert Elements(xs) == {xs[0]} + Elements(xs[1..]);
      assert Elements(InsertByNum(x, xs)) == {xs[0]} + Elements(InsertByNum(x, xs[1..]));
    }
  }

  lemma {:induction false} InsertKeepsOrder(x: string, xs: seq<string>)
    requires SortedByNum(xs)
    ensures SortedByNum(InsertByNum(x, xs))
  {
    if xs != [] && SliceNum(x) > SliceNum(xs[0]) {
      var rest := InsertByNum(x, xs[1..]);
      InsertKeepsOrder(x, xs[1..]);
      InsertElements(x, xs[1..]);
      forall j | 0 <= j < |rest|
        ensures SliceNum(xs[0]) <= SliceNum(rest[j])
      {
        assert rest[j] in Elements(rest);
        if rest[j] != x {
          var k :| 0 <= k < |xs| - 1 && xs[1..][k] == rest[j];
          assert xs[k + 1] == rest[j];
        }
      }
    }
  }

  lemma {:induction false} InsertKeepsDistinct(x: string, xs: seq<string>)
    requires NoDuplicates(xs) && x !in xs
    ensures NoDuplicates(InsertByNum(x, xs))
  {
    if xs != [] && SliceNum(x) > SliceNum(xs[0]) {
      var rest := InsertByNum(x, xs[1..]);
      InsertKeepsDistinct(x, xs[1..]);
      InsertElements(x, xs[1..]);
      assert xs[0] !in Elements(xs[1..]);
      forall j | 0 <= j < |rest|
        ensures rest[j] != xs[0]
      {
        assert rest[j] in Elements(rest);
      }
    }
  }

  lemma {:induction false} SortFacts(xs: seq<string>)
    ensures Elements(SortByNum(xs)) == Elements(xs) && |SortByNum(xs)| == |xs|
    ensures SortedByNum(SortByNum(xs))
    ensures NoDuplicates(xs) ==> NoDuplicates(SortByNum(xs))
  {
    if xs != [] {
      SortFacts(xs[1..]);
      InsertElements(xs[0], SortByNum(xs[1..]));
      InsertKeepsOrder(xs[0], SortByNum(xs[1..]));
      assert Elements(xs) == {xs[0]} + Elements(xs[1..]);
      if NoDuplicates(xs) {
        assert xs[0] !in Elements(xs[1..]);
        InsertKeepsDistinct(xs[0], SortByNum(xs[1..]));
      }
    }
  }

  // ---- gc_state --------------------------------------------------------------------------

  /** `tags[:-keep] if len(tags) > keep else []`: a slice up to -0 is empty, and one up to a
      positive number, for a negative `keep`, is the oldest tags. */
  function Doomed(sorted: seq<string>, keep: int): seq<string> {
    if keep == 0 || |sorted| <= keep then []
    else if keep > 0 then sorted[..|sorted| - keep]
    else sorted[..Min(-keep, |sorted|)]
  }

  function AtLeast(listed: set<string>, t: string): set<string> {
    set u | u in listed && u != t && SliceNum(u) >= SliceNum(t)
  }

  function Above(listed: set<string>, t: string): set<string> {
    set u | u in listed && SliceNum(u) > SliceNum(t)
  }

  function AtMost(listed: set<string>, t: string): set<string> {
    set u | u in listed && u != t && SliceNum(u) <= SliceNum(t)
  }

  function Below(listed: set<string>, t: string): set<string> {
    set u | u in listed && SliceNum(u) < SliceNum(t)
  }

  lemma {:induction false} CardinalityOfSlice(xs: seq<string>)
    requires NoDuplicates(xs)
    ensures |Elements(xs)| == |xs|
  {
    if xs != [] {
      CardinalityOfSlice(xs[1..]);
      assert xs[0] !in Elements(xs[1..]);
      assert Elements(xs) == {xs[0]} + Elements(xs[1..]);
    }
  }

  lemma SubsetCardinality(a: set<string>, b: set<string>)
    requires a <= b
    ensures |a| <= |b|
  {
    if a != {} {
      var x :| x in a;
      SubsetCardinality(a - {x}, b - {x});
    }
  }

  lemma DoomedIsOutranked(s: seq<string>, keep: nat, t: string)
    requires NoDuplicates(s) && SortedByNum(s) && t in Doomed(s, keep)
    ensures |AtLeast(Elements(s), t)| >= keep
  {
    var newest := s[|s| - keep..];
    var i :| 0 <= i < |s| - keep && s[i] == t;
    CardinalityOfSlice(newest);
    forall u | u in newest
      ensures u in AtLeast(Elements(s), t)
    {
      var j :| 0 <= j < keep && newest[j] == u;
      assert s[|s| - keep + j] == u;
    }
    SubsetCardinality(Elements(newest), AtLeast(Elements(s), t));
  }

  lemma OutrankedIsDoomed(s: seq<string>, keep: nat, t: string)
    requires NoDuplicates(s) && SortedByNum(s) && t in s && keep > 0
    requires |Above(Elements(s), t)| >= keep
    ensures t in Doomed(s, keep)
  {
    var at :| 0 <= at < |s| && s[at] == t;
    var later := s[at + 1..];
    CardinalityOfSlice(later);
    forall u | u in Above(Elements(s), t)
      ensures u in later
    {
      var j :| 0 <= j < |s| && s[j] == u;
      assert later[j - at - 1] == u;
    }
    SubsetCardinality(Above(Elements(s), t), Elements(later));
    assert s[..|s| - keep][at] == t;
  }

  lemma DoomedIsOld(s: seq<string>, count: nat, t: string)
    requires NoDuplicates(s) && SortedByNum(s) && t in s[..Min(count, |s|)]
    ensures |Below(Elements(s), t)| < count
  {
    var i :| 0 <= i < Min(count, |s|) && s[i] == t;
    var earlier := s[..i];
    CardinalityOfSlice(earlier);
    forall u | u in Below(Elements(s), t)
      ensures u in earlier
    {
      var j :| 0 <= j < |s| && s[j] == u;
      assert earlier[j] == u;
    }
    SubsetCardinality(Below(Elements(s), t), Elements(earlier));
  }

  lemma OldIsDoomed(s: seq<string>, count: nat, t: string)
    requires NoDuplicates(s) && SortedByNum(s) && t in s && |AtMost(Elements(s), t)| < count
    ensures t in s[..Min(count, |s|)]
  {
    var at :| 0 <= at < |s| && s[at] == t;
    var earlier := s[..at];
    CardinalityOfSlice(earlier);
    forall u | u in earlier
      ensures u in AtMost(Elements(s), t)
    {
      var j :| 0 <= j < at && earlier[j] == u;
      assert s[j] == u;
    }
    SubsetCardinality(Elements(earlier), AtMost(Elements(s), t));
    assert s[..Min(count, |s|)][at] == t;
  }

  /** A tag of this listing goes only if `keep` others are as new, and always if `keep` are
      newer; with a negative `keep`, only if fewer than -keep are older, and always if fewer than
      -keep others are as old. */
  ghost predicate WithinBounds(listed: set<string>, keep: int, t: string, goes: bool) {
    && (keep > 0 ==> (goes ==> |AtLeast(listed, t)| >= keep) && (|Above(listed, t)| >= keep ==> goes))
    && (keep < 0 ==> (goes ==> |Below(listed, t)| < -keep) && (|AtMost(listed, t)| < -keep ==> goes))
    && (keep == 0 ==> !goes)
  }

  /** The doomed tags are those outside the numerically newest `keep`. */
  lemma DoomedExactly(listing: seq<string>, keep: int, t: string)
    requires NoDuplicates(listing) && t in listing
    ensures WithinBounds(Elements(listing), keep, t, t in Doomed(SortByNum(listing), keep))
  {
    SortFacts(listing);
    var s := SortByNum(listing);
    assert t in Elements(s);
    if keep > 0 {
      if t in Doomed(s, keep) {
        DoomedIsOutranked(s, keep, t);
      } else if |Above(Elements(listing), t)| >= keep {
        OutrankedIsDoomed(s, keep, t);
      }
    } else if keep < 0 {
      if t in Doomed(s, keep) {
        DoomedIsOld(s, -keep, t);
      } else if |AtMost(Elements(listing), t)| < -keep {
        OldIsDoomed(s, -keep, t);
      }
    }
  }

  /** Tags that a cut collection has only touched by removing from them. */
  ghost predicate OnlyRemoves(before: Tags, after: Tags, doomed: set<string>) {
    && (forall t | t in after :: t in before && Submap(after[t], before[t]))
    && (forall t | t in before && t !in doomed :: t in after && after[t] == before[t])
  }

  /** Deletes these tags one after the other, skipping the spared ones. */
  method DeleteAll(store: FsStore, doomed: seq<string>, spared: set<string>) returns (f: Fate, dropped: set<string>)
    modifies store
    ensures f != Raises && store.Excused(old(store.pos), old(store.refusals), f)
    ensures OnlyRemoves(old(store.tags), store.tags, Elements(doomed) - spared)
    ensures f == Works ==> dropped == Elements(doomed) - spared && store.tags == old(store.tags) - dropped
  {
    f, dropped := Works, {};
    var i := 0;
    while i < |doomed|
      invariant 0 <= i <= |doomed| && f == Works && store.Excused(old(store.pos), old(store.refusals), Works)
      invariant dropped == Elements(doomed[..i]) - spared
      invariant store.tags == old(store.tags) - dropped
    {
      assert Elements(doomed[..i + 1]) == Elements(doomed[..i]) + {doomed[i]};
      assert doomed[i] in Elements(doomed);
      if doomed[i] !in spared {
        f := store.Delete(doomed[i]);
        if f == Dies {
          return;
        }
        dropped := dropped + {doomed[i]};
      }
      i := i + 1;
    }
    assert doomed[..i] == doomed;
  }

  ghost predicate Lists(tags: Tags, prefix: string, listing: seq<string>) {
    Elements(listing) == Matching(tags, prefix) && NoDuplicates(listing)
  }

  lemma DoomedAreListed(listing: seq<string>, keep: int)
    ensures Elements(Doomed(SortByNum(listing), keep)) <= Elements(listing)
    ensures keep == 0 ==> Elements(Doomed(SortByNum(listing), keep)) == {}
  {
    SortFacts(listing);
    forall t | t in Doomed(SortByNum(listing), keep)
      ensures t in Elements(SortByNum(listing))
    {
    }
  }

  /** The slice half of gc_state. */
  method DoomedSlices(store: FsStore, key: string, keep: int) returns (doomed: seq<string>, ghost listing: seq<string>)
    ensures Lists(store.tags, SlicePrefix(key), listing) && doomed == Doomed(SortByNum(listing), keep)
    ensures forall t | t in Matching(store.tags, SlicePrefix(key)) ::
      WithinBounds(Matching(store.tags, SlicePrefix(key)), keep, t, t in doomed)
  {
    var tags := ListTags(store, SlicePrefix(key));
    listing := tags;
    doomed := Doomed(SortByNum(tags), keep);
    forall t | t in Elements(tags)
      ensures WithinBounds(Elements(tags), keep, t, t in doomed)
    {
      DoomedExactly(tags, keep, t);
    }
  }

  lemma PrefixesApart(t: string, key: string)
    ensures !(StartsWith(t, SlicePrefix(key)) && StartsWith(t, TurboPrefix(key)))
  {
    var at := |"state-" + key| + 1;
    assert SlicePrefix(key)[at] == 's' && TurboPrefix(key)[at] == 't';
    PrefixChar(t, SlicePrefix(key), at);
    PrefixChar(t, TurboPrefix(key), at);
  }

  /** All that a collection may touch. */
  function Collectable(tags: Tags, key: string, active: string, keep: int): set<string> {
    Matching(tags, TurboPrefix(key)) + if keep == 0 then {} else Matching(tags, SlicePrefix(key)) - {active}
  }

  /** A completed collection: of the slice tags, listed in some order and sorted by number, those
      doomed and not active; and every turbo tag. */
  ghost predicate Collected(before: Tags, after: Tags, key: string, active: string, keep: int) {
    exists listing ::
      && Lists(before, SlicePrefix(key), listing)
      && after == before - (Elements(Doomed(SortByNum(listing), keep)) - {active}) - Matching(before, TurboPrefix(key))
  }

  lemma RemovedInTwo(before: Tags, between: Tags, after: Tags, first: set<string>, second: set<string>)
    requires OnlyRemoves(before, between, first) && OnlyRemoves(between, after, second)
    ensures OnlyRemoves(before, after, first + second)
  {
    forall t | t in after
      ensures t in before && Submap(after[t], before[t])
    {
      assert Submap(after[t], between[t]) && Submap(between[t], before[t]);
    }
  }

  lemma TurboSurvives(before: Tags, between: Tags, key: string, dropped: set<string>)
    requires dropped <= Matching(before, SlicePrefix(key)) && between == before - dropped
    ensures Matching(between, TurboPrefix(key)) == Matching(before, TurboPrefix(key))
    ensures Matching(before, SlicePrefix(key)) * Matching(before, TurboPrefix(key)) == {}
  {
    forall t
      ensures !(t in Matching(before, SlicePrefix(key)) && t in Matching(before, TurboPrefix(key)))
    {
      PrefixesApart(t, key);
    }
  }

  /** The slice half: the doomed tags, the active one aside. */
  method CollectSlices(store: FsStore, key: string, active: string, keep: int)
    returns (f: Fate, dropped: set<string>, ghost listing: seq<string>)
    modifies store
    ensures f != Raises && store.Excused(old(store.pos), old(store.refusals), f)
    ensures Lists(old(store.tags), SlicePrefix(key), listing)
    ensures var doomed := Elements(Doomed(SortByNum(listing), keep)) - {active};
      && OnlyRemoves(old(store.tags), store.tags, doomed)
      && (f == Works ==> dropped == doomed && store.tags == old(store.tags) - dropped)
    ensures f == Works ==> var slices := Matching(old(store.tags), SlicePrefix(key));
      forall t | t in slices && t != active :: WithinBounds(slices, keep, t, t in dropped)
  {
    var doomed;
    doomed, listing := DoomedSlices(store, key, keep);
    f, dropped := DeleteAll(store, doomed, {active});
  }

  /** The turbo half: all of them. */
  method CollectTurbo(store: FsStore, key: string) returns (f: Fate, dropped: set<string>)
    modifies store
    ensures f != Raises && store.Excused(old(store.pos), old(store.refusals), f)
    ensures OnlyRemoves(old(store.tags), store.tags, Matching(old(store.tags), TurboPrefix(key)))
    ensures f == Works ==>
      dropped == Matching(old(store.tags), TurboPrefix(key)) && store.tags == old(store.tags) - dropped
  {
    var listing := ListTags(store, TurboPrefix(key));
    f, dropped := DeleteAll(store, listing, {});
  }

  lemma CollectedInTwo(before: Tags, between: Tags, after: Tags, key: string, active: string, keep: int,
                       listing: seq<string>)
    requires Lists(before, SlicePrefix(key), listing)
    requires var doomed := Elements(Doomed(SortByNum(listing), keep)) - {active};
      between == before - doomed && OnlyRemoves(before, between, doomed)
    requires OnlyRemoves(between, after, Matching(between, TurboPrefix(key)))
    ensures OnlyRemoves(before, after, Collectable(before, key, active, keep))
    ensures Matching(between, TurboPrefix(key)) == Matching(before, TurboPrefix(key))
    ensures Matching(before, SlicePrefix(key)) !! Matching(before, TurboPrefix(key))
    ensures after == between - Matching(between, TurboPrefix(key)) ==> Collected(before, after, key, active, keep)
  {
    DoomedAreListed(listing, keep);
    var doomed := Elements(Doomed(SortByNum(listing), keep)) - {active};
    TurboSurvives(before, between, key, doomed);
    RemovedInTwo(before, between, after, doomed, Matching(between, TurboPrefix(key)));
  }

  /** Router.gc_state(key, keep) with the INDEX's active tag: every turbo tag goes, and of the
      slice tags those outside the numerically newest `keep`, never the active one. */
  method GcState(store: FsStore, key: string, active: string, keep: int) returns (f: Fate, dropped: set<string>)
    modifies store
    ensures f != Raises && store.Excused(old(store.pos), old(store.refusals), f)
    ensures OnlyRemoves(old(store.tags), store.tags, Collectable(old(store.tags), key, active, keep))
    ensures f == Works ==>
      && store.tags == old(store.tags) - dropped
      && Matching(old(store.tags), TurboPrefix(key)) <= dropped <= Collectable(old(store.tags), key, active, keep)
      && Collected(old(store.tags), store.tags, key, active, keep)
    ensures f == Works ==> var slices := Matching(old(store.tags), SlicePrefix(key));
      forall t | t in slices && t != active :: WithinBounds(slices, keep, t, t in dropped)
  {
    ghost var before := store.tags;
    ghost var listing;
    f, dropped, listing := CollectSlices(store, key, active, keep);
    DoomedAreListed(listing, keep);
    if f == Works {
      ghost var between := store.tags;
      var more;
      f, more := CollectTurbo(store, key);
      CollectedInTwo(before, between, store.tags, key, active, keep, listing);
      dropped := dropped + more;
    }
  }

  /** Campaign tags have distinct numbers, so for them the two bounds meet: a slice tag goes
      exactly when at least `keep` newer ones are listed. */
  lemma CampaignTagsAreExact(key: string, slices: set<string>, t: string)
    requires forall u | u in slices :: exists n: nat :: u == StateTag(key, n)
    requires t in slices
    ensures AtLeast(slices, t) == Above(slices, t)
  {
    forall u | u in slices && u != t
      ensures SliceNum(u) != SliceNum(t)
    {
      var m: nat :| u == StateTag(key, m);
      var n: nat :| t == StateTag(key, n);
      SliceNumOfStateTag(key, m);
      SliceNumOfStateTag(key, n);
    }
  }

  /** Among a campaign's own tags exactly those go that have `keep` newer ones. */
  lemma CampaignCollection(key: string, listing: seq<string>, keep: nat, t: string)
    requires NoDuplicates(listing) && t in listing && keep > 0
    requires forall u | u in listing :: exists n: nat :: u == StateTag(key, n)
    ensures t in Doomed(SortByNum(listing), keep) <==> |Above(Elements(listing), t)| >= keep
  {
    DoomedExactly(listing, keep, t);
    assert t in Elements(listing);
    CampaignTagsAreExact(key, Elements(listing), t);
  }

  // ---- whose tags the prefix finds -------------------------------------------------------

  lemma SharedHead(head: string, s: string, prefix: string)
    ensures StartsWith(head + s, head + prefix) <==> StartsWith(s, prefix)
  {
    var whole := head + s;
    if |prefix| <= |s| {
      assert whole[..|head| + |prefix|] == head + s[..|prefix|];
      assert (head + s[..|prefix|])[|head|..] == s[..|prefix|];
      assert (head + prefix)[|head|..] == prefix;
    }
  }

  /** `state-<key>-s` also finds the slice tags of another campaign exactly when that campaign's
      key continues this one with "-s". */
  lemma ForeignSliceTags(key: string, other: string, n: nat)
    ensures StartsWith(StateTag(other, n), SlicePrefix(key)) <==> key == other || StartsWith(other, key + "-s")
  {
    DecimalDigits(n);
    var rest, want := other + "-s" + Decimal(n), key + "-s";
    assert StateTag(other, n) == "state-" + rest && SlicePrefix(key) == "state-" + want;
    SharedHead("state-", rest, want);
    PrefixChar(rest, want, |key|);
    PrefixChar(rest, want, |key| + 1);
    if |key| > |other| {
      assert |key| < |rest| ==> rest[|key|] != '-';
    } else if |key| == |other| {
      assert rest[..|want|] == other + "-s";
      assert StartsWith(rest, want) <==> other == key by {
        assert (other + "-s")[..|key|] == other && (key + "-s")[..|key|] == key;
      }
    } else if |key| + 1 == |other| {
      assert rest[|key| + 1] == '-';
    } else {
      assert rest[..|want|] == other[..|want|];
    }
  }

  /** `state-<key>-turbo-` finds them exactly when that campaign's key is this one with "-turbo",
      or continues it with "-turbo-". */
  lemma ForeignTurboTags(key: string, other: string, n: nat)
    ensures StartsWith(StateTag(other, n), TurboPrefix(key)) <==>
            other == key + "-turbo" || StartsWith(other, key + "-turbo-")
  {
    DecimalDigits(n);
    var rest, want := other + "-s" + Decimal(n), key + "-turbo-";
    assert StateTag(other, n) == "state-" + rest && TurboPrefix(key) == "state-" + want;
    SharedHead("state-", rest, want);
    if |other| + 1 < |want| {
      assert rest[|other|] == '-' && rest[|other| + 1] == 's';
      assert forall i | |other| + 2 <= i < |rest| :: rest[i] == Decimal(n)[i - |other| - 2] != '-';
      PrefixChar(rest, want, |key|);
      PrefixChar(rest, want, |other|);
      PrefixChar(rest, want, |other| + 1);
    } else if |other| + 1 == |want| {
      assert rest[..|want|] == other + "-";
      assert want == (key + "-turbo") + "-";
      assert (other + "-")[..|other|] == other && want[..|other|] == key + "-turbo";
    } else {
      assert rest[..|want|] == other[..|want|];
    }
  }

  /** Collecting `key` can reach the slice banks of the campaign `other`. */
  predicate Endangers(key: string, other: string, keep: int) {
    || other == key + "-turbo" || StartsWith(other, key + "-turbo-")
    || (keep != 0 && StartsWith(other, key + "-s"))
  }

  /** Otherwise they stay as they are, even when the collection is cut. */
  lemma ForeignBanksSpared(before: Tags, after: Tags, key: string, active: string, keep: int, other: string, n: nat)
    requires other != key && !Endangers(key, other, keep)
    requires OnlyRemoves(before, after, Collectable(before, key, active, keep))
    ensures var t := StateTag(other, n); t in before ==> t in after && after[t] == before[t]
  {
    ForeignSliceTags(key, other, n);
    ForeignTurboTags(key, other, n);
  }

  /** A store of these tags, all of them empty. */
  function StoreOf(tags: set<string>): Tags {
    map t | t in tags :: map[]
  }

  function OwnTags(key: string, n: nat, count: nat): seq<string> {
    seq(count, i requires 0 <= i => StateTag(key, n + 1 + i))
  }

  lemma OwnTagsAreNewer(key: string, n: nat, count: nat)
    ensures NoDuplicates(OwnTags(key, n, count))
    ensures forall t | t in OwnTags(key, n, count) :: StartsWith(t, SlicePrefix(key)) && SliceNum(t) > n
  {
    var own := OwnTags(key, n, count);
    forall i | 0 <= i < count
      ensures SliceNum(own[i]) == n + 1 + i && StartsWith(own[i], SlicePrefix(key))
    {
      SliceNumOfStateTag(key, n + 1 + i);
      SliceTagIsApart(key, n + 1 + i);
    }
  }

  /** The foreign bank beside `keep` newer slices: it is the one to go. */
  lemma OutnumberedIsDoomed(key: string, other: string, keep: int, n: nat)
    requires StartsWith(other, key + "-s") && keep != 0
    ensures var listing := [StateTag(other, n)] + OwnTags(key, n, Max(keep, 0));
      && (forall t | t in listing :: StartsWith(t, SlicePrefix(key)))
      && NoDuplicates(listing)
      && StateTag(other, n) in Doomed(SortByNum(listing), keep)
  {
    var t, own := StateTag(other, n), OwnTags(key, n, Max(keep, 0));
    var listing := [t] + own;
    ForeignSliceTags(key, other, n);
    SliceNumOfStateTag(other, n);
    OwnTagsAreNewer(key, n, Max(keep, 0));
    assert forall i | 0 < i < |listing| :: listing[i] == own[i - 1] && own[i - 1] in own;
    assert t in listing;
    DoomedExactly(listing, keep, t);
    if keep > 0 {
      CardinalityOfSlice(own);
      assert forall u | u in Elements(own) :: u in listing;
      SubsetCardinality(Elements(own), Above(Elements(listing), t));
    } else {
      assert own == [];
      assert AtMost(Elements(listing), t) == {};
    }
  }

  lemma ForeignBankIsCollected(key: string, active: string, keep: int, other: string, n: nat)
    returns (before: Tags, after: Tags)
    requires other != key && Endangers(key, other, keep) && active != StateTag(other, n)
    ensures Collected(before, after, key, active, keep)
    ensures StateTag(other, n) in before && StateTag(other, n) !in after
  {
    var t := StateTag(other, n);
    ForeignTurboTags(key, other, n);
    var listing := [];
    if StartsWith(t, TurboPrefix(key)) {
      before := StoreOf({t});
      PrefixesApart(t, key);
      assert Matching(before, SlicePrefix(key)) == {};
    } else {
      OutnumberedIsDoomed(key, other, keep, n);
      listing := [t] + OwnTags(key, n, Max(keep, 0));
      before := StoreOf(Elements(listing));
      assert Matching(before, SlicePrefix(key)) == Elements(listing);
      assert t in listing;
    }
    assert Lists(before, SlicePrefix(key), listing);
    after := before - (Elements(Doomed(SortByNum(listing), keep)) - {active}) - Matching(before, TurboPrefix(key));
  }

  lemma CollectedOnlyRemoves(before: Tags, after: Tags, key: string, active: string, keep: int)
    requires Collected(before, after, key, active, keep)
    ensures OnlyRemoves(before, after, Collectable(before, key, active, keep))
  {
    var listing :| Lists(before, SlicePrefix(key), listing) &&
      after == before - (Elements(Doomed(SortByNum(listing), keep)) - {active}) - Matching(before, TurboPrefix(key));
    DoomedAreListed(listing, keep);
  }

  /** Exactly when collecting one campaign can delete another's bank, whatever the slice and the
      active tag. */
  lemma ForeignBanksExactly(key: string, active: string, keep: int, other: string, n: nat)
    requires other != key && active != StateTag(other, n)
    ensures Endangers(key, other, keep) <==>
      exists before, after ::
        Collected(before, after, key, active, keep) && StateTag(other, n) in before && StateTag(other, n) !in after
  {
    if Endangers(key, other, keep) {
      var before, after := ForeignBankIsCollected(key, active, keep, other, n);
    } else {
      forall before, after | Collected(before, after, key, active, keep) && StateTag(other, n) in before
        ensures StateTag(other, n) in after
      {
        CollectedOnlyRemoves(before, after, key, active, keep);
        ForeignBanksSpared(before, after, key, active, keep, other, n);
      }
    }
  }

  // ---- gc_orphan_state_banks -------------------------------------------------------------

  /** Parts that no sums file and no manifest accounts for. */
  predicate IsOrphan(assets: Assets) {
    PartNames(assets) != {} && MANIFEST !in assets && SUMS !in assets
  }

  function Orphans(tags: Tags, key: string, keep: set<string>): set<string> {
    set t | t in tags && StartsWith(t, SlicePrefix(key)) && t !in keep && IsOrphan(tags[t])
  }

  lemma OrphansExactly(tags: Tags, key: string, keep: set<string>, t: string)
    ensures t in Orphans(tags, key, keep) <==>
      && t in tags && StartsWith(t, "state-" + key + "-s") && t !in keep
      && "MANIFEST.json" !in tags[t] && "SHA256SUMS" !in tags[t]
      && exists a | a in tags[t] :: Contains(a, ".part.")
  {
    assert Mark("") == ".part.";
    if t in tags {
      assert PartNames(tags[t]) != {} <==> exists a | a in tags[t] :: Contains(a, ".part.") by {
        if a :| a in tags[t] && Contains(a, ".part.") {
          assert a in PartNames(tags[t]);
        }
      }
    }
  }

  /** Deletes exactly the orphans that are not to be kept, hence no bank that
      bank_is_complete accepts. */
  method GcOrphans(store: FsStore, key: string, keep: set<string>) returns (f: Fate, dropped: set<string>)
    modifies store
    ensures f != Raises && store.Excused(old(store.pos), old(store.refusals), f)
    ensures OnlyRemoves(old(store.tags), store.tags, Orphans(old(store.tags), key, keep))
    ensures f == Works ==> dropped == Orphans(old(store.tags), key, keep) && store.tags == old(store.tags) - dropped
    ensures forall t | t in dropped :: t in old(store.tags) && BankIsComplete(old(store.tags)[t]) == None
    ensures f == Works ==> forall t | t in old(store.tags) :: t in dropped <==>
      && StartsWith(t, "state-" + key + "-s") && t !in keep
      && "MANIFEST.json" !in old(store.tags)[t] && "SHA256SUMS" !in old(store.tags)[t]
      && exists a | a in old(store.tags)[t] :: Contains(a, ".part.")
  {
    ghost var before := store.tags;
    var listing := ListTags(store, SlicePrefix(key));
    f, dropped := Works, {};
    var i := 0;
    while i < |listing|
      invariant 0 <= i <= |listing| && f == Works && store.Excused(old(store.pos), old(store.refusals), Works)
      invariant dropped == Orphans(before, key, keep) * Elements(listing[..i])
      invariant store.tags == before - dropped
    {
      var t := listing[i];
      assert t in Elements(listing);
      assert Elements(listing[..i + 1]) == Elements(listing[..i]) + {t};
      assert t !in Elements(listing[..i]);
      if t !in keep && IsOrphan(store.tags[t]) {
        f := store.Delete(t);
        if f == Dies {
          return;
        }
        dropped := dropped + {t};
      }
      i := i + 1;
    }
    assert listing[..i] == listing;
    forall t | t in before
      ensures t in dropped <==>
        && StartsWith(t, "state-" + key + "-s") && t !in keep
        && "MANIFEST.json" !in before[t] && "SHA256SUMS" !in before[t]
        && exists a | a in before[t] :: Contains(a, ".part.")
    {
      OrphansExactly(before, key, keep, t);
    }
  }
}
