/** Router.index_load, index_save and target_update: the INDEX kept in two copies, each of which
    an interrupted upload can destroy. */
module IndexStore {
  import opened Prelude

  /** One copy of the INDEX: missing, unreadable, or holding a value. */
  datatype Copy<T> = Absent | Torn | Valid(value: T)

  datatype Copies<T> = Copies(primary: Copy<T>, backup: Copy<T>)

  /** How far a save gets. An upload cut in the middle leaves its copy torn, or absent where the
      backend deletes before it uploads. A backup upload that raises is ignored by the save. */
  datatype Cut = Whole | BeforePrimary | InPrimary(gone: bool) | BeforeBackup | InBackup(gone: bool)

  function Wreck<T>(gone: bool): Copy<T> {
    if gone then Absent else Torn
  }

  /** None stands for the empty record. */
  function Load<T>(c: Copies<T>): Option<T> {
    if c.primary.Valid? then Some(c.primary.value)
    else if c.backup.Valid? then Some(c.backup.value)
    else None
  }

  function Save<T>(c: Copies<T>, v: T, cut: Cut): Copies<T> {
    match cut
    case Whole => Copies(Valid(v), Valid(v))
    case BeforePrimary => c
    case InPrimary(gone) => c.(primary := Wreck(gone))
    case BeforeBackup => c.(primary := Valid(v))
    case InBackup(gone) => Copies(Valid(v), Wreck(gone))
  }

  /** The save has reached the primary copy. */
  predicate Effective(cut: Cut) {
    cut.Whole? || cut.BeforeBackup? || cut.InBackup?
  }

  /** The primary carries the record and the backup does not. */
  predicate Lagging<T(==)>(c: Copies<T>) {
    c.primary.Valid? && c.backup != c.primary
  }

  /** A save is atomic, leaving the old record or the new one, unless it is cut inside the
      primary while the backup lags behind: then the record falls back to what the backup
      holds, an older one or none. */
  lemma SaveIsAtomicUnless<T>(c: Copies<T>, v: T, cut: Cut)
    ensures Load(Save(c, v, cut)) == (if Effective(cut) then Some(v) else Load(c)) <==>
            !(cut.InPrimary? && Lagging(c))
    ensures cut.InPrimary? && Lagging(c) ==>
            Load(Save(c, v, cut)) == if c.backup.Valid? then Some(c.backup.value) else None
  {
  }

  // ---- runs of updates -------------------------------------------------------------------

  /** One target_update: how it changes the record it loads, and how far its save gets. */
  datatype Update<!T> = Update(change: Option<T> -> T, cut: Cut)

  function Run<T>(first: Copies<T>, updates: seq<Update<T>>): Copies<T> {
    if updates == [] then first
    else
      var before, u := Run(first, updates[..|updates| - 1]), updates[|updates| - 1];
      Save(before, u.change(Load(before)), u.cut)
  }

  /** The same updates on a record, None the empty one, that each of them changes at once or not
      at all. */
  function Register<T>(first: Option<T>, updates: seq<Update<T>>): Option<T> {
    if updates == [] then first
    else
      var before, u := Register(first, updates[..|updates| - 1]), updates[|updates| - 1];
      if Effective(u.cut) then Some(u.change(before)) else before
  }

  function Cuts<T>(updates: seq<Update<T>>): (cuts: seq<Cut>)
    ensures |cuts| == |updates|
  {
    seq(|updates|, i requires 0 <= i < |updates| => updates[i].cut)
  }

  /** The last save to reach the primary also completed the backup. */
  predicate BackedUp(cuts: seq<Cut>) {
    if cuts == [] then true
    else
      var cut := cuts[|cuts| - 1];
      if Effective(cut) then cut == Whole else BackedUp(cuts[..|cuts| - 1])
  }

  /** No save is cut inside the primary while the backup may lag. */
  ghost predicate Spaced(cuts: seq<Cut>) {
    forall i | 0 <= i < |cuts| && cuts[i].InPrimary? :: BackedUp(cuts[..i])
  }

  lemma SpacedFront(cuts: seq<Cut>, n: nat)
    requires n <= |cuts| && Spaced(cuts)
    ensures Spaced(cuts[..n])
  {
    assert forall i | 0 <= i < n :: cuts[..n][i] == cuts[i] && cuts[..n][..i] == cuts[..i];
  }

  lemma KeepsUp<T>(c: Copies<T>, v: T, cuts: seq<Cut>)
    requires cuts != [] && (BackedUp(cuts[..|cuts| - 1]) ==> !Lagging(c))
    ensures BackedUp(cuts) ==> !Lagging(Save(c, v, cuts[|cuts| - 1]))
  {
  }

  lemma CutsFront<T>(updates: seq<Update<T>>, n: nat)
    requires n <= |updates|
    ensures Cuts(updates[..n]) == Cuts(updates)[..n]
  {
  }

  /** From two equal copies, from none at all, or from any that do not lag, spaced cuts never
      show: the copies implement one atomic record. A record that was seen is never lost, and
      none but the last written is ever seen. */
  lemma {:induction false} CopiesAreARegister<T>(first: Copies<T>, updates: seq<Update<T>>)
    requires !Lagging(first) && Spaced(Cuts(updates))
    ensures var c := Run(first, updates);
      && Load(c) == Register(Load(first), updates)
      && (BackedUp(Cuts(updates)) ==>
            !Lagging(c) && (Load(c).Some? ==> c.backup == Valid(Load(c).value)))
  {
    if updates != [] {
      var n := |updates| - 1;
      var front, u := updates[..n], updates[n];
      CutsFront(updates, n);
      SpacedFront(Cuts(updates), n);
      CopiesAreARegister(first, front);
      var before := Run(first, front);
      SaveIsAtomicUnless(before, u.change(Load(before)), u.cut);
    }
  }

  /** In particular when no two saves in a row are cut. */
  lemma {:induction false} NoTwoCutsInARow(cuts: seq<Cut>)
    requires forall i | 0 < i < |cuts| :: cuts[i - 1] == Whole || cuts[i] == Whole
    ensures Spaced(cuts)
  {
    forall i | 0 <= i < |cuts| && cuts[i].InPrimary?
      ensures BackedUp(cuts[..i])
    {
      assert i > 0 ==> cuts[..i][i - 1] == cuts[i - 1];
    }
  }

  // ---- every other pattern of cuts shows -------------------------------------------------

  /** At no point of the run does the loaded record differ from the atomic one. */
  ghost predicate NeverShows<T(!new)>(first: Copies<T>, updates: seq<Update<T>>) {
    forall n: nat | n <= |updates| :: Load(Run(first, updates[..n])) == Register(Load(first), updates[..n])
  }

  function Next(count: Option<nat>): nat {
    if count.None? then 0 else count.value + 1
  }

  /** Updates that count themselves, cut in this pattern. */
  function Counting(cuts: seq<Cut>): (updates: seq<Update<nat>>)
    ensures |updates| == |cuts| && Cuts(updates) == cuts
  {
    seq(|cuts|, i requires 0 <= i < |cuts| => Update(Next, cuts[i]))
  }

  lemma CountingFront(cuts: seq<Cut>, n: nat)
    requires n <= |cuts|
    ensures Counting(cuts)[..n] == Counting(cuts[..n])
  {
  }

  /** The backup never holds a later count than the primary, and lags unless `backed`. */
  predicate Behind(c: Copies<nat>, backed: bool) {
    && (c.primary.Valid? && c.backup.Valid? ==> c.backup.value <= c.primary.value)
    && (!backed ==> Lagging(c))
  }

  lemma SaveStaysBehind(c: Copies<nat>, backed: bool, cut: Cut)
    requires Behind(c, backed) && (cut.InPrimary? ==> backed)
    ensures Behind(Save(c, Next(Load(c)), cut), if Effective(cut) then cut == Whole else backed)
  {
  }

  /** While the cuts are spaced the backup never runs ahead, and it lags whenever the last save
      to reach the primary did not complete it. */
  lemma {:induction false} CountingLags(first: Copies<nat>, cuts: seq<Cut>)
    requires !Lagging(first) && Spaced(cuts)
    ensures Behind(Run(first, Counting(cuts)), BackedUp(cuts))
  {
    if cuts != [] {
      var n := |cuts| - 1;
      SpacedFront(cuts, n);
      CountingFront(cuts, n);
      CountingLags(first, cuts[..n]);
      SaveStaysBehind(Run(first, Counting(cuts[..n])), BackedUp(cuts[..n]), cuts[n]);
    }
  }

  lemma LastIsUnspaced(cuts: seq<Cut>)
    requires cuts != [] && !Spaced(cuts) && Spaced(cuts[..|cuts| - 1])
    ensures cuts[|cuts| - 1].InPrimary? && !BackedUp(cuts[..|cuts| - 1])
  {
    var front := cuts[..|cuts| - 1];
    assert forall k | 0 <= k < |front| :: front[k] == cuts[k] && front[..k] == cuts[..k];
    var i :| 0 <= i < |cuts| && cuts[i].InPrimary? && !BackedUp(cuts[..i]);
    assert i == |front|;
  }

  /** The first save cut inside the primary over a lagging backup shows. */
  lemma {:induction false} UnspacedShows(first: Copies<nat>, cuts: seq<Cut>) returns (n: nat)
    requires !Lagging(first) && !Spaced(cuts)
    ensures n <= |cuts|
    ensures Load(Run(first, Counting(cuts)[..n])) != Register(Load(first), Counting(cuts)[..n])
  {
    var last := |cuts| - 1;
    var front := cuts[..last];
    CountingFront(cuts, last);
    if !Spaced(front) {
      n := UnspacedShows(first, front);
      assert Counting(cuts)[..last][..n] == Counting(cuts)[..n];
    } else {
      LastIsUnspaced(cuts);
      n := |cuts|;
      CountingLags(first, front);
      CopiesAreARegister(first, Counting(front));
      var before := Run(first, Counting(front));
      SaveIsAtomicUnless(before, Next(Load(before)), cuts[last]);
      assert Counting(cuts)[..n] == Counting(cuts);
    }
  }

  lemma SpacedNeverShows<T(!new)>(first: Copies<T>, updates: seq<Update<T>>)
    requires !Lagging(first) && Spaced(Cuts(updates))
    ensures NeverShows(first, updates)
  {
    forall n: nat | n <= |updates|
      ensures Load(Run(first, updates[..n])) == Register(Load(first), updates[..n])
    {
      CutsFront(updates, n);
      SpacedFront(Cuts(updates), n);
      CopiesAreARegister(first, updates[..n]);
    }
  }

  /** The exact condition: a pattern of cuts never shows, whatever the updates do, if and only if
      no save is cut inside the primary copy while the backup may lag. */
  lemma NeverShowsExactly(first: Copies<nat>, cuts: seq<Cut>)
    requires !Lagging(first)
    ensures Spaced(cuts) <==> forall updates: seq<Update<nat>> | Cuts(updates) == cuts :: NeverShows(first, updates)
  {
    if Spaced(cuts) {
      forall updates: seq<Update<nat>> | Cuts(updates) == cuts
        ensures NeverShows(first, updates)
      {
        SpacedNeverShows(first, updates);
      }
    } else {
      var n := UnspacedShows(first, cuts);
      assert !NeverShows(first, Counting(cuts));
    }
  }

  /** A save cut in the backup and then one cut in the primary lose the record; cut before the
      backup and then in the primary, an update that had been seen is undone. */
  lemma TwoCutsLose<T>(v: T, v': T, v'': T, gone: bool)
    ensures var c := Copies(Valid(v), Valid(v));
      && Load(Save(c, v', InBackup(gone))) == Some(v')
      && Load(Save(Save(c, v', InBackup(gone)), v'', InPrimary(gone))) == None
      && Load(Save(c, v', BeforeBackup)) == Some(v')
      && Load(Save(Save(c, v', BeforeBackup), v'', InPrimary(gone))) == Some(v)
  {
  }

  // ---- the code --------------------------------------------------------------------------

  class Index<T(==)> {
    var primary: Copy<T>
    var backup: Copy<T>

    constructor ()
      ensures Now() == Copies(Absent, Absent) && !Lagging(Now())
    {
      primary, backup := Absent, Absent;
    }

    function Now(): Copies<T>
      reads this
    {
      Copies(primary, backup)
    }

    method IndexLoad() returns (index: Option<T>)
      ensures index == Load(Now())
    {
      match primary {
        case Valid(v) => return Some(v);
        case _ =>
      }
      match backup {
        case Valid(v) => return Some(v);
        case _ =>
      }
      index := None;
    }

    /** Primary first, then the backup. */
    method IndexSave(v: T, cut: Cut)
      modifies this
      ensures Now() == Save(old(Now()), v, cut)
    {
      match cut {
        case BeforePrimary => return;
        case InPrimary(gone) =>
          primary := Wreck(gone);
          return;
        case _ =>
      }
      primary := Valid(v);
      match cut {
        case BeforeBackup => return;
        case InBackup(gone) =>
          backup := Wreck(gone);
          return;
        case _ =>
      }
      backup := Valid(v);
    }

    /** A read, a change and a save. A save that completes repairs whatever was torn. */
    method TargetUpdate(change: Option<T> -> T, cut: Cut)
      modifies this
      ensures Now() == Save(old(Now()), change(Load(old(Now()))), cut)
      ensures cut == Whole ==> primary == backup == Valid(change(Load(old(Now()))))
      ensures !(cut.InPrimary? && Lagging(old(Now()))) ==>
        Load(Now()) == if Effective(cut) then Some(change(Load(old(Now())))) else Load(old(Now()))
    {
      var index := IndexLoad();
      IndexSave(change(index), cut);
    }
  }
}
