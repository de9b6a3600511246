/** store.FsStore: tags are directories, assets are the files in them. */
module Store {
  import opened Prelude

  /** An asset's content: a part, the SHA256SUMS text, or a decoded MANIFEST.json. */
  datatype Asset = Blob(data: Bytes) | Text(text: string) | Json(kind: string, parts: map<string, string>)

  type Assets = map<string, Asset>
  type Tags = map<string, Assets>

  /** What happens to one store operation: it works, it raises and leaves the store alone, or
      the machine dies before it. */
  datatype Fate = Works | Raises | Dies

  ghost predicate Submap<K, V>(a: map<K, V>, b: map<K, V>) {
    forall k | k in a :: k in b && a[k] == b[k]
  }

  /** Only `tag` may differ. */
  ghost predicate SameElsewhere(before: Tags, after: Tags, tag: string) {
    forall t | t != tag :: (t in before <==> t in after) && (t in before ==> before[t] == after[t])
  }

  /** `tag` is gone, or what is left of it is part of what it was: a removal cut anywhere. */
  ghost predicate Gnawed(before: Tags, after: Tags, tag: string) {
    && SameElsewhere(before, after, tag)
    && (tag in after ==> tag in before && Submap(after[tag], before[tag]))
  }

  function AssetsOf(tags: Tags, tag: string): Assets {
    if tag in tags then tags[tag] else map[]
  }

  function WithoutOne(assets: Assets, name: string): (fewer: Assets)
    requires name in assets
    ensures Submap(fewer, assets) && name !in fewer
    ensures |fewer.Keys| < |assets.Keys|
  {
    var fewer := assets - {name};
    assert fewer.Keys == assets.Keys - {name};
    fewer
  }

  /** What is asked of a store, or of the INDEX. */
  datatype Op = Drop(tag: string) | Make(tag: string) | Send(tag: string, name: string) | WriteIndex

  class FsStore {
    var tags: Tags
    /** The fates of the operations, those before `pos` used up; the machine dies at its end. */
    const script: seq<Fate>
    var pos: nat
    /** Everything asked so far, and how much of it, removals apart, was answered by raising. */
    ghost var log: seq<Op>
    ghost var refusals: nat

    constructor (script: seq<Fate>)
      ensures tags == map[] && this.script == script && pos == 0 && log == [] && refusals == 0
    {
      tags, this.script, pos, log, refusals := map[], script, 0, [], 0;
    }

    function FateAt(i: nat): Fate {
      if i < |script| then script[i] else Dies
    }

    /** All operations since `from` have worked. */
    ghost predicate Smooth(from: nat)
      reads this
    {
      forall i | from <= i < pos :: FateAt(i) == Works
    }

    /** A result other than Works is what the last operation did; raising counts as a refusal. */
    ghost predicate Excused(from: nat, refused: nat, f: Fate)
      reads this
    {
      && from <= pos && refused <= refusals
      && (f != Works ==> from < pos && FateAt(pos - 1) == f)
      && (f == Raises ==> refused < refusals)
    }

    method Turn() returns (f: Fate)
      modifies this`pos
      ensures pos == old(pos) + 1 && f == FateAt(old(pos))
    {
      f, pos := FateAt(pos), pos + 1;
    }

    /** A turn that saves the INDEX if it works. */
    method SaveIndex() returns (f: Fate)
      modifies this`pos, this`log, this`refusals
      ensures Excused(old(pos), old(refusals), f) && pos == old(pos) + 1 && f == FateAt(old(pos))
      ensures log == old(log) + [WriteIndex]
      ensures refusals == old(refusals) + if f == Raises then 1 else 0
    {
      log := log + [WriteIndex];
      f := Turn();
      refusals := refusals + if f == Raises then 1 else 0;
    }

    /** The files of a directory go one at a time, in any order. */
    method Empty(tag: string) returns (f: Fate)
      requires tag in tags
      modifies this`tags, this`pos
      ensures f != Raises && tag in tags && Excused(old(pos), old(refusals), f)
      ensures tags == old(tags)[tag := tags[tag]] && Submap(tags[tag], old(tags)[tag])
      ensures f == Works ==> tags[tag] == map[]
    {
      ghost var before := tags;
      var left := tags[tag];
      while left != map[]
        invariant tags == before[tag := left] && Submap(left, before[tag]) && old(pos) <= pos
        decreases |left.Keys|
      {
        f := Turn();
        if f == Dies {
          return;
        }
        var name :| name in left;
        left := WithoutOne(left, name);
        tags := tags[tag := left];
      }
      f := Works;
    }

    /** `shutil.rmtree(..., ignore_errors=True)`: it either removes everything or dies on the
        way. */
    method Delete(tag: string) returns (f: Fate)
      modifies this`tags, this`pos, this`log
      ensures f != Raises && Excused(old(pos), old(refusals), f)
      ensures f == Works ==> tags == old(tags) - {tag}
      ensures Gnawed(old(tags), tags, tag)
      ensures log == old(log) + [Drop(tag)]
    {
      log := log + [Drop(tag)];
      if tag !in tags {
        return Works;
      }
      f := Empty(tag);
      if f == Works {
        f := Turn();
        if f != Dies {
          f, tags := Works, tags - {tag};
        }
      }
    }

    /** The directory first, then its metadata, which is not an asset. */
    method Create(tag: string) returns (f: Fate)
      modifies this
      ensures Excused(old(pos), old(refusals), f)
      ensures f == Works ==> tags == old(tags)[tag := AssetsOf(old(tags), tag)]
      ensures tags == old(tags) || tags == old(tags)[tag := AssetsOf(old(tags), tag)]
      ensures log == old(log) + [Make(tag)]
      ensures refusals == old(refusals) + if f == Raises then 1 else 0
    {
      log := log + [Make(tag)];
      f := Turn();
      if f == Works {
        tags := tags[tag := AssetsOf(tags, tag)];
        f := Turn();
      }
      refusals := refusals + if f == Raises then 1 else 0;
    }

    /** Delete and recreate. Only the second half can raise. */
    method Reset(tag: string) returns (f: Fate)
      modifies this
      ensures Excused(old(pos), old(refusals), f)
      ensures f == Works ==> tags == old(tags)[tag := map[]]
      ensures f == Raises ==> tags == old(tags) - {tag} || tags == old(tags)[tag := map[]]
      ensures f == Dies ==> Gnawed(old(tags), tags, tag) || tags == old(tags)[tag := map[]]
      ensures f != Dies ==> log == old(log) + [Drop(tag), Make(tag)]
      ensures refusals == old(refusals) + if f == Raises then 1 else 0
    {
      f := Delete(tag);
      if f == Works {
        assert AssetsOf(tags, tag) == map[];
        f := Create(tag);
        assert (old(tags) - {tag})[tag := map[]] == old(tags)[tag := map[]];
        assert log == old(log) + [Drop(tag), Make(tag)];
      }
    }

    /** One asset lands under its name, replacing what was there; a missing tag is made. */
    method Put(tag: string, name: string, asset: Asset) returns (f: Fate)
      modifies this
      ensures Excused(old(pos), old(refusals), f)
      ensures f == Works ==> tags == old(tags)[tag := AssetsOf(old(tags), tag)[name := asset]]
      ensures f != Works ==> tags == old(tags)
      ensures log == old(log) + [Send(tag, name)]
      ensures refusals == old(refusals) + if f == Raises then 1 else 0
    {
      log := log + [Send(tag, name)];
      f := Turn();
      if f == Works {
        tags := tags[tag := AssetsOf(tags, tag)[name := asset]];
      }
      refusals := refusals + if f == Raises then 1 else 0;
    }

    /** `list_assets`: the names under a tag, in whatever order the directory gives them. */
    method ListAssets(tag: string) returns (names: seq<string>)
      ensures Elements(names) == AssetsOf(tags, tag).Keys
    {
      names := [];
      var left := AssetsOf(tags, tag).Keys;
      while left != {}
        invariant Elements(names) + left == AssetsOf(tags, tag).Keys
        decreases left
      {
        var name :| name in left;
        assert Elements(names + [name]) == Elements(names) + {name};
        names, left := names + [name], left - {name};
      }
    }
  }
}
