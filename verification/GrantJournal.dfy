/** The journal of directory grants of a sandbox profile: roots are merged by
    path, in batches (crates/windows-appcontainer-host/src/journal.rs). */
module GrantJournal {
  import opened Wrappers
  import opened Sorting

  const JOURNAL_VERSION: nat := 1

  datatype Access = ReadOnly | Writable {
    function Merge(other: Access): Access {
      if this == Writable || other == Writable then Writable else ReadOnly
    }
  }

  datatype Grant = Grant(path: string, access: Access, originalControl: Option<nat>, complete: bool)

  function ReplaceSlashes(path: string): string {
    if path == "" then "" else [if path[0] == '/' then '\\' else path[0]] + ReplaceSlashes(path[1..])
  }

  /** A path and its key name the same places: only the slashes differ. */
  lemma {:induction false} SlashesReplaced(path: string)
    ensures |ReplaceSlashes(path)| == |path| && '/' !in ReplaceSlashes(path)
    ensures forall i :: 0 <= i < |path| ==>
      if path[i] == '/' then ReplaceSlashes(path)[i] == '\\' else ReplaceSlashes(path)[i] == path[i]
  {
    if path != "" {
      SlashesReplaced(path[1..]);
    }
  }

  /** path_key; `fold` is the lower-casing of Windows, or the identity. */
  function PathKey(path: string, fold: string -> string): string { fold(ReplaceSlashes(path)) }

  function Key(g: Grant, fold: string -> string): string { PathKey(g.path, fold) }

  function KeysOf(roots: seq<Grant>, fold: string -> string): (keys: seq<string>)
    ensures |keys| == |roots|
  {
    seq(|roots|, i requires 0 <= i < |roots| => Key(roots[i], fold))
  }

  /** What a later grant of the same path changes. */
  function Absorb(existing: Grant, root: Grant): Grant {
    var access := existing.access.Merge(root.access);
    Grant(existing.path,
          access,
          if existing.originalControl.None? then root.originalControl else existing.originalControl,
          existing.complete && access == existing.access)
  }

  /** Entry of the sorted map: absorb into the entry with this key, or insert. */
  function Upsert(merged: seq<Grant>, root: Grant, fold: string -> string): seq<Grant> {
    if merged == [] then [root]
    else if Key(merged[0], fold) == Key(root, fold) then [Absorb(merged[0], root)] + merged[1..]
    else if Before(Key(root, fold), Key(merged[0], fold)) then [root] + merged
    else [merged[0]] + Upsert(merged[1..], root, fold)
  }

  function MergeAll(merged: seq<Grant>, roots: seq<Grant>, fold: string -> string): seq<Grant>
    decreases |roots|
  {
    if roots == [] then merged else MergeAll(Upsert(merged, roots[0], fold), roots[1..], fold)
  }

  /** merge_roots: the roots held so far are merged again, then the new ones. */
  function MergeRoots(held: seq<Grant>, roots: seq<Grant>, fold: string -> string): seq<Grant> {
    MergeAll([], held + roots, fold)
  }

  // ----- One entry per path, in order -----

  ghost predicate OnePerPath(roots: seq<Grant>, fold: string -> string) {
    Ascending(KeysOf(roots, fold))
  }

  lemma KeysTail(roots: seq<Grant>, fold: string -> string)
    requires roots != []
    ensures KeysOf(roots, fold) == [Key(roots[0], fold)] + KeysOf(roots[1..], fold)
  {}

  lemma AscendingCons(x: string, keys: seq<string>)
    ensures Ascending([x] + keys) <==> Ascending(keys) && forall y :: y in keys ==> Before(x, y)
  {
    var all := [x] + keys;
    if Ascending(all) {
      forall i, j | 0 <= i < j < |keys|
        ensures Before(keys[i], keys[j])
      {
        assert Before(all[i + 1], all[j + 1]);
      }
      forall j | 0 <= j < |keys|
        ensures Before(x, keys[j])
      {
        assert Before(all[0], all[j + 1]);
      }
    }
    if Ascending(keys) && forall y :: y in keys ==> Before(x, y) {
      forall i, j | 0 <= i < j < |all|
        ensures Before(all[i], all[j])
      {
        assert all[j] == keys[j - 1];
        assert i > 0 ==> all[i] == keys[i - 1];
      }
    }
  }

  lemma {:induction false} UpsertKeys(merged: seq<Grant>, root: Grant, fold: string -> string)
    requires OnePerPath(merged, fold)
    ensures OnePerPath(Upsert(merged, root, fold), fold)
    ensures forall k :: k in KeysOf(Upsert(merged, root, fold), fold) <==>
                        k in KeysOf(merged, fold) || k == Key(root, fold)
  {
    KeysTail(Upsert(merged, root, fold), fold);
    if merged != [] {
      var first, key := Key(merged[0], fold), Key(root, fold);
      KeysTail(merged, fold);
      AscendingCons(first, KeysOf(merged[1..], fold));
      BeforeIsTotal(first, key);
      if first == key {
        assert Upsert(merged, root, fold)[1..] == merged[1..];
      } else if Before(key, first) {
        assert Upsert(merged, root, fold)[1..] == merged;
        forall k | k in KeysOf(merged, fold)
          ensures Before(key, k)
        {
          if k != first {
            BeforeIsTransitive(key, first, k);
          }
        }
        AscendingCons(key, KeysOf(merged, fold));
      } else {
        UpsertKeys(merged[1..], root, fold);
        assert Upsert(merged, root, fold)[1..] == Upsert(merged[1..], root, fold);
        AscendingCons(first, KeysOf(Upsert(merged[1..], root, fold), fold));
      }
    } else {
      AscendingCons(Key(root, fold), []);
    }
  }

  lemma {:induction false} MergeAllKeys(merged: seq<Grant>, roots: seq<Grant>, fold: string -> string)
    requires OnePerPath(merged, fold)
    ensures OnePerPath(MergeAll(merged, roots, fold), fold)
    ensures forall k :: k in KeysOf(MergeAll(merged, roots, fold), fold) <==>
                        k in KeysOf(merged, fold) || k in KeysOf(roots, fold)
    decreases |roots|
  {
    if roots != [] {
      KeysTail(roots, fold);
      UpsertKeys(merged, roots[0], fold);
      MergeAllKeys(Upsert(merged, roots[0], fold), roots[1..], fold);
    }
  }

  /** Whatever the journal held, after a merge it has exactly one root for each
      path key granted, in key order. */
  lemma OneRootPerPath(held: seq<Grant>, roots: seq<Grant>, fold: string -> string)
    ensures OnePerPath(MergeRoots(held, roots, fold), fold)
    ensures forall k :: k in KeysOf(MergeRoots(held, roots, fold), fold) <==>
                        k in KeysOf(held, fold) || k in KeysOf(roots, fold)
  {
    MergeAllKeys([], held + roots, fold);
    assert KeysOf(held + roots, fold) == KeysOf(held, fold) + KeysOf(roots, fold);
  }

  // ----- Batches -----

  lemma {:induction false} UpsertLast(merged: seq<Grant>, root: Grant, fold: string -> string)
    requires forall k :: k in KeysOf(merged, fold) ==> Before(k, Key(root, fold))
    ensures Upsert(merged, root, fold) == merged + [root]
  {
    if merged != [] {
      KeysTail(merged, fold);
      assert Key(merged[0], fold) in KeysOf(merged, fold);
      BeforeIsAsymmetric(Key(merged[0], fold), Key(root, fold));
      UpsertLast(merged[1..], root, fold);
    }
  }

  /** Merging again what is already merged changes nothing. */
  lemma {:induction false} MergedStays(done: seq<Grant>, rest: seq<Grant>, fold: string -> string)
    requires OnePerPath(done + rest, fold)
    ensures MergeAll(done, rest, fold) == done + rest
    decreases |rest|
  {
    if rest == [] {
      assert done + rest == done;
    } else {
      var keys := KeysOf(done + rest, fold);
      forall k | k in KeysOf(done, fold)
        ensures Before(k, Key(rest[0], fold))
      {
        var i :| 0 <= i < |done| && KeysOf(done, fold)[i] == k;
        assert keys[i] == k && keys[|done|] == Key(rest[0], fold);
      }
      UpsertLast(done, rest[0], fold);
      assert done + rest == (done + [rest[0]]) + rest[1..];
      MergedStays(done + [rest[0]], rest[1..], fold);
    }
  }

  lemma {:induction false} MergeAllConcat(merged: seq<Grant>, a: seq<Grant>, b: seq<Grant>, fold: string -> string)
    ensures MergeAll(merged, a + b, fold) == MergeAll(MergeAll(merged, a, fold), b, fold)
    decreases |a|
  {
    if a == [] {
      assert a + b == b;
    } else {
      assert (a + b)[1..] == a[1..] + b;
      MergeAllConcat(Upsert(merged, a[0], fold), a[1..], b, fold);
    }
  }

  lemma MergedAgain(merged: seq<Grant>, fold: string -> string)
    requires OnePerPath(merged, fold)
    ensures MergeAll([], merged, fold) == merged
  {
    assert [] + merged == merged;
    MergedStays([], merged, fold);
  }

  lemma MergedOnePerPath(held: seq<Grant>, roots: seq<Grant>, fold: string -> string)
    ensures OnePerPath(MergeRoots(held, roots, fold), fold)
  {
    MergeAllKeys([], held + roots, fold);
  }

  /** Two batches are one merge of their concatenation. */
  lemma BatchesAreOneMerge(held: seq<Grant>, a: seq<Grant>, b: seq<Grant>, fold: string -> string)
    ensures MergeRoots(MergeRoots(held, a, fold), b, fold) == MergeRoots(held, a + b, fold)
  {
    var first := MergeRoots(held, a, fold);
    MergedOnePerPath(held, a, fold);
    MergedAgain(first, fold);
    MergeAllConcat([], first, b, fold);
    MergeAllConcat([], held + a, b, fold);
    assert held + a + b == held + (a + b);
  }

  // ----- What the merged root of a path says -----

  /** The grants of one path, in the order they were made. */
  function GrantsOf(roots: seq<Grant>, key: string, fold: string -> string): (gs: seq<Grant>)
    ensures forall g :: g in gs ==> Key(g, fold) == key
  {
    if roots == [] then []
    else (if Key(roots[0], fold) == key then [roots[0]] else []) + GrantsOf(roots[1..], key, fold)
  }

  /** The merged root of a path, if there is one. */
  function Lookup(merged: seq<Grant>, key: string, fold: string -> string): Option<Grant> {
    if merged == [] then None
    else if Key(merged[0], fold) == key then Some(merged[0])
    else Lookup(merged[1..], key, fold)
  }

  function AbsorbOne(existing: Option<Grant>, root: Grant): Grant {
    match existing
    case None => root
    case Some(g) => Absorb(g, root)
  }

  function AbsorbAll(existing: Option<Grant>, gs: seq<Grant>): Option<Grant>
    decreases |gs|
  {
    if gs == [] then existing else AbsorbAll(Some(AbsorbOne(existing, gs[0])), gs[1..])
  }

  lemma {:induction false} LookupBefore(merged: seq<Grant>, key: string, fold: string -> string)
    requires forall k :: k in KeysOf(merged, fold) ==> Before(key, k)
    ensures Lookup(merged, key, fold) == None
  {
    if merged != [] {
      KeysTail(merged, fold);
      BeforeIsAsymmetric(key, key);
      assert Key(merged[0], fold) in KeysOf(merged, fold);
      LookupBefore(merged[1..], key, fold);
    }
  }

  /** An ascending list only has keys after its first. */
  lemma LookupSmaller(merged: seq<Grant>, key: string, fold: string -> string)
    requires merged != [] && OnePerPath(merged, fold) && Before(key, Key(merged[0], fold))
    ensures Lookup(merged, key, fold) == None
  {
    KeysTail(merged, fold);
    AscendingCons(Key(merged[0], fold), KeysOf(merged[1..], fold));
    forall k | k in KeysOf(merged, fold)
      ensures Before(key, k)
    {
      if k != Key(merged[0], fold) {
        BeforeIsTransitive(key, Key(merged[0], fold), k);
      }
    }
    LookupBefore(merged, key, fold);
  }

  lemma OnePerPathTail(merged: seq<Grant>, fold: string -> string)
    requires merged != [] && OnePerPath(merged, fold)
    ensures OnePerPath(merged[1..], fold)
  {
    KeysTail(merged, fold);
    AscendingCons(Key(merged[0], fold), KeysOf(merged[1..], fold));
  }

  lemma LookupCons(first: Grant, rest: seq<Grant>, key: string, fold: string -> string)
    ensures Lookup([first] + rest, key, fold)
         == (if Key(first, fold) == key then Some(first) else Lookup(rest, key, fold))
  {
    assert ([first] + rest)[1..] == rest;
  }

  lemma {:induction false} UpsertLookup(merged: seq<Grant>, root: Grant, key: string, fold: string -> string)
    requires OnePerPath(merged, fold)
    ensures Lookup(Upsert(merged, root, fold), key, fold)
         == (if Key(root, fold) == key then Some(AbsorbOne(Lookup(merged, key, fold), root))
             else Lookup(merged, key, fold))
  {
    if merged == [] {
      LookupCons(root, [], key, fold);
    } else if Key(merged[0], fold) == Key(root, fold) {
      LookupCons(Absorb(merged[0], root), merged[1..], key, fold);
    } else if Before(Key(root, fold), Key(merged[0], fold)) {
      LookupCons(root, merged, key, fold);
      LookupSmaller(merged, Key(root, fold), fold);
    } else {
      OnePerPathTail(merged, fold);
      UpsertLookup(merged[1..], root, key, fold);
      LookupCons(merged[0], Upsert(merged[1..], root, fold), key, fold);
    }
  }

  lemma {:induction false} MergeAllLookup(merged: seq<Grant>, roots: seq<Grant>, key: string, fold: string -> string)
    requires OnePerPath(merged, fold)
    ensures Lookup(MergeAll(merged, roots, fold), key, fold)
         == AbsorbAll(Lookup(merged, key, fold), GrantsOf(roots, key, fold))
    decreases |roots|
  {
    if roots != [] {
      UpsertLookup(merged, roots[0], key, fold);
      UpsertKeys(merged, roots[0], fold);
      MergeAllLookup(Upsert(merged, roots[0], fold), roots[1..], key, fold);
      GrantsOfCons(roots, key, fold);
      AbsorbCons(Lookup(merged, key, fold), roots[0], GrantsOf(roots[1..], key, fold));
    }
  }

  lemma GrantsOfCons(roots: seq<Grant>, key: string, fold: string -> string)
    requires roots != []
    ensures GrantsOf(roots, key, fold)
         == (if Key(roots[0], fold) == key then [roots[0]] + GrantsOf(roots[1..], key, fold)
             else GrantsOf(roots[1..], key, fold))
  {}

  lemma AbsorbCons(existing: Option<Grant>, root: Grant, gs: seq<Grant>)
    ensures AbsorbAll(existing, [root] + gs) == AbsorbAll(Some(AbsorbOne(existing, root)), gs)
  {
    assert ([root] + gs)[1..] == gs;
  }

  ghost predicate AnyWritable(gs: seq<Grant>) { exists g :: g in gs && g.access == Writable }

  function FirstControl(gs: seq<Grant>): Option<nat> {
    if gs == [] then None
    else if gs[0].originalControl.Some? then gs[0].originalControl
    else FirstControl(gs[1..])
  }

  ghost predicate Summarizes(r: Grant, first: Grant, gs: seq<Grant>) {
    && r.path == first.path
    && (r.access == Writable <==> first.access == Writable || AnyWritable(gs))
    && r.originalControl == (if first.originalControl.Some? then first.originalControl else FirstControl(gs))
    && (r.complete <==> first.complete && (first.access == Writable || !AnyWritable(gs)))
  }

  lemma {:induction false} AbsorbAllMeans(first: Grant, gs: seq<Grant>)
    ensures AbsorbAll(Some(first), gs).Some? && Summarizes(AbsorbAll(Some(first), gs).value, first, gs)
    decreases |gs|
  {
    if gs != [] {
      AbsorbAllMeans(Absorb(first, gs[0]), gs[1..]);
      assert gs == [gs[0]] + gs[1..];
      assert AnyWritable(gs) <==> gs[0].access == Writable || AnyWritable(gs[1..]);
    }
  }

  /** All grants of a path come to one root: the first grant's path, the strongest
      access ever granted, the first control bits ever recorded, and complete only
      if the first grant was complete and access has not risen since. */
  lemma MergedRootMeans(held: seq<Grant>, roots: seq<Grant>, key: string, fold: string -> string)
    ensures var gs, root := GrantsOf(held + roots, key, fold), Lookup(MergeRoots(held, roots, fold), key, fold);
      if gs == [] then root == None else root.Some? && Summarizes(root.value, gs[0], gs[1..])
  {
    var gs := GrantsOf(held + roots, key, fold);
    MergeAllLookup([], held + roots, key, fold);
    if gs != [] {
      AbsorbAllMeans(gs[0], gs[1..]);
      assert gs == [gs[0]] + gs[1..];
      AbsorbCons(None, gs[0], gs[1..]);
    }
  }

  // ----- The journal -----

  datatype Inconsistency = UnsupportedVersion | OtherProfile

  class ProfileJournal {
    var version: nat
    var profileName: string
    var sid: string
    var roots: seq<Grant>
    const fold: string -> string

    constructor (name: string, theSid: string, granted: seq<Grant>, folding: string -> string)
      ensures version == 1 && profileName == name && sid == theSid && fold == folding
      ensures roots == MergeRoots([], granted, fold)
    {
      version, profileName, sid, roots, fold := JOURNAL_VERSION, name, theSid, [], folding;
      new;
      MergeIn(granted);
    }

    /** merge_roots: drain the roots, then rebuild them with the new ones. */
    method MergeIn(granted: seq<Grant>)
      modifies `roots
      ensures roots == MergeRoots(old(roots), granted, fold)
    {
      var chain := roots + granted;
      roots := [];
      var merged: seq<Grant> := [];
      var i := 0;
      while i < |chain|
        invariant 0 <= i <= |chain|
        invariant MergeAll(merged, chain[i..], fold) == MergeAll([], chain, fold)
      {
        merged := Upsert(merged, chain[i], fold);
        i := i + 1;
      }
      roots := merged;
    }

    method Validate(expectedProfile: string, expectedSid: string) returns (r: Result<(), Inconsistency>)
      ensures r.Ok? <==> version == 1 && profileName == expectedProfile && sid == expectedSid
      ensures r == Err(UnsupportedVersion) <==> version != 1
    {
      if version != JOURNAL_VERSION {
        return Err(UnsupportedVersion);
      }
      if profileName != expectedProfile || sid != expectedSid {
        return Err(OtherProfile);
      }
      return Ok(());
    }
  }
}
