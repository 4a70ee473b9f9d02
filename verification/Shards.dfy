/** Splitting a test collection over runners and checking that the shards put
    together are the whole collection (tools/ci/pytest_shard.py and
    tools/ci/verify_pytest_shards.py). */
module Shards {
  import opened Wrappers
  import opened Sorting

  datatype Error =
    | BadCount | DuplicateIds
    | BadSelection | EmptyShard
    | MissingManifests | BadIndices | CollectionsDisagree | Overlap | Incomplete

  // ----- Partition -----

  /** s[index::count]. */
  function Stride(s: seq<string>, index: nat, count: nat): (r: seq<string>)
    requires count > 0
    decreases |s| - index
  {
    if index >= |s| then [] else [s[index]] + Stride(s, index + count, count)
  }

  function Shard(nodeids: seq<string>, index: nat, count: nat): seq<string>
    requires count > 0
  {
    Stride(Sort(nodeids), index, count)
  }

  function PartitionNodeids(nodeids: seq<string>, count: int): Result<seq<seq<string>>, Error> {
    if !(1 <= count <= 16) then Err(BadCount)
    else if !NoRepeats(nodeids) then Err(DuplicateIds)
    else Ok(seq(count, index requires 0 <= index < count => Shard(nodeids, index, count)))
  }

  lemma {:induction false} StrideHas(s: seq<string>, index: nat, count: nat, q: nat)
    requires count > 0 && index + q * count < |s|
    ensures s[index + q * count] in Stride(s, index, count)
    decreases q
  {
    if q > 0 {
      assert index + count + (q - 1) * count == index + q * count;
      StrideHas(s, index + count, count, q - 1);
    }
  }

  lemma {:induction false} StrideOnlyHas(s: seq<string>, index: nat, count: nat, x: string) returns (q: nat)
    requires count > 0 && x in Stride(s, index, count)
    ensures index + q * count < |s| && s[index + q * count] == x
    decreases |s| - index
  {
    if x == s[index] {
      q := 0;
    } else {
      var rest := StrideOnlyHas(s, index + count, count, x);
      q := rest + 1;
      assert index + count + rest * count == index + q * count;
    }
  }

  lemma NoMultipleBetween(n: nat, k: int, d: int)
    requires 0 < d < n
    ensures d != k * n
  {
    if k >= 1 {
      assert k * n >= n;
    } else {
      assert k * n <= 0;
    }
  }

  lemma PositionsDiffer(i: nat, j: nat, count: nat, q: nat, r: nat)
    requires i < j < count
    ensures i + q * count != j + r * count
  {
    NoMultipleBetween(count, q - r, j - i);
    assert (q - r) * count == q * count - r * count;
  }

  /** Different shards of a list without repetition have nothing in common. */
  lemma StridesDisjoint(s: seq<string>, i: nat, j: nat, count: nat, x: string)
    requires NoRepeats(s) && i < j < count && x in Stride(s, i, count)
    ensures x !in Stride(s, j, count)
  {
    if x in Stride(s, j, count) {
      var q := StrideOnlyHas(s, i, count, x);
      var r := StrideOnlyHas(s, j, count, x);
      PositionsDiffer(i, j, count, q, r);
    }
  }

  /** Position p of the sorted list goes to shard p % count. */
  lemma StridesCover(s: seq<string>, count: nat, p: nat)
    requires count > 0 && p < |s|
    ensures s[p] in Stride(s, p % count, count)
  {
    assert p == p % count + (p / count) * count;
    StrideHas(s, p % count, count, p / count);
  }

  lemma {:induction false} StrideSizes(s: seq<string>, i: nat, j: nat, count: nat)
    requires count > 0 && i <= j <= i + count
    ensures |Stride(s, j, count)| <= |Stride(s, i, count)| <= |Stride(s, j, count)| + 1
    decreases |s| - i
  {
    if j < |s| {
      StrideSizes(s, i + count, j + count, count);
    }
  }

  lemma {:induction false} StrideAscending(s: seq<string>, index: nat, count: nat)
    requires count > 0 && Ascending(s)
    ensures Ascending(Stride(s, index, count))
    decreases |s| - index
  {
    if index < |s| {
      var rest := Stride(s, index + count, count);
      StrideAscending(s, index + count, count);
      forall k | 0 <= k < |rest|
        ensures Before(s[index], rest[k])
      {
        assert rest[k] in rest;
        var q := StrideOnlyHas(s, index + count, count, rest[k]);
        assert q * count >= 0;
      }
    }
  }

  lemma ShardOf(nodeids: seq<string>, count: nat, x: string) returns (i: nat)
    requires count > 0 && x in Sort(nodeids)
    ensures i < count && x in Shard(nodeids, i, count)
  {
    var p :| 0 <= p < |Sort(nodeids)| && Sort(nodeids)[p] == x;
    StridesCover(Sort(nodeids), count, p);
    i := p % count;
  }

  lemma ShardWithin(nodeids: seq<string>, i: nat, count: nat, x: string)
    requires count > 0 && x in Shard(nodeids, i, count)
    ensures x in Sort(nodeids)
  {
    var q := StrideOnlyHas(Sort(nodeids), i, count, x);
  }

  /** Every id is in exactly one shard, and shards hold nothing else. */
  lemma PartitionIsExact(nodeids: seq<string>, count: nat, x: string)
    requires count > 0 && NoRepeats(nodeids)
    ensures x in nodeids <==> exists i: nat :: i < count && x in Shard(nodeids, i, count)
    ensures forall i: nat, j: nat :: i < j < count && x in Shard(nodeids, i, count) ==> x !in Shard(nodeids, j, count)
  {
    SortKeepsIds(nodeids);
    if x in nodeids {
      var i := ShardOf(nodeids, count, x);
    }
    forall i: nat | i < count && x in Shard(nodeids, i, count)
      ensures x in nodeids
    {
      ShardWithin(nodeids, i, count, x);
    }
    forall i: nat, j: nat | i < j < count && x in Shard(nodeids, i, count)
      ensures x !in Shard(nodeids, j, count)
    {
      StridesDisjoint(Sort(nodeids), i, j, count, x);
    }
  }

  /** Shard sizes differ by at most one, and every shard holds something exactly
      when there are at least as many ids as shards. */
  lemma PartitionIsEven(nodeids: seq<string>, count: nat)
    requires count > 0 && NoRepeats(nodeids)
    ensures forall i: nat, j: nat :: i <= j < count ==>
              |Shard(nodeids, j, count)| <= |Shard(nodeids, i, count)| <= |Shard(nodeids, j, count)| + 1
    ensures (forall i: nat :: i < count ==> Shard(nodeids, i, count) != []) <==> |nodeids| >= count
  {
    SortKeepsIds(nodeids);
    forall i: nat, j: nat | i <= j < count
      ensures |Shard(nodeids, j, count)| <= |Shard(nodeids, i, count)| <= |Shard(nodeids, j, count)| + 1
    {
      StrideSizes(Sort(nodeids), i, j, count);
    }
    assert Shard(nodeids, count - 1, count) != [] <==> count - 1 < |nodeids|;
  }

  /** Sorting keeps the ids and their number, without repetition. */
  lemma SortKeepsIds(nodeids: seq<string>)
    requires NoRepeats(nodeids)
    ensures Ascending(Sort(nodeids)) && NoRepeats(Sort(nodeids)) && |Sort(nodeids)| == |nodeids|
    ensures forall x :: x in Sort(nodeids) <==> x in nodeids
  {
    SortAscending(nodeids);
    AscendingDistinct(Sort(nodeids));
    SameMembers(Sort(nodeids), nodeids);
  }

  // ----- The manifest of one shard -----

  function Join(ids: seq<string>): string {
    if ids == [] then ""
    else if |ids| == 1 then ids[0]
    else ids[0] + "\n" + Join(ids[1..])
  }

  datatype Manifest = Manifest(index: int, count: int, total: int, digest: string, selected: seq<string>)

  function HonestManifest(nodeids: seq<string>, index: nat, count: nat, digest: string -> string): Manifest
    requires count > 0
  {
    Manifest(index, count, |nodeids|, digest(Join(Sort(nodeids))), Shard(nodeids, index, count))
  }

  function Keep(items: seq<string>, ids: seq<string>): seq<string> {
    if items == [] then []
    else (if items[0] in ids then [items[0]] else []) + Keep(items[1..], ids)
  }

  function Drop(items: seq<string>, ids: seq<string>): seq<string> {
    if items == [] then []
    else (if items[0] in ids then [] else [items[0]]) + Drop(items[1..], ids)
  }

  /** No item is lost between the selected and the deselected ones. */
  lemma {:induction false} KeepAndDrop(items: seq<string>, ids: seq<string>)
    ensures multiset(Keep(items, ids)) + multiset(Drop(items, ids)) == multiset(items)
  {
    if items != [] {
      KeepAndDrop(items[1..], ids);
      assert items == [items[0]] + items[1..];
    }
  }

  method SplitItems(items: seq<string>, ids: seq<string>) returns (selected: seq<string>, rejected: seq<string>)
    ensures selected == Keep(items, ids) && rejected == Drop(items, ids)
  {
    selected, rejected := [], [];
    var i := 0;
    while i < |items|
      invariant 0 <= i <= |items|
      invariant selected + Keep(items[i..], ids) == Keep(items, ids)
      invariant rejected + Drop(items[i..], ids) == Drop(items, ids)
    {
      if items[i] in ids {
        selected := selected + [items[i]];
      } else {
        rejected := rejected + [items[i]];
      }
      i := i + 1;
    }
  }

  /** The shard options name a shard of this collection that holds something. */
  predicate Chosen(items: seq<string>, index: Option<int>, count: Option<int>) {
    && index.Some? && count.Some? && 0 <= index.value < count.value <= 16
    && NoRepeats(items) && Shard(items, index.value, count.value) != []
  }

  /** Why a selection is refused that names no shard. */
  function RefusalOf(items: seq<string>, index: Option<int>, count: Option<int>): Error {
    if index.None? || count.None? || !(0 <= index.value < count.value) then BadSelection
    else if count.value > 16 then BadCount
    else if exists i, j :: 0 <= i < j < |items| && items[i] == items[j] then DuplicateIds
    else EmptyShard
  }

  /** A shard is already sorted, so the manifest's sorted selection is the shard. */
  lemma ShardIsSorted(nodeids: seq<string>, index: nat, count: nat)
    requires count > 0 && NoRepeats(nodeids)
    ensures Sort(Shard(nodeids, index, count)) == Shard(nodeids, index, count)
  {
    var shard := Shard(nodeids, index, count);
    SortKeepsIds(nodeids);
    StrideAscending(Sort(nodeids), index, count);
    AscendingDistinct(shard);
    SortKeepsIds(shard);
    AscendingUnique(Sort(shard), shard);
  }

  class Collection {
    var items: seq<string>
    var deselected: seq<string>

    constructor (collected: seq<string>)
      ensures items == collected && deselected == []
    {
      items, deselected := collected, [];
    }

    /** pytest_collection_modifyitems: without shard options nothing happens;
        otherwise the items of the chosen shard stay, in collection order, and
        the manifest is written. */
    method ModifyItems(index: Option<int>, count: Option<int>, digest: string -> string)
      returns (r: Result<Option<Manifest>, Error>)
      modifies this
      ensures r.Err? || r.value.None? ==> items == old(items)
      ensures r == Ok(None) <==> index.None? && count.None?
      ensures r.Ok? && r.value.Some? ==> Chosen(old(items), index, count)
      ensures r.Ok? && r.value.Some? ==>
        && r.value == Some(HonestManifest(old(items), index.value, count.value, digest))
        && items == Keep(old(items), Shard(old(items), index.value, count.value))
        && deselected == Drop(old(items), Shard(old(items), index.value, count.value))
      ensures Chosen(old(items), index, count) ==> r.Ok? && r.value.Some?
      ensures r.Err? ==> r == Err(RefusalOf(old(items), index, count))
    {
      if index.None? && count.None? {
        return Ok(None);
      }
      if index.None? || count.None? || !(0 <= index.value < count.value) {
        return Err(BadSelection);
      }
      var nodeids := items;
      var partitions := PartitionNodeids(nodeids, count.value);
      if partitions.Err? {
        return Err(partitions.error);
      }
      var selectedIds := partitions.value[index.value];
      if selectedIds == [] {
        return Err(EmptyShard);
      }
      items, deselected := SplitItems(nodeids, selectedIds);
      return Ok(Some(HonestManifest(nodeids, index.value, count.value, digest)));
    }
  }

  // ----- Verification of all manifests -----

  function AllSelected(manifests: seq<Manifest>): seq<string> {
    if manifests == [] then []
    else AllSelected(manifests[..|manifests| - 1]) + manifests[|manifests| - 1].selected
  }

  function Indices(manifests: seq<Manifest>): set<int> {
    set m | m in manifests :: m.index
  }

  /** set(range(count)). */
  function UpTo(count: int): (r: set<int>)
    ensures forall i :: i in r <==> 0 <= i < count
  {
    if count <= 0 then {} else UpTo(count - 1) + {count - 1}
  }

  predicate Agrees(m: Manifest, first: Manifest, count: int) {
    m.count == count && m.total == first.total && m.digest == first.digest && m.selected != []
  }

  predicate AllAgree(manifests: seq<Manifest>, first: Manifest, count: int) {
    forall i :: 0 <= i < |manifests| ==> Agrees(manifests[i], first, count)
  }

  function Verdict(manifests: seq<Manifest>, count: int, digest: string -> string): Result<nat, Error> {
    if manifests == [] || |manifests| != count then Err(MissingManifests)
    else if Indices(manifests) != UpTo(count) then Err(BadIndices)
    else if !AllAgree(manifests, manifests[0], count) then Err(CollectionsDisagree)
    else
      var selected := AllSelected(manifests);
      if !NoRepeats(selected) then Err(Overlap)
      else if |selected| != manifests[0].total || digest(Join(Sort(selected))) != manifests[0].digest then Err(Incomplete)
      else Ok(|selected|)
  }

  /** verify: the loop collects the selections and stops at the first manifest
      that disagrees. */
  method Verify(manifests: seq<Manifest>, count: int, digest: string -> string) returns (r: Result<nat, Error>)
    ensures r == Verdict(manifests, count, digest)
  {
    if manifests == [] || |manifests| != count {
      return Err(MissingManifests);
    }
    if Indices(manifests) != UpTo(count) {
      return Err(BadIndices);
    }
    var first := manifests[0];
    var selected: seq<string> := [];
    var i := 0;
    while i < |manifests|
      invariant 0 <= i <= |manifests|
      invariant selected == AllSelected(manifests[..i])
      invariant AllAgree(manifests[..i], first, count)
    {
      if !Agrees(manifests[i], first, count) {
        return Err(CollectionsDisagree);
      }
      assert manifests[..i + 1][..i] == manifests[..i];
      selected := selected + manifests[i].selected;
      i := i + 1;
    }
    assert manifests[..i] == manifests;
    if !NoRepeats(selected) {
      return Err(Overlap);
    }
    if |selected| != first.total || digest(Join(Sort(selected))) != first.digest {
      return Err(Incomplete);
    }
    return Ok(|selected|);
  }

  // ----- Honest shards are accepted -----

  /** Every manifest is the honest one of its index, in any order of files. */
  ghost predicate Honest(manifests: seq<Manifest>, nodeids: seq<string>, count: nat, digest: string -> string)
    requires count > 0
  {
    forall i :: 0 <= i < |manifests| ==>
      && 0 <= manifests[i].index < count
      && manifests[i] == HonestManifest(nodeids, manifests[i].index, count, digest)
  }

  ghost predicate IndicesDistinct(manifests: seq<Manifest>) {
    forall i, j :: 0 <= i < j < |manifests| ==> manifests[i].index != manifests[j].index
  }

  lemma UpToSize(count: nat)
    ensures |UpTo(count)| == count
  {
    if count > 0 {
      UpToSize(count - 1);
    }
  }

  lemma {:induction false} FewIndices(manifests: seq<Manifest>)
    ensures |Indices(manifests)| <= |manifests|
    ensures |Indices(manifests)| == |manifests| ==> IndicesDistinct(manifests)
  {
    if manifests != [] {
      var n := |manifests| - 1;
      var front, last := manifests[..n], manifests[n];
      assert manifests == front + [last];
      FewIndices(front);
      assert Indices(manifests) == Indices(front) + {last.index};
      if last.index !in Indices(front) {
        forall i | 0 <= i < n
          ensures manifests[i].index != last.index
        {
          assert front[i] in front;
        }
      }
    }
  }

  /** All the indices, in as many manifests: each index once. */
  lemma EachIndexOnce(manifests: seq<Manifest>, count: nat)
    requires |manifests| == count && Indices(manifests) == UpTo(count)
    ensures IndicesDistinct(manifests)
  {
    UpToSize(count);
    FewIndices(manifests);
  }

  lemma {:induction false} AllSelectedHas(manifests: seq<Manifest>, x: string)
    ensures x in AllSelected(manifests) <==> exists m :: m in manifests && x in m.selected
  {
    if manifests != [] {
      var n := |manifests| - 1;
      assert manifests == manifests[..n] + [manifests[n]];
      AllSelectedHas(manifests[..n], x);
    }
  }

  lemma NoRepeatsConcat(a: seq<string>, b: seq<string>)
    requires NoRepeats(a) && NoRepeats(b) && forall x :: x in b ==> x !in a
    ensures NoRepeats(a + b)
  {
    forall i, j | 0 <= i < j < |a + b|
      ensures (a + b)[i] != (a + b)[j]
    {
      if i < |a| <= j {
        assert (a + b)[j] in b && (a + b)[i] in a;
      }
    }
  }

  lemma {:induction false} HonestSelectionsDistinct(manifests: seq<Manifest>, nodeids: seq<string>, count: nat,
                                                    digest: string -> string)
    requires count > 0 && NoRepeats(nodeids) && Honest(manifests, nodeids, count, digest) && IndicesDistinct(manifests)
    ensures NoRepeats(AllSelected(manifests))
  {
    if manifests != [] {
      var n := |manifests| - 1;
      var front, last := manifests[..n], manifests[n];
      HonestSelectionsDistinct(front, nodeids, count, digest);
      SortKeepsIds(nodeids);
      StrideAscending(Sort(nodeids), last.index, count);
      AscendingDistinct(last.selected);
      forall x | x in last.selected
        ensures x !in AllSelected(front)
      {
        AllSelectedHas(front, x);
        forall m | m in front
          ensures x !in m.selected
        {
          OtherShard(nodeids, m.index, last.index, count, x);
        }
      }
      NoRepeatsConcat(AllSelected(front), last.selected);
    }
  }

  lemma OtherShard(nodeids: seq<string>, i: nat, j: nat, count: nat, x: string)
    requires NoRepeats(nodeids) && i < count && j < count && i != j && x in Shard(nodeids, j, count)
    ensures x !in Shard(nodeids, i, count)
  {
    SortKeepsIds(nodeids);
    if i < j {
      if x in Shard(nodeids, i, count) {
        StridesDisjoint(Sort(nodeids), i, j, count, x);
      }
    } else {
      StridesDisjoint(Sort(nodeids), j, i, count, x);
    }
  }

  lemma HonestSelectionsCover(manifests: seq<Manifest>, nodeids: seq<string>, count: nat, digest: string -> string,
          x: string)
    requires count > 0 && NoRepeats(nodeids) && Honest(manifests, nodeids, count, digest)
    requires Indices(manifests) == UpTo(count)
    ensures x in AllSelected(manifests) <==> x in nodeids
  {
    PartitionIsExact(nodeids, count, x);
    AllSelectedHas(manifests, x);
    if x in nodeids {
      var i: nat :| i < count && x in Shard(nodeids, i, count);
      assert i in UpTo(count);
      var m :| m in manifests && m.index == i;
    }
  }

  /** verify accepts the manifests that the runners of one collection write, in
      any file order, whenever there are at least as many tests as shards. */
  lemma HonestAccepted(manifests: seq<Manifest>, nodeids: seq<string>, count: nat, digest: string -> string)
    requires 1 <= count <= |nodeids| && |manifests| == count && NoRepeats(nodeids)
    requires Honest(manifests, nodeids, count, digest) && Indices(manifests) == UpTo(count)
    ensures Verdict(manifests, count, digest) == Ok(|nodeids|)
  {
    var selected := AllSelected(manifests);
    EachIndexOnce(manifests, count);
    HonestSelectionsDistinct(manifests, nodeids, count, digest);
    forall x
      ensures x in selected <==> x in nodeids
    {
      HonestSelectionsCover(manifests, nodeids, count, digest, x);
    }
    SortKeepsIds(selected);
    SortKeepsIds(nodeids);
    AscendingUnique(Sort(selected), Sort(nodeids));
    forall i | 0 <= i < |manifests|
      ensures Agrees(manifests[i], manifests[0], count)
    {
      assert manifests[i] in manifests;
      ShardFilled(nodeids, manifests[i].index, count);
    }
  }

  lemma ShardFilled(nodeids: seq<string>, index: nat, count: nat)
    requires count > 0 && NoRepeats(nodeids) && index < |nodeids|
    ensures Shard(nodeids, index, count) != []
  {
    SortKeepsIds(nodeids);
  }

  // ----- What acceptance means -----

  predicate OneLine(s: string) { '\n' !in s }

  predicate OneLineEach(ids: seq<string>) { forall i :: 0 <= i < |ids| ==> OneLine(ids[i]) }

  lemma NotShorter(a: string, b: string, x: string, y: string)
    requires OneLine(b) && a + "\n" + x == b + "\n" + y
    ensures |a| >= |b|
  {
    var s := b + "\n" + y;
    forall k | 0 <= k < |b|
      ensures s[k] != '\n'
    {
      assert s[k] == b[k] && b[k] in b;
    }
    assert (a + "\n" + x)[|a|] == '\n';
  }

  lemma FirstLineEqual(a: string, b: string, x: string, y: string)
    requires OneLine(a) && OneLine(b) && a + "\n" + x == b + "\n" + y
    ensures a == b && x == y
  {
    var s := a + "\n" + x;
    NotShorter(a, b, x, y);
    NotShorter(b, a, y, x);
    assert a == s[..|a|] && b == s[..|b|];
    assert x == s[|a| + 1..] && y == s[|b| + 1..];
  }

  /** Lists of the same length without line ends are told apart by their join. */
  lemma {:induction false} JoinInjective(a: seq<string>, b: seq<string>)
    requires |a| == |b| && OneLineEach(a) && OneLineEach(b) && Join(a) == Join(b)
    ensures a == b
  {
    if |a| > 1 {
      FirstLineEqual(a[0], b[0], Join(a[1..]), Join(b[1..]));
      JoinInjective(a[1..], b[1..]);
      assert a == [a[0]] + a[1..] && b == [b[0]] + b[1..];
    }
  }

  /** With a collision-free digest and ids without line ends, accepted manifests
      that name a collection's digest and size select every id of it exactly once
      and nothing else. */
  lemma AcceptedIsExactCover(manifests: seq<Manifest>, nodeids: seq<string>, count: int, digest: string -> string)
    requires Verdict(manifests, count, digest).Ok?
    requires manifests[0].digest == digest(Join(Sort(nodeids))) && manifests[0].total == |nodeids|
    requires forall x, y :: digest(x) == digest(y) ==> x == y
    requires OneLineEach(nodeids) && OneLineEach(AllSelected(manifests))
    ensures multiset(AllSelected(manifests)) == multiset(nodeids) && NoRepeats(AllSelected(manifests))
    ensures IndicesDistinct(manifests) && Indices(manifests) == UpTo(count)
  {
    Accepted(manifests, count, digest);
    SameDigest(AllSelected(manifests), nodeids, digest);
    EachIndexOnce(manifests, count);
  }

  lemma Accepted(manifests: seq<Manifest>, count: int, digest: string -> string)
    requires Verdict(manifests, count, digest).Ok?
    ensures |manifests| == count > 0 && Indices(manifests) == UpTo(count) && NoRepeats(AllSelected(manifests))
    ensures |AllSelected(manifests)| == manifests[0].total
    ensures digest(Join(Sort(AllSelected(manifests)))) == manifests[0].digest
  {}

  lemma SameDigest(a: seq<string>, b: seq<string>, digest: string -> string)
    requires |a| == |b| && OneLineEach(a) && OneLineEach(b)
    requires digest(Join(Sort(a))) == digest(Join(Sort(b))) && forall x, y :: digest(x) == digest(y) ==> x == y
    ensures multiset(a) == multiset(b)
  {
    SortedLines(a);
    SortedLines(b);
    JoinInjective(Sort(a), Sort(b));
  }

  lemma SortedLines(ids: seq<string>)
    requires OneLineEach(ids)
    ensures OneLineEach(Sort(ids)) && |Sort(ids)| == |ids|
  {
    SameMembers(Sort(ids), ids);
    forall i | 0 <= i < |Sort(ids)|
      ensures OneLine(Sort(ids)[i])
    {
      assert Sort(ids)[i] in Sort(ids);
    }
  }
}
