/** Shards, manifests and their verification, place by place
    (tools/ci/pytest_shard.py and tools/ci/verify_pytest_shards.py). */
module ShardRules {
  import opened Wrappers
  import opened Checks
  import opened Sorting
  import opened Shards

  // ----- What a shard holds -----

  lemma {:induction false} StrideAt(s: seq<string>, index: nat, count: nat, r: nat, place: nat)
    requires count > 0 && place == index + r * count
    ensures r < |Stride(s, index, count)| <==> place < |s|
    ensures place < |s| ==> Stride(s, index, count)[r] == s[place]
    decreases r
  {
    if r > 0 {
      assert place == (index + count) + (r - 1) * count;
      if index < |s| {
        StrideAt(s, index + count, count, r - 1, place);
      } else {
        assert place >= index;
      }
    }
  }

  /** Runner `index` gets every count-th id of the sorted collection, from place `index`
      on. */
  lemma ShardAt(nodeids: seq<string>, index: nat, count: nat, r: nat, place: nat, sorted: seq<string>)
    requires count > 0 && NoRepeats(nodeids) && place == index + r * count
    requires multiset(sorted) == multiset(nodeids) && Ascending(sorted)
    ensures r < |Shard(nodeids, index, count)| <==> place < |nodeids|
    ensures place < |nodeids| ==> |sorted| == |nodeids| && Shard(nodeids, index, count)[r] == sorted[place]
  {
    SortKeepsIds(nodeids);
    SameMembers(sorted, nodeids);
    SameMembers(sorted, Sort(nodeids));
    AscendingUnique(Sort(nodeids), sorted);
    StrideAt(sorted, index, count, r, place);
  }

  /** Partitioning is refused for less than one and more than sixteen runners, then for an
      id that comes twice; otherwise there is one shard for each runner. */
  lemma PartitionExactly(nodeids: seq<string>, count: int)
    ensures var r, twice := PartitionNodeids(nodeids, count), exists i, j :: 0 <= i < j < |nodeids| && nodeids[i] == nodeids[j];
      if count < 1 || count > 16 then r == Err(BadCount)
      else if twice then r == Err(DuplicateIds)
      else r.Ok? && |r.value| == count && forall k :: 0 <= k < count ==> r.value[k] == Shard(nodeids, k, count)
  {}

  /** The text that is digested: one id a line, no line end behind the last one. */
  lemma {:induction false} JoinReads(ids: seq<string>, last: string)
    ensures Join([]) == "" && Join(ids + [last]) == (if ids == [] then last else Join(ids) + "\n" + last)
  {
    if |ids| > 1 {
      JoinReads(ids[1..], last);
      assert (ids + [last])[1..] == ids[1..] + [last];
    } else if |ids| == 1 {
      assert (ids + [last])[1..] == [last];
    }
  }

  // ----- The verification -----

  predicate SameRun(m: Manifest, first: Manifest, count: int) {
    m.count == count && m.total == first.total && m.digest == first.digest && m.selected != []
  }

  predicate SomeIndex(manifests: seq<Manifest>, k: int) { exists i :: 0 <= i < |manifests| && manifests[i].index == k }

  /** The conditions of the verification in their order, with what is raised. */
  ghost function ChecksOf(manifests: seq<Manifest>, count: int, digest: string -> string): seq<Check<Error>> {
    var selected := AllSelected(manifests);
    var none := manifests == [];
    [Check(!none && |manifests| == count, MissingManifests),
     Check((forall i :: 0 <= i < |manifests| ==> 0 <= manifests[i].index < count)
           && forall k :: 0 <= k < count ==> SomeIndex(manifests, k), BadIndices),
     Check(none || forall i :: 0 <= i < |manifests| ==> SameRun(manifests[i], manifests[0], count), CollectionsDisagree),
     Check(forall i, j :: 0 <= i < j < |selected| ==> selected[i] != selected[j], Error.Overlap),
     Check(none || (|selected| == manifests[0].total && digest(Join(Sort(selected))) == manifests[0].digest), Incomplete)]
  }

  lemma IndicesExactly(manifests: seq<Manifest>, count: int)
    ensures Indices(manifests) == UpTo(count) <==>
            (forall i :: 0 <= i < |manifests| ==> 0 <= manifests[i].index < count)
            && forall k :: 0 <= k < count ==> SomeIndex(manifests, k)
  {
    var indices := Indices(manifests);
    assert forall i :: 0 <= i < |manifests| ==> manifests[i] in manifests && manifests[i].index in indices;
    forall k
      ensures k in indices <==> SomeIndex(manifests, k)
    {}
  }

  lemma VerdictByChecks(manifests: seq<Manifest>, count: int, digest: string -> string)
    ensures var c := ChecksOf(manifests, count, digest);
      && |c| == 5
      && Verdict(manifests, count, digest) ==
         if !c[0].holds then Err(MissingManifests)
         else if !c[1].holds then Err(BadIndices)
         else if !c[2].holds then Err(CollectionsDisagree)
         else if !c[3].holds then Err(Error.Overlap)
         else if !c[4].holds then Err(Incomplete)
         else Ok(|AllSelected(manifests)|)
  {
    hide AllSelected, Sort, Join, Indices, UpTo;
    IndicesExactly(manifests, count);
    if manifests != [] {
      assert AllAgree(manifests, manifests[0], count) <==>
        forall i :: 0 <= i < |manifests| ==> SameRun(manifests[i], manifests[0], count) by {
        assert forall i :: 0 <= i < |manifests| ==>
          (Agrees(manifests[i], manifests[0], count) <==> SameRun(manifests[i], manifests[0], count));
      }
    }
  }

  /** The verification accepts, and counts the selected tests, if and only if all
      conditions hold ... */
  lemma VerdictExactly(manifests: seq<Manifest>, count: int, digest: string -> string)
    ensures Verdict(manifests, count, digest).Ok? <==> AllHold(ChecksOf(manifests, count, digest))
    ensures Verdict(manifests, count, digest).Ok? ==> Verdict(manifests, count, digest).value == |AllSelected(manifests)|
  {
    hide Verdict, ChecksOf;
    VerdictByChecks(manifests, count, digest);
  }

  /** ... and otherwise raises what the first one says that fails. */
  lemma FirstFailingRaises(manifests: seq<Manifest>, count: int, digest: string -> string, k: int)
    requires FirstFailing(ChecksOf(manifests, count, digest), k)
    ensures Verdict(manifests, count, digest) == Err(ChecksOf(manifests, count, digest)[k].refusal)
  {
    hide Verdict;
    VerdictByChecks(manifests, count, digest);
  }

  // ----- From the runners to the verdict -----

  /** What runner k writes. */
  ghost predicate Writes(nodeids: seq<string>, count: nat, digest: string -> string, k: int, m: Manifest)
    requires count > 0
  {
    && 0 <= k && m.index == k && m.count == count && m.total == |nodeids|
    && m.digest == digest(Join(Sort(nodeids))) && m.selected == Shard(nodeids, k, count)
  }

  /** If every runner writes its manifest, in whatever order the files are read, the
      verification accepts and counts the whole collection. */
  lemma RunnersAreAccepted(nodeids: seq<string>, count: nat, digest: string -> string, manifests: seq<Manifest>, runner: seq<nat>)
    requires 1 <= count <= |nodeids| && NoRepeats(nodeids) && |manifests| == |runner| == count
    requires forall i :: 0 <= i < count ==> runner[i] < count && Writes(nodeids, count, digest, runner[i], manifests[i])
    requires forall k :: 0 <= k < count ==> k in runner
    ensures Verdict(manifests, count, digest) == Ok(|nodeids|)
  {
    hide Verdict, Sort, Join, Shard;
    forall k | 0 <= k < count
      ensures SomeIndex(manifests, k)
    {
      assert k in runner;
      var i :| 0 <= i < |runner| && runner[i] == k;
      assert Writes(nodeids, count, digest, runner[i], manifests[i]);
    }
    forall i | 0 <= i < |manifests|
      ensures 0 <= manifests[i].index < count && manifests[i] == HonestManifest(nodeids, manifests[i].index, count, digest)
    {
      assert Writes(nodeids, count, digest, runner[i], manifests[i]);
    }
    IndicesExactly(manifests, count);
    HonestAccepted(manifests, nodeids, count, digest);
  }
}
