/** What the scan looks for and where, byte by byte
    (tools/windows/scan_worker_pack_payload.py). */
module ScannerRules {
  import opened PayloadScanner

  // ----- What counts as a find -----

  /** The byte of a character. */
  function Code(c: char): int { c as int }

  predicate UpperCase(b: byte) { Code('A') <= b <= Code('Z') }

  /** The same byte, or the capital of a small letter. */
  predicate SameLetter(b: byte, sought: byte) {
    if UpperCase(b) then sought == b - Code('A') + Code('a') else sought == b
  }

  /** The bytes of s from i on are the marker, whatever the case of the letters in s. */
  predicate SpellsMarker(s: seq<byte>, marker: seq<byte>, i: int) {
    && 0 <= i && i + |marker| <= |s|
    && forall k :: 0 <= k < |marker| ==> SameLetter(s[i + k], marker[k])
  }

  lemma MarkerSpelled(s: seq<byte>, marker: seq<byte>, i: int)
    ensures OccursAt(Lower(s), marker, i) <==> SpellsMarker(s, marker, i)
  {
    var lower := Lower(s);
    if SpellsMarker(s, marker, i) {
      forall k | 0 <= k < |marker|
        ensures lower[i..i + |marker|][k] == marker[k]
      {
        assert SameLetter(s[i + k], marker[k]);
      }
    }
    if OccursAt(lower, marker, i) {
      forall k | 0 <= k < |marker|
        ensures SameLetter(s[i + k], marker[k])
      {
        assert lower[i..i + |marker|][k] == lower[i + k];
      }
    }
  }

  ghost predicate SpellsSome(s: seq<byte>, markers: seq<seq<byte>>, j: int, i: int) {
    0 <= j < |markers| && SpellsMarker(s, markers[j], i)
  }

  /** A marker is found exactly where its bytes stand, letters in either case. */
  lemma MarkerExactly(s: seq<byte>, markers: seq<seq<byte>>)
    ensures HasMarker(s, markers) <==> exists j: int, i: int :: SpellsSome(s, markers, j, i)
  {
    if HasMarker(s, markers) {
      var m :| m in markers && Occurs(Lower(s), m);
      var i :| 0 <= i <= |Lower(s)| && OccursAt(Lower(s), m, i);
      var j :| 0 <= j < |markers| && markers[j] == m;
      MarkerSpelled(s, m, i);
      assert SpellsSome(s, markers, j, i);
    }
    forall j: int, i: int | SpellsSome(s, markers, j, i)
      ensures HasMarker(s, markers)
    {
      MarkerSpelled(s, markers[j], i);
      assert Occurs(Lower(s), markers[j]);
    }
  }

  predicate IsLetterOrDigit(b: byte) {
    Code('a') <= b <= Code('z') || UpperCase(b) || Code('0') <= b <= Code('9')
  }

  /** From i on: hf_, then 34 letters or digits, and neither a letter, a digit or an
      underscore in front nor a letter or digit behind. */
  predicate SpellsToken(s: seq<byte>, i: int) {
    && 0 <= i && i + 37 <= |s|
    && s[i] == Code('h') && s[i + 1] == Code('f') && s[i + 2] == Code('_')
    && (forall k :: i + 3 <= k < i + 37 ==> IsLetterOrDigit(s[k]))
    && (i > 0 ==> !IsLetterOrDigit(s[i - 1]) && s[i - 1] != Code('_'))
    && (i + 37 < |s| ==> !IsLetterOrDigit(s[i + 37]))
  }

  lemma TokenExactly(s: seq<byte>)
    ensures HasToken(s) <==> exists i: int :: SpellsToken(s, i)
  {
    forall i: int
      ensures TokenAt(s, i) <==> SpellsToken(s, i)
    {}
    if i: int :| SpellsToken(s, i) {
      assert 0 <= i < |s| && TokenAt(s, i);
    }
  }

  // ----- Where it is looked for -----

  /** As many bytes are kept as any marker or a token with its neighbour can need:
      one less than the longest marker, and never fewer than 39. */
  lemma KeptBytes(markers: seq<seq<byte>>)
    ensures Overlap(markers) >= 39 && forall m :: m in markers ==> |m| <= Overlap(markers) + 1
    ensures Overlap(markers) == 39 || exists m :: m in markers && |m| == Overlap(markers) + 1
  {
    LongestIsOne(markers);
  }

  lemma {:induction false} LongestIsOne(markers: seq<seq<byte>>)
    ensures LongestMarker(markers) == 0 || exists m :: m in markers && |m| == LongestMarker(markers)
  {
    if markers != [] {
      LongestIsOne(markers[1..]);
      assert markers[0] in markers && forall m :: m in markers[1..] ==> m in markers;
    }
  }

  /** What the k-th read is searched with: its own bytes and up to `kept` before them. */
  predicate IsSearched(file: seq<byte>, cuts: seq<nat>, k: nat, kept: nat, window: seq<byte>)
    requires k < |cuts|
  {
    var from := if k == 0 then 0 else cuts[k - 1];
    var length := if from < kept then cuts[k] else cuts[k] - from + kept;
    0 <= length <= cuts[k] <= |file| && window == file[cuts[k] - length..cuts[k]]
  }

  lemma SearchedExactly(file: seq<byte>, cuts: seq<nat>, k: nat, kept: nat)
    requires ReadsAll(file, 0, cuts) && k < |cuts|
    ensures IsSearched(file, cuts, k, kept, Window(file, 0, cuts, k, kept))
  {
    WindowAt(file, 0, cuts, k, kept);
  }

  ghost predicate Empty(window: seq<byte>, markers: seq<seq<byte>>) {
    !HasMarker(window, markers) && !HasToken(window)
  }

  lemma {:induction false} FirstFindFrom(file: seq<byte>, position: nat, cuts: seq<nat>, k: nat, markers: seq<seq<byte>>)
    requires ReadsAll(file, position, cuts) && k <= |cuts|
    requires forall j: nat :: j < k ==> Empty(Window(file, position, cuts, j, Overlap(markers)), markers)
    requires k < |cuts| ==> !Empty(Window(file, position, cuts, k, Overlap(markers)), markers)
    ensures StretchScan(file, position, cuts, markers) ==
            if k == |cuts| then Clean
            else if HasMarker(Window(file, position, cuts, k, Overlap(markers)), markers) then LocalPath
            else AccessToken
    decreases k
  {
    hide HasMarker, HasToken;
    var kept := Overlap(markers);
    if k > 0 {
      assert Empty(Window(file, position, cuts, 0, kept), markers);
      forall j: nat | j < k - 1
        ensures Empty(Window(file, cuts[0], cuts[1..], j, kept), markers)
      {
        assert Empty(Window(file, position, cuts, j + 1, kept), markers);
      }
      assert k < |cuts| ==> Window(file, cuts[0], cuts[1..], k - 1, kept) == Window(file, position, cuts, k, kept);
      FirstFindFrom(file, cuts[0], cuts[1..], k - 1, markers);
    }
  }

  /** The first window with a find decides, and in one window a marker goes before a
      token: with k the first such window, or past the last one if there is none. */
  lemma ScanExactly(file: seq<byte>, cuts: seq<nat>, markers: seq<seq<byte>>, k: nat, window: seq<byte>)
    requires ReadsAll(file, 0, cuts) && k <= |cuts|
    requires forall j: nat :: j < k ==> Empty(Window(file, 0, cuts, j, Overlap(markers)), markers)
    requires k < |cuts| ==> !Empty(window, markers) && IsSearched(file, cuts, k, Overlap(markers), window)
    ensures forall j: nat :: j < k ==>
      IsSearched(file, cuts, j, Overlap(markers), Window(file, 0, cuts, j, Overlap(markers)))
    ensures Scan(file, cuts, markers) == if k == |cuts| then Clean
                                         else if HasMarker(window, markers) then LocalPath
                                         else AccessToken
  {
    hide HasMarker, HasToken;
    forall j: nat | j < |cuts|
      ensures IsSearched(file, cuts, j, Overlap(markers), Window(file, 0, cuts, j, Overlap(markers)))
    {
      SearchedExactly(file, cuts, j, Overlap(markers));
    }
    ScanReadsStretches(file, 0, cuts, [], markers);
    FirstFindFrom(file, 0, cuts, k, markers);
  }
}
