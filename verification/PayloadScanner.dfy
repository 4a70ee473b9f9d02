/** The scanner that looks for local build paths and access tokens in a payload
    file, one chunk at a time with an overlapping window
    (tools/windows/scan_worker_pack_payload.py). */
module PayloadScanner {

  type byte = b: int | 0 <= b < 256

  // ----- Bytes -----

  /** bytes.lower(): only ASCII upper-case letters change. */
  function LowerByte(b: byte): byte { if 65 <= b <= 90 then b + 32 else b }

  function Lower(s: seq<byte>): (r: seq<byte>)
    ensures |r| == |s|
    ensures forall i :: 0 <= i < |s| ==> r[i] == LowerByte(s[i])
  {
    seq(|s|, i requires 0 <= i < |s| => LowerByte(s[i]))
  }

  predicate Alphanumeric(b: byte) { 48 <= b <= 57 || 65 <= b <= 90 || 97 <= b <= 122 }

  predicate WordByte(b: byte) { Alphanumeric(b) || b == 95 }

  function Suffix(s: seq<byte>, n: nat): seq<byte> {
    if |s| <= n then s else s[|s| - n..]
  }

  /** Successive reads end at these positions: each returns some bytes, and the
      last one reaches the end of the file. */
  predicate ReadsAll(file: seq<byte>, position: nat, cuts: seq<nat>)
    decreases |cuts|
  {
    if cuts == [] then position == |file|
    else position < cuts[0] <= |file| && ReadsAll(file, cuts[0], cuts[1..])
  }

  // ----- What is looked for -----

  predicate OccursAt(s: seq<byte>, part: seq<byte>, i: int) {
    0 <= i && i + |part| <= |s| && s[i..i + |part|] == part
  }

  predicate Occurs(s: seq<byte>, part: seq<byte>) {
    exists i :: 0 <= i <= |s| && OccursAt(s, part, i)
  }

  predicate HasMarker(s: seq<byte>, markers: seq<seq<byte>>) {
    exists m :: m in markers && Occurs(Lower(s), m)
  }

  const TOKEN_LENGTH: nat := 37

  /** `hf_` followed by 34 letters or digits. */
  predicate CoreAt(s: seq<byte>, i: int) {
    && 0 <= i && i + TOKEN_LENGTH <= |s|
    && s[i] == 104 && s[i + 1] == 102 && s[i + 2] == 95
    && forall k :: i + 3 <= k < i + TOKEN_LENGTH ==> Alphanumeric(s[k])
  }

  /** The core with no word byte before it and no letter or digit after it. */
  predicate TokenAt(s: seq<byte>, i: int) {
    && CoreAt(s, i)
    && (i == 0 || !WordByte(s[i - 1]))
    && (i + TOKEN_LENGTH == |s| || !Alphanumeric(s[i + TOKEN_LENGTH]))
  }

  predicate HasCore(s: seq<byte>) { exists i :: 0 <= i < |s| && CoreAt(s, i) }

  predicate HasToken(s: seq<byte>) { exists i :: 0 <= i < |s| && TokenAt(s, i) }

  // ----- The scan -----

  datatype Verdict = Clean | LocalPath | AccessToken

  function LongestMarker(markers: seq<seq<byte>>): (n: nat)
    ensures forall m :: m in markers ==> |m| <= n
  {
    if markers == [] then 0
    else
      var rest := LongestMarker(markers[1..]);
      if |markers[0]| > rest then |markers[0]| else rest
  }

  function Overlap(markers: seq<seq<byte>>): (n: nat)
    ensures n >= 39 && forall m :: m in markers ==> |m| <= n + 1
  {
    var longest := LongestMarker(markers);
    (if longest > 40 then longest else 40) - 1
  }

  function WindowVerdict(window: seq<byte>, markers: seq<seq<byte>>): Verdict {
    if HasMarker(window, markers) then LocalPath
    else if HasToken(window) then AccessToken
    else Clean
  }

  /** The rest of the scan, from `position` and with the bytes carried over. */
  function ScanFrom(file: seq<byte>, position: nat, cuts: seq<nat>, carry: seq<byte>, markers: seq<seq<byte>>): Verdict
    requires ReadsAll(file, position, cuts)
    decreases |cuts|
  {
    if cuts == [] then Clean
    else
      var window := carry + file[position..cuts[0]];
      var verdict := WindowVerdict(window, markers);
      if verdict != Clean then verdict
      else ScanFrom(file, cuts[0], cuts[1..], Suffix(window, Overlap(markers)), markers)
  }

  function Scan(file: seq<byte>, cuts: seq<nat>, markers: seq<seq<byte>>): Verdict
    requires ReadsAll(file, 0, cuts)
  {
    ScanFrom(file, 0, cuts, [], markers)
  }

  /** _file_violation, for reads that end at `cuts`. */
  method FileViolation(file: seq<byte>, cuts: seq<nat>, markers: seq<seq<byte>>) returns (verdict: Verdict)
    requires markers != [] && ReadsAll(file, 0, cuts)
    ensures verdict == Scan(file, cuts, markers)
  {
    var overlap := Overlap(markers);
    var carry: seq<byte> := [];
    var position: nat := 0;
    var i := 0;
    while i < |cuts|
      invariant 0 <= i <= |cuts| && ReadsAll(file, position, cuts[i..])
      invariant ScanFrom(file, position, cuts[i..], carry, markers) == Scan(file, cuts, markers)
    {
      var chunk := file[position..cuts[i]];
      position := cuts[i];
      i := i + 1;
      var window := carry + chunk;
      if HasMarker(window, markers) {
        return LocalPath;
      }
      if HasToken(window) {
        return AccessToken;
      }
      carry := Suffix(window, overlap);
    }
    return Clean;
  }

  // ----- The window is a stretch of the file -----

  function WindowStart(position: nat, overlap: nat): nat {
    if position <= overlap then 0 else position - overlap
  }

  /** The scan without a carried buffer: each window is read off the file. */
  function StretchScan(file: seq<byte>, position: nat, cuts: seq<nat>, markers: seq<seq<byte>>): Verdict
    requires ReadsAll(file, position, cuts)
    decreases |cuts|
  {
    if cuts == [] then Clean
    else
      var verdict := WindowVerdict(file[WindowStart(position, Overlap(markers))..cuts[0]], markers);
      if verdict != Clean then verdict else StretchScan(file, cuts[0], cuts[1..], markers)
  }

  lemma SliceJoin(s: seq<byte>, a: nat, b: nat, c: nat)
    requires a <= b <= c <= |s|
    ensures s[a..b] + s[b..c] == s[a..c]
  {}

  lemma SuffixOfSlice(s: seq<byte>, a: nat, b: nat, n: nat)
    requires a <= b <= |s| && a <= WindowStart(b, n)
    ensures Suffix(s[a..b], n) == s[WindowStart(b, n)..b]
  {}

  /** Carrying the last bytes over makes every window the stretch of the file
      that begins `overlap` bytes before the chunk. */
  lemma {:induction false} ScanReadsStretches(file: seq<byte>, position: nat, cuts: seq<nat>, carry: seq<byte>,
                                              markers: seq<seq<byte>>)
    requires ReadsAll(file, position, cuts) && position <= |file|
    requires carry == file[WindowStart(position, Overlap(markers))..position]
    ensures ScanFrom(file, position, cuts, carry, markers) == StretchScan(file, position, cuts, markers)
    decreases |cuts|
  {
    if cuts != [] {
      var overlap, end := Overlap(markers), cuts[0];
      SliceJoin(file, WindowStart(position, overlap), position, end);
      SuffixOfSlice(file, WindowStart(position, overlap), end, overlap);
      ScanReadsStretches(file, end, cuts[1..], Suffix(carry + file[position..end], overlap), markers);
    }
  }

  lemma OccurrenceInWindow(file: seq<byte>, part: seq<byte>, i: nat, start: nat, end: nat)
    requires start <= i && i + |part| <= end <= |file| && OccursAt(Lower(file), part, i)
    ensures OccursAt(Lower(file[start..end]), part, i - start)
  {
    assert Lower(file[start..end]) == Lower(file)[start..end];
  }

  lemma OccurrenceInFile(file: seq<byte>, part: seq<byte>, start: nat, end: nat)
    requires start <= end <= |file| && Occurs(Lower(file[start..end]), part)
    ensures Occurs(Lower(file), part)
  {
    var i :| 0 <= i <= |Lower(file[start..end])| && OccursAt(Lower(file[start..end]), part, i);
    assert Lower(file[start..end]) == Lower(file)[start..end];
    assert Lower(file)[start + i..start + i + |part|] == part;
    assert OccursAt(Lower(file), part, start + i);
  }

  /** A window sees a token exactly where the file has the core, except that the
      window's own edges count as the ends of the file. */
  lemma TokenInWindow(file: seq<byte>, start: nat, end: nat, i: nat)
    requires start <= i && i + TOKEN_LENGTH <= end <= |file|
    ensures TokenAt(file[start..end], i - start) <==>
            (&& CoreAt(file, i)
             && (i == start || !WordByte(file[i - 1]))
             && (i + TOKEN_LENGTH == end || !Alphanumeric(file[i + TOKEN_LENGTH])))
  {
    var window := file[start..end];
    assert forall k :: i <= k < i + TOKEN_LENGTH ==> file[k] == window[k - start];
    assert forall k :: i - start <= k < i - start + TOKEN_LENGTH ==> window[k] == file[k + start];
  }

  // ----- What a verdict means -----

  /** One past the last byte that decides whether a token starts at `i`. */
  function TokenContextEnd(file: seq<byte>, i: nat): nat {
    if i + TOKEN_LENGTH < |file| then i + TOKEN_LENGTH + 1 else |file|
  }

  ghost predicate NoMarkerEndsAfter(file: seq<byte>, markers: seq<seq<byte>>, position: nat) {
    forall m: seq<byte>, i: nat :: m in markers && OccursAt(Lower(file), m, i) ==> i + |m| <= position
  }

  ghost predicate NoTokenDecidedAfter(file: seq<byte>, position: nat) {
    forall i: nat :: TokenAt(file, i) ==> TokenContextEnd(file, i) <= position
  }

  lemma MarkerSeen(file: seq<byte>, markers: seq<seq<byte>>, m: seq<byte>, i: nat, start: nat, end: nat)
    requires m in markers && OccursAt(Lower(file), m, i) && start <= i && i + |m| <= end <= |file|
    ensures HasMarker(file[start..end], markers)
  {
    OccurrenceInWindow(file, m, i, start, end);
    assert Occurs(Lower(file[start..end]), m);
  }

  lemma TokenSeen(file: seq<byte>, i: nat, start: nat, end: nat)
    requires TokenAt(file, i) && start <= end <= |file| && TokenContextEnd(file, i) <= end
    requires start == 0 || start < i
    ensures HasToken(file[start..end])
  {
    TokenInWindow(file, start, end, i);
    assert TokenAt(file[start..end], i - start);
  }

  lemma MarkersSettle(file: seq<byte>, markers: seq<seq<byte>>, start: nat, position: nat, end: nat)
    requires start == WindowStart(position, Overlap(markers)) && position <= end <= |file|
    requires NoMarkerEndsAfter(file, markers, end) && !HasMarker(file[start..end], markers)
    ensures NoMarkerEndsAfter(file, markers, position)
  {
    forall m: seq<byte>, i: nat | m in markers && OccursAt(Lower(file), m, i)
      ensures i + |m| <= position
    {
      if position < i + |m| {
        MarkerSeen(file, markers, m, i, start, end);
      }
    }
  }

  lemma TokensSettle(file: seq<byte>, start: nat, position: nat, end: nat)
    requires start == 0 || start + 39 <= position
    requires position <= end <= |file| && NoTokenDecidedAfter(file, end) && !HasToken(file[start..end])
    ensures NoTokenDecidedAfter(file, position)
  {
    forall i: nat | TokenAt(file, i)
      ensures TokenContextEnd(file, i) <= position
    {
      if position < TokenContextEnd(file, i) {
        TokenSeen(file, i, start, end);
      }
    }
  }

  /** No marker and no token is decided by a byte at `position` or later. */
  ghost predicate Settled(file: seq<byte>, markers: seq<seq<byte>>, position: nat) {
    NoMarkerEndsAfter(file, markers, position) && NoTokenDecidedAfter(file, position)
  }

  lemma WindowSettles(file: seq<byte>, markers: seq<seq<byte>>, position: nat, end: nat)
    requires position <= end <= |file| && Settled(file, markers, end)
    requires WindowVerdict(file[WindowStart(position, Overlap(markers))..end], markers) == Clean
    ensures Settled(file, markers, position)
  {
    var start := WindowStart(position, Overlap(markers));
    MarkersSettle(file, markers, start, position, end);
    TokensSettle(file, start, position, end);
  }

  lemma {:induction false} CleanFrom(file: seq<byte>, position: nat, cuts: seq<nat>, markers: seq<seq<byte>>)
    requires ReadsAll(file, position, cuts) && StretchScan(file, position, cuts, markers) == Clean
    ensures Settled(file, markers, position)
    decreases |cuts|
  {
    if cuts != [] {
      CleanFrom(file, cuts[0], cuts[1..], markers);
      WindowSettles(file, markers, position, cuts[0]);
    }
  }

  lemma WindowViolation(file: seq<byte>, markers: seq<seq<byte>>, start: nat, end: nat, verdict: Verdict)
    requires start <= end <= |file| && verdict == WindowVerdict(file[start..end], markers)
    ensures verdict == LocalPath ==> HasMarker(file, markers)
    ensures verdict == AccessToken ==> HasCore(file)
  {
    if HasMarker(file[start..end], markers) {
      var m :| m in markers && Occurs(Lower(file[start..end]), m);
      OccurrenceInFile(file, m, start, end);
    }
    if HasToken(file[start..end]) {
      var i :| 0 <= i < |file[start..end]| && TokenAt(file[start..end], i);
      TokenInWindow(file, start, end, start + i);
    }
  }

  lemma {:induction false} ViolationFrom(file: seq<byte>, position: nat, cuts: seq<nat>, markers: seq<seq<byte>>)
    requires ReadsAll(file, position, cuts)
    ensures StretchScan(file, position, cuts, markers) == LocalPath ==> HasMarker(file, markers)
    ensures StretchScan(file, position, cuts, markers) == AccessToken ==> HasCore(file)
    decreases |cuts|
  {
    if cuts != [] {
      var start := WindowStart(position, Overlap(markers));
      ViolationFrom(file, cuts[0], cuts[1..], markers);
      WindowViolation(file, markers, start, cuts[0], WindowVerdict(file[start..cuts[0]], markers));
    }
  }

  lemma NothingFromStart(file: seq<byte>, markers: seq<seq<byte>>)
    requires forall m :: m in markers ==> m != []
    requires Settled(file, markers, 0)
    ensures !HasMarker(file, markers) && !HasToken(file)
  {
    forall m, i: nat | m in markers
      ensures !OccursAt(Lower(file), m, i)
    {}
    forall i: nat
      ensures !TokenAt(file, i)
    {}
  }

  /** However the file is cut into reads, a clean verdict means that the whole
      file holds no marker, in any letter case, and no access token. */
  lemma CleanMeansClean(file: seq<byte>, cuts: seq<nat>, markers: seq<seq<byte>>)
    requires ReadsAll(file, 0, cuts) && forall m :: m in markers ==> m != []
    requires Scan(file, cuts, markers) == Clean
    ensures !HasMarker(file, markers) && !HasToken(file)
  {
    ScanReadsStretches(file, 0, cuts, [], markers);
    CleanFrom(file, 0, cuts, markers);
    NothingFromStart(file, markers);
  }

  /** A local-path verdict is always right; an access-token verdict always has
      `hf_` and 34 letters or digits behind it. */
  lemma ViolationMeansPresent(file: seq<byte>, cuts: seq<nat>, markers: seq<seq<byte>>)
    requires ReadsAll(file, 0, cuts)
    ensures Scan(file, cuts, markers) == LocalPath ==> HasMarker(file, markers)
    ensures Scan(file, cuts, markers) == AccessToken ==> HasCore(file)
  {
    ScanReadsStretches(file, 0, cuts, [], markers);
    ViolationFrom(file, 0, cuts, markers);
  }

  /** In a file without token-like bytes the scan finds a marker exactly when the
      whole lower-cased file contains one. */
  lemma MarkerFoundExactly(file: seq<byte>, cuts: seq<nat>, markers: seq<seq<byte>>)
    requires ReadsAll(file, 0, cuts) && forall m :: m in markers ==> m != []
    requires !HasCore(file)
    ensures Scan(file, cuts, markers) == LocalPath <==> HasMarker(file, markers)
    ensures Scan(file, cuts, markers) == Clean <==> !HasMarker(file, markers)
  {
    ViolationMeansPresent(file, cuts, markers);
    if Scan(file, cuts, markers) == Clean {
      CleanMeansClean(file, cuts, markers);
    }
  }

  /** The window of the k-th read. */
  function Window(file: seq<byte>, position: nat, cuts: seq<nat>, k: nat, overlap: nat): seq<byte>
    requires ReadsAll(file, position, cuts) && k < |cuts|
    decreases |cuts|
  {
    if k == 0 then file[WindowStart(position, overlap)..cuts[0]]
    else Window(file, cuts[0], cuts[1..], k - 1, overlap)
  }

  /** Window k holds a marker, and no earlier window holds a token. */
  ghost predicate MarkerBeforeToken(file: seq<byte>, position: nat, cuts: seq<nat>, k: nat, markers: seq<seq<byte>>)
    requires ReadsAll(file, position, cuts) && k < |cuts|
  {
    && HasMarker(Window(file, position, cuts, k, Overlap(markers)), markers)
    && forall j: nat :: j < k ==> !HasToken(Window(file, position, cuts, j, Overlap(markers)))
  }

  lemma MarkerFirstNow(file: seq<byte>, position: nat, cuts: seq<nat>, k: nat, markers: seq<seq<byte>>)
    requires ReadsAll(file, position, cuts) && k < |cuts| && MarkerBeforeToken(file, position, cuts, k, markers)
    ensures StretchScan(file, position, cuts, markers) == LocalPath
    decreases k
  {
    assert Window(file, position, cuts, 0, Overlap(markers)) == file[WindowStart(position, Overlap(markers))..cuts[0]];
    if k > 0 {
      var overlap := Overlap(markers);
      assert forall j: nat :: j < k - 1 ==>
        Window(file, cuts[0], cuts[1..], j, overlap) == Window(file, position, cuts, j + 1, overlap);
      MarkerFirstNow(file, cuts[0], cuts[1..], k - 1, markers);
    }
  }

  lemma {:induction false} FirstMarkerWindow(file: seq<byte>, position: nat, cuts: seq<nat>, markers: seq<seq<byte>>)
    returns (k: nat)
    requires ReadsAll(file, position, cuts) && StretchScan(file, position, cuts, markers) == LocalPath
    ensures k < |cuts| && MarkerBeforeToken(file, position, cuts, k, markers)
    decreases |cuts|
  {
    var window := file[WindowStart(position, Overlap(markers))..cuts[0]];
    if HasMarker(window, markers) {
      k := 0;
    } else {
      var rest := FirstMarkerWindow(file, cuts[0], cuts[1..], markers);
      k := rest + 1;
      forall j: nat | j < k
        ensures !HasToken(Window(file, position, cuts, j, Overlap(markers)))
      {
        if j > 0 {
          assert Window(file, position, cuts, j, Overlap(markers))
              == Window(file, cuts[0], cuts[1..], j - 1, Overlap(markers));
        }
      }
    }
  }

  /** The scan names a local path if and only if some window holds a marker and
      no window before it holds a token. */
  lemma LocalPathExactly(file: seq<byte>, cuts: seq<nat>, markers: seq<seq<byte>>)
    requires ReadsAll(file, 0, cuts)
    ensures Scan(file, cuts, markers) == LocalPath <==>
            exists k: nat :: k < |cuts| && MarkerBeforeToken(file, 0, cuts, k, markers)
  {
    ScanReadsStretches(file, 0, cuts, [], markers);
    if Scan(file, cuts, markers) == LocalPath {
      var k := FirstMarkerWindow(file, 0, cuts, markers);
    }
    forall k: nat | k < |cuts| && MarkerBeforeToken(file, 0, cuts, k, markers)
      ensures Scan(file, cuts, markers) == LocalPath
    {
      MarkerFirstNow(file, 0, cuts, k, markers);
    }
  }

  // ----- Exactly when a token is reported -----

  /** Window k holds a token, and neither it nor an earlier window a marker. */
  ghost predicate TokenBeforeMarker(file: seq<byte>, position: nat, cuts: seq<nat>, k: nat, markers: seq<seq<byte>>)
    requires ReadsAll(file, position, cuts) && k < |cuts|
  {
    && HasToken(Window(file, position, cuts, k, Overlap(markers)))
    && forall j: nat :: j <= k ==> !HasMarker(Window(file, position, cuts, j, Overlap(markers)), markers)
  }

  lemma TokenFirstNow(file: seq<byte>, position: nat, cuts: seq<nat>, k: nat, markers: seq<seq<byte>>)
    requires ReadsAll(file, position, cuts) && k < |cuts| && TokenBeforeMarker(file, position, cuts, k, markers)
    ensures StretchScan(file, position, cuts, markers) == AccessToken
    decreases k
  {
    assert Window(file, position, cuts, 0, Overlap(markers)) == file[WindowStart(position, Overlap(markers))..cuts[0]];
    if k > 0 {
      var overlap := Overlap(markers);
      assert forall j: nat :: j <= k - 1 ==>
        Window(file, cuts[0], cuts[1..], j, overlap) == Window(file, position, cuts, j + 1, overlap);
      TokenFirstNow(file, cuts[0], cuts[1..], k - 1, markers);
    }
  }

  lemma {:induction false} FirstTokenWindow(file: seq<byte>, position: nat, cuts: seq<nat>, markers: seq<seq<byte>>)
    returns (k: nat)
    requires ReadsAll(file, position, cuts) && StretchScan(file, position, cuts, markers) == AccessToken
    ensures k < |cuts| && TokenBeforeMarker(file, position, cuts, k, markers)
    decreases |cuts|
  {
    if WindowVerdict(file[WindowStart(position, Overlap(markers))..cuts[0]], markers) == AccessToken {
      k := 0;
    } else {
      var rest := FirstTokenWindow(file, cuts[0], cuts[1..], markers);
      k := rest + 1;
      forall j: nat | j <= k
        ensures !HasMarker(Window(file, position, cuts, j, Overlap(markers)), markers)
      {
        if j > 0 {
          assert Window(file, position, cuts, j, Overlap(markers))
              == Window(file, cuts[0], cuts[1..], j - 1, Overlap(markers));
        }
      }
    }
  }

  /** Where the window of the k-th read begins and ends in the file. */
  function WindowFrom(position: nat, cuts: seq<nat>, k: nat, overlap: nat): nat
    requires k < |cuts|
  {
    WindowStart(if k == 0 then position else cuts[k - 1], overlap)
  }

  lemma {:induction false} WindowAt(file: seq<byte>, position: nat, cuts: seq<nat>, k: nat, overlap: nat)
    requires ReadsAll(file, position, cuts) && k < |cuts|
    ensures WindowFrom(position, cuts, k, overlap) <= cuts[k] <= |file|
    ensures Window(file, position, cuts, k, overlap) == file[WindowFrom(position, cuts, k, overlap)..cuts[k]]
    decreases |cuts|
  {
    if k > 0 {
      WindowAt(file, cuts[0], cuts[1..], k - 1, overlap);
    }
  }

  /** The core of a token inside a stretch of the file, with nothing in the stretch
      that speaks against a token; bytes outside it are not seen. */
  predicate LooksLikeToken(file: seq<byte>, start: nat, end: nat, i: nat)
    requires start <= end <= |file|
  {
    && start <= i && i + TOKEN_LENGTH <= end && CoreAt(file, i)
    && (i == start || !WordByte(file[i - 1]))
    && (i + TOKEN_LENGTH == end || !Alphanumeric(file[i + TOKEN_LENGTH]))
  }

  lemma StretchHasToken(file: seq<byte>, start: nat, end: nat)
    requires start <= end <= |file|
    ensures HasToken(file[start..end]) <==> exists i: nat :: LooksLikeToken(file, start, end, i)
  {
    if HasToken(file[start..end]) {
      var i :| 0 <= i < |file[start..end]| && TokenAt(file[start..end], i);
      TokenInWindow(file, start, end, start + i);
      assert LooksLikeToken(file, start, end, start + i);
    }
    if i: nat :| LooksLikeToken(file, start, end, i) {
      TokenInWindow(file, start, end, i);
      assert TokenAt(file[start..end], i - start);
    }
  }

  /** The k-th window shows a token at i, and no window up to it shows a marker. */
  ghost predicate ReportsToken(file: seq<byte>, cuts: seq<nat>, markers: seq<seq<byte>>, k: nat, i: nat)
    requires ReadsAll(file, 0, cuts)
  {
    && k < |cuts| && WindowFrom(0, cuts, k, Overlap(markers)) <= cuts[k] <= |file|
    && LooksLikeToken(file, WindowFrom(0, cuts, k, Overlap(markers)), cuts[k], i)
    && forall j: nat :: j <= k ==> !HasMarker(Window(file, 0, cuts, j, Overlap(markers)), markers)
  }

  /** The scan reports a token if and only if some window shows one, with the edges
      of the window taken for the ends of the file, and no window up to it shows a
      marker. */
  lemma AccessTokenExactly(file: seq<byte>, cuts: seq<nat>, markers: seq<seq<byte>>)
    requires ReadsAll(file, 0, cuts)
    ensures Scan(file, cuts, markers) == AccessToken <==> exists k: nat, i: nat :: ReportsToken(file, cuts, markers, k, i)
  {
    var overlap := Overlap(markers);
    ScanReadsStretches(file, 0, cuts, [], markers);
    if Scan(file, cuts, markers) == AccessToken {
      var k := FirstTokenWindow(file, 0, cuts, markers);
      WindowAt(file, 0, cuts, k, overlap);
      StretchHasToken(file, WindowFrom(0, cuts, k, overlap), cuts[k]);
      var i: nat :| LooksLikeToken(file, WindowFrom(0, cuts, k, overlap), cuts[k], i);
      assert ReportsToken(file, cuts, markers, k, i);
    }
    forall k: nat, i: nat | ReportsToken(file, cuts, markers, k, i)
      ensures Scan(file, cuts, markers) == AccessToken
    {
      WindowAt(file, 0, cuts, k, overlap);
      StretchHasToken(file, WindowFrom(0, cuts, k, overlap), cuts[k]);
      TokenFirstNow(file, 0, cuts, k, markers);
    }
  }

  /** The core at i is cut off by this stretch from the byte that speaks against it. */
  predicate CutOff(file: seq<byte>, start: nat, end: nat, i: nat)
    requires start <= end <= |file| && start <= i && i + TOKEN_LENGTH <= end
  {
    || (i == start && i > 0 && WordByte(file[i - 1]))
    || (i + TOKEN_LENGTH == end && end < |file| && Alphanumeric(file[end]))
  }

  ghost predicate ReportsCutToken(file: seq<byte>, cuts: seq<nat>, markers: seq<seq<byte>>, k: nat, i: nat)
    requires ReadsAll(file, 0, cuts)
  {
    ReportsToken(file, cuts, markers, k, i) && CutOff(file, WindowFrom(0, cuts, k, Overlap(markers)), cuts[k], i)
  }

  /** In a file without markers and without a whole token the scan is wrong, and
      reports a token, if and only if the edge of some window cuts a core off from
      the byte next to it that makes it no token. */
  lemma FalseTokenExactly(file: seq<byte>, cuts: seq<nat>, markers: seq<seq<byte>>)
    requires ReadsAll(file, 0, cuts) && !HasMarker(file, markers) && !HasToken(file)
    ensures Scan(file, cuts, markers) != Clean <==> exists k: nat, i: nat :: ReportsCutToken(file, cuts, markers, k, i)
  {
    AccessTokenExactly(file, cuts, markers);
    ViolationMeansPresent(file, cuts, markers);
    forall k: nat, i: nat | ReportsToken(file, cuts, markers, k, i)
      ensures ReportsCutToken(file, cuts, markers, k, i)
    {
      assert !TokenAt(file, i);
    }
  }

  /** A file read at once gets the whole-file verdict. */
  lemma OneReadIsExact(file: seq<byte>, markers: seq<seq<byte>>)
    requires file != []
    ensures Scan(file, [|file|], markers) == WindowVerdict(file, markers)
  {
    assert [|file|][1..] == [];
    assert [] + file[0..|file|] == file;
    assert ScanFrom(file, |file|, [|file|][1..], Suffix(file, Overlap(markers)), markers) == Clean;
  }

  /** A first read that ends inside a longer run of letters and digits, right behind
      a core, makes the scan report a token there that is none. */
  lemma CutMakesToken(file: seq<byte>, cuts: seq<nat>, markers: seq<seq<byte>>)
    requires ReadsAll(file, 0, cuts) && cuts != [] && TOKEN_LENGTH <= cuts[0] < |file| && !HasMarker(file[..cuts[0]], markers)
    requires CoreAt(file, cuts[0] - TOKEN_LENGTH) && Alphanumeric(file[cuts[0]])
    requires cuts[0] == TOKEN_LENGTH || !WordByte(file[cuts[0] - TOKEN_LENGTH - 1])
    ensures Scan(file, cuts, markers) == AccessToken && !TokenAt(file, cuts[0] - TOKEN_LENGTH)
  {
    var c := cuts[0];
    WindowAt(file, 0, cuts, 0, Overlap(markers));
    assert file[0..c] == file[..c];
    assert ReportsToken(file, cuts, markers, 0, c - TOKEN_LENGTH);
    AccessTokenExactly(file, cuts, markers);
  }

  function Letters(n: nat): (letters: seq<byte>)
    ensures |letters| == n && forall i :: 0 <= i < n ==> letters[i] == 97
  {
    if n == 0 then [] else Letters(n - 1) + [97]
  }

  /** Zero bytes up to a core that ends at c, and one more letter. */
  function CutFile(c: nat): (file: seq<byte>)
    requires c >= TOKEN_LENGTH
    ensures |file| == c + 1 && forall i :: 0 <= i < c - TOKEN_LENGTH ==> file[i] == 0
    ensures file[c - TOKEN_LENGTH..] == [104, 102, 95] + Letters(35)
  {
    seq(c - TOKEN_LENGTH, i => 0) + ([104, 102, 95] + Letters(35))
  }

  lemma CutFileHasNoToken(c: nat, file: seq<byte>)
    requires c >= TOKEN_LENGTH && file == CutFile(c)
    ensures !HasToken(file) && CoreAt(file, c - TOKEN_LENGTH) && Alphanumeric(file[c])
  {
    var n := c - TOKEN_LENGTH;
    var tail := [104, 102, 95] + Letters(35);
    assert forall i :: n <= i <= c ==> file[i] == file[n..][i - n] == tail[i - n];
    assert forall i :: n + 3 <= i <= c ==> file[i] == 97;
    forall i | 0 <= i < |file|
      ensures !TokenAt(file, i)
    {
      assert i != n ==> file[i] != 104;
    }
  }

  lemma ReadInTwo(file: seq<byte>, c: nat)
    requires 0 < c && |file| == c + 1
    ensures ReadsAll(file, 0, [c, c + 1])
  {
    assert [c, c + 1][1..] == [c + 1] && [c + 1][1..] == [];
  }

  /** Such a file: read at once it is clean, read up to c first it is reported. With
      8 * 1024 * 1024 for c that is how the program reads it. */
  lemma CutFileIsReported(c: nat, markers: seq<seq<byte>>)
    requires c >= TOKEN_LENGTH && !HasMarker(CutFile(c), markers) && !HasMarker(CutFile(c)[..c], markers)
    ensures !HasToken(CutFile(c)) && Scan(CutFile(c), [c + 1], markers) == Clean
    ensures Scan(CutFile(c), [c, c + 1], markers) == AccessToken
  {
    hide HasMarker, CoreAt, TokenAt, CutFile, ReadsAll, Scan;
    var file := CutFile(c);
    CutFileHasNoToken(c, file);
    OneReadIsExact(file, markers);
    ReadInTwo(file, c);
    CutMakesToken(file, [c, c + 1], markers);
  }

  /** A token in an early window hides a marker further on: the scan stops at the
      first violation and names that one. */
  lemma TokenHidesMarker(file: seq<byte>, first: nat, markers: seq<seq<byte>>)
    requires 0 < first < |file| && HasToken(file[0..first]) && !HasMarker(file[0..first], markers)
    ensures Scan(file, [first, |file|], markers) == AccessToken
  {
    assert [first, |file|][1..] == [|file|];
    assert [|file|][1..] == [];
    assert [] + file[0..first] == file[0..first];
  }
}
