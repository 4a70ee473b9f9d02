/** When the sample keys of an evaluation tell its slots apart
    (tools/evaluate_character_scenarios.py). */
module EvaluationKeys {
  import opened EvaluationRunner

  predicate NoColon(s: string) { forall i :: 0 <= i < |s| ==> s[i] != ':' }

  lemma {:induction false} DecimalHasNoColon(n: nat)
    ensures NoColon(Decimal(n)) && |Decimal(n)| >= 1
    decreases n
  {
    if n >= 10 {
      DecimalHasNoColon(n / 10);
    }
  }

  lemma {:induction false} DecimalInjective(a: nat, b: nat)
    requires Decimal(a) == Decimal(b)
    ensures a == b
    decreases a
  {
    DecimalHasNoColon(a / 10);
    DecimalHasNoColon(b / 10);
    var da, db := Decimal(a), Decimal(b);
    assert da[|da| - 1] == Digit(a % 10) && db[|db| - 1] == Digit(b % 10);
    DigitInjective(a % 10, b % 10);
    if a >= 10 {
      assert |db| > 1;
      assert da[..|da| - 1] == Decimal(a / 10) && db[..|db| - 1] == Decimal(b / 10);
      DecimalInjective(a / 10, b / 10);
    } else {
      assert |da| == 1;
    }
  }

  lemma DigitInjective(a: nat, b: nat)
    requires a < 10 && b < 10 && Digit(a) == Digit(b)
    ensures a == b
  {}

  /** A string splits in one way at its last colon. */
  lemma SplitAtLastColon(p: string, v: string, q: string, w: string)
    requires NoColon(v) && NoColon(w)
    requires p + ":" + v == q + ":" + w
    ensures p == q && v == w
  {
    var left, right := p + ":" + v, q + ":" + w;
    assert |p| + 1 + |v| == |left| && |q| + 1 + |w| == |right|;
    assert left[|p|] == ':' && right[|q|] == ':';
    assert |p| == |q|;
    assert left[..|p|] == p && right[..|q|] == q;
    assert left[|p| + 1..] == v && right[|q| + 1..] == w;
  }

  // ----- The part of a key between scenario and variant -----

  function Mark(r: nat, t: nat): string { ":r" + Decimal(r) + ":t" + Decimal(t) + ":" }

  lemma KeyIsMarked(s: string, r: nat, t: nat, v: string)
    ensures SampleKey(s, r, t, v) == s + Mark(r, t) + v
  {}

  lemma MarkColons(r: nat, t: nat, i: nat)
    requires i < |Mark(r, t)|
    ensures Mark(r, t)[i] == ':' <==> i == 0 || i == 2 + |Decimal(r)| || i == |Mark(r, t)| - 1
  {
    DecimalHasNoColon(r);
    DecimalHasNoColon(t);
    var dr, dt, mark := Decimal(r), Decimal(t), Mark(r, t);
    assert |mark| == |dr| + |dt| + 5;
    if 2 <= i < 2 + |dr| {
      assert mark[i] == dr[i - 2];
    } else if 4 + |dr| <= i < |mark| - 1 {
      assert mark[i] == dt[i - 4 - |dr|];
    }
  }

  lemma NumberedInjective(p: string, letter: char, n: nat, q: string, m: nat)
    requires letter != ':' && p + ":" + ([letter] + Decimal(n)) == q + ":" + ([letter] + Decimal(m))
    ensures p == q && n == m
  {
    DecimalHasNoColon(n);
    DecimalHasNoColon(m);
    SplitAtLastColon(p, [letter] + Decimal(n), q, [letter] + Decimal(m));
    assert ([letter] + Decimal(n))[1..] == Decimal(n) && ([letter] + Decimal(m))[1..] == Decimal(m);
    DecimalInjective(n, m);
  }

  lemma MarkGrouped(s: string, r: nat, t: nat)
    ensures s + Mark(r, t) == (s + ":" + (['r'] + Decimal(r)) + ":" + (['t'] + Decimal(t))) + ":" + ""
  {}

  /** What precedes a variant name determines scenario, repeat and turn. */
  lemma MarkInjective(s: string, r: nat, t: nat, s': string, r': nat, t': nat)
    requires s + Mark(r, t) == s' + Mark(r', t')
    ensures s == s' && r == r' && t == t'
  {
    var b, b' := s + ":" + (['r'] + Decimal(r)), s' + ":" + (['r'] + Decimal(r'));
    MarkGrouped(s, r, t);
    MarkGrouped(s', r', t');
    SplitAtLastColon(b + ":" + (['t'] + Decimal(t)), "", b' + ":" + (['t'] + Decimal(t')), "");
    NumberedInjective(b, 't', t, b', t');
    NumberedInjective(s, 'r', r, s', r');
  }

  /** A mark does not end in the first half of another one. */
  lemma MarkIsNoHalf(s: string, r: nat, t: nat, s': string, r': nat)
    ensures s + Mark(r, t) != s' + ":r" + Decimal(r') + ":"
  {
    DecimalHasNoColon(t);
    DecimalHasNoColon(r');
    var b := s + ":r" + Decimal(r);
    var turn, repetition := "t" + Decimal(t), "r" + Decimal(r');
    assert turn[0] == 't' && repetition[0] == 'r';
    assert s + Mark(r, t) == b + ":" + turn + ":" + "";
    assert s' + ":r" + Decimal(r') + ":" == s' + ":" + repetition + ":" + "";
    TwoPieces(b, turn, s', repetition);
  }

  lemma TwoPieces(p: string, v: string, q: string, w: string)
    requires NoColon(v) && NoColon(w) && v != w
    ensures p + ":" + v + ":" + "" != q + ":" + w + ":" + ""
  {
    if p + ":" + v + ":" + "" == q + ":" + w + ":" + "" {
      SplitAtLastColon(p + ":" + v, "", q + ":" + w, "");
      SplitAtLastColon(p, v, q, w);
    }
  }

  // ----- Which variant names collide -----

  predicate EndsWith(s: string, end: string) { |end| <= |s| && s[|s| - |end|..] == end }

  /** `v` is some text that ends as a key of variant `w` for this repeat and turn
      does, or exactly such an ending without its first colon. */
  predicate Meets(v: string, w: string, r: nat, t: nat) {
    EndsWith(v, Mark(r, t) + w) || v == Mark(r, t)[1..] + w
  }

  /** Every scenario has four turns, with the ids one to four. */
  const TURNS: nat := 4

  predicate Mimics(v: string, w: string, repeats: nat) {
    exists r, t :: 0 <= r < repeats && 1 <= t <= TURNS && Meets(v, w, r, t)
  }

  lemma CutSuffix(a: string, b: string, c: string, d: string)
    requires a + b == c + d && |b| >= |d|
    ensures b == b[..|b| - |d|] + d && a + b[..|b| - |d|] == c
  {
    var whole, n := a + b, |a + b| - |d|;
    assert whole[n..] == d && whole[..n] == c;
    assert whole[n..] == b[|b| - |d|..] && whole[..n] == a + b[..|b| - |d|];
  }

  /** The shorter variant name of two colliding keys is met by the longer one. */
  lemma CollisionMeets(s: string, r: nat, t: nat, v: string, s': string, r': nat, t': nat, w: string)
    requires SampleKey(s, r, t, v) == SampleKey(s', r', t', w) && |v| >= |w| && v != w
    ensures Meets(v, w, r', t')
  {
    KeyIsMarked(s, r, t, v);
    KeyIsMarked(s', r', t', w);
    CutSuffix(s + Mark(r, t), v, s' + Mark(r', t'), w);
    var x, mark := v[..|v| - |w|], Mark(r', t');
    assert (s + Mark(r, t)) + x == s' + mark;
    if |x| >= |mark| {
      CutSuffix(s + Mark(r, t), x, s', mark);
      assert v == x[..|x| - |mark|] + (mark + w);
    } else {
      CutSuffix(s', mark, s + Mark(r, t), x);
      var half := mark[..|mark| - |x|];
      assert mark == half + x && s' + half == s + Mark(r, t);
      HalfMark(s, r, t, s', r', t', |half|);
      assert x == mark[1..];
    }
  }

  lemma HalfMark(s: string, r: nat, t: nat, s': string, r': nat, t': nat, n: nat)
    requires 0 < n < |Mark(r', t')| && s' + Mark(r', t')[..n] == s + Mark(r, t)
    ensures n == 1
  {
    var mark, whole := Mark(r', t'), s + Mark(r, t);
    assert whole[|whole| - 1] == ':';
    assert mark[..n][n - 1] == mark[n - 1];
    MarkColons(r', t', n - 1);
    if n == 3 + |Decimal(r')| {
      assert mark[..n] == ":r" + Decimal(r') + ":";
      assert s' + mark[..n] == s' + ":r" + Decimal(r') + ":";
      MarkIsNoHalf(s, r, t, s', r');
    }
  }

  /** A name that meets another one has a sample with a key of the other. */
  lemma MeetingCollides(v: string, w: string, r: nat, t: nat) returns (s: string)
    requires Meets(v, w, r, t)
    ensures s != "" && SampleKey("", 0, 1, v) == SampleKey(s, r, t, w)
  {
    var first, mark := Mark(0, 1), Mark(r, t);
    KeyIsMarked("", 0, 1, v);
    assert "" + first + v == first + v;
    if EndsWith(v, mark + w) {
      var x := v[..|v| - |mark + w|];
      s := first + x;
      assert v == x + (mark + w);
      Regroup(first, x, mark, w);
    } else {
      s := first[..|first| - 1];
      Regroup(s, ":", mark[1..], w);
      assert first == s + ":" && mark == ":" + mark[1..];
    }
    KeyIsMarked(s, r, t, w);
  }

  lemma Regroup(a: string, b: string, c: string, d: string)
    ensures a + (b + (c + d)) == a + b + c + d == (a + b) + (c + d) == a + (b + c) + d
  {}

  /** Two samples of these variants have one key. */
  predicate SharedKey(s: string, r: nat, t: nat, v: string, s': string, r': nat, t': nat, w: string) {
    SampleKey(s, r, t, v) == SampleKey(s', r', t', w)
  }

  /** Different variant names give some two samples one key if and only if one of
      the names mimics a key of the other. */
  lemma CollideExactly(v: string, w: string, repeats: nat)
    requires v != w
    ensures (exists s, r, t, s', r', t' :: 0 <= r < repeats && 0 <= r' < repeats && 1 <= t <= TURNS && 1 <= t' <= TURNS
                                           && SharedKey(s, r, t, v, s', r', t', w))
            <==> Mimics(v, w, repeats) || Mimics(w, v, repeats)
  {
    forall s, r, t, s', r', t' | && 0 <= r < repeats && 0 <= r' < repeats && 1 <= t <= TURNS && 1 <= t' <= TURNS
                                 && SharedKey(s, r, t, v, s', r', t', w)
      ensures Mimics(v, w, repeats) || Mimics(w, v, repeats)
    {
      SharedKeyMimics(s, r, t, v, s', r', t', w, repeats);
    }
    if Mimics(v, w, repeats) {
      var r, t :| 0 <= r < repeats && 1 <= t <= TURNS && Meets(v, w, r, t);
      var s := MeetingCollides(v, w, r, t);
      assert SharedKey("", 0, 1, v, s, r, t, w);
    } else if Mimics(w, v, repeats) {
      var r, t :| 0 <= r < repeats && 1 <= t <= TURNS && Meets(w, v, r, t);
      var s := MeetingCollides(w, v, r, t);
      assert SharedKey(s, r, t, v, "", 0, 1, w);
    }
  }

  lemma SharedKeyMimics(s: string, r: nat, t: nat, v: string, s': string, r': nat, t': nat, w: string, repeats: nat)
    requires v != w && r < repeats && r' < repeats && 1 <= t <= TURNS && 1 <= t' <= TURNS
    requires SharedKey(s, r, t, v, s', r', t', w)
    ensures Mimics(v, w, repeats) || Mimics(w, v, repeats)
  {
    if |v| >= |w| {
      CollisionMeets(s, r, t, v, s', r', t', w);
    } else {
      CollisionMeets(s', r', t', w, s, r, t, v);
    }
  }

  /** Two samples of one variant never share a key, whatever the names contain. */
  lemma SameVariantInjective(s: string, r: nat, t: nat, s': string, r': nat, t': nat, v: string)
    requires SharedKey(s, r, t, v, s', r', t', v)
    ensures s == s' && r == r' && t == t'
  {
    KeyIsMarked(s, r, t, v);
    KeyIsMarked(s', r', t', v);
    CutSuffix(s + Mark(r, t), v, s' + Mark(r', t'), v);
    assert v[..0] == "" && s + Mark(r, t) + "" == s + Mark(r, t);
    MarkInjective(s, r, t, s', r', t');
  }

  lemma MeetsHasColon(v: string, w: string, r: nat, t: nat)
    ensures Meets(v, w, r, t) ==> !NoColon(v)
  {
    var mark := Mark(r, t);
    assert (mark + w)[0] == ':';
    assert EndsWith(v, mark + w) ==> exists i :: 0 <= i < |v| && v[i] == (mark + w)[0];
    assert (mark[1..] + w)[|mark| - 2] == mark[|mark| - 1] == ':';
  }

  /** A name without a colon mimics nothing. */
  lemma NoColonMimicsNothing(v: string, w: string, repeats: nat)
    requires NoColon(v)
    ensures !Mimics(v, w, repeats)
  {
    forall r, t | 0 <= r < repeats && 1 <= t <= TURNS
      ensures !Meets(v, w, r, t)
    {
      MeetsHasColon(v, w, r, t);
    }
  }

  /** Names with colons that collide. */
  lemma ColonsCollide()
    ensures SampleKey("s", 0, 1, "x:r0:t1:v") == SampleKey("s:r0:t1:x", 0, 1, "v")
    ensures Mimics("x:r0:t1:v", "v", 1)
  {
    assert Decimal(0) == "0" && Decimal(1) == "1";
    assert Meets("x:r0:t1:v", "v", 0, 1);
  }

  // ----- The loop order -----

  ghost predicate NoRepeats<T(!new)>(xs: seq<T>) {
    forall i, j :: 0 <= i < j < |xs| ==> xs[i] != xs[j]
  }

  lemma NoRepeatsConcat<T(!new)>(xs: seq<T>, ys: seq<T>)
    requires NoRepeats(xs) && NoRepeats(ys) && forall x :: x in xs ==> x !in ys
    ensures NoRepeats(xs + ys)
  {
    forall i, j | 0 <= i < j < |xs + ys|
      ensures (xs + ys)[i] != (xs + ys)[j]
    {
      if i < |xs| <= j {
        assert xs[i] in xs && ys[j - |xs|] in ys;
      }
    }
  }

  lemma NoRepeatsParts<T(!new)>(xs: seq<T>, ys: seq<T>, x: T)
    requires NoRepeats(xs + ys)
    ensures NoRepeats(xs) && NoRepeats(ys) && !(x in xs && x in ys)
  {
    var all := xs + ys;
    assert forall i :: 0 <= i < |xs| ==> all[i] == xs[i];
    assert forall i :: 0 <= i < |ys| ==> all[|xs| + i] == ys[i];
    forall i, j | 0 <= i < |xs| && 0 <= j < |ys|
      ensures xs[i] != ys[j]
    {
      assert all[i] != all[|xs| + j];
    }
  }

  /** What the loader checks of a fixture file. */
  ghost predicate Fixture(scenarios: seq<Scenario>) {
    && (forall i, j :: 0 <= i < j < |scenarios| ==> scenarios[i].id != scenarios[j].id)
    && (forall i :: 0 <= i < |scenarios| ==> |scenarios[i].userTexts| == TURNS)
  }

  /** No two variant names are equal and none mimics another. */
  ghost predicate Tellable(variants: seq<string>, repeats: nat) {
    NoRepeats(variants) && forall v, w :: v in variants && w in variants && v != w ==> !Mimics(v, w, repeats)
  }

  lemma {:induction false} RepeatsNoRepeats(variant: string, repeats: nat, scenarios: seq<Scenario>)
    requires forall i, j :: 0 <= i < j < |scenarios| ==> scenarios[i].id != scenarios[j].id
    ensures NoRepeats(OverRepeats(variant, repeats, scenarios))
    ensures forall c :: c in OverRepeats(variant, repeats, scenarios) ==>
      c.variant == variant && c.repeatIndex < repeats && c.scenario in scenarios
    ensures forall c: Conversation :: c.variant == variant && c.repeatIndex < repeats && c.scenario in scenarios ==>
      c in OverRepeats(variant, repeats, scenarios)
  {
    if repeats > 0 {
      RepeatsNoRepeats(variant, repeats - 1, scenarios);
      NoRepeatsConcat(OverRepeats(variant, repeats - 1, scenarios), OverScenarios(variant, repeats - 1, scenarios));
      forall c: Conversation | c.variant == variant && c.repeatIndex == repeats - 1 && c.scenario in scenarios
        ensures c in OverScenarios(variant, repeats - 1, scenarios)
      {
        var k :| 0 <= k < |scenarios| && scenarios[k] == c.scenario;
        assert OverScenarios(variant, repeats - 1, scenarios)[k] == c;
      }
    }
  }

  /** The conversations of the loop: each once, exactly if no variant name is repeated. */
  lemma {:induction false} LoopOrderIs(variants: seq<string>, repeats: nat, scenarios: seq<Scenario>)
    requires forall i, j :: 0 <= i < j < |scenarios| ==> scenarios[i].id != scenarios[j].id
    ensures forall c :: c in LoopOrder(variants, repeats, scenarios) <==>
      c.variant in variants && c.repeatIndex < repeats && c.scenario in scenarios
    ensures NoRepeats(variants) ==> NoRepeats(LoopOrder(variants, repeats, scenarios))
    ensures NoRepeats(LoopOrder(variants, repeats, scenarios)) && repeats >= 1 && scenarios != [] ==> NoRepeats(variants)
  {
    if variants != [] {
      var n := |variants| - 1;
      var earlier, last := LoopOrder(variants[..n], repeats, scenarios), OverRepeats(variants[n], repeats, scenarios);
      assert variants == variants[..n] + [variants[n]];
      LoopOrderIs(variants[..n], repeats, scenarios);
      RepeatsNoRepeats(variants[n], repeats, scenarios);
      if NoRepeats(variants) {
        NoRepeatsParts(variants[..n], [variants[n]], variants[n]);
        NoRepeatsConcat(earlier, last);
      }
      if NoRepeats(earlier + last) && repeats >= 1 && scenarios != [] {
        NoRepeatsParts(earlier, last, Conversation(variants[n], 0, scenarios[0]));
        NoRepeatsConcat(variants[..n], [variants[n]]);
      }
    }
  }

  /** The slots of these conversations: each once, exactly if no conversation is repeated. */
  lemma {:induction false} SlotsAre(conversations: seq<Conversation>)
    ensures forall s :: s in SlotsOf(conversations) <==> s.conversation in conversations && s in TurnsOf(s.conversation)
    ensures NoRepeats(conversations) ==> NoRepeats(SlotsOf(conversations))
    ensures NoRepeats(SlotsOf(conversations)) && (forall c :: c in conversations ==> |TurnsOf(c)| > 0) ==>
      NoRepeats(conversations)
  {
    if conversations != [] {
      var n := |conversations| - 1;
      var earlier, last := SlotsOf(conversations[..n]), TurnsOf(conversations[n]);
      assert conversations == conversations[..n] + [conversations[n]];
      SlotsAre(conversations[..n]);
      if NoRepeats(conversations) {
        NoRepeatsParts(conversations[..n], [conversations[n]], conversations[n]);
        NoRepeatsConcat(earlier, last);
      }
      if NoRepeats(earlier + last) && forall c :: c in conversations ==> |TurnsOf(c)| > 0 {
        NoRepeatsParts(earlier, last, TurnsOf(conversations[n])[0]);
        NoRepeatsConcat(conversations[..n], [conversations[n]]);
      }
    }
  }
}
