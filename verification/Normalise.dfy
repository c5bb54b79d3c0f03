/** The text normalisation under every content hash (normalize_text in
    backend/engine/services/analysis.py): de-hyphenate across white space,
    collapse white space, strip. */
module Normalise {
  import opened Text

  /** `(\w)-\s+(\w)` matches at the start of `t`. */
  predicate Hyphenated(t: Text) {
    && |t| > 3 && IsWord(t[0]) && t[1] == Hyphen && IsSpace(t[2])
    && GapEnd(t, 2) < |t| && IsWord(t[GapEnd(t, 2)])
  }

  /** `re.sub(r'(\w)-\s+(\w)', r'\1\2', t)`: left to right, matches not overlapping. */
  function Dehyphenate(t: Text): Text
    decreases |t|
  {
    if t == [] then []
    else if Hyphenated(t) then
      var e := GapEnd(t, 2);
      [t[0], t[e]] + Dehyphenate(t[e + 1..])
    else [t[0]] + Dehyphenate(t[1..])
  }

  function NormalizeText(t: Text): Text { Collapse(Dehyphenate(t)) }

  /** A letter, a digit or an underscore, a hyphen, white space, and another of the first kind. */
  ghost predicate Broken(t: Text, x: Glyph, gap: Text, y: Glyph, rest: Text) {
    && (x.Digit? || x.Word?) && (y.Digit? || y.Word?)
    && gap != [] && (forall i :: 0 <= i < |gap| ==> gap[i].Space?)
    && t == [x, Hyphen] + (gap + ([y] + rest))
  }

  lemma BrokenIsHyphenated(t: Text, x: Glyph, gap: Text, y: Glyph, rest: Text)
    requires Broken(t, x, gap, y, rest)
    ensures Hyphenated(t) && GapEnd(t, 2) == 2 + |gap| && t[2 + |gap|] == y && t[2 + |gap| + 1..] == rest
  {
    var tail := gap + ([y] + rest);
    assert forall i :: 0 <= i < |tail| ==> t[2 + i] == tail[i];
    assert forall i :: 0 <= i < |gap| ==> tail[i] == gap[i];
    assert tail[|gap|] == y && tail[|gap| + 1..] == rest;
    GapEndIs(t, 2, 2 + |gap|);
  }

  lemma HyphenatedIsBroken(t: Text)
    requires Hyphenated(t)
    ensures var e := GapEnd(t, 2); Broken(t, t[0], t[2..e], t[e], t[e + 1..])
  {
    var e := GapEnd(t, 2);
    assert t == [t[0], t[1]] + (t[2..e] + ([t[e]] + t[e + 1..]));
  }

  /** A word broken over a line is put together, over any white space; anything else stays, glyph by glyph. */
  lemma BrokenWordsMeet(t: Text, x: Glyph, gap: Text, y: Glyph, rest: Text)
    ensures Broken(t, x, gap, y, rest) ==> Dehyphenate(t) == [x, y] + Dehyphenate(rest)
    ensures t != [] && (forall u, g, v, r :: !Broken(t, u, g, v, r)) ==> Dehyphenate(t) == [t[0]] + Dehyphenate(t[1..])
    ensures t == [] ==> Dehyphenate(t) == []
  {
    if Broken(t, x, gap, y, rest) { BrokenIsHyphenated(t, x, gap, y, rest); }
    if Hyphenated(t) { HyphenatedIsBroken(t); }
  }

  // ---- de-hyphenation does not care how wide the gaps are ----

  lemma FirstStays(t: Text)
    ensures t == [] <==> Dehyphenate(t) == []
    ensures t != [] ==> Dehyphenate(t)[0] == t[0]
  {
  }

  lemma DehyphenateOther(g: Glyph, t: Text)
    requires !Hyphenated([g] + t)
    ensures Dehyphenate([g] + t) == [g] + Dehyphenate(t)
  {
  }

  lemma DehyphenateMatch(a: Glyph, gap: Text, b: Glyph, t: Text)
    requires IsWord(a) && IsWord(b) && gap != [] && forall i :: 0 <= i < |gap| ==> IsSpace(gap[i])
    ensures Dehyphenate([a, Hyphen] + (gap + ([b] + t))) == [a, b] + Dehyphenate(t)
  {
    var s, e := [a, Hyphen] + (gap + ([b] + t)), 2 + |gap|;
    assert s[e] == b && forall j :: 2 <= j < e ==> s[j] == gap[j - 2];
    GapEndIs(s, 2, e);
    assert Hyphenated(s) && GapEnd(s, 2) == e;
    assert s[e + 1..] == t;
  }

  lemma {:induction false} DehyphenateGap(t: Text, e: nat)
    requires e <= |t| && forall j :: 0 <= j < e ==> IsSpace(t[j])
    ensures Dehyphenate(t) == t[..e] + Dehyphenate(t[e..])
  {
    if e == 0 {
      assert t[..0] == [] && t[0..] == t;
    } else {
      DehyphenateGap(t[1..], e - 1);
      assert t[1..][..e - 1] == t[1..e] && t[1..][e - 1..] == t[e..];
      assert t[..e] == [t[0]] + t[1..e];
    }
  }

  lemma SqueezeGap(gap: Text, t: Text)
    requires gap != [] && (forall j :: 0 <= j < |gap| ==> IsSpace(gap[j]))
    requires t == [] || !IsSpace(t[0])
    ensures Squeeze(gap + t) == [SP] + Squeeze(t)
  {
    GapEndIs(gap + t, 0, |gap|);
    assert (gap + t)[|gap|..] == t;
  }

  lemma {:induction false} DehyphenateSqueeze(t: Text)
    ensures Dehyphenate(Squeeze(t)) == Squeeze(Dehyphenate(t))
    decreases |t|
  {
    if t == [] {
    } else if IsSpace(t[0]) {
      var e := GapEnd(t, 0);
      var rest := t[e..];
      DehyphenateSqueeze(rest);
      DehyphenateGap(t, e);
      FirstStays(rest);
      SqueezeGap(t[..e], Dehyphenate(rest));
      DehyphenateOther(SP, Squeeze(rest));
    } else if Hyphenated(t) {
      SqueezeMatch(t);
    } else {
      DehyphenateSqueeze(t[1..]);
      SameMatch(t);
      DehyphenateOther(t[0], Squeeze(t[1..]));
      FirstStays(t);
      assert ([t[0]] + Dehyphenate(t[1..]))[1..] == Dehyphenate(t[1..]);
    }
  }

  lemma {:induction false} SqueezeMatch(t: Text)
    requires Hyphenated(t)
    ensures Dehyphenate(Squeeze(t)) == Squeeze(Dehyphenate(t))
    decreases |t|, 0
  {
    var e := GapEnd(t, 2);
    var a, gap, b, rest := t[0], t[2..e], t[e], t[e + 1..];
    assert t == [a, Hyphen] + (gap + ([b] + rest));
    SqueezedMatch(a, gap, b, rest);
    DehyphenateMatch(a, [SP], b, Squeeze(rest));
    DehyphenateSqueeze(rest);
    SqueezePair(a, b, Dehyphenate(rest));
  }

  lemma SqueezedMatch(a: Glyph, gap: Text, b: Glyph, rest: Text)
    requires IsWord(a) && IsWord(b) && gap != [] && forall i :: 0 <= i < |gap| ==> IsSpace(gap[i])
    ensures Squeeze([a, Hyphen] + (gap + ([b] + rest))) == [a, Hyphen] + ([SP] + ([b] + Squeeze(rest)))
  {
    SqueezeGlyph(b, rest);
    SqueezeGap(gap, [b] + rest);
    SqueezePair(a, Hyphen, gap + ([b] + rest));
  }

  lemma SqueezePair(a: Glyph, b: Glyph, t: Text)
    requires !IsSpace(a) && !IsSpace(b)
    ensures Squeeze([a, b] + t) == [a, b] + Squeeze(t)
  {
  }

  /** A match stays a match when its gap is squeezed, and none appears. */
  lemma SameMatch(t: Text)
    requires t != [] && !IsSpace(t[0]) && !Hyphenated(t)
    ensures !Hyphenated([t[0]] + Squeeze(t[1..]))
  {
    if |t| > 2 && t[1] == Hyphen && IsSpace(t[2]) {
      var v := t[2..];
      var e := GapEnd(v, 0);
      assert t[1..] == [Hyphen] + v;
      SqueezeGlyph(Hyphen, v);
      assert Squeeze(v) == [SP] + Squeeze(v[e..]);
      var s := [t[0]] + ([Hyphen] + ([SP] + Squeeze(v[e..])));
      if v[e..] != [] {
        assert Squeeze(v[e..])[0] == v[e];
        GapEndIs(s, 2, 3);
        GapEndIs(t, 2, e + 2);
      }
    } else if |t| > 2 && t[1] == Hyphen {
      assert t[1..][1..] == t[2..];
      assert Squeeze(t[1..]) == [Hyphen] + Squeeze(t[2..]);
    } else if |t| == 2 {
      assert t[1..] == [t[1]] + [];
      assert Squeeze(t[1..][1..]) == [];
    }
  }

  lemma TrailingNoMatch(t: Text, g: Glyph)
    requires IsSpace(g) && !Hyphenated(t)
    ensures !Hyphenated(t + [g])
  {
    if |t| > 2 {
      var e := GapEnd(t, 2);
      GapEndIs(t + [g], 2, if e < |t| then e else e + 1);
    }
  }

  lemma {:induction false} DehyphenateTrailing(t: Text, g: Glyph)
    requires IsSpace(g)
    ensures Dehyphenate(t + [g]) == Dehyphenate(t) + [g]
    decreases |t|
  {
    if t == [] {
      assert t + [g] == [g] + t;
      DehyphenateOther(g, []);
    } else if Hyphenated(t) {
      var e := GapEnd(t, 2);
      DehyphenateTrailing(t[e + 1..], g);
      GapEndIs(t + [g], 2, e);
      assert (t + [g])[e + 1..] == t[e + 1..] + [g];
    } else {
      DehyphenateTrailing(t[1..], g);
      assert (t + [g])[1..] == t[1..] + [g];
      TrailingNoMatch(t, g);
    }
  }

  /** What one step of the pass takes off the text and puts in the result. */
  lemma PassStep(t: Text) returns (k: nat, front: Text)
    requires t != []
    ensures 1 <= k <= |t| && front != [] && |front| <= k && front[|front| - 1] == t[k - 1]
    ensures Dehyphenate(t) == front + Dehyphenate(t[k..])
  {
    if Hyphenated(t) {
      var e := GapEnd(t, 2);
      k, front := e + 1, [t[0], t[e]];
    } else {
      k, front := 1, [t[0]];
    }
  }

  lemma {:induction false} LastStays(t: Text)
    requires t != []
    ensures Dehyphenate(t) != [] && Dehyphenate(t)[|Dehyphenate(t)| - 1] == t[|t| - 1]
    decreases |t|
  {
    var k, front := PassStep(t);
    if k < |t| {
      LastStays(t[k..]);
    } else {
      assert t[k..] == [];
    }
  }

  lemma {:induction false} DehyphenateStripRight(t: Text)
    ensures Dehyphenate(StripRight(t)) == StripRight(Dehyphenate(t))
  {
    if t == [] {
    } else {
      var n := |t| - 1;
      assert t == t[..n] + [t[n]];
      if IsSpace(t[n]) {
        DehyphenateStripRight(t[..n]);
        DehyphenateTrailing(t[..n], t[n]);
        var d := Dehyphenate(t[..n]);
        assert (d + [t[n]])[..|d|] == d;
      } else {
        LastStays(t);
      }
    }
  }

  lemma DehyphenateStripLeft(t: Text)
    ensures Dehyphenate(StripLeft(t)) == StripLeft(Dehyphenate(t))
  {
  }

  /** Collapsing first or last makes no difference. */
  lemma CollapseFirst(t: Text)
    ensures NormalizeText(t) == Dehyphenate(Collapse(t))
  {
    DehyphenateSqueeze(t);
    DehyphenateStripLeft(Squeeze(t));
    DehyphenateStripRight(StripLeft(Squeeze(t)));
  }

  // ---- single-spaced text ----

  ghost predicate SingleSpaced(t: Text) {
    forall i :: 0 <= i < |t| - 1 && IsSpace(t[i]) ==> !IsSpace(t[i + 1])
  }

  ghost predicate PlainSpaces(t: Text) {
    forall i :: 0 <= i < |t| && IsSpace(t[i]) ==> t[i] == SP
  }

  /** What Collapse produces. */
  ghost predicate Collapsed(t: Text) {
    && SingleSpaced(t) && PlainSpaces(t)
    && (t != [] ==> !IsSpace(t[0]) && !IsSpace(t[|t| - 1]))
  }

  lemma {:induction false} SqueezeCollapses(t: Text)
    ensures SingleSpaced(Squeeze(t)) && PlainSpaces(Squeeze(t))
    decreases |t|
  {
    if t != [] {
      var rest := if IsSpace(t[0]) then t[GapEnd(t, 0)..] else t[1..];
      SqueezeCollapses(rest);
      assert IsSpace(t[0]) && rest != [] ==> Squeeze(rest)[0] == rest[0];
      assert Squeeze(t) == [if IsSpace(t[0]) then SP else t[0]] + Squeeze(rest);
    }
  }

  lemma {:induction false} StripRightCollapses(t: Text)
    requires SingleSpaced(t) && PlainSpaces(t) && (t != [] ==> !IsSpace(t[0]))
    ensures Collapsed(StripRight(t))
  {
  }

  lemma CollapseCollapses(t: Text)
    ensures Collapsed(Collapse(t))
  {
    var s := Squeeze(t);
    SqueezeCollapses(t);
    StripLeftIs(s);
    var u := s[GapEnd(s, 0)..];
    assert forall i :: 0 <= i < |u| ==> u[i] == s[GapEnd(s, 0) + i];
    StripRightCollapses(u);
  }

  lemma {:induction false} SqueezeFixes(t: Text)
    requires SingleSpaced(t) && PlainSpaces(t)
    ensures Squeeze(t) == t
    decreases |t|
  {
    if t != [] {
      if IsSpace(t[0]) { GapEndIs(t, 0, 1); }
      SqueezeFixes(t[1..]);
      assert t == [t[0]] + t[1..];
    }
  }

  lemma CollapseFixes(t: Text)
    requires Collapsed(t)
    ensures Collapse(t) == t
  {
    SqueezeFixes(t);
  }

  // ---- matches in single-spaced text ----

  /** The pattern `w- w` at `i`. */
  predicate MatchAt(t: Text, i: int) {
    0 <= i && i + 3 < |t| && IsWord(t[i]) && t[i + 1] == Hyphen && IsSpace(t[i + 2]) && IsWord(t[i + 3])
  }

  /** Two matches that share their middle letter: `w- w- w`. */
  ghost predicate Chained(t: Text) {
    exists i :: MatchAt(t, i) && MatchAt(t, i + 3)
  }

  ghost predicate Unmatched(t: Text) {
    forall i :: !MatchAt(t, i)
  }

  lemma MatchShift(t: Text, k: nat, i: int)
    requires k <= i && k <= |t|
    ensures MatchAt(t, i) <==> MatchAt(t[k..], i - k)
  {
  }

  /** One pass over single-spaced text: either the front match goes, or the front glyph stays. */
  lemma OneStep(t: Text)
    requires SingleSpaced(t) && t != []
    ensures var k := if MatchAt(t, 0) then 4 else 1;
            var front := if MatchAt(t, 0) then [t[0], t[3]] else [t[0]];
            && SingleSpaced(t[k..]) && (PlainSpaces(t) ==> PlainSpaces(t[k..]))
            && Dehyphenate(t) == front + Dehyphenate(t[k..])
  {
  }

  /** A match that survives a pass at the front was blocked by no one: it was no match before. */
  lemma NoNewFrontMatch(t: Text)
    requires SingleSpaced(t) && t != [] && !MatchAt(t, 0)
    ensures !MatchAt(Dehyphenate(t), 0)
  {
    OneStep(t);
    if MatchAt(Dehyphenate(t), 0) {
      assert t[1..][2..] == t[3..];
      FirstStays(t[3..]);
    }
  }

  /** The match just removed at the front starts no chain. */
  lemma FrontStartsNoChain(t: Text)
    requires SingleSpaced(t) && MatchAt(t, 0)
    ensures !(MatchAt(Dehyphenate(t), 1) && MatchAt(Dehyphenate(t), 4))
  {
    OneStep(t);
    var d, u := Dehyphenate(t), t[4..];
    if MatchAt(d, 1) && MatchAt(d, 4) {
      assert d[2..] == Dehyphenate(u);
      var v := u[2..];
      assert d[4..] == Dehyphenate(v);
      MatchShift(d, 4, 4);
      FirstStays(v);
      if MatchAt(v, 0) { OneStep(v); } else { NoNewFrontMatch(v); }
    }
  }

  /** One pass leaves no two chained matches. */
  lemma {:induction false} NothingChainedAfter(t: Text, i: int)
    requires SingleSpaced(t)
    ensures !(MatchAt(Dehyphenate(t), i) && MatchAt(Dehyphenate(t), i + 3))
    decreases |t|
  {
    if t != [] && 0 <= i {
      OneStep(t);
      var d := Dehyphenate(t);
      var k, gone := if MatchAt(t, 0) then 4 else 1, if MatchAt(t, 0) then 2 else 1;
      if i >= gone {
        assert d[gone..] == Dehyphenate(t[k..]);
        MatchShift(d, gone, i);
        MatchShift(d, gone, i + 3);
        NothingChainedAfter(t[k..], i - gone);
      } else if k == 1 {
        NoNewFrontMatch(t);
      } else if i == 1 {
        FrontStartsNoChain(t);
      } else {
        assert d[1] == t[3];
      }
    }
  }

  /** Removing a match that starts no chain leaves no match in its place. */
  lemma FrontLeavesNoMatch(t: Text)
    requires SingleSpaced(t) && MatchAt(t, 0) && !MatchAt(t, 3)
    ensures !MatchAt(Dehyphenate(t), 1)
  {
    OneStep(t);
    var d, u := Dehyphenate(t), t[4..];
    if MatchAt(d, 1) {
      assert d[2..] == Dehyphenate(u);
      FirstStays(u[2..]);
    }
  }

  /** Where nothing is chained, one pass removes every match. */
  lemma {:induction false} UnchainedIsRemoved(t: Text, i: int)
    requires SingleSpaced(t) && !Chained(t)
    ensures !MatchAt(Dehyphenate(t), i)
    decreases |t|
  {
    if t != [] && 0 <= i {
      OneStep(t);
      var d := Dehyphenate(t);
      var k, gone := if MatchAt(t, 0) then 4 else 1, if MatchAt(t, 0) then 2 else 1;
      if i >= gone {
        assert d[gone..] == Dehyphenate(t[k..]);
        MatchShift(d, gone, i);
        UnchainedTail(t, k);
        UnchainedIsRemoved(t[k..], i - gone);
      } else if k == 1 {
        NoNewFrontMatch(t);
      } else if i == 1 {
        assert !MatchAt(t, 0 + 3);
        FrontLeavesNoMatch(t);
      } else {
        assert d[1] == t[3];
      }
    }
  }

  lemma UnchainedTail(t: Text, k: nat)
    requires !Chained(t) && k <= |t|
    ensures !Chained(t[k..])
  {
    forall j ensures !(MatchAt(t[k..], j) && MatchAt(t[k..], j + 3)) {
      if 0 <= j {
        MatchShift(t, k, j + k);
        MatchShift(t, k, (j + k) + 3);
      }
    }
  }

  lemma ChainAtFront(t: Text)
    requires SingleSpaced(t) && MatchAt(t, 0) && MatchAt(t, 3)
    ensures MatchAt(Dehyphenate(t), 1)
  {
    OneStep(t);
    var u := t[4..];
    assert u[0] == Hyphen && IsSpace(u[1]) && IsWord(u[2]);
    OneStep(u);
    OneStep(u[1..]);
    assert u[1..][1..] == u[2..];
    FirstStays(u[2..]);
    assert Dehyphenate(t) == [t[0], t[3]] + ([u[0]] + ([u[1]] + Dehyphenate(u[2..])));
  }

  /** A chain leaves a match behind. */
  lemma {:induction false} ChainLeavesMatch(t: Text, i: int) returns (j: int)
    requires SingleSpaced(t) && MatchAt(t, i) && MatchAt(t, i + 3)
    ensures MatchAt(Dehyphenate(t), j)
    decreases |t|
  {
    if i == 0 {
      ChainAtFront(t);
      j := 1;
    } else {
      OneStep(t);
      var k, gone := if MatchAt(t, 0) then 4 else 1, if MatchAt(t, 0) then 2 else 1;
      assert i >= k || (i == 3 && k == 4);
      if i >= k {
        MatchShift(t, k, i);
        MatchShift(t, k, i + 3);
        j := ChainLeavesMatch(t[k..], i - k);
        assert Dehyphenate(t)[gone..] == Dehyphenate(t[k..]);
        j := j + gone;
      } else {
        ChainAtFront(t);
        j := 1;
      }
    }
  }

  lemma {:induction false} UnmatchedStays(t: Text)
    requires SingleSpaced(t) && Unmatched(t)
    ensures Dehyphenate(t) == t
    decreases |t|
  {
    if t != [] {
      OneStep(t);
      forall i ensures !MatchAt(t[1..], i) {
        if 0 <= i { MatchShift(t, 1, i + 1); }
      }
      UnmatchedStays(t[1..]);
      assert t == [t[0]] + t[1..];
    }
  }

  lemma {:induction false} PassKeepsSpacing(t: Text)
    requires SingleSpaced(t) && PlainSpaces(t)
    ensures SingleSpaced(Dehyphenate(t)) && PlainSpaces(Dehyphenate(t))
    decreases |t|
  {
    if t != [] {
      OneStep(t);
      var k := if MatchAt(t, 0) then 4 else 1;
      PassKeepsSpacing(t[k..]);
      FirstStays(t[k..]);
    }
  }

  lemma PassKeepsCollapsed(t: Text)
    requires Collapsed(t)
    ensures Collapsed(Dehyphenate(t))
  {
    PassKeepsSpacing(t);
    if t != [] {
      FirstStays(t);
      LastStays(t);
    }
  }

  // ---- the results ----

  /** On collapsed text a normalisation is one de-hyphenation pass. */
  lemma NormalizeCollapsed(t: Text)
    requires Collapsed(t)
    ensures NormalizeText(t) == Dehyphenate(t) && Collapsed(NormalizeText(t))
  {
    CollapseFirst(t);
    CollapseFixes(t);
    PassKeepsCollapsed(t);
  }

  lemma NormalizedIsCollapsed(t: Text)
    ensures NormalizeText(t) == Dehyphenate(Collapse(t)) && Collapsed(NormalizeText(t))
  {
    CollapseFirst(t);
    CollapseCollapses(t);
    PassKeepsCollapsed(Collapse(t));
  }

  /** The text a body hash is taken over went through two normalisations, and a
      third changes nothing: the hash is of a normal form. */
  lemma TwoPassesSettle(t: Text)
    ensures NormalizeText(NormalizeText(NormalizeText(t))) == NormalizeText(NormalizeText(t))
  {
    var n1 := NormalizeText(t);
    NormalizedIsCollapsed(t);
    NormalizeCollapsed(n1);
    var n2 := NormalizeText(n1);
    CollapseCollapses(t);
    assert !Chained(n1) by {
      if Chained(n1) {
        var i :| MatchAt(n1, i) && MatchAt(n1, i + 3);
        NothingChainedAfter(Collapse(t), i);
      }
    }
    forall i ensures !MatchAt(n2, i) { UnchainedIsRemoved(n1, i); }
    UnmatchedStays(n2);
    NormalizeCollapsed(n2);
  }

  /** One normalisation is enough exactly for texts without a chain `w- w- w`. */
  lemma OnePassSettlesIff(t: Text)
    ensures NormalizeText(NormalizeText(t)) == NormalizeText(t) <==> !Chained(Collapse(t))
  {
    var c, n1 := Collapse(t), NormalizeText(t);
    CollapseCollapses(t);
    NormalizedIsCollapsed(t);
    NormalizeCollapsed(n1);
    if Chained(c) {
      var i :| MatchAt(c, i) && MatchAt(c, i + 3);
      var j := ChainLeavesMatch(c, i);
      MatchShortens(n1, j);
    } else {
      forall i ensures !MatchAt(n1, i) { UnchainedIsRemoved(c, i); }
      UnmatchedStays(n1);
    }
  }

  lemma {:induction false} MatchShortens(t: Text, i: int)
    requires SingleSpaced(t) && MatchAt(t, i)
    ensures |Dehyphenate(t)| < |t|
    decreases |t|
  {
    OneStep(t);
    if MatchAt(t, 0) {
      PassNotLonger(t[4..]);
    } else {
      MatchShift(t, 1, i);
      MatchShortens(t[1..], i - 1);
    }
  }

  lemma {:induction false} PassNotLonger(t: Text)
    ensures |Dehyphenate(t)| <= |t|
    decreases |t|
  {
    if t != [] {
      var k, front := PassStep(t);
      PassNotLonger(t[k..]);
    }
  }

  /** Only the words count: how a renderer spaces or breaks them does not. */
  lemma OnlyWordsCount(a: Text, b: Text)
    requires Split(a) == Split(b)
    ensures NormalizeText(a) == NormalizeText(b)
  {
    CollapseFirst(a);
    CollapseFirst(b);
    CollapseIsSplitJoin(a);
    CollapseIsSplitJoin(b);
  }

  /** `a- b- c` needs both passes. */
  lemma OnePassIsNotEnough(a: Glyph, b: Glyph, c: Glyph)
    requires IsWord(a) && IsWord(b) && IsWord(c)
    ensures NormalizeText([a, Hyphen, SP, b, Hyphen, SP, c]) == [a, b, Hyphen, SP, c]
    ensures NormalizeText([a, b, Hyphen, SP, c]) == [a, b, c]
  {
    var t, rest := [a, Hyphen, SP, b, Hyphen, SP, c], [Hyphen, SP, c];
    NormalizeCollapsed(t);
    assert t == [a, Hyphen] + ([SP] + ([b] + rest));
    DehyphenateMatch(a, [SP], b, rest);
    UnmatchedStays(rest);
    assert [a, b] + rest == [a, b, Hyphen, SP, c];
    SecondPass(a, b, c);
  }

  lemma SecondPass(a: Glyph, b: Glyph, c: Glyph)
    requires IsWord(a) && IsWord(b) && IsWord(c)
    ensures NormalizeText([a, b, Hyphen, SP, c]) == [a, b, c]
  {
    var tail := [b, Hyphen, SP, c];
    assert tail == [b, Hyphen] + ([SP] + ([c] + []));
    DehyphenateMatch(b, [SP], c, []);
    DehyphenateOther(a, tail);
    NormalizeCollapsed([a] + tail);
    assert [a] + tail == [a, b, Hyphen, SP, c];
  }
}
