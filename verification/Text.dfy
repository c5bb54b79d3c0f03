/** Text as the engine sees it: code points with the class that `re` and the
    string methods give them. Unicode normalisation is taken as done. */
module Text {

  datatype Glyph =
    | Digit(code: nat)
    | Word(code: nat)        // any other character matched by \w
    | Space(code: nat)       // matched by \s and dropped by split() and strip()
    | Hyphen
    | Dot
    | CloseParen
    | Other(code: nat)

  type Text = seq<Glyph>

  const SP: Glyph := Space(32)

  predicate IsWord(g: Glyph) { g.Digit? || g.Word? }

  predicate IsSpace(g: Glyph) { g.Space? }

  // ---- lists ----

  lemma Regroup<T>(x: seq<T>, y: seq<T>, z: seq<T>)
    ensures (x + y) + z == x + (y + z)
  {
  }

  // ---- runs of white space ----

  /** Where the white space starting at `i` ends. */
  function GapEnd(t: Text, i: nat): (e: nat)
    requires i <= |t|
    ensures i <= e <= |t| && (e < |t| ==> !IsSpace(t[e]))
    ensures forall j :: i <= j < e ==> IsSpace(t[j])
    decreases |t| - i
  {
    if i < |t| && IsSpace(t[i]) then GapEnd(t, i + 1) else i
  }

  /** `re.sub(r'\s+', ' ', t)`. */
  function Squeeze(t: Text): Text
    decreases |t|
  {
    if t == [] then []
    else if IsSpace(t[0]) then [SP] + Squeeze(t[GapEnd(t, 0)..])
    else [t[0]] + Squeeze(t[1..])
  }

  function StripLeft(t: Text): Text {
    if t != [] && IsSpace(t[0]) then StripLeft(t[1..]) else t
  }

  function StripRight(t: Text): Text {
    if t != [] && IsSpace(t[|t| - 1]) then StripRight(t[..|t| - 1]) else t
  }

  /** `t.strip()`. */
  function Strip(t: Text): Text { StripRight(StripLeft(t)) }

  /** `re.sub(r'\s+', ' ', t).strip()`. */
  function Collapse(t: Text): Text { Strip(Squeeze(t)) }

  // ---- split() and ' '.join ----

  /** Where the word starting at `i` ends. */
  function WordEnd(t: Text, i: nat): (e: nat)
    requires i <= |t|
    ensures i <= e <= |t| && (e < |t| ==> IsSpace(t[e]))
    ensures forall j :: i <= j < e ==> !IsSpace(t[j])
    decreases |t| - i
  {
    if i < |t| && !IsSpace(t[i]) then WordEnd(t, i + 1) else i
  }

  /** `t.split()`. */
  function Split(t: Text): seq<Text>
    decreases |t|
  {
    if t == [] then []
    else if IsSpace(t[0]) then Split(t[1..])
    else
      var e := WordEnd(t, 0);
      [t[..e]] + Split(t[e..])
  }

  /** `' '.join(words)`. */
  function Join(words: seq<Text>): Text {
    if words == [] then []
    else if |words| == 1 then words[0]
    else words[0] + [SP] + Join(words[1..])
  }

  predicate IsToken(w: Text) {
    w != [] && forall i :: 0 <= i < |w| ==> !IsSpace(w[i])
  }

  ghost predicate Tokens(words: seq<Text>) {
    forall i :: 0 <= i < |words| ==> IsToken(words[i])
  }

  lemma {:induction false} SplitGivesTokens(t: Text)
    ensures Tokens(Split(t))
    decreases |t|
  {
    if t != [] {
      if IsSpace(t[0]) {
        SplitGivesTokens(t[1..]);
      } else {
        SplitGivesTokens(t[WordEnd(t, 0)..]);
      }
    }
  }

  lemma {:induction false} GapEndIs(t: Text, i: nat, e: nat)
    requires i <= e <= |t| && (forall j :: i <= j < e ==> IsSpace(t[j])) && (e == |t| || !IsSpace(t[e]))
    ensures GapEnd(t, i) == e
    decreases e - i
  {
  }

  /** A token, then a space or nothing, then the rest. */
  lemma SplitToken(w: Text, rest: Text)
    requires IsToken(w) && (rest == [] || IsSpace(rest[0]))
    ensures Split(w + rest) == [w] + Split(rest)
  {
    var t := w + rest;
    assert t[..|w|] == w && t[|w|..] == rest;
  }

  /** Joining words and splitting again gives the words back. */
  lemma {:induction false} SplitJoin(words: seq<Text>)
    requires Tokens(words)
    ensures Split(Join(words)) == words
  {
    if |words| == 1 {
      SplitToken(words[0], []);
      assert words[0] + [] == words[0] && words == [words[0]];
    } else if |words| > 1 {
      var rest := [SP] + Join(words[1..]);
      SplitJoin(words[1..]);
      SplitToken(words[0], rest);
      assert Join(words) == words[0] + rest;
      assert rest[1..] == Join(words[1..]);
      assert words == [words[0]] + words[1..];
    }
  }

  // ---- Collapse is split and join ----

  lemma {:induction false} SplitSkipsGap(t: Text, e: nat)
    requires e <= |t| && forall j :: 0 <= j < e ==> IsSpace(t[j])
    ensures Split(t) == Split(t[e..])
  {
    if e > 0 {
      SplitSkipsGap(t[1..], e - 1);
      assert t[1..][e - 1..] == t[e..];
    }
  }

  lemma {:induction false} StripLeftIs(t: Text)
    ensures StripLeft(t) == t[GapEnd(t, 0)..]
  {
    if t != [] && IsSpace(t[0]) {
      StripLeftIs(t[1..]);
      var e := GapEnd(t[1..], 0);
      GapEndIs(t, 0, e + 1);
      assert t[1..][e..] == t[e + 1..];
    }
  }

  lemma {:induction false} StripRightPrefix(a: Text, b: Text)
    requires StripRight(b) != []
    ensures StripRight(a + b) == a + StripRight(b)
  {
    var n := |b| - 1;
    assert b == b[..n] + [b[n]];
    assert (a + b)[..|a + b| - 1] == a + b[..n];
    if IsSpace(b[n]) {
      StripRightPrefix(a, b[..n]);
    }
  }

  /** Squeezing a text that does not start with white space. */
  lemma {:induction false} SqueezeTail(t: Text)
    requires t == [] || !IsSpace(t[0])
    ensures StripRight(Squeeze(t)) == Join(Split(t))
    decreases |t|
  {
    if t != [] {
      var e := WordEnd(t, 0);
      var w, rest := t[..e], t[e..];
      assert t == w + rest;
      assert Split(t) == [w] + Split(rest);
      SqueezeWord(w, rest);
      if rest == [] {
        assert w + Squeeze(rest) == w && [w] + Split(rest) == [w];
      } else {
        var more := rest[GapEnd(rest, 0)..];
        SplitSkipsGap(rest, GapEnd(rest, 0));
        SqueezeTail(more);
        SplitGivesTokens(more);
        SqueezedWordThen(w, Squeeze(more), Split(more));
        assert w + ([SP] + Squeeze(more)) == w + Squeeze(rest);
      }
    }
  }

  lemma SqueezedWordThen(w: Text, tail: Text, words: seq<Text>)
    requires IsToken(w) && Tokens(words) && StripRight(tail) == Join(words)
    requires words == [] ==> tail == []
    ensures StripRight(w + ([SP] + tail)) == Join([w] + words)
  {
    var before := w + [SP];
    assert w + ([SP] + tail) == before + tail;
    if words == [] {
      assert before + tail == before && before[..|w|] == w;
    } else {
      assert ([w] + words)[1..] == words;
      StripRightPrefix(before, tail);
    }
  }

  lemma SqueezeGlyph(g: Glyph, t: Text)
    requires !IsSpace(g)
    ensures Squeeze([g] + t) == [g] + Squeeze(t)
  {
  }

  lemma {:induction false} SqueezeWord(w: Text, rest: Text)
    requires forall i :: 0 <= i < |w| ==> !IsSpace(w[i])
    ensures Squeeze(w + rest) == w + Squeeze(rest)
  {
    if w == [] {
      assert w + rest == rest;
    } else {
      var tail := w[1..];
      SqueezeWord(tail, rest);
      SqueezeGlyph(w[0], tail + rest);
      assert w + rest == [w[0]] + (tail + rest);
      assert w + Squeeze(rest) == [w[0]] + (tail + Squeeze(rest));
    }
  }

  /** The regular expression and the string methods agree on collapsing. */
  lemma CollapseIsSplitJoin(t: Text)
    ensures Collapse(t) == Join(Split(t))
  {
    var e := GapEnd(t, 0);
    SplitSkipsGap(t, e);
    SqueezeTail(t[e..]);
  }
}
