/** The stable key of a section: the slug of its heading without its number, made
    unique inside the document (stable_key_for in backend/engine/services/analysis.py). */
module SectionKeys {
  import opened Text
  import opened Normalise
  import opened Order

  // ---- the numbering prefix ----

  function DigitsEnd(t: Text, i: nat): (e: nat)
    requires i <= |t|
    ensures i <= e <= |t|
    decreases |t| - i
  {
    if i < |t| && t[i].Digit? then DigitsEnd(t, i + 1) else i
  }

  /** Where `\d+(?:\.\d+)*` matched from a digit at `i` ends. */
  function NumberEnd(t: Text, i: nat): (e: nat)
    requires i < |t| && t[i].Digit?
    ensures i < e <= |t|
    decreases |t| - i
  {
    var e := DigitsEnd(t, i + 1);
    if e + 1 < |t| && t[e] == Dot && t[e + 1].Digit? then NumberEnd(t, e + 1) else e
  }

  predicate IsMark(g: Glyph) { g == Dot || g == CloseParen }

  function MarkEnd(t: Text, e: nat): (p: nat)
    requires e <= |t|
    ensures e <= p <= |t|
  {
    if e < |t| && IsMark(t[e]) then e + 1 else e
  }

  /** What is left when the number ends at `e`: white space must follow. */
  function AfterNumber(t: Text, e: nat): Text
    requires e <= |t|
  {
    var p := MarkEnd(t, e);
    if p < |t| && IsSpace(t[p]) then t[GapEnd(t, p)..] else t
  }

  /** `HEADING_NUMBER_RE.sub('', t)` with `^\s*(\d+(?:\.\d+)*)[.)]?\s+`. */
  function Unnumbered(t: Text): Text {
    var s := GapEnd(t, 0);
    if s < |t| && t[s].Digit? then AfterNumber(t, NumberEnd(t, s)) else t
  }

  /** A number as headings carry it: digit groups with single dots between them. */
  predicate IsNumber(n: Text)
    decreases |n|
  {
    && n != [] && n[0].Digit?
    && (|n| == 1 || IsNumber(n[1..]) || (n[1] == Dot && IsNumber(n[2..])))
  }

  /** A number, with or without one closing mark. */
  predicate IsNumbering(n: Text) {
    IsNumber(n) || (n != [] && IsMark(n[|n| - 1]) && IsNumber(n[..|n| - 1]))
  }

  predicate AllSpace(t: Text) { forall j :: 0 <= j < |t| ==> IsSpace(t[j]) }

  lemma {:induction false} DigitsEndPast(t: Text, i: nat, e: nat)
    requires i <= e <= |t| && forall j :: i <= j < e ==> t[j].Digit?
    ensures DigitsEnd(t, i) == DigitsEnd(t, e)
    decreases e - i
  {
    if i < e { DigitsEndPast(t, i + 1, e); }
  }

  /** Greedy matching finds the whole number whatever follows, as long as that is
      neither a digit nor a dot before a digit. */
  lemma {:induction false} NumberEndIs(n: Text, rest: Text)
    requires IsNumber(n)
    requires rest == [] || !rest[0].Digit?
    requires |rest| > 1 && rest[0] == Dot ==> !rest[1].Digit?
    ensures NumberEnd(n + rest, 0) == |n|
    decreases |n|
  {
    var t := n + rest;
    if |n| == 1 {
      assert DigitsEnd(t, 1) == 1;
    } else if IsNumber(n[1..]) {
      NumberEndIs(n[1..], rest);
      assert t[1..] == n[1..] + rest;
      NumberEndShift(t, 1, 0);
      assert DigitsEnd(t, 1) == DigitsEnd(t, 2);
    } else {
      NumberEndIs(n[2..], rest);
      assert t[2..] == n[2..] + rest;
      NumberEndShift(t, 2, 0);
      assert t[2] == n[2..][0];
      assert DigitsEnd(t, 1) == 1;
    }
  }

  lemma {:induction false} DigitsEndShift(t: Text, d: nat, i: nat)
    requires d + i <= |t|
    ensures DigitsEnd(t, d + i) == d + DigitsEnd(t[d..], i)
    decreases |t| - i
  {
    if d + i < |t| && t[d + i].Digit? { DigitsEndShift(t, d, i + 1); }
  }

  lemma {:induction false} NumberEndShift(t: Text, d: nat, i: nat)
    requires d + i < |t| && t[d + i].Digit?
    ensures NumberEnd(t, d + i) == d + NumberEnd(t[d..], i)
    decreases |t| - i
  {
    var u := t[d..];
    var e := DigitsEnd(u, i + 1);
    DigitsEndShift(t, d, i + 1);
    assert e + 1 < |u| ==> u[e] == t[d + e] && u[e + 1] == t[d + e + 1];
    if e + 1 < |u| && u[e] == Dot && u[e + 1].Digit? { NumberEndShift(t, d, e + 1); }
  }

  lemma {:induction false} NumberGlyphs(n: Text, k: nat)
    requires IsNumber(n) && k < |n|
    ensures n[k].Digit? || n[k] == Dot
    ensures k == |n| - 1 ==> n[k].Digit?
    decreases |n|
  {
    if k > 0 {
      if IsNumber(n[1..]) {
        NumberGlyphs(n[1..], k - 1);
      } else if k > 1 {
        NumberGlyphs(n[2..], k - 2);
      }
    }
  }

  /** The number, the mark after it and the white space after both. */
  lemma NumberThen(n: Text, mark: Text, gap: Text, rest: Text)
    requires IsNumber(n) && |mark| <= 1 && (mark != [] ==> IsMark(mark[0]))
    requires gap != [] && AllSpace(gap) && (rest == [] || !IsSpace(rest[0]))
    ensures Unnumbered(n + (mark + (gap + rest))) == rest
  {
    var tail := gap + rest;
    var after := mark + tail;
    Regroup(n, mark, tail);
    GapAfter(n + mark, gap, rest);
    NumberEndIs(n, after);
    assert (n + after)[0] == n[0];
  }

  lemma GapAfter(front: Text, gap: Text, rest: Text)
    requires gap != [] && AllSpace(gap) && (rest == [] || !IsSpace(rest[0]))
    ensures var t := front + (gap + rest);
            IsSpace(t[|front|]) && GapEnd(t, |front|) == |front| + |gap| && t[|front| + |gap|..] == rest
  {
    var t := front + (gap + rest);
    assert forall j :: |front| <= j < |front| + |gap| ==> t[j] == gap[j - |front|];
    GapEndIs(t, |front|, |front| + |gap|);
  }

  /** The regular expression takes a numbering and the white space after it away. */
  lemma NumberingGoes(n: Text, gap: Text, rest: Text)
    requires IsNumbering(n) && gap != [] && AllSpace(gap) && (rest == [] || !IsSpace(rest[0]))
    ensures Unnumbered(n + (gap + rest)) == rest
  {
    var tail := gap + rest;
    if IsNumber(n) {
      NumberThen(n, [], gap, rest);
      assert [] + tail == tail;
    } else {
      var front, mark := n[..|n| - 1], [n[|n| - 1]];
      assert n == front + mark;
      NumberThen(front, mark, gap, rest);
      Regroup(front, mark, tail);
    }
  }

  /** A dot or a closing parenthesis after the number goes with it, and nothing else does. */
  lemma EitherMarkGoes(n: Text, gap: Text, rest: Text, mark: Glyph)
    requires IsNumber(n) && gap != [] && AllSpace(gap) && (rest == [] || !IsSpace(rest[0])) && !IsSpace(mark)
    ensures mark == Dot || mark == CloseParen ==> Unnumbered(n + ([mark] + (gap + rest))) == rest
    ensures mark != Dot && mark != CloseParen && !mark.Digit? ==>
              Unnumbered(n + ([mark] + (gap + rest))) == n + ([mark] + (gap + rest))
  {
    if mark == Dot || mark == CloseParen {
      NumberThen(n, [mark], gap, rest);
    } else if !mark.Digit? {
      var after := [mark] + (gap + rest);
      NumberEndIs(n, after);
      assert (n + after)[0] == n[0] && (n + after)[|n|] == mark;
    }
  }

  lemma {:induction false} NumberEndIsNumber(t: Text, i: nat)
    requires i < |t| && t[i].Digit?
    ensures IsNumber(t[i..NumberEnd(t, i)])
    decreases |t| - i
  {
    var e := DigitsEnd(t, i + 1);
    var n := t[i..NumberEnd(t, i)];
    if i + 1 < |t| && t[i + 1].Digit? {
      NumberEndIsNumber(t, i + 1);
      assert n[1..] == t[i + 1..NumberEnd(t, i + 1)];
    } else if e + 1 < |t| && t[e] == Dot && t[e + 1].Digit? {
      NumberEndIsNumber(t, e + 1);
      assert n[2..] == t[e + 1..NumberEnd(t, e + 1)];
    }
  }

  lemma CutAfterNumber(t: Text)
    requires t != [] && !IsSpace(t[0]) && Unnumbered(t) != t
    ensures t[0].Digit?
    ensures var p := MarkEnd(t, NumberEnd(t, 0)); p < |t| && IsSpace(t[p]) && Unnumbered(t) == t[GapEnd(t, p)..]
  {
    assert GapEnd(t, 0) == 0;
  }

  /** Nothing but a numbering and white space is ever taken away. */
  lemma OnlyNumberingGoes(t: Text) returns (n: Text, gap: Text)
    requires t != [] && !IsSpace(t[0]) && Unnumbered(t) != t
    ensures IsNumbering(n) && gap != [] && AllSpace(gap) && t == n + (gap + Unnumbered(t))
  {
    CutAfterNumber(t);
    var e := NumberEnd(t, 0);
    var p := MarkEnd(t, e);
    var q := GapEnd(t, p);
    NumberEndIsNumber(t, 0);
    MarkedNumber(t, e);
    GapIsSpace(t, p);
    n, gap := t[..p], t[p..q];
    ThreeParts(t, p, q);
  }

  lemma ThreeParts(t: Text, p: nat, q: nat)
    requires p <= q <= |t|
    ensures t == t[..p] + (t[p..q] + t[q..])
  {
  }

  lemma GapIsSpace(t: Text, p: nat)
    requires p <= |t|
    ensures AllSpace(t[p..GapEnd(t, p)])
  {
  }

  lemma MarkedNumber(t: Text, e: nat)
    requires e <= |t| && IsNumber(t[0..e])
    ensures IsNumbering(t[..MarkEnd(t, e)])
  {
    var n := t[..MarkEnd(t, e)];
    if MarkEnd(t, e) > e {
      assert n[|n| - 1] == t[e] && n[..|n| - 1] == t[0..e];
    } else {
      assert n == t[0..e];
    }
  }

  // ---- the heading without its number, and without a word about how it is found ----

  /** A numbering, white space, and `rest`, which starts with neither. */
  ghost predicate Prefixed(t: Text, n: Text, gap: Text, rest: Text) {
    IsNumbering(n) && gap != [] && AllSpace(gap) && (rest == [] || !IsSpace(rest[0])) && t == n + (gap + rest)
  }

  /** What comes after the numbering and its white space, or all if there is none. */
  ghost predicate Stripped(t: Text, title: Text) {
    || (exists n, gap :: Prefixed(t, n, gap, title))
    || (title == t && forall n, gap, rest :: !Prefixed(t, n, gap, rest))
  }

  lemma StrippedIff(t: Text, title: Text)
    requires t == [] || !IsSpace(t[0])
    ensures Stripped(t, title) <==> Unnumbered(t) == title
  {
    if n, gap, rest :| Prefixed(t, n, gap, rest) {
      NumberingGoes(n, gap, rest);
      assert Unnumbered(t) == rest && |rest| < |t|;
      forall m, wide, other | Prefixed(t, m, wide, other) ensures other == rest {
        NumberingGoes(m, wide, other);
      }
    } else if Unnumbered(t) != t {
      var n, gap := OnlyNumberingGoes(t);
      UnnumberedStart(t);
      assert Prefixed(t, n, gap, Unnumbered(t));
    }
  }

  lemma UnnumberedStart(t: Text)
    requires t == [] || !IsSpace(t[0])
    ensures Unnumbered(t) == [] || !IsSpace(Unnumbered(t)[0])
  {
    if Unnumbered(t) != t { CutAfterNumber(t); }
  }

  // ---- the numbering survives normalisation ----

  lemma {:induction false} DehyphenatePlain(n: Text, rest: Text)
    requires forall i :: 0 <= i < |n| ==> n[i] != Hyphen
    requires rest != [] && rest[0] != Hyphen
    ensures Dehyphenate(n + rest) == n + Dehyphenate(rest)
  {
    if n == [] {
      assert n + rest == rest;
    } else {
      var first, more := [n[0]], n[1..];
      assert n == first + more;
      assert (more + rest)[0] == if |n| > 1 then n[1] else rest[0];
      DehyphenatePlain(more, rest);
      Regroup(first, more, rest);
      DehyphenateOther(n[0], more + rest);
      Regroup(first, more, Dehyphenate(rest));
    }
  }

  lemma NumberingGlyphs(n: Text, k: nat)
    requires IsNumbering(n) && k < |n|
    ensures n[k] != Hyphen && !IsSpace(n[k])
  {
    if IsNumber(n) {
      NumberGlyphs(n, k);
    } else if k < |n| - 1 {
      NumberGlyphs(n[..|n| - 1], k);
    }
  }

  lemma NumberingIsToken(n: Text)
    requires IsNumbering(n)
    ensures IsToken(n) && forall i :: 0 <= i < |n| ==> n[i] != Hyphen
  {
    forall k | 0 <= k < |n| ensures n[k] != Hyphen && !IsSpace(n[k]) {
      NumberingGlyphs(n, k);
    }
  }

  lemma NormalizeNumbered(n: Text, gap: Text, rest: Text)
    requires IsNumbering(n) && gap != [] && AllSpace(gap) && Split(Dehyphenate(rest)) != []
    ensures NormalizeText(n + (gap + rest)) == n + ([SP] + NormalizeText(rest))
  {
    var words := Split(Dehyphenate(rest));
    NumberingIsToken(n);
    DehyphenatePlain(n, gap + rest);
    SplitAfterGap(gap, rest);
    var tail := Dehyphenate(gap + rest);
    SplitToken(n, tail);
    CollapseIsSplitJoin(n + tail);
    CollapseIsSplitJoin(Dehyphenate(rest));
  }

  lemma SplitAfterGap(gap: Text, rest: Text)
    requires gap != [] && AllSpace(gap)
    ensures Dehyphenate(gap + rest) != [] && IsSpace(Dehyphenate(gap + rest)[0])
    ensures Split(Dehyphenate(gap + rest)) == Split(Dehyphenate(rest))
  {
    var s := Dehyphenate(rest);
    assert (gap + rest)[..|gap|] == gap && (gap + rest)[|gap|..] == rest;
    DehyphenateGap(gap + rest, |gap|);
    SplitSkipsGap(gap + s, |gap|);
    assert (gap + s)[|gap|..] == s;
  }

  // ---- keys, and what is appended to make them unique ----

  function Decimal(n: nat): string {
    if n < 10 then [DigitChar(n)] else Decimal(n / 10) + [DigitChar(n % 10)]
  }

  function DigitChar(d: nat): (c: char)
    requires d < 10
  {
    (48 + d) as char
  }

  function Value(s: string): int {
    if s == [] then 0 else 10 * Value(s[..|s| - 1]) + (s[|s| - 1] as int - 48)
  }

  /** Decimal notation is injective. */
  lemma {:induction false} ValueOfDecimal(n: nat)
    ensures Value(Decimal(n)) == n
  {
    var s := Decimal(n);
    if n < 10 {
      assert s[..0] == [] && Value([]) == 0;
    } else {
      ValueOfDecimal(n / 10);
      assert s[..|s| - 1] == Decimal(n / 10);
    }
  }

  /** Nothing but digits, and no zero in front. */
  lemma {:induction false} DecimalDigits(n: nat)
    ensures Decimal(n) != "" && forall i :: 0 <= i < |Decimal(n)| ==> '0' <= Decimal(n)[i] <= '9'
    ensures n > 0 ==> Decimal(n)[0] != '0'
  {
    if n >= 10 { DecimalDigits(n / 10); }
  }

  /** The key at the `k`th attempt: the base itself, then base-2, base-3, ... */
  function Candidate(base: string, k: nat): string {
    if k <= 1 then base else base + "-" + Decimal(k)
  }

  lemma CandidatesDiffer(base: string, j: nat, k: nat)
    requires 1 <= j < k
    ensures Candidate(base, j) != Candidate(base, k)
  {
    ValueOfDecimal(j);
    ValueOfDecimal(k);
    if j > 1 {
      var x, y := Candidate(base, j), Candidate(base, k);
      assert x[|base| + 1..] == Decimal(j) && y[|base| + 1..] == Decimal(k);
    } else {
      assert |Candidate(base, k)| > |base|;
    }
  }

  /** The first attempt from the `k`th on that is not taken. */
  function FirstFree(base: string, taken: set<string>, k: nat): (r: nat)
    requires k >= 1
    ensures r >= k && Candidate(base, r) !in taken
    ensures forall j :: k <= j < r ==> Candidate(base, j) in taken
    decreases |taken|
  {
    if Candidate(base, k) !in taken then k
    else
      var r := FirstFree(base, taken - {Candidate(base, k)}, k + 1);
      CandidatesDiffer(base, k, r);
      r
  }

  function UniqueKey(base: string, taken: set<string>): string {
    Candidate(base, FirstFree(base, taken, 1))
  }

  const FALLBACK := "seccion"

  /** `slugify(stripped)[:200] or 'seccion'`; slugify itself is a parameter. */
  function Base(slugify: Text -> string, heading: Text): string {
    var slug := slugify(Unnumbered(NormalizeText(heading)));
    var cut := if |slug| > 200 then slug[..200] else slug;
    if cut == "" then FALLBACK else cut
  }

  // ---- the key of a heading, without a word about how it is found ----

  /** At most 200 characters of the slug, and never nothing. */
  ghost predicate CutSlug(slug: string, base: string) {
    && (slug == "" ==> base == "seccion")
    && (0 < |slug| <= 200 ==> base == slug)
    && (|slug| > 200 ==> |base| == 200 && base <= slug)
  }

  /** The slug of the heading without its number. */
  ghost predicate IsBase(slugify: Text -> string, heading: Text, base: string) {
    exists title :: Stripped(NormalizeText(heading), title) && CutSlug(slugify(title), base)
  }

  /** The base if it is free, or else with the least number from 2 on that makes it so. */
  ghost predicate Picks(base: string, taken: set<string>, key: string) {
    && key !in taken
    && (base !in taken ==> key == base)
    && (base in taken ==>
          exists k :: k >= 2 && key == Suffixed(base, k) && forall j :: 2 <= j < k ==> Suffixed(base, j) in taken)
  }

  function Suffixed(base: string, k: nat): string { base + "-" + Decimal(k) }

  ghost predicate KeyFor(slugify: Text -> string, heading: Text, taken: set<string>, key: string) {
    exists base :: IsBase(slugify, heading, base) && Picks(base, taken, key)
  }

  lemma BaseIs(slugify: Text -> string, heading: Text, base: string)
    ensures IsBase(slugify, heading, base) <==> Base(slugify, heading) == base
  {
    var t := NormalizeText(heading);
    CollapsedStart(Dehyphenate(heading));
    forall title ensures Stripped(t, title) <==> Unnumbered(t) == title {
      StrippedIff(t, title);
    }
    var slug := slugify(Unnumbered(t));
    if |slug| > 200 && CutSlug(slug, base) { assert base == slug[..200]; }
  }

  lemma UniqueKeyPicks(base: string, taken: set<string>)
    ensures Picks(base, taken, UniqueKey(base, taken))
  {
    var r := FirstFree(base, taken, 1);
    if base in taken {
      assert r >= 2 by { assert Candidate(base, 1) == base; }
      forall j | 2 <= j < r ensures Suffixed(base, j) in taken {
        assert Candidate(base, j) in taken;
      }
      assert UniqueKey(base, taken) == Suffixed(base, r);
    }
  }

  lemma PicksOne(base: string, taken: set<string>, x: string, y: string)
    requires Picks(base, taken, x) && Picks(base, taken, y)
    ensures x == y
  {
    if base in taken {
      var j :| j >= 2 && x == Suffixed(base, j) && forall i :: 2 <= i < j ==> Suffixed(base, i) in taken;
      var k :| k >= 2 && y == Suffixed(base, k) && forall i :: 2 <= i < k ==> Suffixed(base, i) in taken;
      assert j == k;
    }
  }

  /** That says which key it is. */
  lemma KeyForIff(slugify: Text -> string, heading: Text, taken: set<string>, key: string)
    ensures KeyFor(slugify, heading, taken, key) <==> key == UniqueKey(Base(slugify, heading), taken)
  {
    var base := Base(slugify, heading);
    BaseIs(slugify, heading, base);
    UniqueKeyPicks(base, taken);
    if other :| IsBase(slugify, heading, other) && Picks(other, taken, key) {
      BaseIs(slugify, heading, other);
      PicksOne(base, taken, key, UniqueKey(base, taken));
    }
  }

  /** The loop over suffixes ends, with the first key that is free. */
  method StableKeyFor(slugify: Text -> string, heading: Text, taken: set<string>)
    returns (key: string, takenNow: set<string>)
    ensures key == UniqueKey(Base(slugify, heading), taken) && KeyFor(slugify, heading, taken, key)
    ensures key !in taken && takenNow == taken + {key}
  {
    var base := Base(slugify, heading);
    key := base;
    var suffix := 1;
    ghost var tried: set<string> := {};
    while key in taken
      invariant 1 <= suffix && key == Candidate(base, suffix)
      invariant tried <= taken && |tried| == suffix - 1
      invariant forall x :: x in tried ==> exists j :: 1 <= j < suffix && x == Candidate(base, j)
      invariant forall j :: 1 <= j < suffix ==> Candidate(base, j) in taken
      decreases |taken| - |tried|
    {
      forall j | 1 <= j < suffix ensures Candidate(base, j) != key {
        CandidatesDiffer(base, j, suffix);
      }
      SubsetSize(tried + {key}, taken);
      tried := tried + {key};
      suffix := suffix + 1;
      key := base + "-" + Decimal(suffix);
    }
    takenNow := taken + {key};
    KeyForIff(slugify, heading, taken, key);
  }

  lemma SubsetSize<T>(a: set<T>, b: set<T>)
    requires a <= b
    ensures |a| <= |b|
  {
    assert b == a + (b - a);
  }

  // ---- the keys of a whole document ----

  /** The keys handed out one heading after the other. */
  function Keys(slugify: Text -> string, headings: seq<Text>, taken: set<string>): (keys: seq<string>)
    ensures |keys| == |headings|
    decreases |headings|
  {
    if headings == [] then []
    else
      var key := UniqueKey(Base(slugify, headings[0]), taken);
      [key] + Keys(slugify, headings[1..], taken + {key})
  }

  /** No two sections of a document share a key, and none takes one already taken. */
  lemma {:induction false} KeysDistinct(slugify: Text -> string, headings: seq<Text>, taken: set<string>)
    ensures Distinct(Keys(slugify, headings, taken))
    ensures forall x :: x in Keys(slugify, headings, taken) ==> x !in taken
    decreases |headings|
  {
    if headings != [] {
      var key := UniqueKey(Base(slugify, headings[0]), taken);
      KeysDistinct(slugify, headings[1..], taken + {key});
    }
  }

  function SetOf(keys: seq<string>): set<string> { set x | x in keys }

  /** Every heading gets its key, with those of the headings before it taken. */
  lemma {:induction false} EachGetsItsKey(slugify: Text -> string, headings: seq<Text>, taken: set<string>, i: nat)
    requires i < |headings|
    ensures var keys := Keys(slugify, headings, taken);
            KeyFor(slugify, headings[i], taken + SetOf(keys[..i]), keys[i])
    decreases |headings|
  {
    var key := UniqueKey(Base(slugify, headings[0]), taken);
    var keys := Keys(slugify, headings, taken);
    if i == 0 {
      KeyForIff(slugify, headings[0], taken, key);
      assert taken + SetOf(keys[..0]) == taken;
    } else {
      EachGetsItsKey(slugify, headings[1..], taken + {key}, i - 1);
      assert keys[1..] == Keys(slugify, headings[1..], taken + {key});
      assert keys[..i] == [key] + keys[1..][..i - 1];
      assert taken + SetOf(keys[..i]) == (taken + {key}) + SetOf(keys[1..][..i - 1]);
    }
  }

  /** Headings whose slugs differ get exactly these. */
  lemma {:induction false} DifferentSlugsStay(slugify: Text -> string, headings: seq<Text>, bases: seq<string>, i: nat)
    requires |bases| == |headings| && i < |headings| && Distinct(bases)
    requires forall j :: 0 <= j < |headings| ==> IsBase(slugify, headings[j], bases[j])
    ensures Keys(slugify, headings, {})[i] == bases[i]
  {
    var keys := Keys(slugify, headings, {});
    forall j | 0 <= j < i ensures keys[j] == bases[j] {
      DifferentSlugsStay(slugify, headings, bases, j);
    }
    EachGetsItsKey(slugify, headings, {}, i);
    var base :| IsBase(slugify, headings[i], base) && Picks(base, {} + SetOf(keys[..i]), keys[i]);
    BaseIs(slugify, headings[i], base);
    BaseIs(slugify, headings[i], bases[i]);
    assert forall j :: 0 <= j < i ==> keys[j] != bases[i];
    assert base !in SetOf(keys[..i]);
  }

  ghost predicate GetTheirKeys(slugify: Text -> string, headings: seq<Text>, keys: seq<string>) {
    |keys| == |headings| && forall i :: 0 <= i < |keys| ==> KeyFor(slugify, headings[i], SetOf(keys[..i]), keys[i])
  }

  /** The loop of `analyze_bytes` that hands the keys out. */
  method DocumentKeys(slugify: Text -> string, headings: seq<Text>) returns (keys: seq<string>)
    ensures keys == Keys(slugify, headings, {})
    ensures Distinct(keys)
    ensures GetTheirKeys(slugify, headings, keys)
  {
    var taken: set<string> := {};
    keys := [];
    var i := 0;
    while i < |headings|
      invariant 0 <= i <= |headings|
      invariant Keys(slugify, headings, {}) == keys + Keys(slugify, headings[i..], taken)
    {
      var key, now := StableKeyFor(slugify, headings[i], taken);
      Regroup(keys, [key], Keys(slugify, headings[i..][1..], now));
      assert headings[i..][1..] == headings[i + 1..];
      keys, taken, i := keys + [key], now, i + 1;
    }
    KeysDistinct(slugify, headings, {});
    AllGetTheirKeys(slugify, headings, keys);
  }

  lemma AllGetTheirKeys(slugify: Text -> string, headings: seq<Text>, keys: seq<string>)
    requires keys == Keys(slugify, headings, {})
    ensures GetTheirKeys(slugify, headings, keys)
  {
    forall i | 0 <= i < |keys| ensures KeyFor(slugify, headings[i], SetOf(keys[..i]), keys[i]) {
      EachGetsItsKey(slugify, headings, {}, i);
      assert {} + SetOf(keys[..i]) == SetOf(keys[..i]);
    }
  }

  /** A numbering, white space and words that do not vanish in normalisation. */
  ghost predicate NumberedAs(h: Text, n: Text, gap: Text, words: Text) {
    && IsNumbering(n) && gap != [] && AllSpace(gap) && Split(Dehyphenate(words)) != []
    && h == n + (gap + words)
  }

  /** The same words under another number. */
  ghost predicate Renumbered(h: Text, g: Text) {
    exists n, gap, m, wide, words :: NumberedAs(h, n, gap, words) && NumberedAs(g, m, wide, words)
  }

  lemma CollapsedStart(t: Text)
    ensures Collapse(t) == [] || !IsSpace(Collapse(t)[0])
  {
    SplitGivesTokens(t);
    CollapseIsSplitJoin(t);
    if |Split(t)| > 1 {
      assert Join(Split(t))[0] == Split(t)[0][0];
    }
  }

  lemma NumberedBase(h: Text, n: Text, gap: Text, words: Text)
    requires NumberedAs(h, n, gap, words)
    ensures Unnumbered(NormalizeText(h)) == NormalizeText(words)
  {
    NormalizeNumbered(n, gap, words);
    CollapsedStart(Dehyphenate(words));
    NumberingGoes(n, [SP], NormalizeText(words));
  }

  /** What a numbered heading goes by are its words. */
  lemma NumberedTitle(h: Text, n: Text, gap: Text, words: Text)
    requires NumberedAs(h, n, gap, words)
    ensures Stripped(NormalizeText(h), NormalizeText(words))
  {
    NumberedBase(h, n, gap, words);
    CollapsedStart(Dehyphenate(h));
    StrippedIff(NormalizeText(h), NormalizeText(words));
  }

  lemma RenumberedBase(slugify: Text -> string, h: Text, g: Text)
    requires Renumbered(h, g)
    ensures Base(slugify, h) == Base(slugify, g)
  {
    var n, gap, m, wide, words :| NumberedAs(h, n, gap, words) && NumberedAs(g, m, wide, words);
    NumberedBase(h, n, gap, words);
    NumberedBase(g, m, wide, words);
  }

  /** Renumbering any of the headings leaves the whole key list as it was. */
  lemma {:induction false} RenumberingKeepsKeys(slugify: Text -> string, before: seq<Text>, after: seq<Text>,
                                                taken: set<string>)
    requires |before| == |after|
    requires forall i :: 0 <= i < |before| ==> before[i] == after[i] || Renumbered(before[i], after[i])
    ensures Keys(slugify, before, taken) == Keys(slugify, after, taken)
    decreases |before|
  {
    if before != [] {
      if before[0] != after[0] { RenumberedBase(slugify, before[0], after[0]); }
      var key := UniqueKey(Base(slugify, before[0]), taken);
      RenumberingKeepsKeys(slugify, before[1..], after[1..], taken + {key});
    }
  }

  /** Sections added at the end change no key before them. */
  lemma {:induction false} AppendingKeepsKeys(slugify: Text -> string, headings: seq<Text>, more: seq<Text>,
                                              taken: set<string>)
    ensures Keys(slugify, headings + more, taken)[..|headings|] == Keys(slugify, headings, taken)
    decreases |headings|
  {
    if headings != [] {
      var key := UniqueKey(Base(slugify, headings[0]), taken);
      var rest := headings[1..];
      AppendingKeepsKeys(slugify, rest, more, taken + {key});
      assert (headings + more)[1..] == rest + more;
      assert Keys(slugify, headings + more, taken) == [key] + Keys(slugify, rest + more, taken + {key});
    }
  }
}
