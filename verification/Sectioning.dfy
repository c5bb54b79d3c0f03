/** extract_sections of backend/engine/services/analysis.py: a stream of styled lines cut into
    sections at its headings. */
module Sectioning {
  import opened Text
  import opened Normalise
  import opened SectionKeys

  /** A line of the document; whether it reads as a heading is decided by style and wording. */
  datatype Line = Line(page: nat, text: Text, heading: bool, box: int)

  datatype Section = Section(heading: Text, level: nat, order: nat, pageStart: nat, pageEnd: nat,
                             body: seq<Text>, boxes: seq<int>, preamble: bool)

  /** The heading of whatever comes before the first heading. */
  const PREAMBLE: Text := [Word(80), Word(114), Word(101), Word(225), Word(109), Word(98), Word(117), Word(108),
                           Word(111)]

  /** `_heading_level`: 2 under a number with a dot in it. */
  function Level(t: Text): nat {
    var s := GapEnd(t, 0);
    if s < |t| && t[s].Digit? && NumberEnd(t, s) > DigitsEnd(t, s + 1) && Unnumbered(t) != t then 2 else 1
  }

  /** White space, a number, perhaps a mark, and white space again: how a numbered heading starts. */
  ghost predicate Numbered(t: Text, front: Text, n: Text, mark: Text, gap: Text, rest: Text) {
    && AllSpace(front) && IsNumber(n) && |mark| <= 1 && (mark != [] ==> IsMark(mark[0]))
    && AllSpace(gap) && gap != [] && t == front + (n + (mark + (gap + rest)))
  }

  /** Level 2 is for numbers with a dot in them, as long as they are followed by white space. */
  lemma LevelIff(t: Text)
    ensures Level(t) in {1, 2}
    ensures Level(t) == 2 <==> exists front, n, mark, gap, rest :: Numbered(t, front, n, mark, gap, rest) && Dot in n
  {
    if Level(t) == 2 { var front, n, mark, gap, rest := LevelTwo(t); }
    if front, n, mark, gap, rest :| Numbered(t, front, n, mark, gap, rest) && Dot in n {
      DottedNumber(t, front, n, mark, gap, rest);
    }
  }

  /** Where the parts of a heading of level 2 end. */
  lemma LevelParts(t: Text)
    requires Level(t) == 2
    ensures var s := GapEnd(t, 0);
            && s < |t| && t[s].Digit? && NumberEnd(t, s) > DigitsEnd(t, s + 1)
            && var p := MarkEnd(t, NumberEnd(t, s)); p < |t| && IsSpace(t[p])
  {
  }

  lemma LevelTwo(t: Text) returns (front: Text, n: Text, mark: Text, gap: Text, rest: Text)
    requires Level(t) == 2
    ensures Numbered(t, front, n, mark, gap, rest) && Dot in n
  {
    LevelParts(t);
    var s := GapEnd(t, 0);
    var e := NumberEnd(t, s);
    var p := MarkEnd(t, e);
    var q := GapEnd(t, p);
    GapIsSpace(t, 0);
    GapIsSpace(t, p);
    NumberEndIsNumber(t, s);
    DotAfterDigits(t, s);
    FiveParts(t, s, e, p, q);
    front, n, mark, gap, rest := t[..s], t[s..e], t[e..p], t[p..q], t[q..];
    NumberedParts(t, s, e, p, q);
  }

  lemma NumberedParts(t: Text, s: nat, e: nat, p: nat, q: nat)
    requires s <= e <= p < q <= |t| && AllSpace(t[0..s]) && AllSpace(t[p..q]) && IsNumber(t[s..e])
    requires p == e || (p == e + 1 && IsMark(t[e]))
    ensures Numbered(t, t[..s], t[s..e], t[e..p], t[p..q], t[q..])
  {
    assert t[..s] == t[0..s];
    FiveParts(t, s, e, p, q);
  }

  lemma FiveParts(t: Text, s: nat, e: nat, p: nat, q: nat)
    requires s <= e <= p <= q <= |t|
    ensures t == t[..s] + (t[s..e] + (t[e..p] + (t[p..q] + t[q..])))
  {
  }

  lemma DotAfterDigits(t: Text, s: nat)
    requires s < |t| && t[s].Digit? && NumberEnd(t, s) > DigitsEnd(t, s + 1)
    ensures Dot in t[s..NumberEnd(t, s)]
  {
    var d := DigitsEnd(t, s + 1);
    assert t[s..NumberEnd(t, s)][d - s] == Dot;
  }

  /** The same without white space in front. */
  lemma DottedStart(n: Text, mark: Text, gap: Text, rest: Text)
    requires IsNumber(n) && |mark| <= 1 && (mark != [] ==> IsMark(mark[0])) && AllSpace(gap) && gap != [] && Dot in n
    ensures var u := n + (mark + (gap + rest));
            && u != [] && u[0].Digit? && NumberEnd(u, 0) == |n| > DigitsEnd(u, 1)
            && var p := MarkEnd(u, |n|); p < |u| && IsSpace(u[p])
  {
    var tail := mark + (gap + rest);
    var u := n + tail;
    assert u[0] == n[0] && (gap + rest)[0] == gap[0];
    if mark == [] {
      assert tail == gap + rest;
    } else {
      assert tail[0] == mark[0] && tail[1] == (gap + rest)[0];
    }
    NumberEndIs(n, tail);
    assert u[|n|] == tail[0];
    if mark != [] { assert u[|n| + 1] == tail[1]; }
    var d :| 0 <= d < |n| && n[d] == Dot;
    assert u[d] == Dot && d > 0;
    DigitsEndBefore(u, 1, d);
  }

  lemma DottedNumber(t: Text, front: Text, n: Text, mark: Text, gap: Text, rest: Text)
    requires Numbered(t, front, n, mark, gap, rest) && Dot in n
    ensures Level(t) == 2
  {
    DottedStart(n, mark, gap, rest);
    LevelShifted(t, front, n + (mark + (gap + rest)));
  }

  lemma LevelShifted(t: Text, front: Text, u: Text)
    requires t == front + u && AllSpace(front) && u != [] && u[0].Digit? && NumberEnd(u, 0) > DigitsEnd(u, 1)
    requires var p := MarkEnd(u, NumberEnd(u, 0)); p < |u| && IsSpace(u[p])
    ensures Level(t) == 2
  {
    GapInFront(t, front, u);
    LevelOf(t, |front|, u, DigitsEnd(u, 1), NumberEnd(u, 0), MarkEnd(u, NumberEnd(u, 0)));
  }

  lemma GapInFront(t: Text, front: Text, u: Text)
    requires t == front + u && AllSpace(front) && u != [] && !IsSpace(u[0])
    ensures GapEnd(t, 0) == |front| && t[|front|..] == u
  {
    GapEndIs(t, 0, |front|);
  }

  lemma LevelOf(t: Text, s: nat, u: Text, d: nat, e: nat, p: nat)
    requires s <= |t| && s == GapEnd(t, 0) && t[s..] == u && u != [] && u[0].Digit?
    requires d == DigitsEnd(u, 1) < e == NumberEnd(u, 0) && p == MarkEnd(u, e) && p < |u| && IsSpace(u[p])
    ensures Level(t) == 2
  {
    PartsShifted(t, s, u, d, e, p);
    LevelFrom(t, s, s + e, s + p);
  }

  lemma PartsShifted(t: Text, s: nat, u: Text, d: nat, e: nat, p: nat)
    requires s <= |t| && t[s..] == u && u != [] && u[0].Digit?
    requires d == DigitsEnd(u, 1) && e == NumberEnd(u, 0) && p == MarkEnd(u, e) && p < |u|
    ensures t[s].Digit? && NumberEnd(t, s) == s + e && DigitsEnd(t, s + 1) == s + d
    ensures MarkEnd(t, s + e) == s + p && t[s + p] == u[p]
  {
    NumberEndShift(t, s, 0);
    DigitsEndShift(t, s, 1);
    MarkEndShift(t, s, e);
  }

  lemma LevelFrom(t: Text, s: nat, e: nat, p: nat)
    requires s == GapEnd(t, 0) && s < |t| && t[s].Digit? && e == NumberEnd(t, s) > DigitsEnd(t, s + 1)
    requires p == MarkEnd(t, e) && p < |t| && IsSpace(t[p])
    ensures Level(t) == 2
  {
    assert Unnumbered(t) == t[GapEnd(t, p)..];
    assert |Unnumbered(t)| < |t|;
  }

  lemma MarkEndShift(t: Text, s: nat, e: nat)
    requires s + e <= |t|
    ensures MarkEnd(t, s + e) == s + MarkEnd(t[s..], e)
  {
  }

  lemma {:induction false} DigitsEndBefore(t: Text, i: nat, d: nat)
    requires i <= d < |t| && !t[d].Digit?
    ensures DigitsEnd(t, i) <= d
    decreases d - i
  {
    if i < d && t[i].Digit? { DigitsEndBefore(t, i + 1, d); }
  }

  function Texts(lines: seq<Line>): seq<Text> {
    if lines == [] then [] else Texts(lines[..|lines| - 1]) + [lines[|lines| - 1].text]
  }

  function Boxes(lines: seq<Line>): seq<int> {
    if lines == [] then [] else Boxes(lines[..|lines| - 1]) + [lines[|lines| - 1].box]
  }

  /** The lines a section stands for: its heading, if it has one, and its body. */
  ghost predicate StandsFor(s: Section, lines: seq<Line>) {
    && lines != []
    && s.pageStart == lines[0].page && s.pageEnd == lines[|lines| - 1].page
    && s.boxes == Boxes(lines)
    && (s.preamble <==> !lines[0].heading)
    && (forall i :: 1 <= i < |lines| ==> !lines[i].heading)
    && (if s.preamble then s.heading == PREAMBLE && s.level == 1 && s.body == Texts(lines)
        else
          s.heading == NormalizeText(lines[0].text) && s.level == Level(lines[0].text) && s.body == Texts(lines[1..]))
  }

  /** Lines that follow one another. */
  datatype Piece = Piece(lines: seq<Line>)

  function Flat(pieces: seq<Piece>): seq<Line> {
    if pieces == [] then [] else Flat(pieces[..|pieces| - 1]) + pieces[|pieces| - 1].lines
  }

  /** The `i`th section, and the lines it stands for. */
  ghost predicate Stands(sections: seq<Section>, pieces: seq<Piece>, i: nat)
    requires i < |sections| == |pieces|
  {
    StandsFor(sections[i], pieces[i].lines) && sections[i].order == i && (sections[i].preamble ==> i == 0)
  }

  /** The sections cut the lines up into pieces, in order and without a rest. */
  ghost predicate CutsUp(sections: seq<Section>, pieces: seq<Piece>, lines: seq<Line>) {
    && |sections| == |pieces| && Flat(pieces) == lines
    && forall i: nat :: i < |sections| ==> Stands(sections, pieces, i)
  }

  lemma FlatNext(pieces: seq<Piece>, p: Piece)
    ensures Flat(pieces + [p]) == Flat(pieces) + p.lines
  {
  }

  /** A line that is no heading goes into the section at hand. */
  function Grown(s: Section, l: Line): Section {
    s.(body := s.body + [l.text], boxes := s.boxes + [l.box], pageEnd := l.page)
  }

  lemma GrownStands(s: Section, lines: seq<Line>, l: Line)
    requires StandsFor(s, lines) && !l.heading
    ensures StandsFor(Grown(s, l), lines + [l])
  {
    assert (lines + [l])[1..] == lines[1..] + [l];
  }

  function Opened(l: Line, order: nat): Section {
    if l.heading then Section(NormalizeText(l.text), Level(l.text), order, l.page, l.page, [], [l.box], false)
    else Section(PREAMBLE, 1, order, l.page, l.page, [l.text], [l.box], true)
  }

  lemma CutsGrow(sections: seq<Section>, pieces: seq<Piece>, lines: seq<Line>, l: Line)
    requires CutsUp(sections, pieces, lines) && sections != [] && !l.heading
    ensures var n := |sections| - 1;
            CutsUp(sections[n := Grown(sections[n], l)], pieces[n := Piece(pieces[n].lines + [l])], lines + [l])
  {
    var n := |sections| - 1;
    var grown, longer := sections[n := Grown(sections[n], l)], pieces[n := Piece(pieces[n].lines + [l])];
    assert Stands(sections, pieces, n);
    GrownStands(sections[n], pieces[n].lines, l);
    forall i: nat | i < |grown| ensures Stands(grown, longer, i) {
      assert Stands(sections, pieces, i);
    }
  }

  lemma CutsOpen(sections: seq<Section>, pieces: seq<Piece>, lines: seq<Line>, l: Line)
    requires CutsUp(sections, pieces, lines) && (l.heading || sections == [])
    ensures CutsUp(sections + [Opened(l, |sections|)], pieces + [Piece([l])], lines + [l])
  {
    var more, longer := sections + [Opened(l, |sections|)], pieces + [Piece([l])];
    FlatNext(pieces, Piece([l]));
    forall i: nat | i < |more| ensures Stands(more, longer, i) {
      if i < |sections| { assert Stands(sections, pieces, i); }
    }
  }

  /** The loop over the lines. */
  method CutIntoSections(lines: seq<Line>) returns (sections: seq<Section>)
    ensures exists pieces :: CutsUp(sections, pieces, lines)
  {
    sections := [];
    ghost var pieces: seq<Piece> := [];
    var order, i := 0, 0;
    while i < |lines|
      invariant 0 <= i <= |lines| && order == |sections|
      invariant CutsUp(sections, pieces, lines[..i])
    {
      var l := lines[i];
      assert lines[..i + 1] == lines[..i] + [l];
      if l.heading {
        CutsOpen(sections, pieces, lines[..i], l);
        var one := Section(NormalizeText(l.text), Level(l.text), order, l.page, l.page, [], [l.box], false);
        assert one == Opened(l, |sections|);
        sections := sections + [one];
        pieces := pieces + [Piece([l])];
        order := order + 1;
      } else if sections == [] {
        CutsOpen(sections, pieces, lines[..i], l);
        var one := Section(PREAMBLE, 1, order, l.page, l.page, [l.text], [l.box], true);
        assert one == Opened(l, |sections|);
        sections := sections + [one];
        pieces := pieces + [Piece([l])];
        order := order + 1;
      } else {
        var n := |sections| - 1;
        CutsGrow(sections, pieces, lines[..i], l);
        sections := sections[n := Grown(sections[n], l)];
        pieces := pieces[n := Piece(pieces[n].lines + [l])];
      }
      i := i + 1;
    }
    assert lines[..i] == lines;
  }

  // ---- nothing is lost and nothing moves ----

  function AllBoxes(sections: seq<Section>): seq<int> {
    if sections == [] then [] else AllBoxes(sections[..|sections| - 1]) + sections[|sections| - 1].boxes
  }

  /** What a section carries of the words of its lines: all but the heading's. */
  function AllBodies(sections: seq<Section>): seq<Text> {
    if sections == [] then [] else AllBodies(sections[..|sections| - 1]) + sections[|sections| - 1].body
  }

  function BodyLines(lines: seq<Line>): seq<Line> {
    if lines == [] then []
    else
      var n := |lines| - 1;
      BodyLines(lines[..n]) + if lines[n].heading then [] else [lines[n]]
  }

  lemma {:induction false} BoxesConcat(a: seq<Line>, b: seq<Line>)
    ensures Boxes(a + b) == Boxes(a) + Boxes(b)
  {
    if b == [] {
      assert a + b == a;
    } else {
      var front, last := b[..|b| - 1], b[|b| - 1];
      assert b == front + [last];
      BoxesConcat(a, front);
      Regroup(a, front, [last]);
      Regroup(Boxes(a), Boxes(front), [last.box]);
    }
  }

  lemma {:induction false} BodyLinesConcat(a: seq<Line>, b: seq<Line>)
    ensures BodyLines(a + b) == BodyLines(a) + BodyLines(b)
  {
    if b == [] {
      assert a + b == a;
    } else {
      var front, last := b[..|b| - 1], b[|b| - 1];
      assert b == front + [last];
      BodyLinesConcat(a, front);
      Regroup(a, front, [last]);
      Regroup(BodyLines(a), BodyLines(front), if last.heading then [] else [last]);
    }
  }

  lemma {:induction false} TextsConcat(a: seq<Line>, b: seq<Line>)
    ensures Texts(a + b) == Texts(a) + Texts(b)
  {
    if b == [] {
      assert a + b == a;
    } else {
      var front, last := b[..|b| - 1], b[|b| - 1];
      assert b == front + [last];
      TextsConcat(a, front);
      Regroup(a, front, [last]);
      Regroup(Texts(a), Texts(front), [last.text]);
    }
  }

  lemma {:induction false} NoHeadings(lines: seq<Line>)
    requires forall i :: 0 <= i < |lines| ==> !lines[i].heading
    ensures BodyLines(lines) == lines
  {
    if lines != [] { NoHeadings(lines[..|lines| - 1]); }
  }

  /** A section's body is the text of its lines that are no headings. */
  lemma BodyIs(s: Section, lines: seq<Line>)
    requires StandsFor(s, lines)
    ensures s.body == Texts(BodyLines(lines))
  {
    if s.preamble {
      NoHeadings(lines);
    } else {
      var first, more := lines[0], lines[1..];
      assert lines == [first] + more;
      BodyLinesConcat([first], more);
      NoHeadings(more);
      assert BodyLines(lines) == [] + more == more;
    }
  }

  /** Every box of every line, and every word of every line that is no heading, is in the
      sections, once and in the order of the document. */
  lemma {:induction false} NothingIsLost(sections: seq<Section>, pieces: seq<Piece>, lines: seq<Line>)
    requires CutsUp(sections, pieces, lines)
    ensures AllBoxes(sections) == Boxes(lines)
    ensures AllBodies(sections) == Texts(BodyLines(lines))
  {
    if sections != [] {
      var n := |sections| - 1;
      var front, last := pieces[..n], pieces[n].lines;
      FrontCutsUp(sections, pieces, lines);
      NothingIsLost(sections[..n], front, Flat(front));
      BoxesConcat(Flat(front), last);
      BodyLinesConcat(Flat(front), last);
      TextsConcat(BodyLines(Flat(front)), BodyLines(last));
      assert Stands(sections, pieces, n);
      BodyIs(sections[n], last);
    }
  }

  lemma FrontCutsUp(sections: seq<Section>, pieces: seq<Piece>, lines: seq<Line>)
    requires CutsUp(sections, pieces, lines) && sections != []
    ensures var n := |sections| - 1;
            CutsUp(sections[..n], pieces[..n], Flat(pieces[..n])) && lines == Flat(pieces[..n]) + pieces[n].lines
  {
    var n := |sections| - 1;
    forall i: nat | i < n ensures Stands(sections[..n], pieces[..n], i) {
      assert Stands(sections, pieces, i);
    }
  }

  lemma EmptyCut(sections: seq<Section>, pieces: seq<Piece>, lines: seq<Line>)
    requires CutsUp(sections, pieces, lines)
    ensures sections == [] <==> lines == []
  {
    if sections != [] {
      FrontCutsUp(sections, pieces, lines);
      assert Stands(sections, pieces, |sections| - 1);
    }
  }

  /** There is one way to cut lines up: what CutsUp says leaves nothing open. */
  lemma {:induction false} CutIsUnique(a: seq<Section>, p: seq<Piece>, b: seq<Section>, q: seq<Piece>, lines: seq<Line>)
    requires CutsUp(a, p, lines) && CutsUp(b, q, lines)
    ensures a == b && p == q
  {
    EmptyCut(a, p, lines);
    EmptyCut(b, q, lines);
    if a != [] {
      var m, n := |a| - 1, |b| - 1;
      SameLastPiece(a, p, b, q, lines);
      FrontCutsUp(a, p, lines);
      FrontCutsUp(b, q, lines);
      CutIsUnique(a[..m], p[..m], b[..n], q[..n], Flat(p[..m]));
      SameSection(a, b, p, q);
    }
  }

  lemma SameSection(a: seq<Section>, b: seq<Section>, p: seq<Piece>, q: seq<Piece>)
    requires |p| == |a| > 0 && |q| == |b| == |a| && p[..|p| - 1] == q[..|q| - 1] && a[..|a| - 1] == b[..|b| - 1]
    requires p[|p| - 1].lines == q[|q| - 1].lines && Stands(a, p, |a| - 1) && Stands(b, q, |b| - 1)
    ensures a == b && p == q
  {
    var n := |a| - 1;
    assert a == a[..n] + [a[n]] && b == b[..n] + [b[n]] && p == p[..n] + [p[n]] && q == q[..n] + [q[n]];
  }

  lemma SameLastPiece(a: seq<Section>, p: seq<Piece>, b: seq<Section>, q: seq<Piece>, lines: seq<Line>)
    requires CutsUp(a, p, lines) && CutsUp(b, q, lines) && a != [] && b != []
    ensures p[|p| - 1].lines == q[|q| - 1].lines && Flat(p[..|p| - 1]) == Flat(q[..|q| - 1])
  {
    var m, n := |a| - 1, |b| - 1;
    assert Stands(a, p, m) && Stands(b, q, n);
    if |p[m].lines| <= |q[n].lines| {
      LastPieceNoLonger(b[n], q[n].lines, Flat(q[..n]), a[m], p[m].lines, Flat(p[..m]));
    } else {
      LastPieceNoLonger(a[m], p[m].lines, Flat(p[..m]), b[n], q[n].lines, Flat(q[..n]));
    }
  }

  /** Two last pieces of one stream: the shorter one does not start within the longer one. */
  lemma LastPieceNoLonger(s: Section, long: seq<Line>, before: seq<Line>, r: Section, short: seq<Line>, rest: seq<Line>)
    requires before + long == rest + short && |short| <= |long|
    requires StandsFor(s, long) && StandsFor(r, short) && (r.preamble ==> rest == [])
    ensures long == short && before == rest
  {
    var k := |long| - |short|;
    assert short == (rest + short)[|rest|..] == (before + long)[|before| + k..] == long[k..];
    assert before == (before + long)[..|before|] && rest == (rest + short)[..|rest|];
  }

  /** Line after line, the page number never goes down. */
  ghost predicate PagesRise(lines: seq<Line>) {
    forall i, j :: 0 <= i < j < |lines| ==> lines[i].page <= lines[j].page
  }

  /** Then sections start where or after the one before ends, and end where or after they start. */
  lemma {:induction false} PageRangesRise(sections: seq<Section>, pieces: seq<Piece>, lines: seq<Line>, i: nat)
    requires CutsUp(sections, pieces, lines) && PagesRise(lines) && i < |sections|
    ensures sections[i].pageStart <= sections[i].pageEnd
    ensures i > 0 ==> sections[i - 1].pageEnd <= sections[i].pageStart
  {
    var n := |sections| - 1;
    var before := Flat(pieces[..n]);
    FrontCutsUp(sections, pieces, lines);
    if i < n {
      PagesRiseFront(before, pieces[n].lines);
      PageRangesRise(sections[..n], pieces[..n], before, i);
    } else {
      assert Stands(sections, pieces, n);
      PagesOfLast(sections[n], before, pieces[n].lines);
      if n > 0 {
        assert Stands(sections, pieces, n - 1);
      }
    }
  }

  lemma PagesRiseFront(a: seq<Line>, b: seq<Line>)
    requires PagesRise(a + b)
    ensures PagesRise(a)
  {
    assert forall k :: 0 <= k < |a| ==> a[k] == (a + b)[k];
  }

  lemma PagesOfLast(s: Section, before: seq<Line>, lines: seq<Line>)
    requires PagesRise(before + lines) && StandsFor(s, lines)
    ensures s.pageStart <= s.pageEnd
    ensures before != [] ==> before[|before| - 1].page <= s.pageStart
  {
    var all := before + lines;
    assert all[|before|] == lines[0] && all[|all| - 1] == lines[|lines| - 1];
    if before != [] { assert all[|before| - 1] == before[|before| - 1]; }
  }

  // ---- fewer than two headings ----

  function RealHeadings(sections: seq<Section>): nat {
    if sections == [] then 0
    else RealHeadings(sections[..|sections| - 1]) + if sections[|sections| - 1].preamble then 0 else 1
  }

  function HeadingLines(lines: seq<Line>): nat {
    if lines == [] then 0 else HeadingLines(lines[..|lines| - 1]) + if lines[|lines| - 1].heading then 1 else 0
  }

  lemma {:induction false} HeadingLinesConcat(a: seq<Line>, b: seq<Line>)
    ensures HeadingLines(a + b) == HeadingLines(a) + HeadingLines(b)
  {
    if b == [] {
      assert a + b == a;
    } else {
      HeadingLinesConcat(a, b[..|b| - 1]);
      assert (a + b)[..|a + b| - 1] == a + b[..|b| - 1];
    }
  }

  lemma {:induction false} NoneHeading(lines: seq<Line>)
    requires forall i :: 0 <= i < |lines| ==> !lines[i].heading
    ensures HeadingLines(lines) == 0
  {
    if lines != [] { NoneHeading(lines[..|lines| - 1]); }
  }

  /** The fallback to one section a page is taken exactly when fewer than two lines are headings. */
  lemma {:induction false} HeadingsCounted(sections: seq<Section>, pieces: seq<Piece>, lines: seq<Line>)
    requires CutsUp(sections, pieces, lines)
    ensures RealHeadings(sections) == HeadingLines(lines)
  {
    if sections != [] {
      var n := |sections| - 1;
      var last := pieces[n].lines;
      FrontCutsUp(sections, pieces, lines);
      HeadingsCounted(sections[..n], pieces[..n], Flat(pieces[..n]));
      HeadingLinesConcat(Flat(pieces[..n]), last);
      assert Stands(sections, pieces, n);
      assert last == last[..1] + last[1..];
      HeadingLinesConcat(last[..1], last[1..]);
      NoneHeading(last[1..]);
      assert last[..1][..0] == [];
    }
  }

  /** One section for one page; its box is the whole page. */
  function PageSection(title: nat -> Text, text: Text, i: nat): Section {
    Section(title(i + 1), 1, i, i + 1, i + 1, [text], [0], false)
  }

  /** It stands for the page with this text, the `i`th from 0. */
  ghost predicate IsPage(s: Section, title: nat -> Text, text: Text, i: nat) {
    && s.heading == title(i + 1) && s.pageStart == s.pageEnd == i + 1 && s.order == i
    && s.body == [text] && |s.boxes| == 1 && s.level == 1 && !s.preamble
  }

  /** The sections of a document, or of its pages when it has no structure to speak of. */
  method ExtractSections(lines: seq<Line>, pages: seq<Text>, title: nat -> Text)
    returns (sections: seq<Section>, degraded: bool)
    ensures degraded <==> HeadingLines(lines) < 2
    ensures !degraded ==> exists pieces :: CutsUp(sections, pieces, lines)
    ensures degraded ==> |sections| == |pages|
                         && forall i :: 0 <= i < |pages| ==> IsPage(sections[i], title, pages[i], i)
  {
    sections := CutIntoSections(lines);
    ghost var pieces :| CutsUp(sections, pieces, lines);
    HeadingsCounted(sections, pieces, lines);
    degraded := RealHeadings(sections) < 2;
    if degraded {
      sections := [];
      var i := 0;
      while i < |pages|
        invariant 0 <= i == |sections| <= |pages|
        invariant forall j :: 0 <= j < i ==> sections[j] == PageSection(title, pages[j], j)
      {
        sections := sections + [PageSection(title, pages[i], i)];
        i := i + 1;
      }
    }
  }
}
