/** analyze_bytes of backend/engine/services/analysis.py, from the line stream to the keys: what
    renumbering the headings of a document does to the keys of its sections. */
module Analysis {
  import opened Text
  import opened Normalise
  import opened SectionKeys
  import opened Sectioning

  function Headings(sections: seq<Section>): seq<Text> {
    if sections == [] then [] else Headings(sections[..|sections| - 1]) + [sections[|sections| - 1].heading]
  }

  /** The headings of the sections, read off the lines. */
  function HeadingsOf(lines: seq<Line>): seq<Text> {
    if lines == [] then []
    else
      var (before, l) := (HeadingsOf(lines[..|lines| - 1]), lines[|lines| - 1]);
      if l.heading then before + [NormalizeText(l.text)] else if before == [] then [PREAMBLE] else before
  }

  lemma HeadingsNext(sections: seq<Section>, s: Section)
    ensures Headings(sections + [s]) == Headings(sections) + [s.heading]
  {
    assert (sections + [s])[..|sections|] == sections;
  }

  lemma HeadingsGrow(sections: seq<Section>, s: Section)
    requires sections != [] && s.heading == sections[|sections| - 1].heading
    ensures Headings(sections[|sections| - 1 := s]) == Headings(sections)
  {
    var n := |sections| - 1;
    assert sections[n := s][..n] == sections[..n];
  }

  /** The cut of a line stream, and its headings. */
  lemma {:induction false} CutOf(lines: seq<Line>) returns (sections: seq<Section>, pieces: seq<Piece>)
    ensures CutsUp(sections, pieces, lines) && Headings(sections) == HeadingsOf(lines)
    ensures sections == [] <==> HeadingsOf(lines) == []
  {
    if lines == [] {
      sections, pieces := [], [];
    } else {
      var front, l := lines[..|lines| - 1], lines[|lines| - 1];
      sections, pieces := CutOf(front);
      sections, pieces := CutOneMore(sections, pieces, front, l);
      assert lines == front + [l];
    }
  }

  lemma CutOneMore(sections: seq<Section>, pieces: seq<Piece>, front: seq<Line>, l: Line)
    returns (more: seq<Section>, longer: seq<Piece>)
    requires CutsUp(sections, pieces, front)
    ensures CutsUp(more, longer, front + [l]) && more != []
    ensures Headings(more) == if l.heading then Headings(sections) + [NormalizeText(l.text)]
                              else if sections == [] then [PREAMBLE] else Headings(sections)
  {
    if l.heading || sections == [] {
      CutsOpen(sections, pieces, front, l);
      HeadingsNext(sections, Opened(l, |sections|));
      more, longer := sections + [Opened(l, |sections|)], pieces + [Piece([l])];
    } else {
      var n := |sections| - 1;
      CutsGrow(sections, pieces, front, l);
      HeadingsGrow(sections, Grown(sections[n], l));
      more, longer := sections[n := Grown(sections[n], l)], pieces[n := Piece(pieces[n].lines + [l])];
    }
  }

  // ---- renumbered headings ----

  /** The same line up to its number, if it is a heading; any other line that is none. */
  ghost predicate SameButNumber(a: Line, b: Line) {
    a.heading == b.heading && (a.heading ==> a.text == b.text || Renumbered(a.text, b.text))
  }

  ghost predicate SameButNumbers(a: seq<Line>, b: seq<Line>) {
    |a| == |b| && forall i :: 0 <= i < |a| ==> SameButNumber(a[i], b[i])
  }

  ghost predicate HeadingsAlike(a: seq<Text>, b: seq<Text>) {
    |a| == |b| && forall i :: 0 <= i < |a| ==> a[i] == b[i] || Renumbered(a[i], b[i])
  }

  /** Words that do not vanish in normalisation do not vanish in the next one either. */
  lemma WordsStay(words: Text)
    requires Split(Dehyphenate(words)) != []
    ensures Split(Dehyphenate(NormalizeText(words))) != []
  {
    var d := NormalizeText(words);
    CollapseIsSplitJoin(Dehyphenate(words));
    SplitGivesTokens(Dehyphenate(words));
    CollapsedStart(Dehyphenate(words));
    FirstStays(d);
    assert d != [] && !IsSpace(d[0]);
    assert !IsSpace(Dehyphenate(d)[0]);
  }

  /** Headings that differ in their number still do so, and in nothing else, once normalised. */
  lemma RenumberedNormalised(h: Text, g: Text)
    requires Renumbered(h, g)
    ensures Renumbered(NormalizeText(h), NormalizeText(g))
  {
    var n, gap, m, wide, words :| NumberedAs(h, n, gap, words) && NumberedAs(g, m, wide, words);
    NormalizeNumbered(n, gap, words);
    NormalizeNumbered(m, wide, words);
    WordsStay(words);
    assert NumberedAs(NormalizeText(h), n, [SP], NormalizeText(words));
    assert NumberedAs(NormalizeText(g), m, [SP], NormalizeText(words));
  }

  lemma {:induction false} RenumberedHeadings(a: seq<Line>, b: seq<Line>)
    requires SameButNumbers(a, b)
    ensures HeadingsAlike(HeadingsOf(a), HeadingsOf(b)) && HeadingLines(a) == HeadingLines(b)
  {
    if a != [] {
      var n := |a| - 1;
      RenumberedHeadings(a[..n], b[..n]);
      assert SameButNumber(a[n], b[n]);
      if a[n].heading && a[n].text != b[n].text { RenumberedNormalised(a[n].text, b[n].text); }
    }
  }

  /** Renumbering headings changes no key of the document, whatever becomes of the other lines,
      of pages and of boxes: sections keep their identity. Nor does it change whether the document
      is cut at its headings at all. */
  lemma RenumberingKeepsDocumentKeys(slugify: Text -> string, a: seq<Line>, s: seq<Section>, p: seq<Piece>,
                                     b: seq<Line>, t: seq<Section>, q: seq<Piece>)
    requires SameButNumbers(a, b) && CutsUp(s, p, a) && CutsUp(t, q, b)
    ensures Keys(slugify, Headings(s), {}) == Keys(slugify, Headings(t), {})
    ensures HeadingLines(a) < 2 <==> HeadingLines(b) < 2
  {
    var s0, p0 := CutOf(a);
    var t0, q0 := CutOf(b);
    CutIsUnique(s, p, s0, p0, a);
    CutIsUnique(t, q, t0, q0, b);
    RenumberedHeadings(a, b);
    RenumberingKeepsKeys(slugify, Headings(s), Headings(t), {});
  }
}
