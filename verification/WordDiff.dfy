/** word_diff of backend/engine/services/comparison.py: what a reader sees marked
    as kept, gone and new between two normalised texts. */
module WordDiff {
  import opened Text
  import opened Difflib

  datatype Kind = Kept | Gone | New

  /** `{'op': ..., 'text': ...}`. */
  datatype Op = Op(kind: Kind, text: Text)

  predicate Inside(o: Opcode, a: seq<Text>, b: seq<Text>) {
    o.i1 <= o.i2 <= |a| && o.j1 <= o.j2 <= |b|
  }

  /** What one opcode adds to the result. */
  function OpsOf(o: Opcode, a: seq<Text>, b: seq<Text>): seq<Op>
    requires Inside(o, a, b)
  {
    var was, now := Join(a[o.i1..o.i2]), Join(b[o.j1..o.j2]);
    match o.tag
    case Equal => [Op(Kept, was)]
    case Delete => [Op(Gone, was)]
    case Insert => [Op(New, now)]
    case Replace => [Op(Gone, was), Op(New, now)]
  }

  /** What `word_diff` answers for these opcodes. */
  function OpsFor(opcodes: seq<Opcode>, a: seq<Text>, b: seq<Text>): seq<Op> {
    if opcodes == [] then []
    else
      var n := |opcodes| - 1;
      OpsFor(opcodes[..n], a, b) + if Inside(opcodes[n], a, b) then OpsOf(opcodes[n], a, b) else []
  }

  function OwnWords(o: Op, other: Kind): seq<Text> {
    if o.kind == other then [] else Split(o.text)
  }

  /** The words of the ops that are not of kind `other`, in order. */
  function WordsBut(ops: seq<Op>, other: Kind): seq<Text> {
    if ops == [] then []
    else
      var n := |ops| - 1;
      WordsBut(ops[..n], other) + OwnWords(ops[n], other)
  }

  /** No op is empty and no two neighbours are of one kind. */
  ghost predicate Tight(ops: seq<Op>) {
    && (forall n :: 0 <= n < |ops| ==> Split(ops[n].text) != [])
    && (forall n :: 0 <= n < |ops| - 1 ==> ops[n].kind != ops[n + 1].kind)
  }

  method WordDiff(textFrom: Text, textTo: Text) returns (ops: seq<Op>)
    ensures WordsBut(ops, New) == Split(textFrom)
    ensures WordsBut(ops, Gone) == Split(textTo)
    ensures Tight(ops) && GoneForNew(ops)
    ensures ops == OpsFor(Opcodes(Split(textFrom), Split(textTo)), Split(textFrom), Split(textTo))
  {
    var wordsFrom, wordsTo := Split(textFrom), Split(textTo);
    var opcodes := Opcodes(wordsFrom, wordsTo);
    OpcodesAreTiling(wordsFrom, wordsTo);
    ops := [];
    var n := 0;
    while n < |opcodes|
      invariant 0 <= n <= |opcodes|
      invariant OpsSoFar(ops, opcodes, wordsFrom, wordsTo, n)
    {
      var o := opcodes[n];
      TilesAt(opcodes, wordsFrom, wordsTo, 0, 0, n);
      ghost var before := ops;
      if o.tag == Equal {
        ops := ops + [Op(Kept, Join(wordsFrom[o.i1..o.i2]))];
      } else if o.tag == Delete {
        ops := ops + [Op(Gone, Join(wordsFrom[o.i1..o.i2]))];
      } else if o.tag == Insert {
        ops := ops + [Op(New, Join(wordsTo[o.j1..o.j2]))];
      } else {
        Regroup(ops, OpsOf(o, wordsFrom, wordsTo)[..1], OpsOf(o, wordsFrom, wordsTo)[1..]);
        ops := ops + [Op(Gone, Join(wordsFrom[o.i1..o.i2]))];
        ops := ops + [Op(New, Join(wordsTo[o.j1..o.j2]))];
      }
      assert ops == before + OpsOf(o, wordsFrom, wordsTo);
      OpsGrow(before, ops, opcodes, wordsFrom, wordsTo, n);
      n := n + 1;
    }
    assert opcodes[..n] == opcodes;
    SplitGivesTokens(textFrom);
    SplitGivesTokens(textTo);
    TilingConserves(opcodes, wordsFrom, wordsTo);
    GoneIsForeign(wordsFrom, wordsTo);
    TilingIsTight(opcodes, wordsFrom, wordsTo, |opcodes|);
  }

  ghost predicate OpsSoFar(ops: seq<Op>, opcodes: seq<Opcode>, a: seq<Text>, b: seq<Text>, n: nat) {
    n <= |opcodes| && ops == OpsFor(opcodes[..n], a, b)
  }

  lemma OpsGrow(before: seq<Op>, ops: seq<Op>, opcodes: seq<Opcode>, a: seq<Text>, b: seq<Text>, n: nat)
    requires n < |opcodes| && Inside(opcodes[n], a, b) && OpsSoFar(before, opcodes, a, b, n)
    requires ops == before + OpsOf(opcodes[n], a, b)
    ensures OpsSoFar(ops, opcodes, a, b, n + 1)
  {
    OpsForNext(opcodes, a, b, n);
  }

  lemma OpsForNext(opcodes: seq<Opcode>, a: seq<Text>, b: seq<Text>, n: nat)
    requires n < |opcodes| && Inside(opcodes[n], a, b)
    ensures OpsFor(opcodes[..n + 1], a, b) == OpsFor(opcodes[..n], a, b) + OpsOf(opcodes[n], a, b)
  {
    assert opcodes[..n + 1][..n] == opcodes[..n];
  }

  // ---- nothing is lost ----

  lemma WordsButStep(x: seq<Op>, y: seq<Op>, o: Op, other: Kind)
    requires WordsBut(x + y, other) == WordsBut(x, other) + WordsBut(y, other)
    ensures WordsBut(x + (y + [o]), other) == WordsBut(x, other) + WordsBut(y + [o], other)
  {
    Regroup(x, y, [o]);
    Regroup(WordsBut(x, other), WordsBut(y, other), OwnWords(o, other));
  }

  lemma {:induction false} WordsButConcat(x: seq<Op>, y: seq<Op>, other: Kind)
    ensures WordsBut(x + y, other) == WordsBut(x, other) + WordsBut(y, other)
  {
    if y == [] {
      assert x + y == x;
    } else {
      var front, last := y[..|y| - 1], y[|y| - 1];
      assert y == front + [last];
      WordsButConcat(x, front, other);
      WordsButStep(x, front, last, other);
    }
  }

  lemma OneOp(o: Op, other: Kind)
    ensures WordsBut([o], other) == OwnWords(o, other)
  {
  }

  lemma TwoOps(o: Op, p: Op, other: Kind)
    ensures WordsBut([o, p], other) == OwnWords(o, other) + OwnWords(p, other)
  {
    assert [o, p] == [o] + [p];
    OneOp(o, other);
  }

  lemma RunOfWords(words: seq<Text>, i: nat, j: nat)
    requires Tokens(words) && i <= j <= |words|
    ensures Split(Join(words[i..j])) == words[i..j]
  {
    SplitJoin(words[i..j]);
  }

  /** A common stretch gives the same words on either side. */
  lemma CommonWords(o: Opcode, a: seq<Text>, b: seq<Text>)
    requires Proper(o, a, b) && o.tag == Equal
    ensures a[o.i1..o.i2] == b[o.j1..o.j2]
  {
    SameSlices(a, b, o.i1, o.j1, o.i2 - o.i1);
  }

  /** The old words of one opcode. */
  lemma OldWords(o: Opcode, a: seq<Text>, b: seq<Text>)
    requires Tokens(a) && Proper(o, a, b)
    ensures WordsBut(OpsOf(o, a, b), New) == a[o.i1..o.i2]
  {
    RunOfWords(a, o.i1, o.i2);
    if o.tag == Replace {
      TwoOps(OpsOf(o, a, b)[0], OpsOf(o, a, b)[1], New);
    } else {
      OneOp(OpsOf(o, a, b)[0], New);
    }
  }

  /** The new words of one opcode. */
  lemma NewWords(o: Opcode, a: seq<Text>, b: seq<Text>)
    requires Tokens(b) && Proper(o, a, b)
    ensures WordsBut(OpsOf(o, a, b), Gone) == b[o.j1..o.j2]
  {
    RunOfWords(b, o.j1, o.j2);
    if o.tag == Replace {
      TwoOps(OpsOf(o, a, b)[0], OpsOf(o, a, b)[1], Gone);
    } else {
      if o.tag == Equal { CommonWords(o, a, b); }
      OneOp(OpsOf(o, a, b)[0], Gone);
    }
  }

  lemma Extend<T>(s: seq<T>, i: nat, j: nat)
    requires i <= j <= |s|
    ensures s[..i] + s[i..j] == s[..j]
  {
  }

  lemma OldSoFar(before: seq<Op>, o: Opcode, a: seq<Text>, b: seq<Text>)
    requires Tokens(a) && Proper(o, a, b) && WordsBut(before, New) == a[..o.i1]
    ensures WordsBut(before + OpsOf(o, a, b), New) == a[..o.i2]
  {
    OldWords(o, a, b);
    WordsButConcat(before, OpsOf(o, a, b), New);
    Extend(a, o.i1, o.i2);
  }

  lemma NewSoFar(before: seq<Op>, o: Opcode, a: seq<Text>, b: seq<Text>)
    requires Tokens(b) && Proper(o, a, b) && WordsBut(before, Gone) == b[..o.j1]
    ensures WordsBut(before + OpsOf(o, a, b), Gone) == b[..o.j2]
  {
    NewWords(o, a, b);
    WordsButConcat(before, OpsOf(o, a, b), Gone);
    Extend(b, o.j1, o.j2);
  }

  lemma {:induction false} TilingSoFar(opcodes: seq<Opcode>, a: seq<Text>, b: seq<Text>, n: nat)
    requires Tokens(a) && Tokens(b) && Tiles(opcodes, a, b, 0, 0) && n < |opcodes|
    ensures Proper(opcodes[n], a, b)
    ensures WordsBut(OpsFor(opcodes[..n + 1], a, b), New) == a[..opcodes[n].i2]
    ensures WordsBut(OpsFor(opcodes[..n + 1], a, b), Gone) == b[..opcodes[n].j2]
  {
    TilesAt(opcodes, a, b, 0, 0, n);
    if n > 0 { TilingSoFar(opcodes, a, b, n - 1); }
    OldSoFar(OpsFor(opcodes[..n], a, b), opcodes[n], a, b);
    NewSoFar(OpsFor(opcodes[..n], a, b), opcodes[n], a, b);
    OpsForNext(opcodes, a, b, n);
  }

  /** Whatever opcodes tile the two lists, no word is lost: without the insertions the
      old text's words remain, without the deletions the new text's. */
  lemma TilingConserves(opcodes: seq<Opcode>, a: seq<Text>, b: seq<Text>)
    requires Tokens(a) && Tokens(b) && Tiles(opcodes, a, b, 0, 0)
    ensures WordsBut(OpsFor(opcodes, a, b), New) == a
    ensures WordsBut(OpsFor(opcodes, a, b), Gone) == b
  {
    if opcodes != [] {
      var n := |opcodes| - 1;
      TilesAt(opcodes, a, b, 0, 0, n);
      TilingSoFar(opcodes, a, b, n);
      assert opcodes[..n + 1] == opcodes && a[..|a|] == a && b[..|b|] == b;
    }
  }

  // ---- nothing is marked twice or for nothing ----

  lemma OpsOfTight(o: Opcode, a: seq<Text>, b: seq<Text>)
    requires Tokens(a) && Tokens(b) && Proper(o, a, b)
    ensures Tight(OpsOf(o, a, b)) && OpsOf(o, a, b) != []
  {
  }

  lemma TightConcat(x: seq<Op>, y: seq<Op>)
    requires Tight(x) && Tight(y) && (x != [] && y != [] ==> x[|x| - 1].kind != y[0].kind)
    ensures Tight(x + y)
  {
  }

  lemma {:induction false} TilingIsTight(opcodes: seq<Opcode>, a: seq<Text>, b: seq<Text>, n: nat)
    requires Tokens(a) && Tokens(b) && Tiles(opcodes, a, b, 0, 0) && TakesTurns(opcodes) && n <= |opcodes|
    ensures Tight(OpsFor(opcodes[..n], a, b))
    ensures n > 0 ==> OpsFor(opcodes[..n], a, b) != [] && EndsAlike(opcodes[n - 1], OpsFor(opcodes[..n], a, b))
  {
    if n > 0 {
      var o := opcodes[n - 1];
      TilingIsTight(opcodes, a, b, n - 1);
      TilesAt(opcodes, a, b, 0, 0, n - 1);
      OpsOfTight(o, a, b);
      OpsForNext(opcodes, a, b, n - 1);
      if n > 1 { TakesTurnsAt(opcodes, n - 2); }
      TightConcat(OpsFor(opcodes[..n - 1], a, b), OpsOf(o, a, b));
    }
  }

  predicate EndsAlike(o: Opcode, ops: seq<Op>) {
    ops != [] && (o.tag == Equal <==> ops[|ops| - 1].kind == Kept)
  }

  // ---- nothing marked, nothing changed ----

  ghost predicate NothingMarked(ops: seq<Op>) {
    forall o :: o in ops ==> o.kind == Kept
  }

  /** All ops are of kind Kept exactly when the two texts differ at most in their gaps. */
  lemma NothingMarkedIff(textFrom: Text, textTo: Text)
    ensures var (a, b) := (Split(textFrom), Split(textTo));
            NothingMarked(OpsFor(Opcodes(a, b), a, b)) <==> Collapse(textFrom) == Collapse(textTo)
  {
    SplitGivesTokens(textFrom);
    SplitGivesTokens(textTo);
    WordsMarkedIff(Split(textFrom), Split(textTo));
    SameWordsIff(textFrom, textTo);
  }

  lemma SameWordsIff(s: Text, t: Text)
    ensures Split(s) == Split(t) <==> Collapse(s) == Collapse(t)
  {
    SplitGivesTokens(s);
    SplitGivesTokens(t);
    CollapseIsSplitJoin(s);
    CollapseIsSplitJoin(t);
    SplitJoin(Split(s));
    SplitJoin(Split(t));
  }

  lemma WordsMarkedIff(a: seq<Text>, b: seq<Text>)
    requires Tokens(a) && Tokens(b)
    ensures NothingMarked(OpsFor(Opcodes(a, b), a, b)) <==> a == b
  {
    OpcodesAreTiling(a, b);
    TilingConserves(Opcodes(a, b), a, b);
    if NothingMarked(OpsFor(Opcodes(a, b), a, b)) {
      AllKept(OpsFor(Opcodes(a, b), a, b));
    }
    if a == b {
      SelfOps(a);
    }
  }

  lemma {:induction false} AllKept(ops: seq<Op>)
    requires NothingMarked(ops)
    ensures WordsBut(ops, New) == WordsBut(ops, Gone)
  {
    if ops != [] { AllKept(ops[..|ops| - 1]); }
  }

  lemma SelfOps(a: seq<Text>)
    ensures OpsFor(Opcodes(a, a), a, a) == if a == [] then [] else [Op(Kept, Join(a))]
  {
    if a == [] {
      assert Matching(a, a) == [];
    } else {
      MatchingSelf(a);
      var x := Block(0, 0, |a|);
      assert [x][1..] == [];
      assert OpcodesFrom([], |a|, |a|, |a|, |a|) == [];
      var one := Opcode(Equal, 0, |a|, 0, |a|);
      assert Opcodes(a, a) == [one];
      assert [one][..0] == [] && OpsFor([], a, a) == [];
      assert a[0..|a|] == a;
    }
  }

  // ---- nothing is marked that could have been kept ----

  /** Where something gone is followed by something new, they have no word in common. */
  ghost predicate GoneForNew(ops: seq<Op>) {
    forall n :: 0 <= n < |ops| - 1 && ops[n].kind == Gone && ops[n + 1].kind == New ==> Foreign(ops[n], ops[n + 1])
  }

  ghost predicate Foreign(x: Op, y: Op) { forall w :: w in Split(x.text) ==> w !in Split(y.text) }

  lemma OpsOfForeign(o: Opcode, a: seq<Text>, b: seq<Text>)
    requires Tokens(a) && Tokens(b) && Proper(o, a, b) && o in Opcodes(a, b)
    ensures GoneForNew(OpsOf(o, a, b))
  {
    if o.tag == Replace {
      RunOfWords(a, o.i1, o.i2);
      RunOfWords(b, o.j1, o.j2);
      forall p: nat, q: nat | o.i1 <= p < o.i2 && o.j1 <= q < o.j2 ensures a[p] != b[q] {
        ReplacedIsForeign(a, b, o, p, q);
      }
    }
  }

  lemma {:induction false} GoneForNewSoFar(opcodes: seq<Opcode>, a: seq<Text>, b: seq<Text>, n: nat)
    requires Tokens(a) && Tokens(b) && opcodes == Opcodes(a, b) && n <= |opcodes|
    requires Tiles(opcodes, a, b, 0, 0) && TakesTurns(opcodes)
    ensures GoneForNew(OpsFor(opcodes[..n], a, b))
  {
    if n > 0 {
      var o, before := opcodes[n - 1], OpsFor(opcodes[..n - 1], a, b);
      GoneForNewSoFar(opcodes, a, b, n - 1);
      TilesAt(opcodes, a, b, 0, 0, n - 1);
      OpsOfForeign(o, a, b);
      OpsForNext(opcodes, a, b, n - 1);
      if n > 1 {
        TakesTurnsAt(opcodes, n - 2);
        TilingIsTight(opcodes, a, b, n - 1);
      }
      GoneForNewConcat(before, OpsOf(o, a, b));
    }
  }

  lemma GoneForNewConcat(x: seq<Op>, y: seq<Op>)
    requires GoneForNew(x) && GoneForNew(y)
    requires x != [] && y != [] ==> (x[|x| - 1].kind == Kept || y[0].kind == Kept)
    ensures GoneForNew(x + y)
  {
  }

  lemma {:induction false} KeptOpIn(opcodes: seq<Opcode>, a: seq<Text>, b: seq<Text>, o: Opcode)
    requires o in opcodes && o.tag == Equal && Inside(o, a, b)
    ensures Op(Kept, Join(a[o.i1..o.i2])) in OpsFor(opcodes, a, b)
  {
    var n := |opcodes| - 1;
    if opcodes[n] == o {
      assert Op(Kept, Join(a[o.i1..o.i2])) in OpsOf(o, a, b);
    } else {
      KeptOpIn(opcodes[..n], a, b, o);
    }
  }

  /** Words marked as gone are not among those marked as new in their place. */
  lemma GoneIsForeign(a: seq<Text>, b: seq<Text>)
    requires Tokens(a) && Tokens(b)
    ensures GoneForNew(OpsFor(Opcodes(a, b), a, b))
  {
    OpcodesAreTiling(a, b);
    GoneForNewSoFar(Opcodes(a, b), a, b, |Opcodes(a, b)|);
    assert Opcodes(a, b)[..|Opcodes(a, b)|] == Opcodes(a, b);
  }

  /** If there are common words, a longest common stretch of them is kept in one piece: of all such
      stretches the first in the old text, then in the new. */
  lemma LongestRunIsKept(a: seq<Text>, b: seq<Text>) returns (m: Block)
    requires !NoneCommon(a, b, 0, |a|, 0, |b|)
    ensures FirstLongest(m, a, b, 0, |a|, 0, |b|) && m.i + m.k <= |a|
    ensures Op(Kept, Join(a[m.i..m.i + m.k])) in OpsFor(Opcodes(a, b), a, b)
  {
    m := LongestIsKept(a, b);
    KeptOpIn(Opcodes(a, b), a, b, Opcode(Equal, m.i, m.i + m.k, m.j, m.j + m.k));
  }
}
