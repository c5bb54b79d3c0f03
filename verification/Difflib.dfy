/** Python's difflib.SequenceMatcher without junk, as word_diff and similarity in
    backend/engine/services/comparison.py use it. */
module Difflib {

  // ---- find_longest_match ----

  /** `k` common elements from place `i` of one list and `j` of the other. */
  datatype Block = Block(i: nat, j: nat, k: nat)

  /** The elements of the block are the same in both lists. */
  ghost predicate Run<T(!new)>(a: seq<T>, b: seq<T>, x: Block) {
    Same(a, b, x.i, x.j, x.k)
  }

  ghost predicate Same<T(!new)>(a: seq<T>, b: seq<T>, i: nat, j: nat, k: nat) {
    if k == 0 then i <= |a| && j <= |b|
    else i + k <= |a| && j + k <= |b| && a[i + k - 1] == b[j + k - 1] && Same(a, b, i, j, k - 1)
  }

  lemma {:induction false} SameAt<T(!new)>(a: seq<T>, b: seq<T>, i: nat, j: nat, k: nat, p: nat)
    requires Same(a, b, i, j, k) && p < k
    ensures i + k <= |a| && j + k <= |b| && a[i + p] == b[j + p]
  {
    if p < k - 1 { SameAt(a, b, i, j, k - 1, p); }
  }

  lemma {:induction false} SameFromSlices<T(!new)>(a: seq<T>, b: seq<T>, i: nat, j: nat, k: nat)
    requires i + k <= |a| && j + k <= |b| && a[i..i + k] == b[j..j + k]
    ensures Same(a, b, i, j, k)
  {
    if k > 0 {
      assert a[i..i + k - 1] == a[i..i + k][..k - 1] && b[j..j + k - 1] == b[j..j + k][..k - 1];
      assert a[i + k - 1] == a[i..i + k][k - 1] && b[j + k - 1] == b[j..j + k][k - 1];
      SameFromSlices(a, b, i, j, k - 1);
    }
  }

  lemma SameSlices<T(!new)>(a: seq<T>, b: seq<T>, i: nat, j: nat, k: nat)
    requires Same(a, b, i, j, k)
    ensures i + k <= |a| && j + k <= |b| && a[i..i + k] == b[j..j + k]
  {
    var u, v := a[i..i + k], b[j..j + k];
    forall p | 0 <= p < k ensures u[p] == v[p] {
      SameAt(a, b, i, j, k, p);
    }
  }

  lemma {:induction false} SameMeet<T(!new)>(a: seq<T>, b: seq<T>, i: nat, j: nat, k: nat, l: nat)
    requires Same(a, b, i, j, k) && Same(a, b, i + k, j + k, l)
    ensures Same(a, b, i, j, k + l)
  {
    if l > 0 { SameMeet(a, b, i, j, k, l - 1); }
  }

  /** Cutting both lists down first changes nothing. */
  lemma {:induction false} SameInside<T(!new)>(a: seq<T>, b: seq<T>, alo: nat, ahi: nat, blo: nat, bhi: nat,
                                              i: nat, j: nat, k: nat)
    requires alo <= ahi <= |a| && blo <= bhi <= |b| && Same(a[alo..ahi], b[blo..bhi], i, j, k)
    ensures Same(a, b, alo + i, blo + j, k)
  {
    if k > 0 { SameInside(a, b, alo, ahi, blo, bhi, i, j, k - 1); }
  }

  /** How long `a` and `b` agree from their start. */
  function Agree<T(==)>(a: seq<T>, b: seq<T>): (k: nat)
    ensures k <= |a| && k <= |b| && a[..k] == b[..k]
  {
    if a == [] || b == [] || a[0] != b[0] then 0 else 1 + Agree(a[1..], b[1..])
  }

  /** The earliest place from `j` on where `b` agrees longest with `a`. */
  function BestColumn<T(==)>(a: seq<T>, b: seq<T>, j: nat): (r: nat)
    requires j <= |b|
    ensures j <= r <= |b|
    decreases |b| - j
  {
    if j == |b| then j
    else
      var rest := BestColumn(a, b, j + 1);
      if Agree(a, b[j..]) >= Agree(a, b[rest..]) then j else rest
  }

  lemma {:induction false} BestColumnIsBest<T(!new)>(a: seq<T>, b: seq<T>, j: nat, c: nat)
    requires j <= c <= |b|
    ensures Agree(a, b[c..]) <= Agree(a, b[BestColumn(a, b, j)..])
    ensures c < BestColumn(a, b, j) ==> Agree(a, b[c..]) < Agree(a, b[BestColumn(a, b, j)..])
    decreases |b| - j
  {
    if j < |b| {
      BestColumnIsBest(a, b, j + 1, if c == j then j + 1 else c);
    }
  }

  /** The block at the best place of row `i`. */
  function Row<T(==)>(a: seq<T>, b: seq<T>, i: nat): (r: Block)
    requires i <= |a|
    ensures r.i == i && i + r.k <= |a| && r.j + r.k <= |b|
  {
    var j := BestColumn(a[i..], b, 0);
    Block(i, j, Agree(a[i..], b[j..]))
  }

  /** `find_longest_match` over rows `i` on: the longest block; of those the first
      in `a`, then the first in `b`. */
  function Longest<T(==)>(a: seq<T>, b: seq<T>, i: nat): (r: Block)
    requires i <= |a|
    ensures r.i + r.k <= |a| && r.j + r.k <= |b|
    decreases |a| - i
  {
    var here := Row(a, b, i);
    if i == |a| then here
    else
      var rest := Longest(a, b, i + 1);
      if here.k >= rest.k then here else rest
  }

  /** No common stretch is longer than the one found, and none as long is earlier. */
  lemma {:induction false} LongestIsLongest<T(!new)>(a: seq<T>, b: seq<T>, i: nat, p: nat, q: nat)
    requires i <= p <= |a| && q <= |b|
    ensures Agree(a[p..], b[q..]) <= Longest(a, b, i).k
    ensures p < Longest(a, b, i).i || (p == Longest(a, b, i).i && q < Longest(a, b, i).j)
            ==> Agree(a[p..], b[q..]) < Longest(a, b, i).k
    decreases |a| - i
  {
    LongestIsRow(a, b, i);
    if p > i {
      LongestIsLongest(a, b, i + 1, p, q);
    } else {
      RowIsBest(a, b, i, q);
    }
  }

  lemma {:induction false} LongestIsRow<T(!new)>(a: seq<T>, b: seq<T>, i: nat)
    requires i <= |a|
    ensures i <= Longest(a, b, i).i
    ensures Longest(a, b, i) == Row(a, b, Longest(a, b, i).i)
    ensures Row(a, b, i).k <= Longest(a, b, i).k
    ensures i < |a| ==> Longest(a, b, i + 1).k <= Longest(a, b, i).k
    ensures Longest(a, b, i).i > i ==> Row(a, b, i).k < Longest(a, b, i).k
    ensures Longest(a, b, i).i > i ==> Longest(a, b, i) == Longest(a, b, i + 1)
    decreases |a| - i
  {
    if i < |a| { LongestIsRow(a, b, i + 1); }
  }

  lemma RowIsBest<T(!new)>(a: seq<T>, b: seq<T>, i: nat, q: nat)
    requires i <= |a| && q <= |b|
    ensures Agree(a[i..], b[q..]) <= Row(a, b, i).k
    ensures q < Row(a, b, i).j ==> Agree(a[i..], b[q..]) < Row(a, b, i).k
  {
    BestColumnIsBest(a[i..], b, 0, q);
  }

  lemma RowRuns<T(!new)>(a: seq<T>, b: seq<T>, i: nat)
    requires i <= |a|
    ensures Run(a, b, Row(a, b, i))
  {
    var r := Row(a, b, i);
    AgreeSlices(a, b, i, r.j);
    SameFromSlices(a, b, i, r.j, r.k);
  }

  lemma AgreeSlices<T(!new)>(a: seq<T>, b: seq<T>, i: nat, j: nat)
    requires i <= |a| && j <= |b|
    ensures var k := Agree(a[i..], b[j..]);
            i + k <= |a| && j + k <= |b| && a[i..i + k] == b[j..j + k]
  {
    var u, v := a[i..], b[j..];
    var k := Agree(u, v);
    assert u[..k] == v[..k];
    assert a[i..i + k] == u[..k] && b[j..j + k] == v[..k];
  }

  lemma {:induction false} LongestRuns<T(!new)>(a: seq<T>, b: seq<T>, i: nat)
    requires i <= |a|
    ensures Run(a, b, Longest(a, b, i))
    decreases |a| - i
  {
    RowRuns(a, b, i);
    if i < |a| { LongestRuns(a, b, i + 1); }
  }

  // ---- get_matching_blocks ----

  /** Picks a block inside bounds alo..ahi of one list and blo..bhi of the other. */
  type Finder = (nat, nat, nat, nat) -> Block

  predicate Within(m: Block, alo: nat, ahi: nat, blo: nat, bhi: nat) {
    alo <= m.i && m.i + m.k <= ahi && blo <= m.j && m.j + m.k <= bhi
  }

  /** The finder stays inside its bounds and finds common stretches only. */
  ghost predicate Sound<T(!new)>(find: Finder, a: seq<T>, b: seq<T>) {
    forall alo: nat, ahi: nat, blo: nat, bhi: nat :: alo <= ahi <= |a| && blo <= bhi <= |b| ==>
      Within(find(alo, ahi, blo, bhi), alo, ahi, blo, bhi) && Run(a, b, find(alo, ahi, blo, bhi))
  }

  /** The longest block between the bounds, at its place in the whole lists. */
  function LongestIn<T(==)>(a: seq<T>, b: seq<T>, alo: nat, ahi: nat, blo: nat, bhi: nat): (r: Block)
    requires alo <= ahi <= |a| && blo <= bhi <= |b|
    ensures Within(r, alo, ahi, blo, bhi)
  {
    var m := Longest(a[alo..ahi], b[blo..bhi], 0);
    Block(alo + m.i, blo + m.j, m.k)
  }

  function LongestFinder<T(==)>(a: seq<T>, b: seq<T>): Finder {
    (alo: nat, ahi: nat, blo: nat, bhi: nat) =>
      if alo <= ahi <= |a| && blo <= bhi <= |b| then LongestIn(a, b, alo, ahi, blo, bhi)
      else Block(alo, blo, 0)
  }

  lemma LongestFinderIsSound<T(!new)>(a: seq<T>, b: seq<T>)
    ensures Sound(LongestFinder(a, b), a, b)
  {
    forall alo: nat, ahi: nat, blo: nat, bhi: nat | alo <= ahi <= |a| && blo <= bhi <= |b|
      ensures Run(a, b, LongestFinder(a, b)(alo, ahi, blo, bhi))
    {
      LongestInRuns(a, b, alo, ahi, blo, bhi);
    }
  }

  lemma LongestInRuns<T(!new)>(a: seq<T>, b: seq<T>, alo: nat, ahi: nat, blo: nat, bhi: nat)
    requires alo <= ahi <= |a| && blo <= bhi <= |b|
    ensures Run(a, b, LongestIn(a, b, alo, ahi, blo, bhi))
  {
    var m := Longest(a[alo..ahi], b[blo..bhi], 0);
    LongestRuns(a[alo..ahi], b[blo..bhi], 0);
    SameInside(a, b, alo, ahi, blo, bhi, m.i, m.j, m.k);
  }

  /** Which block was cut out where: what lies to its left, and to its right. */
  datatype Cuts = Nothing | Cut(left: Cuts, m: Block, right: Cuts)

  /** The recursion of `get_matching_blocks`. */
  function CutsOf(find: Finder, alo: nat, ahi: nat, blo: nat, bhi: nat): Cuts
    requires alo <= ahi && blo <= bhi
    decreases ahi - alo
  {
    var m := find(alo, ahi, blo, bhi);
    if m.k == 0 || !Within(m, alo, ahi, blo, bhi) then Nothing
    else Cut(CutsOf(find, alo, m.i, blo, m.j), m, CutsOf(find, m.i + m.k, ahi, m.j + m.k, bhi))
  }

  /** The blocks in order, before neighbours are joined. */
  function Blocks(cuts: Cuts): seq<Block> {
    match cuts
    case Nothing => []
    case Cut(left, m, right) => Blocks(left) + ([m] + Blocks(right))
  }

  /** Every cut is a common stretch inside what the cuts before it left over. */
  ghost predicate Fits<T(!new)>(cuts: Cuts, a: seq<T>, b: seq<T>, alo: nat, ahi: nat, blo: nat, bhi: nat) {
    && alo <= ahi <= |a| && blo <= bhi <= |b|
    && match cuts
       case Nothing => true
       case Cut(left, m, right) =>
         && m.k > 0 && Run(a, b, m)
         && Fits(left, a, b, alo, m.i, blo, m.j)
         && Fits(right, a, b, m.i + m.k, ahi, m.j + m.k, bhi)
  }

  lemma {:induction false} CutsFit<T(!new)>(find: Finder, a: seq<T>, b: seq<T>, alo: nat, ahi: nat, blo: nat, bhi: nat)
    requires alo <= ahi <= |a| && blo <= bhi <= |b| && Sound(find, a, b)
    ensures Fits(CutsOf(find, alo, ahi, blo, bhi), a, b, alo, ahi, blo, bhi)
    decreases ahi - alo
  {
    var m := find(alo, ahi, blo, bhi);
    if m.k > 0 {
      CutsFit(find, a, b, alo, m.i, blo, m.j);
      CutsFit(find, a, b, m.i + m.k, ahi, m.j + m.k, bhi);
    }
  }

  /** Joining neighbours; `last` is the block being extended. */
  function Joined(last: Block, blocks: seq<Block>): seq<Block>
    decreases |blocks|
  {
    if blocks == [] then if last.k > 0 then [last] else []
    else
      var b := blocks[0];
      if last.i + last.k == b.i && last.j + last.k == b.j then
        Joined(Block(last.i, last.j, last.k + b.k), blocks[1..])
      else if last.k > 0 then [last] + Joined(b, blocks[1..])
      else Joined(b, blocks[1..])
  }

  /** `get_matching_blocks` without its closing empty block. */
  function Matching<T(==)>(a: seq<T>, b: seq<T>): seq<Block> {
    Joined(Block(0, 0, 0), Blocks(CutsOf(LongestFinder(a, b), 0, |a|, 0, |b|)))
  }

  // ---- get_opcodes ----

  datatype Tag = Equal | Delete | Insert | Replace

  datatype Opcode = Opcode(tag: Tag, i1: nat, i2: nat, j1: nat, j2: nat)

  /** The kind of a stretch between two blocks that is not empty. */
  function GapTag(i: nat, ai: nat, j: nat, bj: nat): Tag {
    if i < ai && j < bj then Replace
    else if i < ai then Delete
    else Insert
  }

  /** The opcode for the stretch between two blocks, if there is one, and the rest. */
  function WithGap(i: nat, ai: nat, j: nat, bj: nat, rest: seq<Opcode>): seq<Opcode> {
    if i < ai || j < bj then [Opcode(GapTag(i, ai, j, bj), i, ai, j, bj)] + rest else rest
  }

  /** The opcodes from (i, j) on; the closing empty block is (ie, je). */
  function OpcodesFrom(blocks: seq<Block>, i: nat, j: nat, ie: nat, je: nat): seq<Opcode>
    decreases |blocks|
  {
    if blocks == [] then WithGap(i, ie, j, je, [])
    else
      var x := blocks[0];
      WithGap(i, x.i, j, x.j,
              [Opcode(Equal, x.i, x.i + x.k, x.j, x.j + x.k)]
              + OpcodesFrom(blocks[1..], x.i + x.k, x.j + x.k, ie, je))
  }

  function Opcodes<T(==)>(a: seq<T>, b: seq<T>): seq<Opcode> {
    OpcodesFrom(Matching(a, b), 0, 0, |a|, |b|)
  }

  // ---- the blocks climb through both lists ----

  /** Common stretches one after the other between (i, j) and (ie, je). */
  ghost predicate Climbs<T(!new)>(blocks: seq<Block>, a: seq<T>, b: seq<T>, i: nat, j: nat, ie: nat, je: nat)
    decreases |blocks|
  {
    if blocks == [] then i <= ie <= |a| && j <= je <= |b|
    else
      var x := blocks[0];
      && i <= x.i && j <= x.j && x.k > 0 && Run(a, b, x)
      && Climbs(blocks[1..], a, b, x.i + x.k, x.j + x.k, ie, je)
  }

  lemma {:induction false} ClimbsConcat<T(!new)>(x: seq<Block>, y: seq<Block>, a: seq<T>, b: seq<T>,
                                                i: nat, j: nat, im: nat, jm: nat, ie: nat, je: nat)
    requires Climbs(x, a, b, i, j, im, jm) && Climbs(y, a, b, im, jm, ie, je)
    ensures Climbs(x + y, a, b, i, j, ie, je)
    decreases |x|
  {
    if x == [] {
      assert x + y == y;
    } else {
      ClimbsConcat(x[1..], y, a, b, x[0].i + x[0].k, x[0].j + x[0].k, im, jm, ie, je);
      assert (x + y)[1..] == x[1..] + y;
    }
  }

  lemma {:induction false} BlocksClimb<T(!new)>(cuts: Cuts, a: seq<T>, b: seq<T>,
                                                alo: nat, ahi: nat, blo: nat, bhi: nat)
    requires Fits(cuts, a, b, alo, ahi, blo, bhi)
    ensures Climbs(Blocks(cuts), a, b, alo, blo, ahi, bhi)
  {
    match cuts
    case Nothing =>
    case Cut(left, m, right) =>
      BlocksClimb(left, a, b, alo, m.i, blo, m.j);
      BlocksClimb(right, a, b, m.i + m.k, ahi, m.j + m.k, bhi);
      ClimbsThrough(Blocks(left), m, Blocks(right), a, b, alo, blo, ahi, bhi);
  }

  lemma ClimbsThrough<T(!new)>(left: seq<Block>, m: Block, right: seq<Block>, a: seq<T>, b: seq<T>,
                              i: nat, j: nat, ie: nat, je: nat)
    requires m.k > 0 && Run(a, b, m)
    requires Climbs(left, a, b, i, j, m.i, m.j) && Climbs(right, a, b, m.i + m.k, m.j + m.k, ie, je)
    ensures Climbs(left + ([m] + right), a, b, i, j, ie, je)
  {
    assert ([m] + right)[1..] == right;
    ClimbsConcat(left, [m] + right, a, b, i, j, m.i, m.j, ie, je);
  }

  /** No block starts where the one before it ends in both lists. */
  ghost predicate Apart(blocks: seq<Block>) {
    |blocks| < 2 || (!Touch(blocks[0], blocks[1]) && Apart(blocks[1..]))
  }

  function Corner(x: Block): (nat, nat) { (x.i, x.j) }

  predicate Touch(x: Block, y: Block) {
    x.i + x.k == y.i && x.j + x.k == y.j
  }

  lemma RunsMeet<T(!new)>(a: seq<T>, b: seq<T>, x: Block, y: Block)
    requires Run(a, b, x) && Run(a, b, y) && Touch(x, y)
    ensures Run(a, b, Block(x.i, x.j, x.k + y.k))
  {
    SameMeet(a, b, x.i, x.j, x.k, y.k);
  }

  /** Joining neighbours keeps the climb, and leaves none. */
  lemma {:induction false} JoinedClimbs<T(!new)>(last: Block, blocks: seq<Block>, a: seq<T>, b: seq<T>, i: nat, j: nat,
                                                ie: nat, je: nat)
    requires Run(a, b, last) && i <= last.i && j <= last.j
    requires Climbs(blocks, a, b, last.i + last.k, last.j + last.k, ie, je)
    ensures Climbs(Joined(last, blocks), a, b, i, j, ie, je)
    ensures last.k > 0 ==> Joined(last, blocks) != [] && Corner(Joined(last, blocks)[0]) == (last.i, last.j)
    ensures Apart(Joined(last, blocks))
    decreases |blocks|
  {
    if blocks != [] {
      var x, more := blocks[0], blocks[1..];
      if Touch(last, x) {
        RunsMeet(a, b, last, x);
        JoinedClimbs(Block(last.i, last.j, last.k + x.k), more, a, b, i, j, ie, je);
      } else if last.k > 0 {
        JoinedClimbs(x, more, a, b, last.i + last.k, last.j + last.k, ie, je);
        var rest := Joined(x, more);
        assert ([last] + rest)[1..] == rest;
      } else {
        JoinedClimbs(x, more, a, b, i, j, ie, je);
      }
    }
  }

  lemma MatchingClimbs<T(!new)>(a: seq<T>, b: seq<T>)
    ensures Climbs(Matching(a, b), a, b, 0, 0, |a|, |b|) && Apart(Matching(a, b))
  {
    var cuts := CutsOf(LongestFinder(a, b), 0, |a|, 0, |b|);
    LongestFinderIsSound(a, b);
    CutsFit(LongestFinder(a, b), a, b, 0, |a|, 0, |b|);
    BlocksClimb(cuts, a, b, 0, |a|, 0, |b|);
    JoinedClimbs(Block(0, 0, 0), Blocks(cuts), a, b, 0, 0, |a|, |b|);
  }

  // ---- opcodes tile both lists ----

  ghost predicate Proper<T(!new)>(o: Opcode, a: seq<T>, b: seq<T>) {
    && o.i1 <= o.i2 <= |a| && o.j1 <= o.j2 <= |b|
    && match o.tag
       case Equal => o.i1 < o.i2 && o.i2 - o.i1 == o.j2 - o.j1 && Same(a, b, o.i1, o.j1, o.i2 - o.i1)
       case Delete => o.i1 < o.i2 && o.j1 == o.j2
       case Insert => o.i1 == o.i2 && o.j1 < o.j2
       case Replace => o.i1 < o.i2 && o.j1 < o.j2
  }

  /** The opcodes run through both lists from (i, j) to the ends, leaving nothing out. */
  ghost predicate Tiles<T(!new)>(ops: seq<Opcode>, a: seq<T>, b: seq<T>, i: nat, j: nat)
    decreases |ops|
  {
    if ops == [] then i == |a| && j == |b|
    else
      && Proper(ops[0], a, b) && ops[0].i1 == i && ops[0].j1 == j
      && Tiles(ops[1..], a, b, ops[0].i2, ops[0].j2)
  }

  /** Common and differing stretches take turns. */
  ghost predicate TakesTurns(ops: seq<Opcode>) {
    |ops| < 2 || ((ops[0].tag == Equal <==> ops[1].tag != Equal) && TakesTurns(ops[1..]))
  }

  lemma {:induction false} TakesTurnsAt(ops: seq<Opcode>, n: nat)
    requires TakesTurns(ops) && n + 1 < |ops|
    ensures ops[n].tag == Equal <==> ops[n + 1].tag != Equal
  {
    if n > 0 { TakesTurnsAt(ops[1..], n - 1); }
  }

  lemma GapTiles<T(!new)>(i: nat, ai: nat, j: nat, bj: nat, rest: seq<Opcode>, a: seq<T>, b: seq<T>)
    requires i <= ai <= |a| && j <= bj <= |b| && Tiles(rest, a, b, ai, bj)
    ensures Tiles(WithGap(i, ai, j, bj, rest), a, b, i, j)
  {
  }

  lemma {:induction false} OpcodesTile<T(!new)>(blocks: seq<Block>, a: seq<T>, b: seq<T>, i: nat, j: nat)
    requires Climbs(blocks, a, b, i, j, |a|, |b|)
    ensures Tiles(OpcodesFrom(blocks, i, j, |a|, |b|), a, b, i, j)
    decreases |blocks|
  {
    if blocks == [] {
      GapTiles(i, |a|, j, |b|, [], a, b);
    } else {
      OpcodesTile(blocks[1..], a, b, blocks[0].i + blocks[0].k, blocks[0].j + blocks[0].k);
      FirstBlockTiles(blocks[0], blocks[1..], a, b, i, j);
      assert blocks == [blocks[0]] + blocks[1..];
    }
  }

  lemma FirstBlockTiles<T(!new)>(x: Block, more: seq<Block>, a: seq<T>, b: seq<T>, i: nat, j: nat)
    requires i <= x.i && j <= x.j && x.k > 0 && Run(a, b, x)
    requires Tiles(OpcodesFrom(more, x.i + x.k, x.j + x.k, |a|, |b|), a, b, x.i + x.k, x.j + x.k)
    ensures Tiles(OpcodesFrom([x] + more, i, j, |a|, |b|), a, b, i, j)
  {
  }

  lemma {:induction false} OpcodesTakeTurns<T(!new)>(blocks: seq<Block>, a: seq<T>, b: seq<T>, i: nat, j: nat)
    requires Climbs(blocks, a, b, i, j, |a|, |b|) && Apart(blocks)
    ensures TakesTurns(OpcodesFrom(blocks, i, j, |a|, |b|))
    ensures StartsEqual(OpcodesFrom(blocks, i, j, |a|, |b|)) ==> blocks != [] && Corner(blocks[0]) == (i, j)
    decreases |blocks|
  {
    if blocks != [] {
      var x := blocks[0];
      OpcodesTakeTurns(blocks[1..], a, b, x.i + x.k, x.j + x.k);
      TurnsAround(i, x.i, j, x.j, Opcode(Equal, x.i, x.i + x.k, x.j, x.j + x.k),
                  OpcodesFrom(blocks[1..], x.i + x.k, x.j + x.k, |a|, |b|));
    }
  }

  ghost predicate StartsEqual(ops: seq<Opcode>) {
    ops != [] && ops[0].tag == Equal
  }

  lemma TurnsAround(i: nat, ai: nat, j: nat, bj: nat, equal: Opcode, rest: seq<Opcode>)
    requires TakesTurns(rest) && equal.tag == Equal && !StartsEqual(rest)
    ensures TakesTurns(WithGap(i, ai, j, bj, [equal] + rest))
    ensures StartsEqual(WithGap(i, ai, j, bj, [equal] + rest)) ==> i >= ai && j >= bj
  {
  }

  /** The opcodes tile the two lists, and common and differing stretches alternate. */
  lemma OpcodesAreTiling<T(!new)>(a: seq<T>, b: seq<T>)
    ensures Tiles(Opcodes(a, b), a, b, 0, 0) && TakesTurns(Opcodes(a, b))
  {
    MatchingClimbs(a, b);
    OpcodesTile(Matching(a, b), a, b, 0, 0);
    OpcodesTakeTurns(Matching(a, b), a, b, 0, 0);
  }

  lemma {:induction false} TilesAt<T(!new)>(ops: seq<Opcode>, a: seq<T>, b: seq<T>, i: nat, j: nat, n: nat)
    requires Tiles(ops, a, b, i, j) && n < |ops|
    ensures Proper(ops[n], a, b)
    ensures n == 0 ==> ops[n].i1 == i && ops[n].j1 == j
    ensures n > 0 ==> ops[n].i1 == ops[n - 1].i2 && ops[n].j1 == ops[n - 1].j2
    ensures n == |ops| - 1 ==> ops[n].i2 == |a| && ops[n].j2 == |b|
    decreases |ops|
  {
    if n > 0 {
      TilesAt(ops[1..], a, b, ops[0].i2, ops[0].j2, n - 1);
    } else if |ops| == 1 {
      assert ops[1..] == [];
    }
  }

  // ---- ratio ----

  function Total(blocks: seq<Block>): nat {
    if blocks == [] then 0 else blocks[0].k + Total(blocks[1..])
  }

  lemma {:induction false} TotalConcat(x: seq<Block>, y: seq<Block>)
    ensures Total(x + y) == Total(x) + Total(y)
  {
    if x == [] {
      assert x + y == y;
    } else {
      TotalConcat(x[1..], y);
      assert (x + y)[1..] == x[1..] + y;
    }
  }

  lemma TotalOfMore(x: Block, rest: seq<Block>)
    ensures Total([x] + rest) == x.k + Total(rest)
  {
  }

  lemma {:induction false} TotalJoined(last: Block, blocks: seq<Block>)
    ensures Total(Joined(last, blocks)) == last.k + Total(blocks)
    decreases |blocks|
  {
    if blocks == [] {
      TotalOfMore(last, []);
    } else {
      var x, more := blocks[0], blocks[1..];
      assert Total(blocks) == x.k + Total(more);
      if Touch(last, x) {
        TotalJoined(Block(last.i, last.j, last.k + x.k), more);
      } else {
        TotalJoined(x, more);
        TotalOfMore(last, Joined(x, more));
      }
    }
  }

  /** `ratio()` of `m` matches among `t` elements, as a real number. */
  function RatioFrom(m: nat, t: nat): real {
    if t == 0 then 1.0 else 2.0 * m as real / t as real
  }

  function Ratio<T(==)>(a: seq<T>, b: seq<T>): real {
    RatioFrom(Total(Matching(a, b)), |a| + |b|)
  }

  /** Blocks cover at most either list, and both wholly only if the lists are equal. */
  lemma {:induction false} BlocksCover<T(!new)>(cuts: Cuts, a: seq<T>, b: seq<T>,
                                                alo: nat, ahi: nat, blo: nat, bhi: nat)
    requires Fits(cuts, a, b, alo, ahi, blo, bhi)
    ensures var t := Total(Blocks(cuts));
            && t <= ahi - alo && t <= bhi - blo
            && (t == ahi - alo == bhi - blo ==> Run(a, b, Block(alo, blo, t)))
  {
    match cuts
    case Nothing =>
    case Cut(left, m, right) =>
      BlocksCover(left, a, b, alo, m.i, blo, m.j);
      BlocksCover(right, a, b, m.i + m.k, ahi, m.j + m.k, bhi);
      TotalAround(Blocks(left), m, Blocks(right));
      var l, r := Total(Blocks(left)), Total(Blocks(right));
      if l + m.k + r == ahi - alo == bhi - blo {
        RunsMeet(a, b, Block(alo, blo, l), m);
        RunsMeet(a, b, Block(alo, blo, l + m.k), Block(m.i + m.k, m.j + m.k, r));
      }
  }

  lemma TotalAround(left: seq<Block>, m: Block, right: seq<Block>)
    ensures Total(left + ([m] + right)) == Total(left) + m.k + Total(right)
  {
    TotalConcat(left, [m] + right);
    TotalOfMore(m, right);
  }

  lemma {:induction false} AgreeSelf<T(!new)>(a: seq<T>)
    ensures Agree(a, a) == |a|
  {
    if a != [] { AgreeSelf(a[1..]); }
  }

  /** A list matches itself in one block. */
  lemma MatchingSelf<T(!new)>(a: seq<T>)
    requires a != []
    ensures Matching(a, a) == [Block(0, 0, |a|)]
  {
    LongestSelf(a);
    assert a[0..|a|] == a;
    var m := Block(0, 0, |a|);
    var find := LongestFinder(a, a);
    assert find(0, |a|, 0, |a|) == m;
    assert CutsOf(find, 0, 0, 0, 0) == Nothing == CutsOf(find, |a|, |a|, |a|, |a|);
    assert CutsOf(find, 0, |a|, 0, |a|) == Cut(Nothing, m, Nothing);
    assert Blocks(Cut(Nothing, m, Nothing)) == [] + ([m] + []) == [m];
    assert [m][1..] == [];
    assert Joined(m, []) == [m];
  }

  lemma LongestSelf<T(!new)>(a: seq<T>)
    ensures Longest(a, a, 0) == Block(0, 0, |a|)
  {
    assert a[0..] == a;
    AgreeSelf(a);
    LongestIsLongest(a, a, 0, 0, 0);
  }

  /** The ratio is between 0 and 1, and 1 for equal lists only. */
  lemma RatioRange<T(!new)>(a: seq<T>, b: seq<T>)
    ensures 0.0 <= Ratio(a, b) <= 1.0
    ensures Ratio(a, b) == 1.0 <==> a == b
  {
    var cuts := CutsOf(LongestFinder(a, b), 0, |a|, 0, |b|);
    LongestFinderIsSound(a, b);
    CutsFit(LongestFinder(a, b), a, b, 0, |a|, 0, |b|);
    TotalOfCuts(cuts, a, b);
    Halves(Total(Matching(a, b)), |a| + |b|);
    if a == b && a != [] {
      MatchingSelf(a);
      assert [Block(0, 0, |a|)][1..] == [];
    }
  }

  lemma TotalOfCuts<T(!new)>(cuts: Cuts, a: seq<T>, b: seq<T>)
    requires Fits(cuts, a, b, 0, |a|, 0, |b|)
    ensures var m := Total(Joined(Block(0, 0, 0), Blocks(cuts)));
            2 * m <= |a| + |b| && (2 * m == |a| + |b| ==> a == b)
  {
    TotalJoined(Block(0, 0, 0), Blocks(cuts));
    BlocksCover(cuts, a, b, 0, |a|, 0, |b|);
    var m := Total(Blocks(cuts));
    if 2 * m == |a| + |b| {
      assert Run(a, b, Block(0, 0, m));
      SameSlices(a, b, 0, 0, m);
      assert a[0..m] == a && b[0..m] == b;
    }
  }

  lemma Halves(m: nat, t: nat)
    requires 2 * m <= t
    ensures 0.0 <= RatioFrom(m, t) <= 1.0
    ensures RatioFrom(m, t) == 1.0 <==> 2 * m == t
  {
  }

  // ---- what is found, without saying how ----

  /** The two stretches have no element in common. */
  ghost predicate NoneCommon<T(!new)>(a: seq<T>, b: seq<T>, alo: nat, ahi: nat, blo: nat, bhi: nat) {
    forall p: nat, q: nat :: alo <= p < ahi && p < |a| && blo <= q < bhi && q < |b| ==> a[p] != b[q]
  }

  predicate NotAfter(x: Block, y: Block) { x.i < y.i || (x.i == y.i && x.j <= y.j) }

  /** A longest common stretch between the bounds; of those the first in `a`, then in `b`. */
  ghost predicate FirstLongest<T(!new)>(m: Block, a: seq<T>, b: seq<T>, alo: nat, ahi: nat, blo: nat, bhi: nat) {
    && m.k > 0 && Within(m, alo, ahi, blo, bhi) && Run(a, b, m)
    && forall x :: Within(x, alo, ahi, blo, bhi) && Run(a, b, x) ==> x.k <= m.k && (x.k == m.k ==> NotAfter(m, x))
  }

  /** Cut out a longest stretch, then go on left and right of it until nothing is in common. */
  ghost predicate Divided<T(!new)>(cuts: Cuts, a: seq<T>, b: seq<T>, alo: nat, ahi: nat, blo: nat, bhi: nat) {
    && alo <= ahi <= |a| && blo <= bhi <= |b|
    && match cuts
       case Nothing => NoneCommon(a, b, alo, ahi, blo, bhi)
       case Cut(left, m, right) =>
         && FirstLongest(m, a, b, alo, ahi, blo, bhi)
         && Divided(left, a, b, alo, m.i, blo, m.j)
         && Divided(right, a, b, m.i + m.k, ahi, m.j + m.k, bhi)
  }

  lemma {:induction false} SameOutside<T(!new)>(a: seq<T>, b: seq<T>, alo: nat, ahi: nat, blo: nat, bhi: nat,
                                               i: nat, j: nat, k: nat)
    requires alo <= ahi <= |a| && blo <= bhi <= |b| && i + k <= ahi - alo && j + k <= bhi - blo
    requires Same(a, b, alo + i, blo + j, k)
    ensures Same(a[alo..ahi], b[blo..bhi], i, j, k)
  {
    if k > 0 { SameOutside(a, b, alo, ahi, blo, bhi, i, j, k - 1); }
  }

  lemma {:induction false} AgreeAtLeast<T(!new)>(a: seq<T>, b: seq<T>, k: nat)
    requires k <= |a| && k <= |b| && a[..k] == b[..k]
    ensures Agree(a, b) >= k
  {
    if k > 0 {
      assert a[0] == a[..k][0] && b[0] == b[..k][0];
      assert a[1..][..k - 1] == a[..k][1..] && b[1..][..k - 1] == b[..k][1..];
      AgreeAtLeast(a[1..], b[1..], k - 1);
    }
  }

  lemma SameAgrees<T(!new)>(a: seq<T>, b: seq<T>, i: nat, j: nat, k: nat)
    requires i <= |a| && j <= |b| && Same(a, b, i, j, k)
    ensures Agree(a[i..], b[j..]) >= k
  {
    SameSlices(a, b, i, j, k);
    assert a[i..][..k] == a[i..i + k] && b[j..][..k] == b[j..j + k];
    AgreeAtLeast(a[i..], b[j..], k);
  }

  /** Nothing between the bounds beats what the finder finds there. */
  lemma LongestInIsFirst<T(!new)>(a: seq<T>, b: seq<T>, alo: nat, ahi: nat, blo: nat, bhi: nat, x: Block)
    requires alo <= ahi <= |a| && blo <= bhi <= |b| && Within(x, alo, ahi, blo, bhi) && Run(a, b, x)
    ensures var m := LongestIn(a, b, alo, ahi, blo, bhi); x.k <= m.k && (x.k == m.k ==> NotAfter(m, x))
  {
    var u, v := a[alo..ahi], b[blo..bhi];
    SameOutside(a, b, alo, ahi, blo, bhi, x.i - alo, x.j - blo, x.k);
    SameAgrees(u, v, x.i - alo, x.j - blo, x.k);
    LongestIsLongest(u, v, 0, x.i - alo, x.j - blo);
  }

  lemma OneCommon<T(!new)>(a: seq<T>, b: seq<T>, p: nat, q: nat)
    requires p < |a| && q < |b| && a[p] == b[q]
    ensures Run(a, b, Block(p, q, 1))
  {
    assert Same(a, b, p, q, 0);
  }

  ghost predicate FirstOrNone<T(!new)>(m: Block, a: seq<T>, b: seq<T>, alo: nat, ahi: nat, blo: nat, bhi: nat) {
    if m.k == 0 then NoneCommon(a, b, alo, ahi, blo, bhi) else FirstLongest(m, a, b, alo, ahi, blo, bhi)
  }

  ghost predicate FindsAt<T(!new)>(find: Finder, a: seq<T>, b: seq<T>, alo: nat, ahi: nat, blo: nat, bhi: nat) {
    alo <= ahi <= |a| && blo <= bhi <= |b| ==> FirstOrNone(find(alo, ahi, blo, bhi), a, b, alo, ahi, blo, bhi)
  }

  /** The finder finds a longest stretch wherever there is one. */
  ghost predicate FindsFirst<T(!new)>(find: Finder, a: seq<T>, b: seq<T>) {
    forall alo: nat, ahi: nat, blo: nat, bhi: nat {:trigger FindsAt(find, a, b, alo, ahi, blo, bhi)} ::
      FindsAt(find, a, b, alo, ahi, blo, bhi)
  }

  lemma LongestFinderFindsAt<T(!new)>(a: seq<T>, b: seq<T>, alo: nat, ahi: nat, blo: nat, bhi: nat)
    ensures FindsAt(LongestFinder(a, b), a, b, alo, ahi, blo, bhi)
  {
    if alo <= ahi <= |a| && blo <= bhi <= |b| {
      var m := LongestIn(a, b, alo, ahi, blo, bhi);
      LongestInRuns(a, b, alo, ahi, blo, bhi);
      forall x | Within(x, alo, ahi, blo, bhi) && Run(a, b, x) ensures x.k <= m.k && (x.k == m.k ==> NotAfter(m, x)) {
        LongestInIsFirst(a, b, alo, ahi, blo, bhi, x);
      }
      forall p: nat, q: nat | m.k == 0 && alo <= p < ahi && blo <= q < bhi ensures a[p] != b[q] {
        if a[p] == b[q] { OneCommon(a, b, p, q); }
      }
      assert FirstOrNone(m, a, b, alo, ahi, blo, bhi);
    }
  }

  lemma LongestFinderFindsFirst<T(!new)>(a: seq<T>, b: seq<T>)
    ensures FindsFirst(LongestFinder(a, b), a, b)
  {
    forall alo: nat, ahi: nat, blo: nat, bhi: nat ensures FindsAt(LongestFinder(a, b), a, b, alo, ahi, blo, bhi) {
      LongestFinderFindsAt(a, b, alo, ahi, blo, bhi);
    }
  }

  /** Every cut is where the finder says. */
  ghost predicate Follows(cuts: Cuts, find: Finder, alo: nat, ahi: nat, blo: nat, bhi: nat) {
    && alo <= ahi && blo <= bhi
    && var m := find(alo, ahi, blo, bhi);
       match cuts
       case Nothing => m.k == 0 || !Within(m, alo, ahi, blo, bhi)
       case Cut(left, found, right) =>
         && found == m && m.k > 0 && Within(m, alo, ahi, blo, bhi)
         && Follows(left, find, alo, m.i, blo, m.j) && Follows(right, find, m.i + m.k, ahi, m.j + m.k, bhi)
  }

  lemma {:induction false} CutsFollow(find: Finder, alo: nat, ahi: nat, blo: nat, bhi: nat)
    requires alo <= ahi && blo <= bhi
    ensures Follows(CutsOf(find, alo, ahi, blo, bhi), find, alo, ahi, blo, bhi)
    decreases ahi - alo
  {
    var m := find(alo, ahi, blo, bhi);
    if m.k > 0 && Within(m, alo, ahi, blo, bhi) {
      CutsFollow(find, alo, m.i, blo, m.j);
      CutsFollow(find, m.i + m.k, ahi, m.j + m.k, bhi);
    }
  }

  /** That is what the recursion does. */
  lemma {:induction false} FollowingDivides<T(!new)>(cuts: Cuts, find: Finder, a: seq<T>, b: seq<T>,
                                                    alo: nat, ahi: nat, blo: nat, bhi: nat)
    requires ahi <= |a| && bhi <= |b| && FindsFirst(find, a, b) && Follows(cuts, find, alo, ahi, blo, bhi)
    ensures Divided(cuts, a, b, alo, ahi, blo, bhi)
  {
    assert FindsAt(find, a, b, alo, ahi, blo, bhi);
    match cuts
    case Nothing =>
    case Cut(left, m, right) =>
      FollowingDivides(left, find, a, b, alo, m.i, blo, m.j);
      FollowingDivides(right, find, a, b, m.i + m.k, ahi, m.j + m.k, bhi);
  }

  lemma MatchingDivides<T(!new)>(a: seq<T>, b: seq<T>) returns (cuts: Cuts)
    ensures Divided(cuts, a, b, 0, |a|, 0, |b|) && Matching(a, b) == Joined(Block(0, 0, 0), Blocks(cuts))
    ensures forall x :: x in Blocks(cuts) ==> x.k > 0
  {
    cuts := CutsOf(LongestFinder(a, b), 0, |a|, 0, |b|);
    LongestFinderFindsFirst(a, b);
    CutsFollow(LongestFinder(a, b), 0, |a|, 0, |b|);
    FollowingDivides(cuts, LongestFinder(a, b), a, b, 0, |a|, 0, |b|);
    forall x | x in Blocks(cuts) ensures x.k > 0 {
      DividedHas(cuts, a, b, 0, |a|, 0, |b|, x);
    }
  }

  lemma {:induction false} DividedHas<T(!new)>(cuts: Cuts, a: seq<T>, b: seq<T>, alo: nat, ahi: nat, blo: nat, bhi: nat,
                                              x: Block)
    requires Divided(cuts, a, b, alo, ahi, blo, bhi) && x in Blocks(cuts)
    ensures x.k > 0
  {
    var m := cuts.m;
    if x in Blocks(cuts.left) {
      DividedHas(cuts.left, a, b, alo, m.i, blo, m.j, x);
    } else if x in Blocks(cuts.right) {
      DividedHas(cuts.right, a, b, m.i + m.k, ahi, m.j + m.k, bhi, x);
    }
  }

  lemma FirstLongestIsOne<T(!new)>(m: Block, n: Block, a: seq<T>, b: seq<T>, alo: nat, ahi: nat, blo: nat, bhi: nat)
    requires FirstLongest(m, a, b, alo, ahi, blo, bhi) && FirstLongest(n, a, b, alo, ahi, blo, bhi)
    ensures m == n
  {
  }

  lemma NoneOrOne<T(!new)>(m: Block, a: seq<T>, b: seq<T>, alo: nat, ahi: nat, blo: nat, bhi: nat)
    requires FirstLongest(m, a, b, alo, ahi, blo, bhi)
    ensures !NoneCommon(a, b, alo, ahi, blo, bhi)
  {
    SameAt(a, b, m.i, m.j, m.k, 0);
    assert a[m.i] == b[m.j];
  }

  lemma SameTop<T(!new)>(x: Cuts, y: Cuts, a: seq<T>, b: seq<T>, alo: nat, ahi: nat, blo: nat, bhi: nat)
    requires Divided(x, a, b, alo, ahi, blo, bhi) && Divided(y, a, b, alo, ahi, blo, bhi)
    ensures (x.Cut? <==> y.Cut?) && (x.Cut? && y.Cut? ==> x.m == y.m)
  {
    if x.Cut? { NoneOrOne(x.m, a, b, alo, ahi, blo, bhi); }
    if y.Cut? { NoneOrOne(y.m, a, b, alo, ahi, blo, bhi); }
    if x.Cut? && y.Cut? { FirstLongestIsOne(x.m, y.m, a, b, alo, ahi, blo, bhi); }
  }

  /** There is one way to do it. */
  lemma {:induction false} DivisionIsUnique<T(!new)>(x: Cuts, y: Cuts, a: seq<T>, b: seq<T>,
                                                    alo: nat, ahi: nat, blo: nat, bhi: nat)
    requires Divided(x, a, b, alo, ahi, blo, bhi) && Divided(y, a, b, alo, ahi, blo, bhi)
    ensures x == y
  {
    SameTop(x, y, a, b, alo, ahi, blo, bhi);
    match x
    case Nothing =>
    case Cut(left, m, right) =>
      DivisionIsUnique(left, y.left, a, b, alo, m.i, blo, m.j);
      DivisionIsUnique(right, y.right, a, b, m.i + m.k, ahi, m.j + m.k, bhi);
  }

  // ---- what is left over has nothing in common ----

  ghost predicate CleanGaps<T(!new)>(blocks: seq<Block>, a: seq<T>, b: seq<T>, i: nat, j: nat, ie: nat, je: nat)
    decreases |blocks|
  {
    if blocks == [] then NoneCommon(a, b, i, ie, j, je)
    else
      var x := blocks[0];
      NoneCommon(a, b, i, x.i, j, x.j) && CleanGaps(blocks[1..], a, b, x.i + x.k, x.j + x.k, ie, je)
  }

  lemma {:induction false} CleanConcat<T(!new)>(x: seq<Block>, m: Block, y: seq<Block>, a: seq<T>, b: seq<T>,
                                               i: nat, j: nat, ie: nat, je: nat)
    requires CleanGaps(x, a, b, i, j, m.i, m.j) && CleanGaps(y, a, b, m.i + m.k, m.j + m.k, ie, je)
    ensures CleanGaps(x + ([m] + y), a, b, i, j, ie, je)
    decreases |x|
  {
    if x == [] {
      assert x + ([m] + y) == [m] + y && ([m] + y)[1..] == y;
    } else {
      CleanConcat(x[1..], m, y, a, b, x[0].i + x[0].k, x[0].j + x[0].k, ie, je);
      assert (x + ([m] + y))[1..] == x[1..] + ([m] + y);
    }
  }

  lemma {:induction false} BlocksAreClean<T(!new)>(cuts: Cuts, a: seq<T>, b: seq<T>,
                                                  alo: nat, ahi: nat, blo: nat, bhi: nat)
    requires Divided(cuts, a, b, alo, ahi, blo, bhi)
    ensures CleanGaps(Blocks(cuts), a, b, alo, blo, ahi, bhi)
  {
    match cuts
    case Nothing =>
    case Cut(left, m, right) =>
      BlocksAreClean(left, a, b, alo, m.i, blo, m.j);
      BlocksAreClean(right, a, b, m.i + m.k, ahi, m.j + m.k, bhi);
      CleanConcat(Blocks(left), m, Blocks(right), a, b, alo, blo, ahi, bhi);
  }

  lemma {:induction false} JoinedIsClean<T(!new)>(last: Block, blocks: seq<Block>, a: seq<T>, b: seq<T>, i: nat, j: nat,
                                                 ie: nat, je: nat)
    requires NoneCommon(a, b, i, last.i, j, last.j) && (last.k == 0 ==> last.i == i && last.j == j)
    requires CleanGaps(blocks, a, b, last.i + last.k, last.j + last.k, ie, je)
    requires forall x :: x in blocks ==> x.k > 0
    ensures CleanGaps(Joined(last, blocks), a, b, i, j, ie, je)
    decreases |blocks|
  {
    if blocks == [] {
      if last.k > 0 { assert [last][1..] == []; }
    } else {
      var x, more := blocks[0], blocks[1..];
      if Touch(last, x) {
        JoinedIsClean(Block(last.i, last.j, last.k + x.k), more, a, b, i, j, ie, je);
      } else if last.k > 0 {
        JoinedIsClean(x, more, a, b, last.i + last.k, last.j + last.k, ie, je);
        assert ([last] + Joined(x, more))[1..] == Joined(x, more);
      } else {
        JoinedIsClean(x, more, a, b, i, j, ie, je);
      }
    }
  }

  lemma {:induction false} OpcodesAreClean<T(!new)>(blocks: seq<Block>, a: seq<T>, b: seq<T>, i: nat, j: nat,
                                                   ie: nat, je: nat, o: Opcode)
    requires CleanGaps(blocks, a, b, i, j, ie, je) && o in OpcodesFrom(blocks, i, j, ie, je) && o.tag != Equal
    ensures NoneCommon(a, b, o.i1, o.i2, o.j1, o.j2)
    decreases |blocks|
  {
    if blocks != [] {
      var x := blocks[0];
      var rest := OpcodesFrom(blocks[1..], x.i + x.k, x.j + x.k, ie, je);
      if o in rest { OpcodesAreClean(blocks[1..], a, b, x.i + x.k, x.j + x.k, ie, je, o); }
    }
  }

  lemma {:induction false} ClimbingRuns<T(!new)>(blocks: seq<Block>, a: seq<T>, b: seq<T>, i: nat, j: nat,
                                                ie: nat, je: nat, x: Block)
    requires Climbs(blocks, a, b, i, j, ie, je) && x in blocks
    ensures x.k > 0 && Run(a, b, x)
    decreases |blocks|
  {
    var y := blocks[0];
    if x != y { ClimbingRuns(blocks[1..], a, b, y.i + y.k, y.j + y.k, ie, je, x); }
  }

  lemma MatchingIsClean<T(!new)>(a: seq<T>, b: seq<T>)
    ensures CleanGaps(Matching(a, b), a, b, 0, 0, |a|, |b|)
  {
    var cuts := MatchingDivides(a, b);
    BlocksAreClean(cuts, a, b, 0, |a|, 0, |b|);
    JoinedIsClean(Block(0, 0, 0), Blocks(cuts), a, b, 0, 0, |a|, |b|);
  }

  /** What an opcode replaces, and what it puts there, have no element in common: nothing that
      could have been kept is marked as gone and new. */
  lemma ReplacedIsForeign<T(!new)>(a: seq<T>, b: seq<T>, o: Opcode, p: nat, q: nat)
    requires o in Opcodes(a, b) && o.tag != Equal
    requires o.i1 <= p < o.i2 && p < |a| && o.j1 <= q < o.j2 && q < |b|
    ensures a[p] != b[q]
  {
    MatchingIsClean(a, b);
    OpcodesAreClean(Matching(a, b), a, b, 0, 0, |a|, |b|, o);
  }

  // ---- the longest common stretch is kept ----

  /** `x` goes over the whole of `m`. */
  predicate Spans(x: Block, m: Block) {
    x.i <= m.i && m.i + m.k <= x.i + x.k && m.i - x.i == m.j - x.j
  }

  lemma {:induction false} JoinedSpans(last: Block, blocks: seq<Block>, m: Block) returns (x: Block)
    requires (m in blocks || Spans(last, m)) && m.k > 0
    ensures x in Joined(last, blocks) && Spans(x, m)
    decreases |blocks|
  {
    if blocks == [] {
      x := last;
    } else if Touch(last, blocks[0]) {
      x := JoinedSpans(Block(last.i, last.j, last.k + blocks[0].k), blocks[1..], m);
    } else if Spans(last, m) {
      x := last;
    } else {
      x := JoinedSpans(blocks[0], blocks[1..], m);
    }
  }

  lemma {:induction false} BlockIsOpcode(blocks: seq<Block>, i: nat, j: nat, ie: nat, je: nat, x: Block)
    requires x in blocks
    ensures Opcode(Equal, x.i, x.i + x.k, x.j, x.j + x.k) in OpcodesFrom(blocks, i, j, ie, je)
    decreases |blocks|
  {
    var y := blocks[0];
    if x != y { BlockIsOpcode(blocks[1..], y.i + y.k, y.j + y.k, ie, je, x); }
  }

  /** If the lists have anything in common, a longest common stretch of them is one opcode: of all
      such stretches the first in `a`, then in `b`. */
  lemma LongestIsKept<T(!new)>(a: seq<T>, b: seq<T>) returns (m: Block)
    requires !NoneCommon(a, b, 0, |a|, 0, |b|)
    ensures FirstLongest(m, a, b, 0, |a|, 0, |b|)
    ensures Opcode(Equal, m.i, m.i + m.k, m.j, m.j + m.k) in Opcodes(a, b)
  {
    var cuts := MatchingDivides(a, b);
    m := cuts.m;
    var x := JoinedSpans(Block(0, 0, 0), Blocks(cuts), m);
    SpanIsLongest(a, b, m, x);
    BlockIsOpcode(Matching(a, b), 0, 0, |a|, |b|, x);
  }

  lemma SpanIsLongest<T(!new)>(a: seq<T>, b: seq<T>, m: Block, x: Block)
    requires x in Matching(a, b) && Spans(x, m) && FirstLongest(m, a, b, 0, |a|, 0, |b|)
    ensures x == m
  {
    MatchingClimbs(a, b);
    ClimbingRuns(Matching(a, b), a, b, 0, 0, |a|, |b|, x);
    SameSlices(a, b, x.i, x.j, x.k);
    assert Within(x, 0, |a|, 0, |b|);
  }

  /** The matching blocks are those of the one such division, neighbours joined. */
  lemma MatchingIsDivision<T(!new)>(a: seq<T>, b: seq<T>, cuts: Cuts)
    requires Divided(cuts, a, b, 0, |a|, 0, |b|)
    ensures Matching(a, b) == Joined(Block(0, 0, 0), Blocks(cuts))
  {
    var found := MatchingDivides(a, b);
    DivisionIsUnique(cuts, found, a, b, 0, |a|, 0, |b|);
  }

  // ---- the ratio, by what is kept ----

  /** How many elements the opcodes keep. */
  function KeptIn(ops: seq<Opcode>): nat {
    if ops == [] then 0
    else (if ops[0].tag == Equal && ops[0].i1 <= ops[0].i2 then ops[0].i2 - ops[0].i1 else 0) + KeptIn(ops[1..])
  }

  lemma KeptInMore(o: Opcode, rest: seq<Opcode>)
    ensures KeptIn([o] + rest)
            == (if o.tag == Equal && o.i1 <= o.i2 then o.i2 - o.i1 else 0) + KeptIn(rest)
  {
  }

  lemma KeptInGap(i: nat, ai: nat, j: nat, bj: nat, rest: seq<Opcode>)
    ensures KeptIn(WithGap(i, ai, j, bj, rest)) == KeptIn(rest)
  {
    KeptInMore(Opcode(GapTag(i, ai, j, bj), i, ai, j, bj), rest);
  }

  lemma {:induction false} KeptIsTotal(blocks: seq<Block>, i: nat, j: nat, ie: nat, je: nat)
    ensures KeptIn(OpcodesFrom(blocks, i, j, ie, je)) == Total(blocks)
    decreases |blocks|
  {
    if blocks == [] {
      KeptInGap(i, ie, j, je, []);
    } else {
      var x := blocks[0];
      KeptIsTotal(blocks[1..], x.i + x.k, x.j + x.k, ie, je);
      KeptFrom(blocks, i, j, ie, je);
      assert Total(blocks) == x.k + Total(blocks[1..]);
    }
  }

  lemma KeptFrom(blocks: seq<Block>, i: nat, j: nat, ie: nat, je: nat)
    requires blocks != []
    ensures var x := blocks[0];
            KeptIn(OpcodesFrom(blocks, i, j, ie, je))
            == x.k + KeptIn(OpcodesFrom(blocks[1..], x.i + x.k, x.j + x.k, ie, je))
  {
    var x := blocks[0];
    var equal := Opcode(Equal, x.i, x.i + x.k, x.j, x.j + x.k);
    var rest := OpcodesFrom(blocks[1..], x.i + x.k, x.j + x.k, ie, je);
    assert OpcodesFrom(blocks, i, j, ie, je) == WithGap(i, x.i, j, x.j, [equal] + rest);
    KeptInMore(equal, rest);
    KeptInGap(i, x.i, j, x.j, [equal] + rest);
  }

  /** Of `t` elements, `kept` on either side are kept. */
  ghost predicate IsShare(ratio: real, kept: nat, t: nat) { ratio * t as real == 2.0 * kept as real }

  lemma FromIsShare(m: nat, t: nat)
    requires t == 0 ==> m == 0
    ensures IsShare(RatioFrom(m, t), m, t)
  {
  }

  /** The ratio is the share of the elements of both lists that the opcodes keep. */
  lemma RatioIsShareKept<T(!new)>(a: seq<T>, b: seq<T>)
    ensures IsShare(Ratio(a, b), KeptIn(Opcodes(a, b)), |a| + |b|)
  {
    KeptIsTotal(Matching(a, b), 0, 0, |a|, |b|);
    if |a| + |b| == 0 { NothingKept(a, b); }
    FromIsShare(Total(Matching(a, b)), |a| + |b|);
  }

  lemma NothingKept<T(!new)>(a: seq<T>, b: seq<T>)
    requires a == [] && b == []
    ensures Total(Matching(a, b)) == 0
  {
    MatchingClimbs(a, b);
    assert Matching(a, b) == [];
  }
}
