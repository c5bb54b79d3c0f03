/** compare_snapshots of backend/engine/services/comparison.py, and the change map
    that seal_service.py makes of its answer. */
module Comparison {
  import opened Order
  import opened Sections
  import Text
  import SectionKeys
  import WordDiff
  import Difflib

  datatype Snapshot = Snapshot(key: Key, heading: Heading, bodyHash: Hash, body: Body, order: int)

  datatype Marks = Marks(ops: seq<WordDiff.Op>)

  datatype Diff = Diff(key: Key, headingFrom: Heading, headingTo: Heading, change: ChangeType,
                       order: int, words: Marks)

  const NO_HEADING := Heading([])

  // ---- headings up to their number ----

  /** `re.sub(r'^\s*\d+(\.\d+)*[.)]?\s*', '', h)` on a heading without white space in front. */
  function CutNumber(h: Text.Text): Text.Text {
    if h != [] && h[0].Digit? then
      h[Text.GapEnd(h, SectionKeys.MarkEnd(h, SectionKeys.NumberEnd(h, 0)))..]
    else h
  }

  /** `_strip_numbering`; the string method lower() is a parameter. */
  function StripNumbering(lower: Text.Text -> Text.Text, h: Heading): Heading {
    Heading(CutNumber(Text.Join(Text.Split(lower(h.text)))))
  }

  /** What `_strip_numbering` makes of a heading: only ever compared for equality. */
  type Stripper = Heading -> Heading

  // ---- {s['stable_key']: s for s in snapshots} ----

  /** The dictionary: of equal keys the last counts. */
  function ByKey(snaps: seq<Snapshot>): map<Key, Snapshot> {
    if snaps == [] then map[]
    else
      var n := |snaps| - 1;
      ByKey(snaps[..n])[snaps[n].key := snaps[n]]
  }

  /** A dictionary keeps a key where it was first put. */
  function Put(items: seq<Snapshot>, s: Snapshot): seq<Snapshot> {
    if items == [] then [s]
    else if items[0].key == s.key then [s] + items[1..]
    else [items[0]] + Put(items[1..], s)
  }

  /** The values of the dictionary in its own order. */
  function Items(snaps: seq<Snapshot>): seq<Snapshot> {
    if snaps == [] then [] else Put(Items(snaps[..|snaps| - 1]), snaps[|snaps| - 1])
  }

  ghost predicate OneEach(items: seq<Snapshot>) {
    forall i, j :: 0 <= i < j < |items| ==> items[i].key != items[j].key
  }

  /** `items` lists the values of `m`, each once. */
  ghost predicate Lists(items: seq<Snapshot>, m: map<Key, Snapshot>) {
    && OneEach(items)
    && (forall s :: s in items ==> s.key in m && m[s.key] == s)
    && (forall k :: k in m ==> m[k] in items)
    && (forall k :: k in m ==> m[k].key == k)
  }

  lemma {:induction false} PutLists(items: seq<Snapshot>, m: map<Key, Snapshot>, s: Snapshot)
    requires Lists(items, m)
    ensures Lists(Put(items, s), m[s.key := s])
    decreases |items|
  {
    if items == [] {
      assert m == map[];
      FirstLists(s, [], m);
      assert [s] + [] == [s];
    } else {
      var first, rest := items[0], items[1..];
      var less := m - {first.key};
      assert first in items;
      RestLists(items, m);
      if first.key == s.key {
        FirstLists(s, rest, less);
        assert m[s.key := s] == less[s.key := s];
      } else {
        PutLists(rest, less, s);
        FirstLists(first, Put(rest, s), less[s.key := s]);
        BackAgain(m, first, s);
      }
    }
  }

  lemma BackAgain(m: map<Key, Snapshot>, first: Snapshot, s: Snapshot)
    requires first.key in m && m[first.key] == first && first.key != s.key
    ensures m[s.key := s] == (m - {first.key})[s.key := s][first.key := first]
  {
  }

  lemma RestLists(items: seq<Snapshot>, m: map<Key, Snapshot>)
    requires Lists(items, m) && items != []
    ensures Lists(items[1..], m - {items[0].key})
  {
  }

  lemma FirstLists(first: Snapshot, rest: seq<Snapshot>, m: map<Key, Snapshot>)
    requires Lists(rest, m) && first.key !in m
    ensures Lists([first] + rest, m[first.key := first])
  {
  }

  lemma {:induction false} ItemsList(snaps: seq<Snapshot>)
    ensures Lists(Items(snaps), ByKey(snaps))
  {
    if snaps != [] {
      var n := |snaps| - 1;
      ItemsList(snaps[..n]);
      PutLists(Items(snaps[..n]), ByKey(snaps[..n]), snaps[n]);
    }
  }

  // ---- sorted(..., key=order_index) ----

  predicate Earlier(a: Snapshot, b: Snapshot) { a.order <= b.order }

  function InOrder(items: seq<Snapshot>): seq<Snapshot> { SortSeq(items, Earlier) }

  lemma {:induction false} InsertOneEach(x: Snapshot, s: seq<Snapshot>)
    requires OneEach(s) && forall y :: y in s ==> y.key != x.key
    ensures OneEach(Insert(x, s, Earlier))
  {
    if s != [] && !Earlier(x, s[0]) {
      var rest := Insert(x, s[1..], Earlier);
      InsertOneEach(x, s[1..]);
      InsertKeeps(x, s[1..], Earlier);
      forall y | y in rest ensures y.key != s[0].key {
        assert y in multiset(rest);
      }
    }
  }

  lemma {:induction false} SortOneEach(s: seq<Snapshot>)
    requires OneEach(s)
    ensures OneEach(InOrder(s))
  {
    if s != [] {
      var rest := InOrder(s[1..]);
      SortOneEach(s[1..]);
      SortKeeps(s[1..], Earlier);
      forall y | y in rest ensures y.key != s[0].key {
        assert y in multiset(rest);
      }
      InsertOneEach(s[0], rest);
    }
  }

  lemma SortLists(items: seq<Snapshot>, m: map<Key, Snapshot>)
    requires Lists(items, m)
    ensures Lists(InOrder(items), m)
  {
    var r := InOrder(items);
    SortOneEach(items);
    SortKeeps(items, Earlier);
    assert forall s :: s in r <==> s in multiset(r);
    assert forall s :: s in items <==> s in multiset(items);
  }

  function Missing(items: seq<Snapshot>, m: map<Key, Snapshot>): seq<Snapshot> {
    if items == [] then []
    else if items[0].key in m then Missing(items[1..], m)
    else [items[0]] + Missing(items[1..], m)
  }

  lemma {:induction false} MissingLists(items: seq<Snapshot>, from: map<Key, Snapshot>, m: map<Key, Snapshot>)
    requires Lists(items, from)
    ensures Lists(Missing(items, m), from - m.Keys)
    decreases |items|
  {
    if items != [] {
      var first, less := items[0], from - {items[0].key};
      assert first in items;
      RestLists(items, from);
      MissingLists(items[1..], less, m);
      if first.key in m {
        assert from - m.Keys == less - m.Keys;
      } else {
        FirstLists(first, Missing(items[1..], m), less - m.Keys);
        assert from - m.Keys == (less - m.Keys)[first.key := first];
      }
    } else {
      assert from - m.Keys == map[];
    }
  }

  // ---- one diff per section ----

  /** What became of a section that is in one of the two versions at least. */
  function Class(strip: Stripper, from: map<Key, Snapshot>, to: map<Key, Snapshot>, k: Key): ChangeType
    requires k in from || k in to
  {
    if k !in from then Added
    else if k !in to then Removed
    else if from[k].bodyHash != to[k].bodyHash then Modified
    else if strip(from[k].heading) == strip(to[k].heading) then Unchanged
    else RenamedOnly
  }

  function MarksOf(a: Body, b: Body): Marks {
    var (u, v) := (Text.Split(a.text), Text.Split(b.text));
    Marks(WordDiff.OpsFor(Difflib.Opcodes(u, v), u, v))
  }

  /** The diff for a section of the newer version. */
  function DiffTo(strip: Stripper, from: map<Key, Snapshot>, s: Snapshot): Diff {
    if s.key !in from then
      Diff(s.key, NO_HEADING, s.heading, Added, s.order, Marks([WordDiff.Op(WordDiff.New, s.body.text)]))
    else
      var was := from[s.key];
      if was.bodyHash != s.bodyHash then
        Diff(s.key, was.heading, s.heading, Modified, s.order, MarksOf(was.body, s.body))
      else
        var kind := if strip(was.heading) == strip(s.heading) then Unchanged else RenamedOnly;
        Diff(s.key, was.heading, s.heading, kind, s.order, Marks([]))
  }

  /** The diff for a section that only the older version has. */
  function DiffGone(s: Snapshot, order: int): Diff {
    Diff(s.key, s.heading, NO_HEADING, Removed, order, Marks([WordDiff.Op(WordDiff.Gone, s.body.text)]))
  }

  /** The answer, diff by diff. */
  ghost predicate Answers(diffs: seq<Diff>, strip: Stripper, from: map<Key, Snapshot>,
                          kept: seq<Snapshot>, gone: seq<Snapshot>)
  {
    && |diffs| == |kept| + |gone|
    && (forall i :: 0 <= i < |kept| ==> diffs[i] == DiffTo(strip, from, kept[i]))
    && (forall i :: 0 <= i < |gone| ==> diffs[|kept| + i] == DiffGone(gone[i], |kept| + i))
  }

  lemma AnswersKept(diffs: seq<Diff>, strip: Stripper, from: map<Key, Snapshot>, kept: seq<Snapshot>, i: nat, d: Diff)
    requires i < |kept| && Answers(diffs, strip, from, kept[..i], []) && d == DiffTo(strip, from, kept[i])
    ensures Answers(diffs + [d], strip, from, kept[..i + 1], [])
  {
  }

  lemma AnswersGone(diffs: seq<Diff>, strip: Stripper, from: map<Key, Snapshot>, kept: seq<Snapshot>,
                    gone: seq<Snapshot>, i: nat, d: Diff)
    requires i < |gone| && Answers(diffs, strip, from, kept, gone[..i]) && d == DiffGone(gone[i], |kept| + i)
    ensures Answers(diffs + [d], strip, from, kept, gone[..i + 1])
  {
  }

  function Tally(diffs: seq<Diff>, c: ChangeType): nat {
    if diffs == [] then 0
    else
      var n := |diffs| - 1;
      Tally(diffs[..n], c) + if diffs[n].change == c then 1 else 0
  }

  datatype Counts = Counts(same: nat, modified: nat, added: nat, removed: nat, renamedOnly: nat)

  ghost predicate Counted(counts: Counts, diffs: seq<Diff>) {
    && counts.same == Tally(diffs, Unchanged) && counts.modified == Tally(diffs, Modified)
    && counts.added == Tally(diffs, Added) && counts.removed == Tally(diffs, Removed)
    && counts.renamedOnly == Tally(diffs, RenamedOnly)
  }

  /** `counts[change] += 1`. */
  function Bump(counts: Counts, c: ChangeType): Counts {
    match c
    case Unchanged => counts.(same := counts.same + 1)
    case Modified => counts.(modified := counts.modified + 1)
    case Added => counts.(added := counts.added + 1)
    case Removed => counts.(removed := counts.removed + 1)
    case RenamedOnly => counts.(renamedOnly := counts.renamedOnly + 1)
    case _ => counts
  }

  lemma BumpCounts(counts: Counts, diffs: seq<Diff>, d: Diff)
    requires Counted(counts, diffs)
    ensures Counted(Bump(counts, d.change), diffs + [d])
  {
  }

  method CompareSnapshots(strip: Stripper, snapsFrom: seq<Snapshot>, snapsTo: seq<Snapshot>)
    returns (diffs: seq<Diff>, counts: Counts)
    ensures Answers(diffs, strip, ByKey(snapsFrom), InOrder(Items(snapsTo)),
                    InOrder(Missing(Items(snapsFrom), ByKey(snapsTo))))
    ensures Counted(counts, diffs)
  {
    var byFrom, byTo := ByKey(snapsFrom), ByKey(snapsTo);
    diffs, counts := [], Counts(0, 0, 0, 0, 0);
    var kept := InOrder(Items(snapsTo));
    var i := 0;
    while i < |kept|
      invariant 0 <= i <= |kept|
      invariant Answers(diffs, strip, byFrom, kept[..i], [])
      invariant Counted(counts, diffs)
    {
      var now := kept[i];
      var d: Diff;
      if now.key !in byFrom {
        d := Diff(now.key, NO_HEADING, now.heading, Added, now.order,
                  Marks([WordDiff.Op(WordDiff.New, now.body.text)]));
      } else {
        var was := byFrom[now.key];
        if was.bodyHash == now.bodyHash {
          var change := if strip(was.heading) == strip(now.heading) then Unchanged else RenamedOnly;
          d := Diff(now.key, was.heading, now.heading, change, now.order, Marks([]));
        } else {
          var marks := WordDiff.WordDiff(was.body.text, now.body.text);
          d := Diff(now.key, was.heading, now.heading, Modified, now.order, Marks(marks));
        }
      }
      BumpCounts(counts, diffs, d);
      AnswersKept(diffs, strip, byFrom, kept, i, d);
      counts := Bump(counts, d.change);
      diffs := diffs + [d];
      i := i + 1;
    }
    assert kept[..i] == kept;
    var gone := InOrder(Missing(Items(snapsFrom), byTo));
    ItemsSize(snapsTo);
    var offset := 0;
    while offset < |gone|
      invariant 0 <= offset <= |gone|
      invariant Answers(diffs, strip, byFrom, kept, gone[..offset])
      invariant Counted(counts, diffs)
    {
      var was := gone[offset];
      var d := Diff(was.key, was.heading, NO_HEADING, Removed, |byTo| + offset,
                    Marks([WordDiff.Op(WordDiff.Gone, was.body.text)]));
      BumpCounts(counts, diffs, d);
      AnswersGone(diffs, strip, byFrom, kept, gone, offset, d);
      counts := Bump(counts, Removed);
      diffs := diffs + [d];
      offset := offset + 1;
    }
    assert gone[..offset] == gone;
  }

  lemma {:induction false} ListsSize(items: seq<Snapshot>, m: map<Key, Snapshot>)
    requires Lists(items, m)
    ensures |items| == |m|
    decreases |items|
  {
    if items == [] {
      assert m == map[];
    } else {
      var first := items[0];
      assert first in items;
      RestLists(items, m);
      ListsSize(items[1..], m - {first.key});
      assert m == (m - {first.key})[first.key := first];
    }
  }

  lemma ItemsSize(snaps: seq<Snapshot>)
    ensures |InOrder(Items(snaps))| == |ByKey(snaps)|
  {
    ItemsList(snaps);
    SortLists(Items(snaps), ByKey(snaps));
    ListsSize(InOrder(Items(snaps)), ByKey(snaps));
  }

  // ---- what the answer says, for any two versions ----

  /** The two runs through the dictionaries list the newer version, and what it lost. */
  lemma RunsList(snapsFrom: seq<Snapshot>, snapsTo: seq<Snapshot>)
    ensures Lists(InOrder(Items(snapsTo)), ByKey(snapsTo))
    ensures Lists(InOrder(Missing(Items(snapsFrom), ByKey(snapsTo))), ByKey(snapsFrom) - ByKey(snapsTo).Keys)
  {
    ItemsList(snapsFrom);
    ItemsList(snapsTo);
    SortLists(Items(snapsTo), ByKey(snapsTo));
    MissingLists(Items(snapsFrom), ByKey(snapsFrom), ByKey(snapsTo));
    SortLists(Missing(Items(snapsFrom), ByKey(snapsTo)), ByKey(snapsFrom) - ByKey(snapsTo).Keys);
  }

  /** So the answer of `compare_snapshots` is a comparison of the two dictionaries. */
  lemma AnswersCompare(diffs: seq<Diff>, strip: Stripper, snapsFrom: seq<Snapshot>, snapsTo: seq<Snapshot>)
    requires Answers(diffs, strip, ByKey(snapsFrom), InOrder(Items(snapsTo)),
                     InOrder(Missing(Items(snapsFrom), ByKey(snapsTo))))
    ensures Compares(diffs, strip, ByKey(snapsFrom), ByKey(snapsTo))
  {
    RunsList(snapsFrom, snapsTo);
  }

  /** `Answers` with the two lists it is about. */
  ghost predicate Compares(diffs: seq<Diff>, strip: Stripper, from: map<Key, Snapshot>, to: map<Key, Snapshot>) {
    exists kept, gone ::
      Answers(diffs, strip, from, kept, gone) && Lists(kept, to) && Lists(gone, from - to.Keys)
  }

  ghost predicate KeysDiffer(diffs: seq<Diff>) {
    forall i, j :: 0 <= i < j < |diffs| ==> diffs[i].key != diffs[j].key
  }

  /** Every diff says of its section what became of it. */
  ghost predicate Classified(diffs: seq<Diff>, strip: Stripper, from: map<Key, Snapshot>, to: map<Key, Snapshot>) {
    forall i :: 0 <= i < |diffs| ==>
      && (diffs[i].key in from || diffs[i].key in to)
      && diffs[i].change == Class(strip, from, to, diffs[i].key)
  }

  /** No section of either version is left out. */
  ghost predicate Covers(diffs: seq<Diff>, from: map<Key, Snapshot>, to: map<Key, Snapshot>) {
    forall k :: k in from || k in to ==> exists i :: 0 <= i < |diffs| && diffs[i].key == k
  }

  lemma AnswerKeys(diffs: seq<Diff>, strip: Stripper, from: map<Key, Snapshot>, to: map<Key, Snapshot>,
                   kept: seq<Snapshot>, gone: seq<Snapshot>, i: nat)
    requires Answers(diffs, strip, from, kept, gone) && Lists(kept, to) && Lists(gone, from - to.Keys)
    requires i < |diffs|
    ensures i < |kept| ==> diffs[i].key == kept[i].key && diffs[i].key in to
    ensures i >= |kept| ==> diffs[i].key == gone[i - |kept|].key && diffs[i].key in from && diffs[i].key !in to
    ensures diffs[i].change == Class(strip, from, to, diffs[i].key)
  {
  }

  /** Every section of either version gets one diff, of the right class. */
  lemma EachSectionOnce(diffs: seq<Diff>, strip: Stripper, from: map<Key, Snapshot>, to: map<Key, Snapshot>)
    requires Compares(diffs, strip, from, to)
    ensures KeysDiffer(diffs) && Classified(diffs, strip, from, to) && Covers(diffs, from, to)
  {
    var kept, gone :| Answers(diffs, strip, from, kept, gone) && Lists(kept, to) && Lists(gone, from - to.Keys);
    forall i | 0 <= i < |diffs|
      ensures diffs[i].key in from || diffs[i].key in to
      ensures diffs[i].change == Class(strip, from, to, diffs[i].key)
    {
      AnswerKeys(diffs, strip, from, to, kept, gone, i);
    }
    forall i, j | 0 <= i < j < |diffs| ensures diffs[i].key != diffs[j].key {
      AnswerKeys(diffs, strip, from, to, kept, gone, i);
      AnswerKeys(diffs, strip, from, to, kept, gone, j);
    }
    AnswersCover(diffs, strip, from, to, kept, gone);
  }

  lemma AnswersCover(diffs: seq<Diff>, strip: Stripper, from: map<Key, Snapshot>, to: map<Key, Snapshot>,
                     kept: seq<Snapshot>, gone: seq<Snapshot>)
    requires Answers(diffs, strip, from, kept, gone) && Lists(kept, to) && Lists(gone, from - to.Keys)
    ensures Covers(diffs, from, to)
  {
    forall k | k in from || k in to ensures exists i :: 0 <= i < |diffs| && diffs[i].key == k {
      if k in to {
        var i :| 0 <= i < |kept| && kept[i] == to[k];
        assert diffs[i].key == k;
      } else {
        var m := from - to.Keys;
        assert k in m && m[k] in gone;
        var i :| 0 <= i < |gone| && gone[i] == m[k];
        assert diffs[|kept| + i] == DiffGone(gone[i], |kept| + i);
      }
    }
  }

  // ---- the counts ----

  /** The sections of one class. */
  function OfClass(strip: Stripper, from: map<Key, Snapshot>, to: map<Key, Snapshot>, c: ChangeType): set<Key> {
    set k | k in from.Keys + to.Keys && Class(strip, from, to, k) == c
  }

  function Marked(diffs: seq<Diff>, c: ChangeType): set<Key> {
    if diffs == [] then {}
    else
      var n := |diffs| - 1;
      Marked(diffs[..n], c) + if diffs[n].change == c then {diffs[n].key} else {}
  }

  lemma {:induction false} MarkedAre(diffs: seq<Diff>, c: ChangeType, k: Key)
    ensures k in Marked(diffs, c) <==> exists i :: 0 <= i < |diffs| && diffs[i].key == k && diffs[i].change == c
  {
    if diffs != [] {
      var n := |diffs| - 1;
      MarkedAre(diffs[..n], c, k);
      assert forall i :: 0 <= i < n ==> diffs[..n][i] == diffs[i];
    }
  }

  lemma {:induction false} TallyIsSize(diffs: seq<Diff>, c: ChangeType)
    requires KeysDiffer(diffs)
    ensures Tally(diffs, c) == |Marked(diffs, c)|
  {
    if diffs != [] {
      var n := |diffs| - 1;
      var front, key := diffs[..n], diffs[n].key;
      TallyIsSize(front, c);
      MarkedAre(front, c, key);
      assert key !in Marked(front, c);
    }
  }

  lemma TallyOfClass(diffs: seq<Diff>, strip: Stripper, from: map<Key, Snapshot>, to: map<Key, Snapshot>, c: ChangeType)
    requires KeysDiffer(diffs) && Classified(diffs, strip, from, to) && Covers(diffs, from, to)
    ensures Tally(diffs, c) == |OfClass(strip, from, to, c)|
  {
    TallyIsSize(diffs, c);
    forall k ensures k in Marked(diffs, c) <==> k in OfClass(strip, from, to, c) {
      MarkedAre(diffs, c, k);
    }
    assert Marked(diffs, c) == OfClass(strip, from, to, c);
  }

  /** Each count is the number of sections of its class, and the classes make up both versions. */
  lemma CountsMakeUpBothVersions(diffs: seq<Diff>, counts: Counts, strip: Stripper,
                                 from: map<Key, Snapshot>, to: map<Key, Snapshot>)
    requires Compares(diffs, strip, from, to) && Counted(counts, diffs)
    ensures counts.same + counts.modified + counts.renamedOnly + counts.added == |to|
    ensures counts.same + counts.modified + counts.renamedOnly + counts.removed == |from|
    ensures counts.modified == |OfClass(strip, from, to, Modified)|
    ensures counts.renamedOnly == |OfClass(strip, from, to, RenamedOnly)|
  {
    EachSectionOnce(diffs, strip, from, to);
    TallyOfClass(diffs, strip, from, to, Unchanged);
    TallyOfClass(diffs, strip, from, to, Modified);
    TallyOfClass(diffs, strip, from, to, RenamedOnly);
    TallyOfClass(diffs, strip, from, to, Added);
    TallyOfClass(diffs, strip, from, to, Removed);
    ClassesMakeUp(strip, from, to);
  }

  lemma ClassesMakeUp(strip: Stripper, from: map<Key, Snapshot>, to: map<Key, Snapshot>)
    ensures var both := |OfClass(strip, from, to, Unchanged)| + |OfClass(strip, from, to, Modified)|
                        + |OfClass(strip, from, to, RenamedOnly)|;
            && both + |OfClass(strip, from, to, Added)| == |to|
            && both + |OfClass(strip, from, to, Removed)| == |from|
  {
    ClassesOfBoth(strip, from, to);
    AddedAreNew(strip, from, to);
    AddedAreNew(strip, to, from);
    SwapMirrors(strip, to, from, Removed);
    assert |to| == |to.Keys| && |from| == |from.Keys|;
  }

  lemma ClassesOfBoth(strip: Stripper, from: map<Key, Snapshot>, to: map<Key, Snapshot>)
    ensures |OfClass(strip, from, to, Unchanged)| + |OfClass(strip, from, to, Modified)|
            + |OfClass(strip, from, to, RenamedOnly)| == |from.Keys * to.Keys|
  {
    var u, m := OfClass(strip, from, to, Unchanged), OfClass(strip, from, to, Modified);
    var r := OfClass(strip, from, to, RenamedOnly);
    OneOfThree(strip, from, to);
    assert u * (from.Keys * to.Keys) == u && m * (from.Keys * to.Keys - u) == m;
  }

  lemma OneOfThree(strip: Stripper, from: map<Key, Snapshot>, to: map<Key, Snapshot>)
    ensures var (u, m) := (OfClass(strip, from, to, Unchanged), OfClass(strip, from, to, Modified));
            && u <= from.Keys * to.Keys && m <= from.Keys * to.Keys - u
            && OfClass(strip, from, to, RenamedOnly) == (from.Keys * to.Keys - u) - m
  {
  }

  lemma AddedAreNew(strip: Stripper, from: map<Key, Snapshot>, to: map<Key, Snapshot>)
    ensures OfClass(strip, from, to, Added) == to.Keys - from.Keys
  {
  }

  // ---- swapping the two versions ----

  function Mirror(c: ChangeType): ChangeType {
    match c
    case Added => Removed
    case Removed => Added
    case other => other
  }

  /** Comparing the other way round swaps added and removed and nothing else. */
  lemma SwapMirrors(strip: Stripper, from: map<Key, Snapshot>, to: map<Key, Snapshot>, c: ChangeType)
    ensures OfClass(strip, to, from, c) == OfClass(strip, from, to, Mirror(c))
  {
  }

  lemma SwapMirrorsCounts(strip: Stripper, from: map<Key, Snapshot>, to: map<Key, Snapshot>,
                          there: seq<Diff>, back: seq<Diff>, counts: Counts, countsBack: Counts)
    requires Compares(there, strip, from, to) && Counted(counts, there)
    requires Compares(back, strip, to, from) && Counted(countsBack, back)
    ensures countsBack == counts.(added := counts.removed, removed := counts.added)
  {
    EachSectionOnce(there, strip, from, to);
    EachSectionOnce(back, strip, to, from);
    SwapTally(there, back, strip, from, to, Unchanged);
    SwapTally(there, back, strip, from, to, Modified);
    SwapTally(there, back, strip, from, to, RenamedOnly);
    SwapTally(there, back, strip, from, to, Added);
    SwapTally(there, back, strip, from, to, Removed);
  }

  lemma SwapTally(there: seq<Diff>, back: seq<Diff>, strip: Stripper,
                  from: map<Key, Snapshot>, to: map<Key, Snapshot>, c: ChangeType)
    requires KeysDiffer(there) && Classified(there, strip, from, to) && Covers(there, from, to)
    requires KeysDiffer(back) && Classified(back, strip, to, from) && Covers(back, to, from)
    ensures Tally(back, c) == Tally(there, Mirror(c))
  {
    TallyOfClass(there, strip, from, to, Mirror(c));
    TallyOfClass(back, strip, to, from, c);
    SwapMirrors(strip, from, to, c);
  }

  // ---- places in the list ----

  /** The order indexes of a version as the engine numbers them: 0, 1, 2, ... in some order. */
  ghost predicate Numbered(items: seq<Snapshot>) {
    && (forall s :: s in items ==> 0 <= s.order < |items|)
    && (forall s, t :: s in items && t in items && s.order == t.order ==> s == t)
  }

  lemma {:induction false} OrderAtLeast(r: seq<Snapshot>, i: nat)
    requires Climbing(r) && i < |r| && r[0].order >= 0
    ensures r[i].order >= i
  {
    if i > 0 { OrderAtLeast(r, i - 1); }
  }

  lemma {:induction false} OrderAtMost(r: seq<Snapshot>, i: nat)
    requires Climbing(r) && i < |r| && r[|r| - 1].order < |r|
    ensures r[i].order <= i
    decreases |r| - i
  {
    if i < |r| - 1 { OrderAtMost(r, i + 1); }
  }

  ghost predicate Climbing(r: seq<Snapshot>) {
    forall i :: 0 <= i < |r| - 1 ==> r[i].order < r[i + 1].order
  }

  lemma SortedClimbs(items: seq<Snapshot>, m: map<Key, Snapshot>)
    requires Lists(items, m) && Numbered(items)
    ensures Climbing(InOrder(items))
  {
    var r := InOrder(items);
    SortSorted(items, Earlier);
    SortKeeps(items, Earlier);
    SortOneEach(items);
    forall i | 0 <= i < |r| - 1 ensures r[i].order < r[i + 1].order {
      assert Earlier(r[i], r[i + 1]);
      assert r[i] in multiset(r) && r[i + 1] in multiset(r);
      assert r[i].key != r[i + 1].key;
    }
  }

  /** When the newer version's indexes are 0, 1, 2, ..., every diff carries its own place in
      the list: the indexes of all diffs are 0 .. k - 1, without gap or repetition. */
  lemma DiffsAreNumbered(diffs: seq<Diff>, strip: Stripper, snapsFrom: seq<Snapshot>, snapsTo: seq<Snapshot>, i: nat)
    requires Answers(diffs, strip, ByKey(snapsFrom), InOrder(Items(snapsTo)),
                     InOrder(Missing(Items(snapsFrom), ByKey(snapsTo))))
    requires Numbered(Items(snapsTo)) && i < |diffs|
    ensures diffs[i].order == i
  {
    var kept := InOrder(Items(snapsTo));
    forall j: nat | j < |kept| ensures kept[j].order == j {
      KeptNumbered(snapsTo, j);
    }
    PlaceOf(diffs, strip, ByKey(snapsFrom), kept, InOrder(Missing(Items(snapsFrom), ByKey(snapsTo))), i);
  }

  lemma PlaceOf(diffs: seq<Diff>, strip: Stripper, from: map<Key, Snapshot>, kept: seq<Snapshot>,
                gone: seq<Snapshot>, i: nat)
    requires Answers(diffs, strip, from, kept, gone) && i < |diffs|
    requires forall j: nat :: j < |kept| ==> kept[j].order == j
    ensures diffs[i].order == i
  {
    if i >= |kept| {
      var j := i - |kept|;
      assert diffs[|kept| + j] == DiffGone(gone[j], |kept| + j);
    }
  }

  lemma KeptNumbered(snaps: seq<Snapshot>, i: nat)
    requires Numbered(Items(snaps)) && i < |InOrder(Items(snaps))|
    ensures InOrder(Items(snaps))[i].order == i
  {
    var items := Items(snaps);
    var r := InOrder(items);
    ItemsList(snaps);
    SortedClimbs(items, ByKey(snaps));
    SortKeeps(items, Earlier);
    assert r[0] in multiset(r) && r[|r| - 1] in multiset(r);
    OrderAtLeast(r, i);
    OrderAtMost(r, i);
  }

  // ---- what a reader sees is what changed ----

  /** The marks of a diff with the words of one version give the words of the other. */
  lemma MarksConserve(a: Body, b: Body)
    ensures WordDiff.WordsBut(MarksOf(a, b).ops, WordDiff.New) == Text.Split(a.text)
    ensures WordDiff.WordsBut(MarksOf(a, b).ops, WordDiff.Gone) == Text.Split(b.text)
  {
    var (u, v) := (Text.Split(a.text), Text.Split(b.text));
    Text.SplitGivesTokens(a.text);
    Text.SplitGivesTokens(b.text);
    Difflib.OpcodesAreTiling(u, v);
    WordDiff.TilingConserves(Difflib.Opcodes(u, v), u, v);
  }

  /** A heading counts as kept when only its number changed. */
  lemma NumberDoesNotCount(n: Text.Text, m: Text.Text, gap: Text.Text, words: Text.Text)
    requires SectionKeys.IsNumbering(n) && SectionKeys.IsNumbering(m)
    requires gap != [] && SectionKeys.AllSpace(gap) && (words == [] || !Text.IsSpace(words[0]))
    ensures CutNumber(n + (gap + words)) == CutNumber(m + (gap + words)) == words
  {
    NumberCut(n, gap, words);
    NumberCut(m, gap, words);
  }

  /** Under `_strip_numbering` two headings are the same when they differ in their number only. */
  lemma RenumberedHeadingsMatch(lower: Text.Text -> Text.Text, h: Heading, g: Heading, n: Text.Text, m: Text.Text,
                                words: Text.Text)
    requires SectionKeys.IsNumbering(n) && SectionKeys.IsNumbering(m) && (words == [] || !Text.IsSpace(words[0]))
    requires Text.Join(Text.Split(lower(h.text))) == n + ([Text.SP] + words)
    requires Text.Join(Text.Split(lower(g.text))) == m + ([Text.SP] + words)
    ensures StripNumbering(lower, h) == StripNumbering(lower, g) == Heading(words)
  {
    NumberDoesNotCount(n, m, [Text.SP], words);
  }

  lemma NumberCut(n: Text.Text, gap: Text.Text, words: Text.Text)
    requires SectionKeys.IsNumbering(n)
    requires gap != [] && SectionKeys.AllSpace(gap) && (words == [] || !Text.IsSpace(words[0]))
    ensures CutNumber(n + (gap + words)) == words
  {
    var h := n + (gap + words);
    SectionKeys.NumberingGoes(n, gap, words);
    SectionKeys.NumberingGlyphs(n, 0);
    assert h[0] == n[0] && |h| > |words|;
    assert Text.GapEnd(h, 0) == 0;
    assert h != SectionKeys.Unnumbered(h);
  }

  // ---- what of a heading does not count, and without a word about how it is found ----

  /** A number as long as possible, then one mark if there is one, then all the white space. */
  ghost predicate CutOff(h: Text.Text, n: Text.Text, mark: Text.Text, gap: Text.Text, rest: Text.Text) {
    && SectionKeys.IsNumber(n) && SectionKeys.AllSpace(gap)
    && |mark| <= 1 && (mark != [] ==> SectionKeys.IsMark(mark[0]))
    && h == n + (mark + (gap + rest)) && (rest == [] || !Text.IsSpace(rest[0]))
    && (mark == [] && gap + rest != [] ==> !SectionKeys.IsMark((gap + rest)[0]))
    && EndsNumber(mark + (gap + rest))
  }

  /** No number goes on here. */
  predicate EndsNumber(t: Text.Text) {
    && (t == [] || !t[0].Digit?) && (|t| > 1 && t[0] == Text.Dot ==> !t[1].Digit?)
  }

  lemma {:induction false} NumberStops(t: Text.Text, i: nat)
    requires i < |t| && t[i].Digit?
    ensures EndsNumber(t[SectionKeys.NumberEnd(t, i)..])
    decreases |t| - i
  {
    var e := SectionKeys.DigitsEnd(t, i + 1);
    DigitsStop(t, i + 1);
    if e + 1 < |t| && t[e] == Text.Dot && t[e + 1].Digit? { NumberStops(t, e + 1); }
  }

  lemma {:induction false} DigitsStop(t: Text.Text, i: nat)
    requires i <= |t|
    ensures var e := SectionKeys.DigitsEnd(t, i); e < |t| ==> !t[e].Digit?
    decreases |t| - i
  {
    if i < |t| && t[i].Digit? { DigitsStop(t, i + 1); }
  }

  lemma NumberAndMark(n: Text.Text, mark: Text.Text, tail: Text.Text)
    requires SectionKeys.IsNumber(n) && |mark| <= 1 && (mark != [] ==> SectionKeys.IsMark(mark[0]))
    requires mark == [] && tail != [] ==> !SectionKeys.IsMark(tail[0])
    requires EndsNumber(mark + tail)
    ensures var h := n + (mark + tail);
            && h[0].Digit? && SectionKeys.NumberEnd(h, 0) == |n| && SectionKeys.MarkEnd(h, |n|) == |n| + |mark|
  {
    var after := mark + tail;
    var h := n + after;
    SectionKeys.NumberEndIs(n, after);
    assert h[0] == n[0];
    if after != [] { assert h[|n|] == after[0] == if mark == [] then tail[0] else mark[0]; }
  }

  lemma GapThen(front: Text.Text, gap: Text.Text, rest: Text.Text)
    requires SectionKeys.AllSpace(gap) && (rest == [] || !Text.IsSpace(rest[0]))
    ensures var h := front + (gap + rest);
            h[Text.GapEnd(h, |front|)..] == rest
  {
    var tail := gap + rest;
    if gap == [] {
      assert tail == rest;
      NoGapThen(front, tail);
    } else {
      SectionKeys.GapAfter(front, gap, rest);
      var h := front + tail;
      assert Text.GapEnd(h, |front|) == |front| + |gap| && h[|front| + |gap|..] == rest;
    }
  }

  lemma NoGapThen(front: Text.Text, rest: Text.Text)
    requires rest == [] || !Text.IsSpace(rest[0])
    ensures Text.GapEnd(front + rest, |front|) == |front| && (front + rest)[|front|..] == rest
  {
  }

  lemma CutOffIs(h: Text.Text, n: Text.Text, mark: Text.Text, gap: Text.Text, rest: Text.Text)
    requires CutOff(h, n, mark, gap, rest)
    ensures h != [] && h[0].Digit? && CutNumber(h) == rest
  {
    NumberAndMark(n, mark, gap + rest);
    Text.Regroup(n, mark, gap + rest);
    GapThen(n + mark, gap, rest);
  }

  lemma FourParts(h: Text.Text, e: nat, p: nat, q: nat)
    requires e <= p <= q <= |h|
    ensures h == h[0..e] + (h[e..p] + (h[p..q] + h[q..]))
    ensures h[e..p] + (h[p..q] + h[q..]) == h[e..] && h[p..q] + h[q..] == h[p..]
  {
  }

  lemma CutIsOff(h: Text.Text) returns (n: Text.Text, mark: Text.Text, gap: Text.Text)
    requires h != [] && h[0].Digit?
    ensures CutOff(h, n, mark, gap, CutNumber(h))
  {
    var e := SectionKeys.NumberEnd(h, 0);
    var p := SectionKeys.MarkEnd(h, e);
    var q := Text.GapEnd(h, p);
    SectionKeys.NumberEndIsNumber(h, 0);
    NumberStops(h, 0);
    SectionKeys.GapIsSpace(h, p);
    FourParts(h, e, p, q);
    n, mark, gap := h[0..e], h[e..p], h[p..q];
  }

  /** Of a heading without white space in front exactly the number, a mark after it and the white
      space after both are cut; a heading that starts otherwise stays whole. */
  lemma CutNumberIff(h: Text.Text, rest: Text.Text)
    ensures CutNumber(h) == rest <==>
            if h != [] && h[0].Digit? then exists n, mark, gap :: CutOff(h, n, mark, gap, rest) else rest == h
  {
    if h != [] && h[0].Digit? {
      var n, mark, gap := CutIsOff(h);
      if x, y, z :| CutOff(h, x, y, z, rest) { CutOffIs(h, x, y, z, rest); }
    }
  }

  // ---- what a diff tells ----

  function HeadingIn(m: map<Key, Snapshot>, k: Key): Heading { if k in m then m[k].heading else NO_HEADING }

  function WordsIn(m: map<Key, Snapshot>, k: Key): seq<Text.Text> {
    if k in m then Text.Split(m[k].body.text) else []
  }

  /** The headings of both versions, the place in the newer one, and marks that give back the words
      of either: none where the body is the same. */
  ghost predicate TellsBoth(d: Diff, from: map<Key, Snapshot>, to: map<Key, Snapshot>) {
    && d.headingFrom == HeadingIn(from, d.key) && d.headingTo == HeadingIn(to, d.key)
    && (d.key in to ==> d.order == to[d.key].order)
    && (if d.key in from && d.key in to && from[d.key].bodyHash == to[d.key].bodyHash then d.words.ops == []
        else WordDiff.WordsBut(d.words.ops, WordDiff.New) == WordsIn(from, d.key)
             && WordDiff.WordsBut(d.words.ops, WordDiff.Gone) == WordsIn(to, d.key))
  }

  lemma KeptTells(strip: Stripper, from: map<Key, Snapshot>, to: map<Key, Snapshot>, s: Snapshot)
    requires s.key in to && to[s.key] == s
    ensures TellsBoth(DiffTo(strip, from, s), from, to)
  {
    if s.key in from {
      MarksConserve(from[s.key].body, s.body);
    } else {
      WordDiff.OneOp(WordDiff.Op(WordDiff.New, s.body.text), WordDiff.New);
      WordDiff.OneOp(WordDiff.Op(WordDiff.New, s.body.text), WordDiff.Gone);
    }
  }

  lemma GoneTells(from: map<Key, Snapshot>, to: map<Key, Snapshot>, s: Snapshot, order: int)
    requires s.key in from && from[s.key] == s && s.key !in to
    ensures TellsBoth(DiffGone(s, order), from, to)
  {
    WordDiff.OneOp(WordDiff.Op(WordDiff.Gone, s.body.text), WordDiff.New);
    WordDiff.OneOp(WordDiff.Op(WordDiff.Gone, s.body.text), WordDiff.Gone);
  }

  /** Every diff tells both sides as they are. */
  lemma DiffsTell(diffs: seq<Diff>, strip: Stripper, from: map<Key, Snapshot>, to: map<Key, Snapshot>, i: nat)
    requires Compares(diffs, strip, from, to) && i < |diffs|
    ensures TellsBoth(diffs[i], from, to)
  {
    var kept, gone :| Answers(diffs, strip, from, kept, gone) && Lists(kept, to) && Lists(gone, from - to.Keys);
    if i < |kept| {
      KeptTells(strip, from, to, kept[i]);
    } else {
      var j := i - |kept|;
      assert diffs[|kept| + j] == DiffGone(gone[j], |kept| + j);
      assert gone[j] in gone;
      GoneTells(from, to, gone[j], |kept| + j);
    }
  }

  /** First what is in the newer version, in its order; then what only the older one had, in that one's. */
  ghost predicate ListedInOrder(diffs: seq<Diff>, from: map<Key, Snapshot>, to: map<Key, Snapshot>) {
    forall i, j :: 0 <= i < j < |diffs| ==>
      && (diffs[j].key in to ==> diffs[i].key in to && to[diffs[i].key].order <= to[diffs[j].key].order)
      && (diffs[i].key !in to && diffs[i].key in from && diffs[j].key in from ==>
            from[diffs[i].key].order <= from[diffs[j].key].order)
  }

  lemma DiffsInOrder(diffs: seq<Diff>, strip: Stripper, snapsFrom: seq<Snapshot>, snapsTo: seq<Snapshot>)
    requires Answers(diffs, strip, ByKey(snapsFrom), InOrder(Items(snapsTo)),
                     InOrder(Missing(Items(snapsFrom), ByKey(snapsTo))))
    ensures ListedInOrder(diffs, ByKey(snapsFrom), ByKey(snapsTo))
  {
    RunsList(snapsFrom, snapsTo);
    SortSorted(Items(snapsTo), Earlier);
    SortSorted(Missing(Items(snapsFrom), ByKey(snapsTo)), Earlier);
    ListedSorted(diffs, strip, ByKey(snapsFrom), ByKey(snapsTo), InOrder(Items(snapsTo)),
                 InOrder(Missing(Items(snapsFrom), ByKey(snapsTo))));
  }

  lemma ListedSorted(diffs: seq<Diff>, strip: Stripper, from: map<Key, Snapshot>, to: map<Key, Snapshot>,
                     kept: seq<Snapshot>, gone: seq<Snapshot>)
    requires Answers(diffs, strip, from, kept, gone) && Lists(kept, to) && Lists(gone, from - to.Keys)
    requires Sorted(kept, Earlier) && Sorted(gone, Earlier)
    ensures ListedInOrder(diffs, from, to)
  {
    forall i, j | 0 <= i < j < |diffs|
      ensures diffs[j].key in to ==> diffs[i].key in to && to[diffs[i].key].order <= to[diffs[j].key].order
      ensures diffs[i].key !in to && diffs[i].key in from && diffs[j].key in from ==>
                from[diffs[i].key].order <= from[diffs[j].key].order
    {
      AnswerKeys(diffs, strip, from, to, kept, gone, i);
      AnswerKeys(diffs, strip, from, to, kept, gone, j);
      if j < |kept| {
        assert Earlier(kept[i], kept[j]) && kept[i] in kept && kept[j] in kept;
      } else if i >= |kept| {
        var x, y := gone[i - |kept|], gone[j - |kept|];
        assert Earlier(x, y) && x in gone && y in gone;
      }
    }
  }

  // ---- the change map handed to the resolver ----

  function HashIn(m: map<Key, Snapshot>, k: Key): Option<Hash> {
    if k in m then Some(m[k].bodyHash) else None
  }

  function ChangeOf(strip: Stripper, from: map<Key, Snapshot>, to: map<Key, Snapshot>, k: Key): Change
    requires k in from || k in to
  {
    Change(Class(strip, from, to, k), HashIn(from, k), HashIn(to, k))
  }

  /** The change of every section of either version. */
  function ChangesOf(strip: Stripper, from: map<Key, Snapshot>, to: map<Key, Snapshot>): map<Key, Change> {
    map k | k in from.Keys + to.Keys :: ChangeOf(strip, from, to, k)
  }

  /** `_changes_from_comparison`: the diffs with the hashes of either side put to them. */
  method ChangesFromComparison(diffs: seq<Diff>, strip: Stripper, from: map<Key, Snapshot>, to: map<Key, Snapshot>)
    returns (changes: map<Key, Change>)
    requires Classified(diffs, strip, from, to) && Covers(diffs, from, to)
    ensures changes == ChangesOf(strip, from, to)
  {
    changes := map[];
    var i := 0;
    while i < |diffs|
      invariant 0 <= i <= |diffs|
      invariant forall j :: 0 <= j < i ==> diffs[j].key in changes
      invariant Tells(changes, strip, from, to)
    {
      var d := diffs[i];
      assert Change(d.change, HashIn(from, d.key), HashIn(to, d.key)) == ChangeOf(strip, from, to, d.key);
      changes := changes[d.key := Change(d.change, HashIn(from, d.key), HashIn(to, d.key))];
      i := i + 1;
    }
  }

  ghost predicate Tells(changes: map<Key, Change>, strip: Stripper, from: map<Key, Snapshot>, to: map<Key, Snapshot>) {
    forall k :: k in changes ==> (k in from || k in to) && changes[k] == ChangeOf(strip, from, to, k)
  }
}
