/** resolve_tag_ids of scripts/quality/junk_detectors.py: the flow ids and outcomes behind a
    test's tags, through alias arrays that may spread one another in circles. */
module TagClosure {
  import opened Order
  import Text

  /** A name after three dots: a constant, or a member of an object. */
  datatype Ref = Ref(name: string)

  datatype Tag = Tag(text: string)

  /** The literals in a piece of text, and the names it spreads. */
  datatype Found = Found(ids: seq<Tag>, outcomes: seq<Tag>, spreads: seq<Ref>)

  const NOTHING := Found([], [], [])

  /** What the sources of a test say about names. */
  datatype Sources = Sources(dotted: Ref -> bool, members: map<Ref, Found>, plain: Ref -> bool,
                             local: map<Ref, Found>, imported: map<Ref, Found>, hint: Ref -> Tag)

  /** What one name leads to: only arrays of the same file lead on. */
  function Resolve(src: Sources, r: Ref): Found {
    if src.dotted(r) then if r in src.members then src.members[r].(spreads := []) else NOTHING
    else if !src.plain(r) then NOTHING
    else if r in src.local then src.local[r]
    else if r in src.imported then src.imported[r].(spreads := [])
    else Found([src.hint(r)], [], [])
  }

  /** A name stands for what its array says, wherever that is declared; one that is declared
      nowhere stands for its hint. */
  ghost predicate StandsFor(src: Sources, r: Ref, id: Tag) {
    || (src.dotted(r) && r in src.members && id in src.members[r].ids)
    || (!src.dotted(r) && src.plain(r) && r in src.local && id in src.local[r].ids)
    || (!src.dotted(r) && src.plain(r) && r !in src.local && r in src.imported && id in src.imported[r].ids)
    || (!src.dotted(r) && src.plain(r) && r !in src.local && r !in src.imported && id == src.hint(r))
  }

  ghost predicate StandsForOutcome(src: Sources, r: Ref, outcome: Tag) {
    || (src.dotted(r) && r in src.members && outcome in src.members[r].outcomes)
    || (!src.dotted(r) && src.plain(r) && r in src.local && outcome in src.local[r].outcomes)
    || (!src.dotted(r) && src.plain(r) && r !in src.local && r in src.imported && outcome in src.imported[r].outcomes)
  }

  /** Only an array of the same file leads on to the names it spreads. */
  lemma OnlyLocalArraysLeadOn(src: Sources, r: Ref, next: Ref, id: Tag)
    ensures next in Resolve(src, r).spreads <==>
            !src.dotted(r) && src.plain(r) && r in src.local && next in src.local[r].spreads
    ensures id in Resolve(src, r).ids <==> StandsFor(src, r, id)
    ensures id in Resolve(src, r).outcomes <==> StandsForOutcome(src, r, id)
  {
  }

  // ---- what is reachable ----

  /** `r` is reached from the start in `n` spreads. */
  ghost predicate ReachedIn(src: Sources, start: seq<Ref>, r: Ref, n: nat)
    decreases n
  {
    if n == 0 then r in start
    else exists s :: ReachedIn(src, start, s, n - 1) && r in Resolve(src, s).spreads
  }

  ghost predicate Reachable(src: Sources, start: seq<Ref>, r: Ref) {
    exists n: nat :: ReachedIn(src, start, r, n)
  }

  lemma ReachesOn(src: Sources, start: seq<Ref>, s: Ref, r: Ref)
    requires Reachable(src, start, s) && r in Resolve(src, s).spreads
    ensures Reachable(src, start, r)
  {
    var n: nat :| ReachedIn(src, start, s, n);
    assert ReachedIn(src, start, r, n + 1);
  }

  lemma StartReached(src: Sources, start: seq<Ref>, r: Ref)
    requires r in start
    ensures Reachable(src, start, r)
  {
    assert ReachedIn(src, start, r, 0);
  }

  /** A set that holds the start and everything its members spread holds all that is reachable. */
  ghost predicate Closed(src: Sources, start: seq<Ref>, seen: set<Ref>) {
    && (forall r :: r in start ==> r in seen)
    && (forall s, r :: s in seen && r in Resolve(src, s).spreads ==> r in seen)
  }

  lemma {:induction false} ClosedHasAll(src: Sources, start: seq<Ref>, seen: set<Ref>, r: Ref, n: nat)
    requires Closed(src, start, seen) && ReachedIn(src, start, r, n)
    ensures r in seen
    decreases n
  {
    if n > 0 {
      var s :| ReachedIn(src, start, s, n - 1) && r in Resolve(src, s).spreads;
      ClosedHasAll(src, start, seen, s, n - 1);
    }
  }

  /** All names that can ever be met: those at the start and those some local array spreads. */
  function Names(src: Sources, start: seq<Ref>): set<Ref> {
    (set r | r in start) + (set k, r | k in src.local && r in src.local[k].spreads :: r)
  }

  // ---- list(dict.fromkeys(...)) ----

  function Firsts<T(==)>(s: seq<T>): seq<T> {
    if s == [] then []
    else
      var n := |s| - 1;
      if s[n] in s[..n] then Firsts(s[..n]) else Firsts(s[..n]) + [s[n]]
  }

  /** Where something comes first. */
  function FirstAt<T(==)>(s: seq<T>, x: T): (i: nat)
    requires x in s
    ensures i < |s| && s[i] == x && x !in s[..i]
  {
    if s[0] == x then 0
    else
      assert s == [s[0]] + s[1..];
      var i := FirstAt(s[1..], x);
      assert s[..i + 1] == [s[0]] + s[1..][..i];
      i + 1
  }

  lemma {:induction false} FirstsHas<T(!new)>(s: seq<T>)
    ensures forall x :: x in Firsts(s) <==> x in s
    ensures Distinct(Firsts(s))
  {
    if s != [] {
      var front, last := s[..|s| - 1], s[|s| - 1];
      assert s == front + [last];
      FirstsHas(front);
    }
  }

  lemma FirstAtFront<T>(s: seq<T>, y: T, x: T)
    requires x in s
    ensures FirstAt(s + [y], x) == FirstAt(s, x)
  {
    FirstAtIs(s + [y], x, FirstAt(s, x));
  }

  lemma FirstAtIs<T>(s: seq<T>, x: T, i: nat)
    requires i < |s| && s[i] == x && forall k :: 0 <= k < i ==> s[k] != x
    ensures x in s && FirstAt(s, x) == i
  {
  }

  /** Every element once, in the order of its first occurrence. */
  lemma {:induction false} FirstsInOrder<T(!new)>(s: seq<T>, i: nat, j: nat)
    requires i < j < |Firsts(s)|
    ensures Firsts(s)[i] in s && Firsts(s)[j] in s && FirstAt(s, Firsts(s)[i]) < FirstAt(s, Firsts(s)[j])
  {
    var front, last := s[..|s| - 1], s[|s| - 1];
    var r := Firsts(s);
    assert s == front + [last];
    FirstsHas(front);
    FirstsHas(s);
    assert r[i] in r && r[j] in r;
    if j < |Firsts(front)| {
      FirstsInOrder(front, i, j);
      FirstAtFront(front, last, r[i]);
      FirstAtFront(front, last, r[j]);
    } else {
      assert r[i] == Firsts(front)[i] && r[i] in Firsts(front);
      FirstAtFront(front, last, r[i]);
      assert r[j] == last && last !in front;
      assert FirstAt(s, last) == |front|;
    }
  }

  // ---- the worklist ----

  /** The ids along the names visited, one name after the other. */
  function IdsOf(src: Sources, order: seq<Ref>): seq<Tag> {
    if order == [] then []
    else
      var n := |order| - 1;
      IdsOf(src, order[..n]) + Resolve(src, order[n]).ids
  }

  function OutcomesOf(src: Sources, order: seq<Ref>): seq<Tag> {
    if order == [] then []
    else
      var n := |order| - 1;
      OutcomesOf(src, order[..n]) + Resolve(src, order[n]).outcomes
  }

  function SpreadsOf(src: Sources, order: seq<Ref>): seq<Ref> {
    if order == [] then []
    else
      var n := |order| - 1;
      SpreadsOf(src, order[..n]) + Resolve(src, order[n]).spreads
  }

  /** The names visited: those reachable, in the order in which the tags, and then what each
      visited name spreads in its turn, first mention them. */
  ghost predicate InTurn(src: Sources, start: seq<Ref>, order: seq<Ref>) {
    && (forall r :: r in order <==> Reachable(src, start, r))
    && order == Mentioned(src, start, order)
  }

  /** What the tags and the names visited mention, each once. */
  function Mentioned(src: Sources, start: seq<Ref>, order: seq<Ref>): seq<Ref> {
    Firsts(start + SpreadsOf(src, order))
  }

  lemma {:induction false} SpreadsHas(src: Sources, order: seq<Ref>)
    ensures forall s, r :: s in order && r in Resolve(src, s).spreads ==> r in SpreadsOf(src, order)
  {
    if order != [] {
      var front, last := order[..|order| - 1], order[|order| - 1];
      assert order == front + [last];
      SpreadsHas(src, front);
    }
  }

  lemma {:induction false} SpreadsPrefix(src: Sources, order: seq<Ref>, n: nat)
    requires n <= |order|
    ensures SpreadsOf(src, order[..n]) <= SpreadsOf(src, order)
  {
    if n == |order| {
      assert order[..n] == order;
    } else {
      var front := order[..|order| - 1];
      assert front[..n] == order[..n];
      SpreadsPrefix(src, front, n);
    }
  }

  lemma {:induction false} FirstsPrefix(s: seq<Ref>, t: seq<Ref>)
    requires s <= t
    ensures Firsts(s) <= Firsts(t)
  {
    if s != t {
      FirstsPrefix(s, t[..|t| - 1]);
    }
  }

  /** The next name is the first one mentioned so far that was not visited yet. */
  lemma NextInTurn(src: Sources, start: seq<Ref>, order: seq<Ref>, seen: seq<Ref>)
    requires InTurn(src, start, order) && |seen| < |order| && seen == order[..|seen|]
    ensures |seen| < |Mentioned(src, start, seen)| && order[|seen|] == Mentioned(src, start, seen)[|seen|]
  {
    var n := |seen|;
    var mentioned, all := start + SpreadsOf(src, seen), start + SpreadsOf(src, order);
    SpreadsPrefix(src, order, n);
    FirstsPrefix(mentioned, all);
    if |Firsts(mentioned)| <= n {
      FirstsHas(all);
      FirstsHas(mentioned);
      SpreadsHas(src, seen);
      var visited := set r | r in seen;
      forall r | r in mentioned ensures r in visited {
        assert r in Firsts(mentioned);
      }
      assert order[n] in order;
      var k: nat :| ReachedIn(src, start, order[n], k);
      ClosedHasAll(src, start, visited, order[n], k);
      assert false;
    }
  }

  lemma {:induction false} SameInTurn(src: Sources, start: seq<Ref>, a: seq<Ref>, b: seq<Ref>, k: nat)
    requires InTurn(src, start, a) && InTurn(src, start, b) && k <= |a| && k <= |b|
    ensures a[..k] == b[..k]
  {
    if k > 0 {
      SameInTurn(src, start, a, b, k - 1);
      var seen := a[..k - 1];
      NextInTurn(src, start, a, seen);
      NextInTurn(src, start, b, seen);
      assert a[..k] == seen + [a[k - 1]] && b[..k] == seen + [b[k - 1]];
    }
  }

  /** No other order of visiting meets this. */
  lemma InTurnIsUnique(src: Sources, start: seq<Ref>, a: seq<Ref>, b: seq<Ref>)
    requires InTurn(src, start, a) && InTurn(src, start, b)
    ensures a == b
  {
    if |a| <= |b| {
      InTurnIsNoLonger(src, start, a, b);
    } else {
      InTurnIsNoLonger(src, start, b, a);
    }
  }

  lemma InTurnIsNoLonger(src: Sources, start: seq<Ref>, a: seq<Ref>, b: seq<Ref>)
    requires InTurn(src, start, a) && InTurn(src, start, b) && |a| <= |b|
    ensures a == b
  {
    SameInTurn(src, start, a, b, |a|);
    FirstsHas(start + SpreadsOf(src, b));
    assert a[..|a|] == a;
    WholeWhenAllThere(b, |a|);
    assert b[..|b|] == b;
  }

  lemma WholeWhenAllThere(s: seq<Ref>, n: nat)
    requires Distinct(s) && n <= |s| && forall r :: r in s ==> r in s[..n]
    ensures n == |s|
  {
    if s != [] {
      assert s[|s| - 1] in s;
    }
  }

  lemma VisitNext(src: Sources, order: seq<Ref>, r: Ref)
    ensures IdsOf(src, order + [r]) == IdsOf(src, order) + Resolve(src, r).ids
    ensures OutcomesOf(src, order + [r]) == OutcomesOf(src, order) + Resolve(src, r).outcomes
  {
  }

  /** What the names visited and those waiting have to do with the start. */
  ghost predicate OnTheWay(src: Sources, start: seq<Ref>, seen: set<Ref>, pending: seq<Ref>) {
    && (forall r :: r in start ==> r in seen || r in pending)
    && (forall s, r :: s in seen && r in Resolve(src, s).spreads ==> r in seen || r in pending)
    && (forall r :: r in seen || r in pending ==> Reachable(src, start, r))
    && (forall r :: r in seen || r in pending ==> r in Names(src, start))
  }

  lemma VisitOne(src: Sources, start: seq<Ref>, seen: set<Ref>, pending: seq<Ref>)
    requires OnTheWay(src, start, seen, pending) && pending != []
    ensures pending[0] in seen ==> OnTheWay(src, start, seen, pending[1..])
    ensures OnTheWay(src, start, seen + {pending[0]}, pending[1..] + Resolve(src, pending[0]).spreads)
    ensures pending[0] in Names(src, start)
  {
    var r, rest, more := pending[0], pending[1..], Resolve(src, pending[0]).spreads;
    assert pending == [r] + rest;
    forall x | x in more ensures Reachable(src, start, x) && x in Names(src, start) {
      ReachesOn(src, start, r, x);
    }
  }

  lemma StartOnTheWay(src: Sources, start: seq<Ref>)
    ensures OnTheWay(src, start, {}, start)
  {
    forall r | r in start ensures Reachable(src, start, r) {
      StartReached(src, start, r);
    }
  }

  /** Every name waiting was mentioned; those taken so far were visited at their first mention. */
  ghost predicate TakenInTurn(src: Sources, start: seq<Ref>, order: seq<Ref>, taken: seq<Ref>, pending: seq<Ref>) {
    taken + pending == start + SpreadsOf(src, order) && order == Firsts(taken)
  }

  ghost predicate Visited(order: seq<Ref>, seen: set<Ref>) {
    forall r :: r in order <==> r in seen
  }

  lemma TakeNext(src: Sources, start: seq<Ref>, order: seq<Ref>, taken: seq<Ref>, pending: seq<Ref>, seen: set<Ref>)
    requires TakenInTurn(src, start, order, taken, pending) && Visited(order, seen) && pending != []
    ensures var r, rest := pending[0], pending[1..];
            && (r in seen ==> TakenInTurn(src, start, order, taken + [r], rest))
            && (r !in seen ==> TakenInTurn(src, start, order + [r], taken + [r], rest + Resolve(src, r).spreads)
                               && Visited(order + [r], seen + {r}))
  {
    var r, rest := pending[0], pending[1..];
    FirstsHas(taken);
    assert (taken + [r])[..|taken|] == taken && (order + [r])[..|order|] == order;
    assert taken + pending == (taken + [r]) + rest;
    assert (taken + [r]) + (rest + Resolve(src, r).spreads) == (taken + pending) + Resolve(src, r).spreads;
    assert (start + SpreadsOf(src, order)) + Resolve(src, r).spreads == start + SpreadsOf(src, order + [r]);
  }

  /** What has been collected along the names visited. */
  ghost predicate Collected(src: Sources, order: seq<Ref>, literals: seq<Tag>, stated: seq<Tag>,
                            ids: seq<Tag>, outcomes: seq<Tag>)
  {
    ids == literals + IdsOf(src, order) && outcomes == stated + OutcomesOf(src, order)
  }

  lemma CollectNext(src: Sources, order: seq<Ref>, literals: seq<Tag>, stated: seq<Tag>,
                    ids: seq<Tag>, outcomes: seq<Tag>, r: Ref)
    requires Collected(src, order, literals, stated, ids, outcomes)
    ensures Collected(src, order + [r], literals, stated,
                      ids + Resolve(src, r).ids, outcomes + Resolve(src, r).outcomes)
  {
    VisitNext(src, order, r);
    Text.Regroup(literals, IdsOf(src, order), Resolve(src, r).ids);
    Text.Regroup(stated, OutcomesOf(src, order), Resolve(src, r).outcomes);
  }

  /** The loop: it ends whatever circles there are, after visiting every name reachable and no
      other, once, in turn. */
  method VisitAll(src: Sources, start: seq<Ref>, literals: seq<Tag>, stated: seq<Tag>)
    returns (ids: seq<Tag>, outcomes: seq<Tag>)
    ensures exists order :: InTurn(src, start, order) && Collected(src, order, literals, stated, ids, outcomes)
  {
    ids, outcomes := literals, stated;
    var pending: seq<Ref>, seen: set<Ref> := start, {};
    ghost var order: seq<Ref>, taken: seq<Ref> := [], [];
    StartOnTheWay(src, start);
    while pending != []
      invariant OnTheWay(src, start, seen, pending)
      invariant Visited(order, seen) && TakenInTurn(src, start, order, taken, pending)
      invariant Collected(src, order, literals, stated, ids, outcomes)
      decreases |Names(src, start) - seen|, |pending|
    {
      var r := pending[0];
      VisitOne(src, start, seen, pending);
      TakeNext(src, start, order, taken, pending, seen);
      pending, taken := pending[1..], taken + [r];
      if r !in seen {
        CollectNext(src, order, literals, stated, ids, outcomes, r);
        Fewer(Names(src, start), seen, r);
        var found := Resolve(src, r);
        seen, order := seen + {r}, order + [r];
        ids, outcomes, pending := ids + found.ids, outcomes + found.outcomes, pending + found.spreads;
      }
    }
    AllSeen(src, start, seen);
    assert taken + pending == taken;
    assert InTurn(src, start, order);
  }

  /** `list(dict.fromkeys(s))`. */
  method Unique(s: seq<Tag>) returns (r: seq<Tag>)
    ensures r == Firsts(s)
  {
    r := [];
    var i := 0;
    while i < |s|
      invariant 0 <= i <= |s| && r == Firsts(s[..i])
    {
      FirstsHas(s[..i]);
      assert s[..i + 1][..i] == s[..i];
      if s[i] !in r { r := r + [s[i]]; }
      i := i + 1;
    }
    assert s[..i] == s;
  }

  /** All the ids there are: the test's own, and those of every name reachable from its tags. */
  ghost predicate Stands(src: Sources, start: seq<Ref>, literals: seq<Tag>, id: Tag) {
    id in literals || exists r :: Reachable(src, start, r) && id in Resolve(src, r).ids
  }

  ghost predicate StandsOutcome(src: Sources, start: seq<Ref>, stated: seq<Tag>, outcome: Tag) {
    outcome in stated || exists r :: Reachable(src, start, r) && outcome in Resolve(src, r).outcomes
  }

  /** The answer: exactly the ids and outcomes declared, each once, at its first place along
      the names visited. */
  method ResolveTagIds(src: Sources, start: seq<Ref>, literals: seq<Tag>, stated: seq<Tag>)
    returns (ids: seq<Tag>, outcomes: seq<Tag>)
    ensures exists order :: InTurn(src, start, order)
                            && ids == Firsts(literals + IdsOf(src, order))
                            && outcomes == Firsts(stated + OutcomesOf(src, order))
    ensures Distinct(ids) && forall id :: id in ids <==> Stands(src, start, literals, id)
    ensures Distinct(outcomes) && forall x :: x in outcomes <==> StandsOutcome(src, start, stated, x)
  {
    var allIds, allOutcomes := VisitAll(src, start, literals, stated);
    ids := Unique(allIds);
    outcomes := Unique(allOutcomes);
    ghost var order :| InTurn(src, start, order) && Collected(src, order, literals, stated, allIds, allOutcomes);
    FirstsHas(allIds);
    FirstsHas(allOutcomes);
    IdsAlong(src, order);
    OutcomesAlong(src, order);
  }

  lemma {:induction false} IdsAlong(src: Sources, order: seq<Ref>)
    ensures forall id :: id in IdsOf(src, order) <==> exists r :: r in order && id in Resolve(src, r).ids
  {
    if order != [] {
      var front, last := order[..|order| - 1], order[|order| - 1];
      assert order == front + [last];
      IdsAlong(src, front);
    }
  }

  lemma {:induction false} OutcomesAlong(src: Sources, order: seq<Ref>)
    ensures forall x :: x in OutcomesOf(src, order) <==> exists r :: r in order && x in Resolve(src, r).outcomes
  {
    if order != [] {
      var front, last := order[..|order| - 1], order[|order| - 1];
      assert order == front + [last];
      OutcomesAlong(src, front);
    }
  }

  lemma Fewer(all: set<Ref>, seen: set<Ref>, r: Ref)
    requires r in all && r !in seen
    ensures |all - (seen + {r})| < |all - seen|
  {
    assert all - seen == (all - (seen + {r})) + {r};
  }

  lemma AllSeen(src: Sources, start: seq<Ref>, seen: set<Ref>)
    requires OnTheWay(src, start, seen, [])
    ensures forall r :: r in seen <==> Reachable(src, start, r)
  {
    forall r | Reachable(src, start, r) ensures r in seen {
      var n: nat :| ReachedIn(src, start, r, n);
      ClosedHasAll(src, start, seen, r, n);
    }
  }
}
