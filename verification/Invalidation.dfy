/** Selective seal invalidation, backend/reviews/services/invalidation.py: which seals
    survive a set of section changes, and who hears about the others. */
module Invalidation {
  import opened Order
  import opened Sections

  datatype Mode = Auto | Coordinator

  datatype Verdict = Preserved | Invalidated | Pending

  datatype Reason = AllUnchanged | SectionModified | SectionRemoved | SectionRenamed
                  | AmbiguousMatch | DocumentChanged | SectionNotFound

  datatype Person = Person(id: string)

  /** One seal as the resolver sees it: the covered sections with the hashes that were signed. */
  datatype SealInput = SealInput(id: nat, reviewer: Person, coversAll: bool, covered: map<Key, Hash>)

  datatype Proof = Proof(key: Key, hashFrom: Hash, hashTo: Hash)

  /** A section that breaks a seal; no change type when the comparison does not know it. */
  datatype Breaker = Breaker(key: Key, kind: Option<ChangeType>)

  datatype Evidence =
    | NoDiffs
    | AllEqual(verified: seq<Proof>)
    | DocumentDiffs(changes: seq<Breaker>)
    | Broken(changed: seq<Breaker>, stillIntact: seq<Proof>)

  datatype Decision = Decision(seal: nat, reviewer: Person, verdict: Verdict, proposed: Verdict,
                               reason: Reason, evidence: Evidence)

  /** BREAKING. */
  predicate Breaks(kind: ChangeType) {
    kind in {Modified, Removed, RenamedOnly, Ambiguous, WasSplit, Merged}
  }

  ghost predicate Touched(changes: map<Key, Change>) {
    exists k :: k in changes && (Breaks(changes[k].kind) || changes[k].kind == Added)
  }

  /** The only way to preservation: proven hash equality. */
  predicate Intact(covered: map<Key, Hash>, changes: map<Key, Change>, k: Key)
    requires k in covered
  {
    k in changes && changes[k].kind == Unchanged && changes[k].hashTo == Some(covered[k])
  }

  function BreakerFor(changes: map<Key, Change>, k: Key): Breaker {
    Breaker(k, if k in changes then Some(changes[k].kind) else None)
  }

  function SortedKeys(keys: set<Key>): (r: seq<Key>)
    ensures |r| == |keys| && (forall k :: k in r <==> k in keys)
  {
    KeysTotal();
    SortSet(keys, KeyLe)
  }

  ghost predicate AllCovered(keys: seq<Key>, covered: map<Key, Hash>) {
    forall k :: k in keys ==> k in covered
  }

  function Verified(keys: seq<Key>, covered: map<Key, Hash>, changes: map<Key, Change>): seq<Proof>
    requires AllCovered(keys, covered)
  {
    if keys == [] then []
    else
      var n := |keys| - 1;
      var k := keys[n];
      Verified(keys[..n], covered, changes)
      + if Intact(covered, changes, k) then [Proof(k, covered[k], covered[k])] else []
  }

  function Breakers(keys: seq<Key>, covered: map<Key, Hash>, changes: map<Key, Change>): seq<Breaker>
    requires AllCovered(keys, covered)
  {
    if keys == [] then []
    else
      var n := |keys| - 1;
      var k := keys[n];
      Breakers(keys[..n], covered, changes)
      + if Intact(covered, changes, k) then [] else [BreakerFor(changes, k)]
  }

  ghost predicate HasKind(breakers: seq<Breaker>, kind: Option<ChangeType>) {
    exists b :: b in breakers && b.kind == kind
  }

  /** How grave a kind of change is for a seal. */
  function Gravity(kind: Option<ChangeType>): nat {
    match kind
    case None => 4
    case Some(Removed) => 4
    case Some(Ambiguous) => 3
    case Some(WasSplit) => 3
    case Some(Merged) => 3
    case Some(Modified) => 2
    case Some(RenamedOnly) => 1
    case Some(_) => 0
  }

  function ReasonOfGravity(gravity: nat): Reason {
    match gravity
    case 4 => SectionRemoved
    case 3 => AmbiguousMatch
    case 2 => SectionModified
    case 1 => SectionRenamed
    case _ => SectionNotFound
  }

  function Worst(breakers: seq<Breaker>): nat {
    if breakers == [] then 0
    else
      var (before, last) := (Worst(breakers[..|breakers| - 1]), Gravity(breakers[|breakers| - 1].kind));
      if last > before then last else before
  }

  ghost predicate Gravest(b: Breaker, breakers: seq<Breaker>) {
    b in breakers && forall x :: x in breakers ==> Gravity(x.kind) <= Gravity(b.kind)
  }

  lemma {:induction false} WorstIsGravest(breakers: seq<Breaker>) returns (b: Breaker)
    requires breakers != []
    ensures Gravest(b, breakers) && Gravity(b.kind) == Worst(breakers)
  {
    var front, last := breakers[..|breakers| - 1], breakers[|breakers| - 1];
    if front == [] {
      b := last;
    } else {
      var worst := WorstIsGravest(front);
      b := if Gravity(worst.kind) >= Gravity(last.kind) then worst else last;
      GravestOfBoth(front, last, worst, b);
      assert breakers == front + [last];
    }
  }

  lemma GravestOfBoth(front: seq<Breaker>, last: Breaker, worst: Breaker, b: Breaker)
    requires Gravest(worst, front) && b == if Gravity(worst.kind) >= Gravity(last.kind) then worst else last
    ensures Gravest(b, front + [last])
  {
  }

  /** `_reason_for`: the reason that stands for the gravest kind of change. */
  ghost function ReasonFor(breakers: seq<Breaker>): Reason { ReasonOfGravity(Worst(breakers)) }

  lemma KindsOfGravity(breakers: seq<Breaker>)
    ensures Worst(breakers) <= 4
    ensures Worst(breakers) == 4 <==> HasKind(breakers, Some(Removed)) || HasKind(breakers, None)
    ensures Worst(breakers) >= 3 <==> Worst(breakers) == 4 || HasKind(breakers, Some(Ambiguous))
                                      || HasKind(breakers, Some(WasSplit)) || HasKind(breakers, Some(Merged))
    ensures Worst(breakers) >= 2 <==> Worst(breakers) >= 3 || HasKind(breakers, Some(Modified))
    ensures Worst(breakers) >= 1 <==> Worst(breakers) >= 2 || HasKind(breakers, Some(RenamedOnly))
  {
    if breakers != [] {
      var b := WorstIsGravest(breakers);
      assert HasKind(breakers, b.kind);
    }
  }

  function PreservedBy(seal: SealInput, evidence: Evidence): Decision {
    Decision(seal.id, seal.reviewer, Preserved, Preserved, AllUnchanged, evidence)
  }

  function Breaking(seal: SealInput, reason: Reason, mode: Mode, evidence: Evidence): Decision {
    var proposed := if reason == SectionRenamed then Preserved else Invalidated;
    if mode == Coordinator then Decision(seal.id, seal.reviewer, Pending, proposed, reason, evidence)
    else Decision(seal.id, seal.reviewer, Invalidated, Invalidated, reason, evidence)
  }

  function ChangedIn(keys: seq<Key>, changes: map<Key, Change>): seq<Breaker>
    requires forall k :: k in keys ==> k in changes
  {
    if keys == [] then []
    else
      var n := |keys| - 1;
      ChangedIn(keys[..n], changes)
      + if changes[keys[n]].kind == Unchanged then [] else [BreakerFor(changes, keys[n])]
  }

  /** What is decided about one seal. */
  ghost function Decide(seal: SealInput, changes: map<Key, Change>, mode: Mode): Decision {
    if seal.coversAll then
      if Touched(changes) then
        Breaking(seal, DocumentChanged, mode, DocumentDiffs(ChangedIn(SortedKeys(changes.Keys), changes)))
      else PreservedBy(seal, NoDiffs)
    else
      var keys := SortedKeys(seal.covered.Keys);
      var verified, breakers := Verified(keys, seal.covered, changes), Breakers(keys, seal.covered, changes);
      if breakers == [] then PreservedBy(seal, AllEqual(verified))
      else Breaking(seal, ReasonFor(breakers), mode, Broken(breakers, verified))
  }

  // ---- the resolver ----

  method AnyTouched(changes: map<Key, Change>) returns (touched: bool)
    ensures touched == Touched(changes)
  {
    var keys := SortedKeys(changes.Keys);
    var i := 0;
    while i < |keys|
      invariant 0 <= i <= |keys|
      invariant forall j :: 0 <= j < i ==> !Breaks(changes[keys[j]].kind) && changes[keys[j]].kind != Added
    {
      if Breaks(changes[keys[i]].kind) || changes[keys[i]].kind == Added { return true; }
      i := i + 1;
    }
    return false;
  }

  lemma ChecksNext(keys: seq<Key>, covered: map<Key, Hash>, changes: map<Key, Change>, i: nat)
    requires AllCovered(keys, covered) && i < |keys|
    ensures var k := keys[i];
            && Verified(keys[..i + 1], covered, changes) == Verified(keys[..i], covered, changes)
               + (if Intact(covered, changes, k) then [Proof(k, covered[k], covered[k])] else [])
            && Breakers(keys[..i + 1], covered, changes) == Breakers(keys[..i], covered, changes)
               + (if Intact(covered, changes, k) then [] else [BreakerFor(changes, k)])
  {
    assert keys[..i + 1][..i] == keys[..i];
  }

  /** The inner loop, over the covered keys in sorted order. */
  method CheckSections(keys: seq<Key>, covered: map<Key, Hash>, changes: map<Key, Change>)
    returns (verified: seq<Proof>, breakers: seq<Breaker>)
    requires AllCovered(keys, covered)
    ensures verified == Verified(keys, covered, changes)
    ensures breakers == Breakers(keys, covered, changes)
  {
    verified, breakers := [], [];
    var i := 0;
    while i < |keys|
      invariant 0 <= i <= |keys|
      invariant verified == Verified(keys[..i], covered, changes)
      invariant breakers == Breakers(keys[..i], covered, changes)
    {
      var k := keys[i];
      ChecksNext(keys, covered, changes, i);
      if k !in changes {
        breakers := breakers + [Breaker(k, None)];
      } else {
        var entry := changes[k];
        if entry.kind == Unchanged && entry.hashTo != None && entry.hashTo == Some(covered[k]) {
          verified := verified + [Proof(k, covered[k], entry.hashTo.value)];
        } else {
          breakers := breakers + [Breaker(k, Some(entry.kind))];
        }
      }
      i := i + 1;
    }
    assert keys[..i] == keys;
  }

  /** The tests on the set of kinds come down to the gravest of them. */
  method ReasonOf(breakers: seq<Breaker>) returns (reason: Reason)
    ensures reason == ReasonFor(breakers)
    ensures breakers != [] ==> exists b :: Gravest(b, breakers) && reason == ReasonOfGravity(Gravity(b.kind))
  {
    var kinds: set<Option<ChangeType>> := {};
    var i := 0;
    while i < |breakers|
      invariant 0 <= i <= |breakers|
      invariant forall kind :: kind in kinds <==> HasKind(breakers[..i], kind)
    {
      kinds := kinds + {breakers[i].kind};
      i := i + 1;
    }
    assert breakers[..i] == breakers;
    KindsOfGravity(breakers);
    if breakers != [] { ghost var b := WorstIsGravest(breakers); }
    if Some(Removed) in kinds || None in kinds {
      reason := SectionRemoved;
    } else if Some(Ambiguous) in kinds || Some(WasSplit) in kinds || Some(Merged) in kinds {
      reason := AmbiguousMatch;
    } else if Some(Modified) in kinds {
      reason := SectionModified;
    } else if Some(RenamedOnly) in kinds {
      reason := SectionRenamed;
    } else {
      reason := SectionNotFound;
    }
  }

  method ResolveSealInvalidation(seals: seq<SealInput>, changes: map<Key, Change>, mode: Mode)
    returns (decisions: seq<Decision>)
    ensures |decisions| == |seals|
    ensures forall i :: 0 <= i < |seals| ==> decisions[i] == Decide(seals[i], changes, mode)
  {
    decisions := [];
    var touched := AnyTouched(changes);
    var i := 0;
    while i < |seals|
      invariant 0 <= i == |decisions| <= |seals|
      invariant forall j :: 0 <= j < i ==> decisions[j] == Decide(seals[j], changes, mode)
    {
      var seal := seals[i];
      var d: Decision;
      if seal.coversAll {
        if touched {
          d := Breaking(seal, DocumentChanged, mode, DocumentDiffs(ChangedIn(SortedKeys(changes.Keys), changes)));
        } else {
          d := PreservedBy(seal, NoDiffs);
        }
      } else {
        var verified, breakers := CheckSections(SortedKeys(seal.covered.Keys), seal.covered, changes);
        if breakers == [] {
          d := PreservedBy(seal, AllEqual(verified));
        } else {
          var reason := ReasonOf(breakers);
          d := Breaking(seal, reason, mode, Broken(breakers, verified));
        }
      }
      decisions := decisions + [d];
      i := i + 1;
    }
  }

  // ---- what a seal survives ----

  lemma {:induction false} NoBreakersIff(keys: seq<Key>, covered: map<Key, Hash>, changes: map<Key, Change>)
    requires AllCovered(keys, covered)
    ensures Breakers(keys, covered, changes) == [] <==> forall k :: k in keys ==> Intact(covered, changes, k)
  {
    if keys != [] {
      var front, last := keys[..|keys| - 1], keys[|keys| - 1];
      assert keys == front + [last];
      NoBreakersIff(front, covered, changes);
    }
  }

  lemma DocumentSealKeptIff(seal: SealInput, changes: map<Key, Change>, mode: Mode)
    requires seal.coversAll
    ensures Decide(seal, changes, mode).verdict == Preserved <==> !Touched(changes)
  {
  }

  /** A seal on sections survives exactly when each of them is known to be unchanged and
      carries the very hash that was signed; a seal on the document exactly when nothing changed. */
  lemma PreservedIff(seal: SealInput, changes: map<Key, Change>, mode: Mode)
    ensures !seal.coversAll ==> (Decide(seal, changes, mode).verdict == Preserved
                                 <==> forall k :: k in seal.covered ==> Intact(seal.covered, changes, k))
    ensures seal.coversAll ==> (Decide(seal, changes, mode).verdict == Preserved
                                <==> forall k :: k in changes ==> changes[k].kind == Unchanged)
  {
    if !seal.coversAll {
      NoBreakersIff(SortedKeys(seal.covered.Keys), seal.covered, changes);
    } else {
      DocumentSealKeptIff(seal, changes, mode);
    }
  }

  /** The mode decides whether a broken seal falls or waits, never whether a seal is kept. */
  lemma ModeNeverPreserves(seal: SealInput, changes: map<Key, Change>)
    ensures Decide(seal, changes, Auto).verdict == Preserved
            <==> Decide(seal, changes, Coordinator).verdict == Preserved
    ensures Decide(seal, changes, Auto).verdict != Pending
    ensures Decide(seal, changes, Coordinator).verdict != Invalidated
  {
  }

  ghost predicate AgreeOn(keys: set<Key>, changes: map<Key, Change>, others: map<Key, Change>) {
    forall k :: k in keys ==> (k in changes <==> k in others) && (k in changes ==> changes[k] == others[k])
  }

  lemma {:induction false} SameChecks(keys: seq<Key>, covered: map<Key, Hash>,
                                      changes: map<Key, Change>, others: map<Key, Change>)
    requires AllCovered(keys, covered) && AgreeOn(covered.Keys, changes, others)
    ensures Verified(keys, covered, changes) == Verified(keys, covered, others)
    ensures Breakers(keys, covered, changes) == Breakers(keys, covered, others)
  {
    if keys != [] {
      var front, last := keys[..|keys| - 1], keys[|keys| - 1];
      assert keys == front + [last];
      SameChecks(front, covered, changes, others);
    }
  }

  /** Whatever happens to sections that a seal does not cover, the whole decision stays as it is. */
  lemma OtherSectionsDoNotMatter(seal: SealInput, changes: map<Key, Change>, others: map<Key, Change>, mode: Mode)
    requires !seal.coversAll && AgreeOn(seal.covered.Keys, changes, others)
    ensures Decide(seal, changes, mode) == Decide(seal, others, mode)
  {
    SameChecks(SortedKeys(seal.covered.Keys), seal.covered, changes, others);
  }

  /** Covering more sections never saves a seal. */
  lemma CoveringMoreNeverSaves(seal: SealInput, wider: SealInput, changes: map<Key, Change>, mode: Mode)
    requires !seal.coversAll && !wider.coversAll
    requires forall k :: k in seal.covered ==> k in wider.covered && wider.covered[k] == seal.covered[k]
    requires Decide(wider, changes, mode).verdict == Preserved
    ensures Decide(seal, changes, mode).verdict == Preserved
  {
    PreservedIff(seal, changes, mode);
    PreservedIff(wider, changes, mode);
    forall k | k in seal.covered ensures Intact(seal.covered, changes, k) {
      assert Intact(wider.covered, changes, k);
    }
  }

  // ---- the evidence ----

  function ProofKeys(proofs: seq<Proof>): set<Key> { set p | p in proofs :: p.key }

  function BreakerKeys(breakers: seq<Breaker>): set<Key> { set b | b in breakers :: b.key }

  lemma MoreKeys(proofs: seq<Proof>, p: Proof, breakers: seq<Breaker>, b: Breaker)
    ensures ProofKeys(proofs + [p]) == ProofKeys(proofs) + {p.key}
    ensures BreakerKeys(breakers + [b]) == BreakerKeys(breakers) + {b.key}
  {
  }

  lemma {:induction false} EvidenceKeys(keys: seq<Key>, covered: map<Key, Hash>, changes: map<Key, Change>)
    requires AllCovered(keys, covered)
    ensures forall k :: k in ProofKeys(Verified(keys, covered, changes)) <==> k in keys && Intact(covered, changes, k)
    ensures forall k :: k in BreakerKeys(Breakers(keys, covered, changes))
                        <==> k in keys && !Intact(covered, changes, k)
    ensures |Verified(keys, covered, changes)| + |Breakers(keys, covered, changes)| == |keys|
  {
    if keys != [] {
      var front, last := keys[..|keys| - 1], keys[|keys| - 1];
      assert keys == front + [last];
      EvidenceKeys(front, covered, changes);
      MoreKeys(Verified(front, covered, changes), Proof(last, covered[last], covered[last]),
               Breakers(front, covered, changes), BreakerFor(changes, last));
    }
  }

  predicate Before(a: Key, b: Key) { LexLe(a.text, b.text) && a != b }

  ghost predicate Ascending(breakers: seq<Breaker>) {
    forall i, j :: 0 <= i < j < |breakers| ==> Before(breakers[i].key, breakers[j].key)
  }

  ghost predicate AscendingKeys(keys: seq<Key>) {
    forall i, j :: 0 <= i < j < |keys| ==> Before(keys[i], keys[j])
  }

  lemma {:induction false} EvidenceInOrder(keys: seq<Key>, covered: map<Key, Hash>, changes: map<Key, Change>)
    requires AllCovered(keys, covered) && AscendingKeys(keys)
    ensures Ascending(Breakers(keys, covered, changes))
    ensures forall b :: b in Breakers(keys, covered, changes) ==> b.key in keys
  {
    if keys != [] {
      var front, last := keys[..|keys| - 1], keys[|keys| - 1];
      EvidenceInOrder(front, covered, changes);
      forall x | x in front ensures Before(x, last) {
        var i :| 0 <= i < |front| && front[i] == x;
        assert keys[i] == x;
      }
      var breakers := Breakers(front, covered, changes);
      forall i | 0 <= i < |breakers| ensures Before(breakers[i].key, last) {
        assert breakers[i] in breakers;
      }
    }
  }

  lemma SortedKeysAscend(keys: set<Key>)
    ensures AscendingKeys(SortedKeys(keys))
  {
    KeysTotal();
    SortSetSorted(keys, KeyLe);
  }

  lemma EvidenceIs(seal: SealInput, changes: map<Key, Change>, mode: Mode)
    requires !seal.coversAll && Decide(seal, changes, mode).verdict != Preserved
    ensures var keys := SortedKeys(seal.covered.Keys);
            Decide(seal, changes, mode).evidence
            == Broken(Breakers(keys, seal.covered, changes), Verified(keys, seal.covered, changes))
  {
  }

  /** The breakers of a seal are listed by key, in order and without repeats. */
  lemma BreakersInOrder(seal: SealInput, changes: map<Key, Change>, mode: Mode)
    requires !seal.coversAll && Decide(seal, changes, mode).verdict != Preserved
    ensures Decide(seal, changes, mode).evidence.Broken?
    ensures Ascending(Decide(seal, changes, mode).evidence.changed)
  {
    EvidenceIs(seal, changes, mode);
    SortedKeysAscend(seal.covered.Keys);
    EvidenceInOrder(SortedKeys(seal.covered.Keys), seal.covered, changes);
  }

  /** The evidence of a broken seal lists every covered section once: the ones that changed
      and, as a partial certificate, the ones that did not. */
  lemma EvidencePartitionsCoverage(seal: SealInput, changes: map<Key, Change>, mode: Mode)
    requires !seal.coversAll && Decide(seal, changes, mode).verdict != Preserved
    ensures Decide(seal, changes, mode).evidence.Broken?
    ensures var e := Decide(seal, changes, mode).evidence;
            && BreakerKeys(e.changed) + ProofKeys(e.stillIntact) == seal.covered.Keys
            && BreakerKeys(e.changed) !! ProofKeys(e.stillIntact)
            && |e.changed| + |e.stillIntact| == |seal.covered|
            && forall k :: k in ProofKeys(e.stillIntact) ==> Intact(seal.covered, changes, k)
  {
    EvidenceIs(seal, changes, mode);
    EvidenceKeys(SortedKeys(seal.covered.Keys), seal.covered, changes);
    assert |seal.covered| == |seal.covered.Keys|;
  }

  // ---- what a coordinator is proposed ----

  lemma {:induction false} KindsOfBreakers(keys: seq<Key>, covered: map<Key, Hash>, changes: map<Key, Change>,
                                           kind: Option<ChangeType>)
    requires AllCovered(keys, covered)
    ensures HasKind(Breakers(keys, covered, changes), kind) <==>
            exists k :: k in keys && !Intact(covered, changes, k) && BreakerFor(changes, k).kind == kind
  {
    if keys != [] {
      var front, last := keys[..|keys| - 1], keys[|keys| - 1];
      assert keys == front + [last];
      KindsOfBreakers(front, covered, changes, kind);
      if !Intact(covered, changes, last) {
        var breakers := Breakers(keys, covered, changes);
        assert breakers[..|breakers| - 1] == Breakers(front, covered, changes);
        assert breakers[..|breakers|] == breakers;
      }
    }
  }

  /** What makes a reason out of the kinds of change: every breaker's kind is one of these. */
  predicate Mild(kind: Option<ChangeType>) {
    kind in {Some(RenamedOnly), Some(Unchanged), Some(Added)}
  }

  lemma RenamedReasonIff(breakers: seq<Breaker>)
    ensures ReasonFor(breakers) == SectionRenamed <==>
            HasKind(breakers, Some(RenamedOnly)) && forall b :: b in breakers ==> Mild(b.kind)
  {
    KindsOfGravity(breakers);
    if breakers != [] { var worst := WorstIsGravest(breakers); }
    forall b | b in breakers ensures Mild(b.kind) <==> Gravity(b.kind) <= 1 {
      MildGravity(b.kind);
    }
  }

  lemma MildGravity(kind: Option<ChangeType>)
    ensures Mild(kind) <==> Gravity(kind) <= 1
  {
  }

  /** Exactly when a coordinator is proposed to keep a broken seal: some covered section only
      moved its heading, and no other breaker is worse than a stale hash. */
  lemma ProposedKeptIff(seal: SealInput, changes: map<Key, Change>)
    requires !seal.coversAll && Decide(seal, changes, Coordinator).verdict == Pending
    ensures Decide(seal, changes, Coordinator).proposed == Preserved <==>
            && (exists k :: k in seal.covered && BreakerFor(changes, k).kind == Some(RenamedOnly))
            && (forall k :: k in seal.covered && !Intact(seal.covered, changes, k) ==>
                  Mild(BreakerFor(changes, k).kind))
  {
    var keys := SortedKeys(seal.covered.Keys);
    var breakers := Breakers(keys, seal.covered, changes);
    RenamedReasonIff(breakers);
    KindsOfBreakers(keys, seal.covered, changes, Some(RenamedOnly));
    AllBreakers(keys, seal.covered, changes);
  }

  lemma {:induction false} AllBreakers(keys: seq<Key>, covered: map<Key, Hash>, changes: map<Key, Change>)
    requires AllCovered(keys, covered)
    ensures (forall b :: b in Breakers(keys, covered, changes) ==> Mild(b.kind)) <==>
            forall k :: k in keys && !Intact(covered, changes, k) ==> Mild(BreakerFor(changes, k).kind)
  {
    if keys != [] {
      var front, last := keys[..|keys| - 1], keys[|keys| - 1];
      assert keys == front + [last];
      AllBreakers(front, covered, changes);
    }
  }

  /** The sealed hashes are those of the version compared from. */
  ghost predicate HashesOfFrom(covered: map<Key, Hash>, changes: map<Key, Change>) {
    forall k :: k in covered && k in changes ==> changes[k].hashFrom == Some(covered[k])
  }

  /** What a comparison says hangs together: equal bodies have equal hashes, and an added
      section has no hash to come from. */
  ghost predicate Coherent(changes: map<Key, Change>) {
    forall k :: k in changes ==>
      && (changes[k].kind in {Unchanged, RenamedOnly} ==> changes[k].hashFrom == changes[k].hashTo != None)
      && (changes[k].kind == Added ==> changes[k].hashFrom == None)
      && (changes[k].kind == Removed ==> changes[k].hashTo == None)
      && (changes[k].kind == Modified ==> changes[k].hashFrom != changes[k].hashTo)
  }

  /** Nothing of the body of a covered section changed. */
  predicate BodyKept(covered: map<Key, Hash>, changes: map<Key, Change>, k: Key)
    requires k in covered
  {
    && k in changes && changes[k].hashTo == Some(covered[k])
    && changes[k].kind in {Unchanged, RenamedOnly}
  }

  /** With hashes taken from the version compared from, a coordinator is proposed to keep a
      waiting seal exactly when all covered bodies are hash-equal: only headings moved. */
  lemma ProposedKeptMeansBodiesKept(seal: SealInput, changes: map<Key, Change>)
    requires !seal.coversAll && Decide(seal, changes, Coordinator).verdict == Pending
    requires HashesOfFrom(seal.covered, changes) && Coherent(changes)
    ensures Decide(seal, changes, Coordinator).proposed == Preserved <==>
            forall k :: k in seal.covered ==> BodyKept(seal.covered, changes, k)
  {
    ProposedKeptIff(seal, changes);
    PreservedIff(seal, changes, Coordinator);
    var bad :| bad in seal.covered && !Intact(seal.covered, changes, bad);
    if Decide(seal, changes, Coordinator).proposed == Preserved {
      forall k | k in seal.covered ensures BodyKept(seal.covered, changes, k) {
        MildIsKept(seal.covered, changes, k);
      }
    }
  }

  lemma MildIsKept(covered: map<Key, Hash>, changes: map<Key, Change>, k: Key)
    requires k in covered && HashesOfFrom(covered, changes) && Coherent(changes)
    requires Intact(covered, changes, k) || Mild(BreakerFor(changes, k).kind)
    ensures BodyKept(covered, changes, k)
  {
  }

  /** Without that, keeping can be proposed over a body that differs: a section whose
      sealed hash is stale hides behind one that only moved its heading. */
  lemma StaleHashHides(a: Key, b: Key, sealedHash: Hash, other: Hash)
    returns (seal: SealInput, changes: map<Key, Change>)
    requires a != b && sealedHash != other
    ensures Coherent(changes) && !seal.coversAll && b in seal.covered
    ensures Decide(seal, changes, Coordinator).verdict == Pending
    ensures Decide(seal, changes, Coordinator).proposed == Preserved
    ensures !BodyKept(seal.covered, changes, b)
  {
    seal := SealInput(0, Person(""), false, map[a := sealedHash, b := sealedHash]);
    changes := map[a := Change(RenamedOnly, Some(sealedHash), Some(sealedHash)),
                   b := Change(Unchanged, Some(other), Some(other))];
    assert seal.covered.Keys == {a, b} == changes.Keys;
    BehindRenamed(seal, changes, a, b);
  }

  lemma BehindRenamed(seal: SealInput, changes: map<Key, Change>, a: Key, b: Key)
    requires !seal.coversAll && seal.covered.Keys == {a, b}
    requires BreakerFor(changes, a).kind == Some(RenamedOnly)
    requires !Intact(seal.covered, changes, b) && Mild(BreakerFor(changes, b).kind)
    ensures Decide(seal, changes, Coordinator).verdict == Pending
    ensures Decide(seal, changes, Coordinator).proposed == Preserved
  {
    PreservedIff(seal, changes, Coordinator);
    DecisionIsOf(seal, changes, Coordinator);
    ProposedKeptIff(seal, changes);
  }

  // ---- the reason given ----

  /** A covered section changed in one of these ways. */
  ghost predicate Hit(seal: SealInput, changes: map<Key, Change>, kinds: set<ChangeType>) {
    exists k :: k in seal.covered && k in changes && changes[k].kind in kinds
  }

  /** A covered section was removed, or the comparison does not know it. */
  ghost predicate SectionGone(seal: SealInput, changes: map<Key, Change>) {
    Hit(seal, changes, {Removed}) || exists k :: k in seal.covered && k !in changes
  }

  lemma ChangedHasKind(seal: SealInput, changes: map<Key, Change>, kind: ChangeType)
    requires kind != Unchanged
    ensures HasKind(Breakers(SortedKeys(seal.covered.Keys), seal.covered, changes), Some(kind))
            <==> Hit(seal, changes, {kind})
  {
    var keys := SortedKeys(seal.covered.Keys);
    KindsOfBreakers(keys, seal.covered, changes, Some(kind));
    if k :| k in seal.covered && k in changes && changes[k].kind in {kind} {
      assert k in keys && !Intact(seal.covered, changes, k) && BreakerFor(changes, k).kind == Some(kind);
    }
  }

  lemma MissingHasKind(seal: SealInput, changes: map<Key, Change>)
    ensures HasKind(Breakers(SortedKeys(seal.covered.Keys), seal.covered, changes), None)
            <==> exists k :: k in seal.covered && k !in changes
  {
    var keys := SortedKeys(seal.covered.Keys);
    KindsOfBreakers(keys, seal.covered, changes, None);
    if k :| k in seal.covered && k !in changes {
      assert k in keys && !Intact(seal.covered, changes, k) && BreakerFor(changes, k).kind == None;
    }
  }

  /** The reason says what happened to the covered sections, the gravest first. */
  ghost predicate Explains(reason: Reason, seal: SealInput, changes: map<Key, Change>) {
    var gone, unclear := SectionGone(seal, changes), Hit(seal, changes, {Ambiguous, WasSplit, Merged});
    var modified, renamed := Hit(seal, changes, {Modified}), Hit(seal, changes, {RenamedOnly});
    && (reason == SectionRemoved <==> gone)
    && (reason == AmbiguousMatch <==> !gone && unclear)
    && (reason == SectionModified <==> !gone && !unclear && modified)
    && (reason == SectionRenamed <==> !gone && !unclear && !modified && renamed)
    && (reason == SectionNotFound <==> !gone && !unclear && !modified && !renamed)
  }

  lemma BreakersExplain(seal: SealInput, changes: map<Key, Change>)
    ensures Explains(ReasonFor(Breakers(SortedKeys(seal.covered.Keys), seal.covered, changes)), seal, changes)
  {
    KindsOfGravity(Breakers(SortedKeys(seal.covered.Keys), seal.covered, changes));
    ChangedHasKind(seal, changes, Removed);
    MissingHasKind(seal, changes);
    UnclearHasKind(seal, changes);
    ChangedHasKind(seal, changes, Modified);
    ChangedHasKind(seal, changes, RenamedOnly);
  }

  /** The reason of any decision. */
  lemma ReasonIff(seal: SealInput, changes: map<Key, Change>, mode: Mode)
    ensures var d := Decide(seal, changes, mode);
            && (d.reason == AllUnchanged <==> d.verdict == Preserved)
            && (d.reason == DocumentChanged <==> d.verdict != Preserved && seal.coversAll)
            && (d.verdict != Preserved && !seal.coversAll ==> Explains(d.reason, seal, changes))
  {
    BreakersExplain(seal, changes);
  }

  /** What is decided is what was proposed; where a person decides, keeping is proposed exactly for
      the reason that a heading moved. */
  lemma ProposalIff(seal: SealInput, changes: map<Key, Change>, mode: Mode)
    ensures var d := Decide(seal, changes, mode);
            && d.proposed in {Preserved, Invalidated}
            && (d.verdict != Pending ==> d.proposed == d.verdict)
            && (d.verdict == Pending ==> (d.proposed == Preserved <==> d.reason == SectionRenamed))
  {
  }

  lemma UnclearHasKind(seal: SealInput, changes: map<Key, Change>)
    ensures var breakers := Breakers(SortedKeys(seal.covered.Keys), seal.covered, changes);
            Hit(seal, changes, {Ambiguous, WasSplit, Merged})
            <==> HasKind(breakers, Some(Ambiguous)) || HasKind(breakers, Some(WasSplit))
                 || HasKind(breakers, Some(Merged))
  {
    ChangedHasKind(seal, changes, Ambiguous);
    ChangedHasKind(seal, changes, WasSplit);
    ChangedHasKind(seal, changes, Merged);
    if k :| k in seal.covered && k in changes && changes[k].kind in {Ambiguous, WasSplit, Merged} {
      assert Hit(seal, changes, {changes[k].kind});
    }
  }

  // ---- what the evidence lists ----

  lemma {:induction false} BreakersListed(keys: seq<Key>, covered: map<Key, Hash>, changes: map<Key, Change>,
                                          b: Breaker)
    requires AllCovered(keys, covered)
    ensures b in Breakers(keys, covered, changes) <==>
            b.key in keys && !Intact(covered, changes, b.key)
            && b.kind == if b.key in changes then Some(changes[b.key].kind) else None
  {
    if keys != [] {
      var front, last := keys[..|keys| - 1], keys[|keys| - 1];
      assert keys == front + [last];
      BreakersListed(front, covered, changes, b);
    }
  }

  lemma {:induction false} ProofsListed(keys: seq<Key>, covered: map<Key, Hash>, changes: map<Key, Change>, p: Proof)
    requires AllCovered(keys, covered)
    ensures p in Verified(keys, covered, changes) <==>
            p.key in keys && Intact(covered, changes, p.key) && p.hashFrom == p.hashTo == covered[p.key]
  {
    if keys != [] {
      var front, last := keys[..|keys| - 1], keys[|keys| - 1];
      assert keys == front + [last];
      ProofsListed(front, covered, changes, p);
    }
  }

  lemma {:induction false} ChangesListed(keys: seq<Key>, changes: map<Key, Change>, b: Breaker)
    requires forall k :: k in keys ==> k in changes
    ensures b in ChangedIn(keys, changes) <==>
            b.key in keys && changes[b.key].kind != Unchanged && b.kind == Some(changes[b.key].kind)
  {
    if keys != [] {
      var front, last := keys[..|keys| - 1], keys[|keys| - 1];
      assert keys == front + [last];
      ChangesListed(front, changes, b);
    }
  }

  lemma {:induction false} ChangesInOrder(keys: seq<Key>, changes: map<Key, Change>)
    requires AscendingKeys(keys) && forall k :: k in keys ==> k in changes
    ensures Ascending(ChangedIn(keys, changes))
  {
    if keys != [] {
      var front, last := keys[..|keys| - 1], keys[|keys| - 1];
      assert keys == front + [last];
      ChangesInOrder(front, changes);
      var before := ChangedIn(front, changes);
      forall i | 0 <= i < |before| ensures Before(before[i].key, last) {
        ChangesListed(front, changes, before[i]);
        var j :| 0 <= j < |front| && front[j] == before[i].key;
        assert keys[j] == before[i].key;
      }
    }
  }

  /** Which changes the evidence of a decision names, and which hashes it certifies. */
  lemma EvidenceSays(seal: SealInput, changes: map<Key, Change>, mode: Mode, b: Breaker, p: Proof)
    ensures var (d, listed) := (Decide(seal, changes, mode),
                                b.kind == if b.key in changes then Some(changes[b.key].kind) else None);
            var proven := p.key in seal.covered && p.hashFrom == p.hashTo == seal.covered[p.key];
            && d.seal == seal.id
            && match d.evidence
               case NoDiffs => seal.coversAll && d.verdict == Preserved
               case DocumentDiffs(all) =>
                 && seal.coversAll && d.verdict != Preserved && Ascending(all)
                 && (b in all <==> b.key in changes && changes[b.key].kind != Unchanged && listed)
               case AllEqual(verified) =>
                 !seal.coversAll && d.verdict == Preserved && (p in verified <==> proven)
               case Broken(changed, intact) =>
                 && !seal.coversAll && d.verdict != Preserved
                 && (b in changed <==> b.key in seal.covered && !Intact(seal.covered, changes, b.key) && listed)
                 && (p in intact <==> proven && Intact(seal.covered, changes, p.key))
  {
    if seal.coversAll {
      SortedKeysAscend(changes.Keys);
      ChangesListed(SortedKeys(changes.Keys), changes, b);
      ChangesInOrder(SortedKeys(changes.Keys), changes);
    } else {
      var keys := SortedKeys(seal.covered.Keys);
      BreakersListed(keys, seal.covered, changes, b);
      ProofsListed(keys, seal.covered, changes, p);
      NoBreakersIff(keys, seal.covered, changes);
    }
  }

  // ---- who is told ----

  predicate PersonLe(a: Person, b: Person) { LexLe(a.id, b.id) }

  lemma PersonsTotal()
    ensures Total(PersonLe)
  {
    forall a: Person, b: Person ensures PersonLe(a, b) || PersonLe(b, a) {
      LexConnected(a.id, b.id);
    }
    forall a: Person, b: Person | PersonLe(a, b) && PersonLe(b, a) ensures a == b {
      LexAntisymmetric(a.id, b.id);
    }
    forall a: Person, b: Person, c: Person | PersonLe(a, b) && PersonLe(b, c) ensures PersonLe(a, c) {
      LexTransitive(a.id, b.id, c.id);
    }
  }

  /** Whose seals fell. */
  function Fallen(decisions: seq<Decision>): set<Person> {
    set d | d in decisions && d.verdict == Invalidated :: d.reviewer
  }

  function ReviewersToNotify(decisions: seq<Decision>): (r: seq<Person>)
    ensures forall p :: p in r <==> p in Fallen(decisions)
    ensures Distinct(r) && forall i, j :: 0 <= i < j < |r| ==> LexLe(r[i].id, r[j].id)
  {
    PersonsTotal();
    SortSetSorted(Fallen(decisions), PersonLe);
    SortSet(Fallen(decisions), PersonLe)
  }

  ghost predicate Decided(seals: seq<SealInput>, changes: map<Key, Change>, mode: Mode, decisions: seq<Decision>) {
    && |decisions| == |seals|
    && forall i :: 0 <= i < |seals| ==> decisions[i] == Decide(seals[i], changes, mode)
  }

  lemma DecisionIsOf(seal: SealInput, changes: map<Key, Change>, mode: Mode)
    ensures Decide(seal, changes, mode).reviewer == seal.reviewer
    ensures mode == Auto ==> Decide(seal, changes, mode).verdict != Pending
    ensures mode == Coordinator ==> Decide(seal, changes, mode).verdict != Invalidated
  {
  }

  /** In auto mode a reviewer hears of it exactly when a seal of theirs was not kept;
      in coordinator mode nobody does before the plan is confirmed. */
  lemma WhoIsTold(seals: seq<SealInput>, changes: map<Key, Change>, mode: Mode, decisions: seq<Decision>, p: Person)
    requires Decided(seals, changes, mode, decisions)
    ensures p in ReviewersToNotify(decisions) <==>
            mode == Auto && exists i :: 0 <= i < |seals| && seals[i].reviewer == p && decisions[i].verdict != Preserved
  {
    forall i | 0 <= i < |seals|
      ensures decisions[i].reviewer == seals[i].reviewer
      ensures decisions[i].verdict == Invalidated <==> mode == Auto && decisions[i].verdict != Preserved
    {
      DecisionIsOf(seals[i], changes, mode);
    }
  }
}
