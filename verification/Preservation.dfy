/** What the comparison and the resolver guarantee together: over any number of versions,
    a seal that the resolver kept at every step still stands for the content that was signed. */
module Preservation {
  import opened Sections
  import opened Comparison
  import opened Invalidation

  /** Same body by hash, same heading up to its number. */
  predicate SameSection(strip: Stripper, a: Snapshot, b: Snapshot) {
    a.bodyHash == b.bodyHash && strip(a.heading) == strip(b.heading)
  }

  predicate Stays(strip: Stripper, from: map<Key, Snapshot>, to: map<Key, Snapshot>, k: Key) {
    k in from && k in to && SameSection(strip, from[k], to[k])
  }

  /** Two versions with the same sections in every respect that a comparison sees. */
  ghost predicate SameDocument(strip: Stripper, from: map<Key, Snapshot>, to: map<Key, Snapshot>) {
    from.Keys == to.Keys && forall k :: k in from ==> SameSection(strip, from[k], to[k])
  }

  /** The signed hashes are those of this version. */
  ghost predicate SignedFrom(covered: map<Key, Hash>, v: map<Key, Snapshot>) {
    forall k :: k in covered ==> k in v && v[k].bodyHash == covered[k]
  }

  /** Every covered section is in both versions with the same heading up to its number, and
      carries the signed hash in the newer one. */
  ghost predicate Holds(strip: Stripper, covered: map<Key, Hash>, from: map<Key, Snapshot>, to: map<Key, Snapshot>) {
    forall k :: k in covered ==> Stays(strip, from, to, k) && to[k].bodyHash == covered[k]
  }

  ghost function Kept(strip: Stripper, seal: SealInput, from: map<Key, Snapshot>, to: map<Key, Snapshot>,
                      mode: Mode): Decision
  {
    Decide(seal, ChangesOf(strip, from, to), mode)
  }

  // ---- one step ----

  /** When a seal on sections is kept. */
  lemma SectionSealStepIff(strip: Stripper, seal: SealInput, from: map<Key, Snapshot>, to: map<Key, Snapshot>,
                           mode: Mode)
    requires !seal.coversAll
    ensures Kept(strip, seal, from, to, mode).verdict == Preserved <==> Holds(strip, seal.covered, from, to)
  {
    PreservedIff(seal, ChangesOf(strip, from, to), mode);
  }

  lemma NothingChangedIff(strip: Stripper, from: map<Key, Snapshot>, to: map<Key, Snapshot>)
    ensures (forall k :: k in ChangesOf(strip, from, to) ==> ChangesOf(strip, from, to)[k].kind == Unchanged)
            <==> SameDocument(strip, from, to)
  {
    var changes := ChangesOf(strip, from, to);
    forall k | k in changes ensures changes[k].kind == Unchanged <==> Stays(strip, from, to, k) {
    }
    if forall k :: k in changes ==> changes[k].kind == Unchanged {
      forall k | k in from || k in to ensures Stays(strip, from, to, k) {
        assert k in changes;
      }
    }
  }

  /** A seal on the whole document is kept exactly when both versions have the same sections,
      all with the same body hash and the same heading up to its number. */
  lemma DocumentSealStepIff(strip: Stripper, seal: SealInput, from: map<Key, Snapshot>, to: map<Key, Snapshot>,
                            mode: Mode)
    requires seal.coversAll
    ensures Kept(strip, seal, from, to, mode).verdict == Preserved <==> SameDocument(strip, from, to)
  {
    PreservedIff(seal, ChangesOf(strip, from, to), mode);
    NothingChangedIff(strip, from, to);
  }

  /** What the coordinator is proposed for a seal signed at the older version: to keep it
      exactly when every covered section is still there with the signed body. */
  lemma ProposalForComparison(strip: Stripper, seal: SealInput, from: map<Key, Snapshot>, to: map<Key, Snapshot>)
    requires !seal.coversAll && SignedFrom(seal.covered, from)
    requires Kept(strip, seal, from, to, Coordinator).verdict == Pending
    ensures Kept(strip, seal, from, to, Coordinator).proposed == Preserved <==>
            forall k :: k in seal.covered ==> k in to && to[k].bodyHash == seal.covered[k]
  {
    var changes := ChangesOf(strip, from, to);
    ProposedKeptMeansBodiesKept(seal, changes);
    forall k | k in seal.covered
      ensures BodyKept(seal.covered, changes, k) <==> k in to && to[k].bodyHash == seal.covered[k]
    {
    }
  }

  // ---- any number of steps ----

  /** At every step from one version to the next the resolver itself kept the seal. */
  ghost predicate KeptThroughout(strip: Stripper, seal: SealInput, versions: seq<map<Key, Snapshot>>,
                                 modes: seq<Mode>)
  {
    && |modes| + 1 == |versions|
    && forall i :: 0 <= i < |modes| ==> Kept(strip, seal, versions[i], versions[i + 1], modes[i]).verdict == Preserved
  }

  lemma {:induction false} HoldsRun(strip: Stripper, covered: map<Key, Hash>, versions: seq<map<Key, Snapshot>>, n: nat)
    requires 0 < n < |versions|
    requires forall i :: 0 <= i < n ==> Holds(strip, covered, versions[i], versions[i + 1])
    ensures Holds(strip, covered, versions[0], versions[n])
  {
    if n > 1 {
      HoldsRun(strip, covered, versions, n - 1);
    }
  }

  /** False-preserve is never: a seal kept at every step stands at the last version for
      exactly the signed bodies, and comparing the sealed version with the last one directly
      keeps it too. */
  lemma SectionSealRun(strip: Stripper, seal: SealInput, versions: seq<map<Key, Snapshot>>, modes: seq<Mode>,
                       mode: Mode)
    requires !seal.coversAll && KeptThroughout(strip, seal, versions, modes) && |modes| > 0
    ensures Holds(strip, seal.covered, versions[0], versions[|modes|])
    ensures Kept(strip, seal, versions[0], versions[|modes|], mode).verdict == Preserved
  {
    forall i | 0 <= i < |modes| ensures Holds(strip, seal.covered, versions[i], versions[i + 1]) {
      SectionSealStepIff(strip, seal, versions[i], versions[i + 1], modes[i]);
    }
    HoldsRun(strip, seal.covered, versions, |modes|);
    SectionSealStepIff(strip, seal, versions[0], versions[|modes|], mode);
  }

  /** The same for a seal on the whole document: no section came, went or changed. */
  lemma DocumentSealRun(strip: Stripper, seal: SealInput, versions: seq<map<Key, Snapshot>>, modes: seq<Mode>,
                        mode: Mode)
    requires seal.coversAll && KeptThroughout(strip, seal, versions, modes) && |modes| > 0
    ensures SameDocument(strip, versions[0], versions[|modes|])
    ensures Kept(strip, seal, versions[0], versions[|modes|], mode).verdict == Preserved
  {
    forall i | 0 <= i < |modes| ensures SameDocument(strip, versions[i], versions[i + 1]) {
      DocumentSealStepIff(strip, seal, versions[i], versions[i + 1], modes[i]);
    }
    SameRun(strip, versions, |modes|);
    DocumentSealStepIff(strip, seal, versions[0], versions[|modes|], mode);
  }

  lemma {:induction false} SameRun(strip: Stripper, versions: seq<map<Key, Snapshot>>, n: nat)
    requires 0 < n < |versions|
    requires forall i :: 0 <= i < n ==> SameDocument(strip, versions[i], versions[i + 1])
    ensures SameDocument(strip, versions[0], versions[n])
  {
    if n > 1 {
      SameRun(strip, versions, n - 1);
    }
  }

  /** The other way round it is not so: content that changes and comes back cuts the chain,
      although comparing the two ends directly would keep the seal. */
  lemma ThereAndBack(strip: Stripper, k: Key, s: Snapshot, changed: Hash, mode: Mode)
    requires changed != s.bodyHash
    ensures var (a, b) := (map[k := s], map[k := s.(bodyHash := changed)]);
            var seal := SealInput(0, Person(""), false, map[k := s.bodyHash]);
            && Kept(strip, seal, a, a, mode).verdict == Preserved
            && !KeptThroughout(strip, seal, [a, b, a], [mode, mode])
  {
    var (a, b) := (map[k := s], map[k := s.(bodyHash := changed)]);
    var seal := SealInput(0, Person(""), false, map[k := s.bodyHash]);
    SectionSealStepIff(strip, seal, a, a, mode);
    SectionSealStepIff(strip, seal, a, b, mode);
    assert k in seal.covered && b[k].bodyHash != seal.covered[k];
    assert [a, b, a][0] == a && [a, b, a][1] == b && [mode, mode][0] == mode;
  }
}
