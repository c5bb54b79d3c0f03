/** Who decides about a seal, and when it is kept, in terms of versions and sections: what
    apply_invalidation of backend/reviews/services/seal_service.py records, over whole runs. */
module SealModes {
  import opened Sections
  import opened Comparison
  import opened Invalidation
  import opened Preservation
  import opened SectionStore
  import opened SealLedger

  // ---- who decides ----

  /** Text could be extracted from both versions. */
  predicate NativeBoth(l: Ledger, from: nat, to: nat) {
    from in l.versions && to in l.versions && l.versions[from].native && l.versions[to].native
  }

  /** The resolver decides on its own: both versions are native and the newer one is in auto mode. */
  predicate OnItsOwn(l: Ledger, from: nat, to: nat) {
    NativeBoth(l, from, to) && l.versions[to].mode == Auto
  }

  /** A seal that is not kept falls at once exactly when the resolver decides on its own, and waits
      for a person otherwise; no new record counts as confirmed. */
  lemma DecidedHow(strip: Stripper, l: Ledger, n: nat, k: RecordKey)
    requires Sound(l) && Can(l, Apply(n)) && k in Do(strip, l, Apply(n)).records && k !in l.records
    ensures k.seal in l.seals && k.to == n && IsActive(l.seals[k.seal]) && IsPrevious(l, l.seals[k.seal].version, n)
    ensures var (r, from) := (Do(strip, l, Apply(n)).records[k], l.seals[k.seal].version);
            && !r.byHand
            && (r.verdict == Invalidated ==> OnItsOwn(l, from, n))
            && (r.verdict == Pending ==> !OnItsOwn(l, from, n))
            && r.proposed in {Preserved, Invalidated} && (r.verdict != Pending ==> r.proposed == r.verdict)
  {
    assert k in Due(l, n);
    var s := l.seals[k.seal];
    var changes := ChangesOf(strip, KeyedAt(l, s.version), KeyedAt(l, n));
    DecisionIsOf(InputFor(l, k.seal, s), changes, ModeFor(l, s.version, n));
    ProposalIff(InputFor(l, k.seal, s), changes, ModeFor(l, s.version, n));
  }

  // ---- over whole runs ----

  /** A record says that a seal fell, or waits, as it should between these versions. */
  ghost predicate Fitting(l: Ledger, k: RecordKey)
    requires k in l.records && k.seal in l.seals
  {
    var (r, from) := (l.records[k], l.seals[k.seal].version);
    !r.byHand ==>
      && (r.verdict == Invalidated ==> OnItsOwn(l, from, k.to))
      && (r.verdict == Pending ==> !OnItsOwn(l, from, k.to))
  }

  ghost predicate IsReady(l: Ledger, n: nat) { n in l.versions && l.versions[n].ready }

  /** Seals and records are about analysed versions, and each record is fitting. */
  ghost predicate AllFitting(l: Ledger) {
    && (forall id :: id in l.seals ==> IsReady(l, l.seals[id].version))
    && (forall k :: k in l.records ==> k.seal in l.seals && IsReady(l, k.to) && Fitting(l, k))
  }

  /** An analysed version keeps its mode and its text for good. */
  ghost predicate SameVersions(l: Ledger, m: Ledger) {
    forall n :: IsReady(l, n) && n in m.versions ==>
      IsReady(m, n) && m.versions[n].native == l.versions[n].native && m.versions[n].mode == l.versions[n].mode
  }

  lemma VersionsStay(strip: Stripper, l: Ledger, e: Event)
    requires Sound(l) && Can(l, e)
    ensures SameVersions(l, Do(strip, l, e))
  {
  }

  lemma StaysFitting(l: Ledger, m: Ledger, k: RecordKey)
    requires k in l.records && k.seal in l.seals && IsReady(l, k.to) && IsReady(l, l.seals[k.seal].version)
    requires Fitting(l, k)
    requires k in m.records && k.seal in m.seals && m.seals[k.seal].version == l.seals[k.seal].version
    requires m.records[k] == l.records[k] || m.records[k].byHand
    requires SameVersions(l, m) && k.to in m.versions && m.seals[k.seal].version in m.versions
    ensures Fitting(m, k)
  {
  }

  lemma OldRecordFits(strip: Stripper, l: Ledger, e: Event, k: RecordKey)
    requires Sound(l) && Can(l, e) && AllFitting(l) && k in Do(strip, l, e).records && k in l.records
    ensures var m := Do(strip, l, e); k.seal in m.seals && IsReady(m, k.to) && Fitting(m, k)
  {
    var m := Do(strip, l, e);
    StaysSound(strip, l, e);
    VersionsStay(strip, l, e);
    OldRecordStays(strip, l, e, k);
    StaysFitting(l, m, k);
  }

  lemma OldRecordStays(strip: Stripper, l: Ledger, e: Event, k: RecordKey)
    requires Sound(l) && Can(l, e) && k in Do(strip, l, e).records && k in l.records
    ensures var m := Do(strip, l, e);
            && (m.records[k] == l.records[k] || m.records[k].byHand)
            && k.seal in m.seals && k.seal in l.seals && m.seals[k.seal].version == l.seals[k.seal].version
  {
  }

  lemma NewRecordFits(strip: Stripper, l: Ledger, e: Event, k: RecordKey)
    requires Sound(l) && Can(l, e) && AllFitting(l) && k in Do(strip, l, e).records && k !in l.records
    ensures var m := Do(strip, l, e); k.seal in m.seals && IsReady(m, k.to) && Fitting(m, k)
  {
    assert e.Apply?;
    DecidedHow(strip, l, e.n, k);
  }

  lemma SealsStayReady(strip: Stripper, l: Ledger, e: Event, id: nat)
    requires Sound(l) && Can(l, e) && AllFitting(l) && id in Do(strip, l, e).seals
    ensures IsReady(Do(strip, l, e), Do(strip, l, e).seals[id].version)
  {
  }

  lemma EventFits(strip: Stripper, l: Ledger, e: Event)
    requires Sound(l) && Can(l, e) && AllFitting(l)
    ensures AllFitting(Do(strip, l, e))
  {
    var m := Do(strip, l, e);
    forall id | id in m.seals ensures IsReady(m, m.seals[id].version) {
      SealsStayReady(strip, l, e, id);
    }
    forall k | k in m.records ensures k.seal in m.seals && IsReady(m, k.to) && Fitting(m, k) {
      if k in l.records { OldRecordFits(strip, l, e, k); } else { NewRecordFits(strip, l, e, k); }
    }
  }

  lemma {:induction false} RunFits(strip: Stripper, ledgers: seq<Ledger>, events: seq<Event>)
    requires Trace(strip, ledgers, events) && ledgers[0] == EMPTY
    ensures AllFitting(End(ledgers))
    decreases |events|
  {
    if events != [] {
      var n := |events| - 1;
      TraceFront(strip, ledgers, events);
      RunFits(strip, ledgers[..n + 1], events[..n]);
      EventFits(strip, ledgers[n], events[n]);
    }
  }

  /** Over every run: between versions of which one was scanned, or where the newer one is in
      coordinator mode, no seal falls unless a coordinator said so; and no seal waits for one
      between native versions in auto mode. */
  lemma ScannedNeedsAPerson(strip: Stripper, ledgers: seq<Ledger>, events: seq<Event>, k: RecordKey)
    requires Trace(strip, ledgers, events) && ledgers[0] == EMPTY && k in End(ledgers).records
    ensures var end := End(ledgers);
            && k.seal in end.seals && k.to in end.versions && end.seals[k.seal].version in end.versions
            && var (r, from) := (end.records[k], end.seals[k.seal].version);
               && (r.verdict == Invalidated && !r.byHand ==>
                     end.versions[from].native && end.versions[k.to].native && end.versions[k.to].mode == Auto)
               && (r.verdict == Pending && !r.byHand ==>
                     !end.versions[from].native || !end.versions[k.to].native || end.versions[k.to].mode == Coordinator)
  {
    RunFits(strip, ledgers, events);
  }

  // ---- what the plain events do ----

  /** An uploaded version has the mode given, and is not in use yet. */
  lemma UploadedWithMode(strip: Stripper, l: Ledger, n: nat, mode: Mode)
    requires Sound(l) && Can(l, Upload(n, mode))
    ensures var m := Do(strip, l, Upload(n, mode));
            n in m.versions && m.versions[n].mode == mode && !Usable(m, n) && m.versions - {n} == l.versions
  {
  }

  /** Whether it has text is found out when it is analysed; then it is in use, unless in the trash. */
  lemma AnalysedAsFound(strip: Stripper, l: Ledger, n: nat, native: bool, rows: map<SectionId, Row>,
                        snaps: map<SnapKey, Snap>)
    requires Sound(l) && Can(l, Analyse(n, native, rows, snaps))
    ensures var m := Do(strip, l, Analyse(n, native, rows, snaps));
            && n in m.versions && m.versions[n].native == native && m.versions[n].mode == l.versions[n].mode
            && (Usable(m, n) <==> !l.versions[n].trashed) && m.rows == rows && m.snaps == snaps
            && m.versions - {n} == l.versions - {n}
  {
  }

  /** Trashing takes a version out of use, and restoring undoes that. */
  lemma TrashedAndRestored(strip: Stripper, l: Ledger, n: nat)
    requires Sound(l) && Can(l, Trash(n))
    ensures var m := Do(strip, l, Trash(n));
            !Usable(m, n) && Can(m, Restore(n)) && Sound(m) && Do(strip, m, Restore(n)) == l
  {
    var m := Do(strip, l, Trash(n));
    StaysSound(strip, l, Trash(n));
    assert m.versions[n := m.versions[n].(trashed := false)] == l.versions;
  }

  /** A revoked seal is not valid anywhere, and everything else about it and the others stays. */
  lemma RevokedIsInvalid(strip: Stripper, l: Ledger, id: nat, n: nat)
    requires Sound(l) && Can(l, Revoke(id))
    ensures var m := Do(strip, l, Revoke(id));
            && id in m.seals && !ValidAt(m, id, n) && m.seals[id].(revoked := false) == l.seals[id]
            && m.seals - {id} == l.seals - {id} && m.records == l.records
  {
  }

  /** A confirmation is what the coordinator chose, by hand. */
  lemma ConfirmedAsChosen(strip: Stripper, l: Ledger, k: RecordKey, choice: Verdict)
    requires Sound(l) && Can(l, Confirm(k, choice))
    ensures var m := Do(strip, l, Confirm(k, choice));
            && l.records[k].verdict == Pending && choice != Pending
            && k in m.records && m.records[k].verdict == choice && m.records[k].byHand
            && m.records[k].proposed == l.records[k].proposed && m.records - {k} == l.records - {k}
  {
  }

  // ---- when a seal is kept ----

  /** The section is in both versions, with the same body and the same heading up to its number. */
  predicate StaysAs(strip: Stripper, l: Ledger, i: SectionId, from: nat, to: nat) {
    && SnapKey(from, i) in l.snaps && SnapKey(to, i) in l.snaps
    && l.snaps[SnapKey(from, i)].bodyHash == l.snaps[SnapKey(to, i)].bodyHash
    && strip(l.snaps[SnapKey(from, i)].heading) == strip(l.snaps[SnapKey(to, i)].heading)
  }

  /** Every section the seal is still on is in both versions as it was, with the body signed; for a
      seal on the document no section of either version is missing in the other or different. */
  ghost predicate Unharmed(strip: Stripper, l: Ledger, s: Seal, n: nat)
    requires RowsThere(l, s)
  {
    if s.coversAll then
      forall i: SectionId :: SnapKey(s.version, i) in l.snaps || SnapKey(n, i) in l.snaps ==>
        StaysAs(strip, l, i, s.version, n)
    else
      forall i :: i in s.covers ==>
        StaysAs(strip, l, i, s.version, n) && l.snaps[SnapKey(n, i)].bodyHash == s.signed[i]
  }

  lemma StaysByKey(strip: Stripper, l: Ledger, i: SectionId, from: nat, to: nat)
    requires Consistent(l) && i in l.rows
    ensures Stays(strip, KeyedAt(l, from), KeyedAt(l, to), l.rows[i].key) <==> StaysAs(strip, l, i, from, to)
  {
    KeyedAtHas(l, from, i);
    KeyedAtHas(l, to, i);
  }

  lemma CoveredHas(l: Ledger, s: Seal, i: SectionId)
    requires Consistent(l) && RowsThere(l, s) && i in s.covers
    ensures l.rows[i].key in CoveredNow(l, s) && CoveredNow(l, s)[l.rows[i].key] == s.signed[i]
  {
  }

  lemma HoldsIff(strip: Stripper, l: Ledger, s: Seal, n: nat)
    requires Consistent(l) && RowsThere(l, s) && !s.coversAll
    ensures Holds(strip, CoveredNow(l, s), KeyedAt(l, s.version), KeyedAt(l, n)) <==> Unharmed(strip, l, s, n)
  {
    var (covered, from, to) := (CoveredNow(l, s), KeyedAt(l, s.version), KeyedAt(l, n));
    forall i | i in s.covers
      ensures l.rows[i].key in covered && covered[l.rows[i].key] == s.signed[i]
      ensures Stays(strip, from, to, l.rows[i].key) <==> StaysAs(strip, l, i, s.version, n)
      ensures Stays(strip, from, to, l.rows[i].key) ==>
                to[l.rows[i].key].bodyHash == l.snaps[SnapKey(n, i)].bodyHash
    {
      CoveredHas(l, s, i);
      StaysByKey(strip, l, i, s.version, n);
      KeyedAtHas(l, n, i);
    }
    forall k | k in covered ensures exists i :: i in s.covers && l.rows[i].key == k {
    }
  }

  lemma SameDocumentIff(strip: Stripper, l: Ledger, s: Seal, n: nat)
    requires Consistent(l) && RowsThere(l, s) && s.coversAll
    ensures SameDocument(strip, KeyedAt(l, s.version), KeyedAt(l, n)) <==> Unharmed(strip, l, s, n)
  {
    var (from, to) := (KeyedAt(l, s.version), KeyedAt(l, n));
    forall i | i in l.rows
      ensures Stays(strip, from, to, l.rows[i].key) <==> StaysAs(strip, l, i, s.version, n)
      ensures l.rows[i].key in from <==> SnapKey(s.version, i) in l.snaps
      ensures l.rows[i].key in to <==> SnapKey(n, i) in l.snaps
    {
      StaysByKey(strip, l, i, s.version, n);
      KeyedAtHas(l, s.version, i);
      KeyedAtHas(l, n, i);
    }
    if Unharmed(strip, l, s, n) {
      forall k | k in from || k in to ensures Stays(strip, from, to, k) {
        var i :| i in l.rows && l.rows[i].key == k;
      }
    } else {
      var i: SectionId :| (SnapKey(s.version, i) in l.snaps || SnapKey(n, i) in l.snaps)
                          && !StaysAs(strip, l, i, s.version, n);
      assert i in l.rows && !Stays(strip, from, to, l.rows[i].key);
    }
  }

  /** A new record keeps the seal exactly when nothing of what it covers was harmed, whatever the
      sections' keys have become; the mode has no say in it. */
  lemma KeptExactlyIf(strip: Stripper, l: Ledger, n: nat, k: RecordKey)
    requires Sound(l) && Can(l, Apply(n)) && k in Do(strip, l, Apply(n)).records && k !in l.records
    ensures k.seal in l.seals && RowsThere(l, l.seals[k.seal])
    ensures Do(strip, l, Apply(n)).records[k].verdict == Preserved <==> Unharmed(strip, l, l.seals[k.seal], n)
  {
    assert k in Due(l, n);
    var s := l.seals[k.seal];
    var (input, mode) := (InputFor(l, k.seal, s), ModeFor(l, s.version, n));
    var (from, to) := (KeyedAt(l, s.version), KeyedAt(l, n));
    if s.coversAll {
      DocumentSealStepIff(strip, input, from, to, mode);
      SameDocumentIff(strip, l, s, n);
    } else {
      SectionSealStepIff(strip, input, from, to, mode);
      HoldsIff(strip, l, s, n);
    }
  }

  lemma SignedFromHere(l: Ledger, s: Seal)
    requires Consistent(l) && RowsThere(l, s) && StandsAt(l, s, s.version)
    ensures SignedFrom(CoveredNow(l, s), KeyedAt(l, s.version))
  {
    forall k | k in CoveredNow(l, s) ensures k in KeyedAt(l, s.version)
                                             && KeyedAt(l, s.version)[k].bodyHash == CoveredNow(l, s)[k]
    {
      var i := IdOf(l.rows, k);
      CoveredHas(l, s, i);
      KeyedAtHas(l, s.version, i);
    }
  }

  lemma BodiesByKey(l: Ledger, s: Seal, n: nat)
    requires Consistent(l) && RowsThere(l, s)
    ensures (forall k :: k in CoveredNow(l, s) ==>
               k in KeyedAt(l, n) && KeyedAt(l, n)[k].bodyHash == CoveredNow(l, s)[k])
            <==>
            forall i :: i in s.covers ==> SnapKey(n, i) in l.snaps && l.snaps[SnapKey(n, i)].bodyHash == s.signed[i]
  {
    forall i | i in s.covers
      ensures l.rows[i].key in CoveredNow(l, s) && CoveredNow(l, s)[l.rows[i].key] == s.signed[i]
      ensures l.rows[i].key in KeyedAt(l, n) <==> SnapKey(n, i) in l.snaps
      ensures SnapKey(n, i) in l.snaps ==> KeyedAt(l, n)[l.rows[i].key].bodyHash == l.snaps[SnapKey(n, i)].bodyHash
    {
      CoveredHas(l, s, i);
      KeyedAtHas(l, n, i);
    }
    forall k | k in CoveredNow(l, s) ensures exists i :: i in s.covers && l.rows[i].key == k {
    }
  }

  /** A coordinator is proposed to keep a seal on sections that waits exactly if every one of them
      is in the newer version with the body signed: only headings moved. */
  lemma ProposedExactlyIf(strip: Stripper, l: Ledger, n: nat, k: RecordKey)
    requires Sound(l) && Can(l, Apply(n)) && k in Do(strip, l, Apply(n)).records && k !in l.records
    requires k.seal in l.seals && !l.seals[k.seal].coversAll && StandsAt(l, l.seals[k.seal], l.seals[k.seal].version)
    requires Do(strip, l, Apply(n)).records[k].verdict == Pending
    ensures var s := l.seals[k.seal];
            Do(strip, l, Apply(n)).records[k].proposed == Preserved <==>
            forall i :: i in s.covers ==> SnapKey(n, i) in l.snaps && l.snaps[SnapKey(n, i)].bodyHash == s.signed[i]
  {
    assert k in Due(l, n);
    var s := l.seals[k.seal];
    var (input, from, to) := (InputFor(l, k.seal, s), KeyedAt(l, s.version), KeyedAt(l, n));
    DecisionIsOf(input, ChangesOf(strip, from, to), ModeFor(l, s.version, n));
    SignedFromHere(l, s);
    BodiesByKey(l, s, n);
    ProposalForComparison(strip, input, from, to);
  }

  // ---- what is signed, and what a purge leaves ----

  /** A new seal is put on exactly the sections of the version that were asked for, with the hashes
      they have there; on all of them if it covers the document. */
  lemma SealIsPutOn(strip: Stripper, l: Ledger, id: nat, reviewer: Person, n: nat, coversAll: bool, keys: set<Key>,
                    i: SectionId)
    requires Sound(l) && Can(l, CreateSeal(id, reviewer, n, coversAll, keys))
    ensures var m := Do(strip, l, CreateSeal(id, reviewer, n, coversAll, keys));
            && id in m.seals
            && var s := m.seals[id];
            && s.version == n && s.reviewer == reviewer && s.coversAll == coversAll && IsActive(s)
            && (i in s.covers <==> SnapKey(n, i) in l.snaps && (coversAll || l.rows[i].key in keys))
            && (i in s.signed <==> i in s.covers)
            && (i in s.covers ==> s.signed[i] == l.snaps[SnapKey(n, i)].bodyHash)
  {
    AtIff(l.snaps, n, i);
  }

  /** None of those asked for is left out, and there is at least one. */
  lemma SealFindsAll(strip: Stripper, l: Ledger, id: nat, reviewer: Person, n: nat, keys: set<Key>, k: Key)
    requires Sound(l) && Can(l, CreateSeal(id, reviewer, n, false, keys)) && k in keys
    ensures exists i :: i in Do(strip, l, CreateSeal(id, reviewer, n, false, keys)).seals[id].covers
                        && l.rows[i].key == k
  {
    var i := IdOf(l.rows, k);
    assert k in KeyedAt(l, n) && i in IdsAt(l.snaps, n);
    assert i in Chosen(l, n, false, keys);
  }

  /** A reviewer has at most one seal in force on a version. */
  ghost predicate OneSealEach(l: Ledger) {
    forall s, t :: s in l.seals && t in l.seals && IsActive(l.seals[s]) && IsActive(l.seals[t])
                   && l.seals[s].version == l.seals[t].version && l.seals[s].reviewer == l.seals[t].reviewer
      ==> s == t
  }

  /** Only a new seal can be one more; others stay on their version, or go, or are revoked. */
  ghost predicate SealsFrom(l: Ledger, m: Ledger) {
    forall s :: s in m.seals ==>
      && s in l.seals && m.seals[s].version == l.seals[s].version && m.seals[s].reviewer == l.seals[s].reviewer
      && (IsActive(m.seals[s]) ==> IsActive(l.seals[s]))
  }

  lemma OtherEventsAddNoSeal(strip: Stripper, l: Ledger, e: Event)
    requires Sound(l) && Can(l, e) && !e.CreateSeal?
    ensures SealsFrom(l, Do(strip, l, e))
  {
  }

  lemma EventKeepsOneEach(strip: Stripper, l: Ledger, e: Event)
    requires Sound(l) && Can(l, e) && OneSealEach(l)
    ensures OneSealEach(Do(strip, l, e))
  {
    if !e.CreateSeal? { OtherEventsAddNoSeal(strip, l, e); }
  }

  /** Over every run. */
  lemma {:induction false} OneSealInForce(strip: Stripper, ledgers: seq<Ledger>, events: seq<Event>)
    requires Trace(strip, ledgers, events) && ledgers[0] == EMPTY
    ensures OneSealEach(End(ledgers))
    decreases |events|
  {
    if events != [] {
      var n := |events| - 1;
      TraceFront(strip, ledgers, events);
      OneSealInForce(strip, ledgers[..n + 1], events[..n]);
      EventKeepsOneEach(strip, ledgers[n], events[n]);
    }
  }

  /** A purged version takes with it the sections created in it, everywhere, its seals and the
      records of either side; a section it retired is in use again, and nothing else changes. */
  lemma PurgeLeaves(strip: Stripper, l: Ledger, n: nat, i: SectionId, k: SnapKey, id: nat, r: RecordKey)
    requires Sound(l) && Can(l, Purge(n))
    ensures var m := Do(strip, l, Purge(n));
            && m.versions == l.versions - {n}
            && (i in m.rows <==> i in l.rows && l.rows[i].created != n)
            && (i in m.rows ==>
                  m.rows[i] == l.rows[i].(retired := if l.rows[i].retired == Some(n) then None else l.rows[i].retired))
            && (k in m.snaps <==> k in l.snaps && k.version != n && l.rows[k.section].created != n)
            && (k in m.snaps ==> m.snaps[k] == l.snaps[k])
            && (id in m.seals <==> id in l.seals && l.seals[id].version != n)
            && (id in m.seals ==> m.seals[id] == l.seals[id].(covers := m.seals[id].covers)
                                  && (i in m.seals[id].covers <==> i in l.seals[id].covers && l.rows[i].created != n))
            && (r in m.records <==> r in l.records && r.to != n && l.seals[r.seal].version != n)
            && (r in m.records ==> m.records[r] == l.records[r])
  {
    if id in l.seals { assert RowsThere(l, l.seals[id]); }
  }
}
