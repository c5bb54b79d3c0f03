/** The life of seals in one document: versions are uploaded and analysed, seals are placed,
    every new version decides about the seals of the one before it (seal_service.py under
    backend/reviews/services), plans are confirmed, versions are trashed and purged. */
module SealLedger {
  import opened Sections
  import opened Comparison
  import opened Invalidation
  import opened Preservation
  import opened SectionStore

  /** `signed` is the content of the signature and never changes; `covers` are the
      SealSection rows that are still there. */
  datatype Seal = Seal(version: nat, reviewer: Person, coversAll: bool, revoked: bool,
                       signed: map<SectionId, Hash>, covers: set<SectionId>)

  datatype RecordKey = RecordKey(seal: nat, to: nat)

  /** A SealValidityRecord; `byHand` when a coordinator confirmed it. */
  datatype Record = Record(verdict: Verdict, proposed: Verdict, byHand: bool)

  datatype Version = Version(ready: bool, trashed: bool, mode: Mode, native: bool)

  datatype Ledger = Ledger(rows: map<SectionId, Row>, snaps: map<SnapKey, Snap>, versions: map<nat, Version>,
                           seals: map<nat, Seal>, records: map<RecordKey, Record>)

  const EMPTY := Ledger(map[], map[], map[], map[], map[])

  // ---- what the tables say ----

  function IdsAt(snaps: map<SnapKey, Snap>, n: nat): set<SectionId> {
    set k | k in snaps && k.version == n :: k.section
  }

  lemma AtIff(snaps: map<SnapKey, Snap>, n: nat, i: SectionId)
    ensures i in IdsAt(snaps, n) <==> SnapKey(n, i) in snaps
  {
  }

  predicate Usable(l: Ledger, n: nat) {
    n in l.versions && l.versions[n].ready && !l.versions[n].trashed
  }

  ghost predicate Consistent(l: Ledger) {
    UniqueKeys(l.rows) && forall k :: k in l.snaps ==> k.section in l.rows
  }

  function View(l: Ledger, n: nat, i: SectionId): Snapshot
    requires SnapKey(n, i) in l.snaps && i in l.rows
  {
    var s := l.snaps[SnapKey(n, i)];
    Snapshot(l.rows[i].key, s.heading, s.bodyHash, s.body, s.order)
  }

  /** A version's snapshots under the keys that their sections have today. */
  function KeyedAt(l: Ledger, n: nat): map<Key, Snapshot>
    requires Consistent(l)
  {
    map k | k in KeysOf(l.rows, IdsAt(l.snaps, n)) :: View(l, n, IdOf(l.rows, k))
  }

  predicate RowsThere(l: Ledger, s: Seal) {
    forall i :: i in s.covers ==> i in l.rows && i in s.signed
  }

  /** `{cover.section.stable_key: cover.body_hash}`. */
  function CoveredNow(l: Ledger, s: Seal): map<Key, Hash>
    requires Consistent(l) && RowsThere(l, s)
  {
    map k | k in KeysOf(l.rows, s.covers) :: s.signed[IdOf(l.rows, k)]
  }

  /** The sections signed are all in version `n` with the signed bodies; for a seal on the
      document there are no others. */
  ghost predicate StandsAt(l: Ledger, s: Seal, n: nat) {
    && (forall i :: i in s.signed ==> SnapKey(n, i) in l.snaps && l.snaps[SnapKey(n, i)].bodyHash == s.signed[i])
    && (s.coversAll ==> forall i :: i in IdsAt(l.snaps, n) ==> i in s.signed)
  }

  // ---- one section, one key ----

  lemma KeyedAtHas(l: Ledger, n: nat, i: SectionId)
    requires Consistent(l) && i in l.rows
    ensures l.rows[i].key in KeyedAt(l, n) <==> SnapKey(n, i) in l.snaps
    ensures SnapKey(n, i) in l.snaps ==> KeyedAt(l, n)[l.rows[i].key] == View(l, n, i)
  {
  }

  // ---- the decision about one seal ----

  function InputFor(l: Ledger, id: nat, s: Seal): SealInput
    requires Consistent(l) && RowsThere(l, s)
  {
    SealInput(id, s.reviewer, s.coversAll, CoveredNow(l, s))
  }

  /** The newer version's mode, unless either version was scanned. */
  function ModeFor(l: Ledger, from: nat, to: nat): Mode
    requires from in l.versions && to in l.versions
  {
    if l.versions[from].native && l.versions[to].native then l.versions[to].mode else Coordinator
  }

  ghost function DecisionFor(strip: Stripper, l: Ledger, id: nat, s: Seal, to: nat): Decision
    requires Consistent(l) && RowsThere(l, s) && s.version in l.versions && to in l.versions
  {
    Kept(strip, InputFor(l, id, s), KeyedAt(l, s.version), KeyedAt(l, to), ModeFor(l, s.version, to))
  }

  ghost predicate Complete(s: Seal) { s.covers == s.signed.Keys }

  /** What the resolver keeps still stands: for a seal on sections. */
  lemma KeptSectionsStand(strip: Stripper, l: Ledger, id: nat, s: Seal, to: nat)
    requires Consistent(l) && RowsThere(l, s) && s.version in l.versions && to in l.versions
    requires !s.coversAll && Complete(s) && DecisionFor(strip, l, id, s, to).verdict == Preserved
    ensures StandsAt(l, s, to)
  {
    SectionSealStepIff(strip, InputFor(l, id, s), KeyedAt(l, s.version), KeyedAt(l, to), ModeFor(l, s.version, to));
    HoldingStands(strip, l, s, to);
  }

  lemma HoldingStands(strip: Stripper, l: Ledger, s: Seal, to: nat)
    requires Consistent(l) && RowsThere(l, s) && !s.coversAll && Complete(s)
    requires Holds(strip, CoveredNow(l, s), KeyedAt(l, s.version), KeyedAt(l, to))
    ensures StandsAt(l, s, to)
  {
    forall i | i in s.signed
      ensures SnapKey(to, i) in l.snaps && l.snaps[SnapKey(to, i)].bodyHash == s.signed[i]
    {
      assert i in s.covers;
      KeyedAtHas(l, to, i);
    }
  }

  /** And for a seal on the document. */
  lemma KeptDocumentStands(strip: Stripper, l: Ledger, id: nat, s: Seal, to: nat)
    requires Consistent(l) && RowsThere(l, s) && s.version in l.versions && to in l.versions
    requires s.coversAll && Complete(s) && StandsAt(l, s, s.version)
    requires DecisionFor(strip, l, id, s, to).verdict == Preserved
    ensures StandsAt(l, s, to)
  {
    DocumentSealStepIff(strip, InputFor(l, id, s), KeyedAt(l, s.version), KeyedAt(l, to), ModeFor(l, s.version, to));
    SameDocumentStands(strip, l, s, to);
  }

  lemma SameDocumentStands(strip: Stripper, l: Ledger, s: Seal, to: nat)
    requires Consistent(l) && RowsThere(l, s) && s.coversAll && Complete(s) && StandsAt(l, s, s.version)
    requires SameDocument(strip, KeyedAt(l, s.version), KeyedAt(l, to))
    ensures StandsAt(l, s, to)
  {
    forall i | i in s.signed
      ensures SnapKey(to, i) in l.snaps && l.snaps[SnapKey(to, i)].bodyHash == s.signed[i]
    {
      assert i in s.covers;
      KeyedAtHas(l, s.version, i);
      KeyedAtHas(l, to, i);
    }
    forall i | i in IdsAt(l.snaps, to) ensures i in s.signed {
      assert SnapKey(to, i) in l.snaps;
      KeyedAtHas(l, s.version, i);
      KeyedAtHas(l, to, i);
      assert i in IdsAt(l.snaps, s.version);
    }
  }

  /** What the resolver keeps on its own stands: every signed section is in the newer version
      with the signed body. */
  lemma KeptStands(strip: Stripper, l: Ledger, id: nat, s: Seal, to: nat)
    requires Consistent(l) && RowsThere(l, s) && s.version in l.versions && to in l.versions
    requires Complete(s) && StandsAt(l, s, s.version)
    requires DecisionFor(strip, l, id, s, to).verdict == Preserved
    ensures StandsAt(l, s, to)
  {
    if s.coversAll {
      KeptDocumentStands(strip, l, id, s, to);
    } else {
      KeptSectionsStand(strip, l, id, s, to);
    }
  }

  // ---- events ----

  datatype Event =
    | Upload(n: nat, mode: Mode)
    | Analyse(n: nat, native: bool, rows: map<SectionId, Row>, snaps: map<SnapKey, Snap>)
    | Apply(n: nat)
    | CreateSeal(id: nat, reviewer: Person, n: nat, coversAll: bool, keys: set<Key>)
    | Revoke(id: nat)
    | Confirm(record: RecordKey, choice: Verdict)
    | Trash(n: nat)
    | Restore(n: nat)
    | Purge(n: nat)

  /** What storing an analysis of version `n` does to the tables: it writes the snapshots of
      that version and no others, drops no section, and new sections are created in `n`. */
  ghost predicate Analysed(l: Ledger, n: nat, rows: map<SectionId, Row>, snaps: map<SnapKey, Snap>) {
    && UniqueKeys(rows)
    && (forall i :: i in l.rows ==> i in rows && rows[i].created == l.rows[i].created)
    && (forall i :: i in rows && i !in l.rows ==> rows[i].created == n)
    && (forall k :: k in snaps ==> k.section in rows)
    && (forall k :: k in l.snaps ==> k in snaps && snaps[k] == l.snaps[k])
    && (forall k :: k in snaps && k !in l.snaps ==> k.version == n)
  }

  /** The version a new one is compared with: the last usable one before it. */
  predicate IsPrevious(l: Ledger, m: nat, n: nat) {
    m < n && Usable(l, m) && forall k :: k in l.versions && m < k < n ==> !Usable(l, k)
  }

  predicate IsActive(s: Seal) { !s.revoked }

  /** The sections a new seal is put on. */
  function Chosen(l: Ledger, n: nat, coversAll: bool, keys: set<Key>): set<SectionId>
    requires Consistent(l)
  {
    set i | i in IdsAt(l.snaps, n) && i in l.rows && (coversAll || l.rows[i].key in keys)
  }

  /** `create_seal` signs the hashes that the version carries. */
  function NewSeal(l: Ledger, reviewer: Person, n: nat, coversAll: bool, keys: set<Key>): Seal
    requires Consistent(l)
  {
    var ids := Chosen(l, n, coversAll, keys);
    Seal(n, reviewer, coversAll, false, map i | i in ids :: l.snaps[SnapKey(n, i)].bodyHash, ids)
  }

  ghost predicate Can(l: Ledger, e: Event) {
    && Consistent(l)
    && match e
       case Upload(n, _) => forall k :: k in l.versions ==> k < n
       case Analyse(n, _, rows, snaps) => n in l.versions && !l.versions[n].ready && Analysed(l, n, rows, snaps)
       case Apply(n) => Usable(l, n) && exists m :: IsPrevious(l, m, n)
       case CreateSeal(id, reviewer, n, coversAll, keys) =>
         && id !in l.seals && Usable(l, n)
         && (forall s :: s in l.seals ==>
               !(l.seals[s].version == n && l.seals[s].reviewer == reviewer && IsActive(l.seals[s])))
         && (coversAll || (keys != {} && forall k :: k in keys ==> k in KeyedAt(l, n)))
       case Revoke(id) => id in l.seals && IsActive(l.seals[id])
       case Confirm(record, choice) =>
         record in l.records && l.records[record].verdict == Pending && choice in {Preserved, Invalidated}
       case Trash(n) => n in l.versions && !l.versions[n].trashed
       case Restore(n) => n in l.versions && l.versions[n].trashed
       case Purge(n) => n in l.versions && l.versions[n].trashed
  }

  /** The seals decided about when `n` is compared with the version before it. */
  ghost predicate Concerned(l: Ledger, id: nat, n: nat) {
    id in l.seals && IsActive(l.seals[id]) && IsPrevious(l, l.seals[id].version, n)
  }

  ghost function Due(l: Ledger, n: nat): set<RecordKey> {
    set id | id in l.seals && Concerned(l, id, n) :: RecordKey(id, n)
  }

  ghost function RecordFor(strip: Stripper, l: Ledger, id: nat, n: nat): Record
    requires Consistent(l) && id in l.seals && RowsThere(l, l.seals[id])
    requires l.seals[id].version in l.versions && n in l.versions
  {
    var d := DecisionFor(strip, l, id, l.seals[id], n);
    Record(d.verdict, d.proposed, false)
  }

  /** `get_or_create`: a decision once recorded is never written again. */
  ghost function RecordsAfter(strip: Stripper, l: Ledger, n: nat): map<RecordKey, Record>
    requires Sound(l) && n in l.versions
  {
    map k | k in l.records.Keys + Due(l, n) ::
      if k in l.records then l.records[k] else RecordFor(strip, l, k.seal, n)
  }

  /** The tables refer to rows that are there. */
  ghost predicate Sound(l: Ledger) {
    && Consistent(l)
    && (forall id :: id in l.seals ==> RowsThere(l, l.seals[id]) && l.seals[id].version in l.versions)
    && (forall k :: k in l.records ==> k.seal in l.seals && k.to in l.versions && l.seals[k.seal].version < k.to)
  }

  /** Deleting a version deletes the sections created in it, and with those their snapshots in
      every other version and their rows under every seal. */
  function PurgeRows(rows: map<SectionId, Row>, n: nat): map<SectionId, Row> {
    map i | i in rows && rows[i].created != n ::
      if rows[i].retired == Some(n) then rows[i].(retired := None) else rows[i]
  }

  function PurgeSnaps(l: Ledger, n: nat): map<SnapKey, Snap> {
    map k | k in l.snaps && k.version != n && k.section in l.rows && l.rows[k.section].created != n :: l.snaps[k]
  }

  function PurgeSeal(l: Ledger, s: Seal, n: nat): Seal {
    s.(covers := set i | i in s.covers && i in l.rows && l.rows[i].created != n)
  }

  function PurgeSeals(l: Ledger, n: nat): map<nat, Seal> {
    map id | id in l.seals && l.seals[id].version != n :: PurgeSeal(l, l.seals[id], n)
  }

  function PurgeRecords(l: Ledger, n: nat): map<RecordKey, Record> {
    map k | k in l.records && k.to != n && k.seal in l.seals && l.seals[k.seal].version != n :: l.records[k]
  }

  ghost function Do(strip: Stripper, l: Ledger, e: Event): Ledger
    requires Sound(l) && Can(l, e)
  {
    match e
    case Upload(n, mode) => l.(versions := l.versions[n := Version(false, false, mode, true)])
    case Analyse(n, native, rows, snaps) =>
      l.(rows := rows, snaps := snaps, versions := l.versions[n := l.versions[n].(ready := true, native := native)])
    case Apply(n) => l.(records := RecordsAfter(strip, l, n))
    case CreateSeal(id, reviewer, n, coversAll, keys) =>
      l.(seals := l.seals[id := NewSeal(l, reviewer, n, coversAll, keys)])
    case Revoke(id) => l.(seals := l.seals[id := l.seals[id].(revoked := true)])
    case Confirm(record, choice) =>
      l.(records := l.records[record := l.records[record].(verdict := choice, byHand := true)])
    case Trash(n) => l.(versions := l.versions[n := l.versions[n].(trashed := true)])
    case Restore(n) => l.(versions := l.versions[n := l.versions[n].(trashed := false)])
    case Purge(n) =>
      Ledger(PurgeRows(l.rows, n), PurgeSnaps(l, n), l.versions - {n}, PurgeSeals(l, n), PurgeRecords(l, n))
  }

  // ---- what every event keeps ----

  /** A seal is put where it stands, and while it is not revoked its rows are those signed. */
  ghost predicate SealGood(l: Ledger, s: Seal) {
    && s.version in l.versions && l.versions[s.version].ready
    && (IsActive(s) ==> Complete(s) && StandsAt(l, s, s.version))
  }

  /** What the resolver kept stands. */
  ghost predicate RecordGood(l: Ledger, k: RecordKey) {
    && k in l.records && k.seal in l.seals && k.to in l.versions && l.versions[k.to].ready
    && (IsActive(l.seals[k.seal]) && l.records[k].verdict == Preserved && !l.records[k].byHand ==>
          StandsAt(l, l.seals[k.seal], k.to))
  }

  ghost predicate Inv(l: Ledger) {
    && Sound(l)
    && (forall id :: id in l.seals ==> SealGood(l, l.seals[id]))
    && (forall k :: k in l.records ==> RecordGood(l, k))
    && (forall k :: k in l.snaps ==> k.version in l.versions && l.versions[k.version].ready)
  }

  /** No section that a seal in force was put on was created in the version to be purged. */
  ghost predicate Harmless(l: Ledger, n: nat) {
    forall id, i ::
      (id in l.seals && IsActive(l.seals[id]) && l.seals[id].version != n && i in l.seals[id].signed && i in l.rows)
      ==> l.rows[i].created != n
  }

  /** Every event leaves references to rows that are there. */
  lemma StaysSound(strip: Stripper, l: Ledger, e: Event)
    requires Sound(l) && Can(l, e)
    ensures Sound(Do(strip, l, e))
  {
    match e
    case Purge(_) => PurgeStaysSound(strip, l, e);
    case Apply(_) => RecordsSound(l, Do(strip, l, e));
    case CreateSeal(_, _, _, _, _) => CreateSealStaysSound(strip, l, e);
    case Analyse(_, _, _, _) => AnalyseStaysSound(strip, l, e);
    case _ =>
  }

  lemma AnalyseStaysSound(strip: Stripper, l: Ledger, e: Event)
    requires Sound(l) && e.Analyse? && Can(l, e)
    ensures Sound(Do(strip, l, e))
  {
    var m := Do(strip, l, e);
    forall id | id in m.seals ensures RowsThere(m, m.seals[id]) {
      assert RowsThere(l, l.seals[id]);
    }
  }

  lemma CreateSealStaysSound(strip: Stripper, l: Ledger, e: Event)
    requires Sound(l) && e.CreateSeal? && Can(l, e)
    ensures Sound(Do(strip, l, e))
  {
    NewSealRows(l, e.reviewer, e.n, e.coversAll, e.keys);
    OneMoreSeal(l, Do(strip, l, e), e.id, NewSeal(l, e.reviewer, e.n, e.coversAll, e.keys));
  }

  lemma OneMoreSeal(l: Ledger, m: Ledger, id: nat, s: Seal)
    requires Sound(l) && id !in l.seals && m == l.(seals := l.seals[id := s])
    requires RowsThere(l, s) && s.version in l.versions
    ensures Sound(m)
  {
    forall x | x in m.seals ensures RowsThere(m, m.seals[x]) {
      if x != id { assert RowsThere(l, l.seals[x]); }
    }
  }

  lemma PurgeStaysSound(strip: Stripper, l: Ledger, e: Event)
    requires Sound(l) && e.Purge? && Can(l, e)
    ensures Sound(Do(strip, l, e))
  {
    var m := Do(strip, l, e);
    forall id | id in m.seals ensures RowsThere(m, m.seals[id]) {
      assert RowsThere(l, l.seals[id]);
    }
  }

  lemma RecordsSound(l: Ledger, m: Ledger)
    requires Sound(l) && m == l.(records := m.records)
    requires forall k :: k in m.records ==> k.seal in l.seals && k.to in l.versions && l.seals[k.seal].version < k.to
    ensures Sound(m)
  {
  }

  lemma NewSealRows(l: Ledger, reviewer: Person, n: nat, coversAll: bool, keys: set<Key>)
    requires Consistent(l)
    ensures var s := NewSeal(l, reviewer, n, coversAll, keys);
            Complete(s) && RowsThere(l, s)
  {
    assert NewSeal(l, reviewer, n, coversAll, keys).signed.Keys == Chosen(l, n, coversAll, keys);
  }

  /** The snapshots of `n` are the same in both ledgers. */
  ghost predicate SameAt(l: Ledger, m: Ledger, n: nat) {
    forall i: SectionId :: (SnapKey(n, i) in l.snaps <==> SnapKey(n, i) in m.snaps)
                && (SnapKey(n, i) in l.snaps ==> l.snaps[SnapKey(n, i)] == m.snaps[SnapKey(n, i)])
  }

  lemma StandsStill(l: Ledger, m: Ledger, s: Seal, n: nat)
    requires StandsAt(l, s, n) && SameAt(l, m, n)
    ensures StandsAt(m, s, n)
  {
  }

  /** Nothing about sections, snapshots, seals or records changed, and no version became unready. */
  lemma VersionsOnly(l: Ledger, m: Ledger)
    requires Inv(l) && Sound(m) && m == l.(versions := m.versions)
    requires forall n :: n in l.versions ==> n in m.versions && m.versions[n].ready == l.versions[n].ready
    ensures Inv(m)
  {
    forall id | id in m.seals ensures SealGood(m, m.seals[id]) {
      assert SealGood(l, l.seals[id]);
    }
    forall k | k in m.records ensures RecordGood(m, k) {
      assert RecordGood(l, k);
    }
  }

  lemma AnalyseKeeps(strip: Stripper, l: Ledger, e: Event)
    requires Inv(l) && e.Analyse? && Can(l, e)
    ensures Inv(Do(strip, l, e))
  {
    var m := Do(strip, l, e);
    StaysSound(strip, l, e);
    forall n | n in l.versions && l.versions[n].ready ensures SameAt(l, m, n) {
    }
    forall id | id in m.seals ensures SealGood(m, m.seals[id]) {
      assert SealGood(l, l.seals[id]);
      if IsActive(l.seals[id]) { StandsStill(l, m, m.seals[id], m.seals[id].version); }
    }
    forall k | k in m.records ensures RecordGood(m, k) {
      AnalyseKeepsRecord(l, m, k);
    }
  }

  lemma AnalyseKeepsRecord(l: Ledger, m: Ledger, k: RecordKey)
    requires k in l.records && RecordGood(l, k) && SameAt(l, m, k.to)
    requires m.seals == l.seals && m.records == l.records && k.to in m.versions && m.versions[k.to].ready
    ensures RecordGood(m, k)
  {
    if IsActive(m.seals[k.seal]) && m.records[k].verdict == Preserved && !m.records[k].byHand {
      StandsStill(l, m, m.seals[k.seal], k.to);
    }
  }

  /** Changes to seals and records alone: what stands goes on standing. */
  lemma SealsKeep(l: Ledger, m: Ledger)
    requires Inv(l) && Sound(m) && m == l.(seals := m.seals, records := m.records)
    requires forall id :: id in m.seals ==> SameSeal(l, m, id) || SealGood(m, m.seals[id])
    requires forall id :: id in l.seals ==> id in m.seals && SameSeal(l, m, id)
    requires forall k :: k in m.records ==> (k in l.records && m.records[k] == l.records[k]) || RecordGood(m, k)
    ensures Inv(m)
  {
    forall id | id in m.seals ensures SealGood(m, m.seals[id]) {
      if id in l.seals { assert SealGood(l, l.seals[id]); }
    }
    forall k | k in m.records ensures RecordGood(m, k) {
      if k in l.records && m.records[k] == l.records[k] { assert RecordGood(l, k); }
    }
  }

  /** The seal is as it was, or was revoked meanwhile. */
  ghost predicate SameSeal(l: Ledger, m: Ledger, id: nat) {
    && id in l.seals && id in m.seals && m.seals[id] == l.seals[id].(revoked := m.seals[id].revoked)
    && (IsActive(m.seals[id]) ==> IsActive(l.seals[id]))
  }

  lemma ApplyKeeps(strip: Stripper, l: Ledger, e: Event)
    requires Inv(l) && e.Apply? && Can(l, e)
    ensures Inv(Do(strip, l, e))
  {
    StaysSound(strip, l, e);
    AppliedKeeps(strip, l, e.n, Do(strip, l, e));
  }

  lemma AppliedKeeps(strip: Stripper, l: Ledger, n: nat, m: Ledger)
    requires Inv(l) && Usable(l, n) && m == l.(records := RecordsAfter(strip, l, n)) && Sound(m)
    ensures Inv(m)
  {
    forall k | k in m.records ensures (k in l.records && m.records[k] == l.records[k]) || RecordGood(m, k) {
      if k !in l.records { NewRecordGood(strip, l, n, m, k); }
    }
    RecordsKeep(l, m);
  }

  /** Changes to records alone. */
  lemma RecordsKeep(l: Ledger, m: Ledger)
    requires Inv(l) && Sound(m) && m == l.(records := m.records)
    requires forall k :: k in m.records ==> (k in l.records && m.records[k] == l.records[k]) || RecordGood(m, k)
    ensures Inv(m)
  {
    forall id | id in m.seals ensures SealGood(m, m.seals[id]) {
      assert SealGood(l, l.seals[id]);
    }
    forall k | k in m.records ensures RecordGood(m, k) {
      if k in l.records && m.records[k] == l.records[k] { assert RecordGood(l, k); }
    }
  }

  lemma NewRecordGood(strip: Stripper, l: Ledger, n: nat, m: Ledger, k: RecordKey)
    requires Inv(l) && Usable(l, n) && m == l.(records := RecordsAfter(strip, l, n))
    requires k in m.records && k !in l.records
    ensures RecordGood(m, k)
  {
    var s := l.seals[k.seal];
    assert SealGood(l, s);
    if m.records[k].verdict == Preserved {
      KeptStands(strip, l, k.seal, s, n);
      StandsStill(l, m, s, n);
    }
  }

  lemma CreateSealKeeps(strip: Stripper, l: Ledger, e: Event)
    requires Inv(l) && e.CreateSeal? && Can(l, e)
    ensures Inv(Do(strip, l, e))
  {
    StaysSound(strip, l, e);
    NewSealGood(strip, l, e);
    OneMoreSealKeeps(l, Do(strip, l, e), e.id);
  }

  lemma OneMoreSealKeeps(l: Ledger, m: Ledger, id: nat)
    requires Inv(l) && Sound(m) && id !in l.seals && id in m.seals && SealGood(m, m.seals[id])
    requires m == l.(seals := l.seals[id := m.seals[id]])
    ensures Inv(m)
  {
    SealsKeep(l, m);
  }

  lemma NewSealGood(strip: Stripper, l: Ledger, e: Event)
    requires Sound(l) && e.CreateSeal? && Can(l, e)
    ensures SealGood(Do(strip, l, e), Do(strip, l, e).seals[e.id])
  {
    var m, s := Do(strip, l, e), NewSeal(l, e.reviewer, e.n, e.coversAll, e.keys);
    NewSealRows(l, e.reviewer, e.n, e.coversAll, e.keys);
    NewSealStands(l, e.reviewer, e.n, e.coversAll, e.keys);
    StandsStill(l, m, s, e.n);
  }

  /** The sections signed are there with the hashes signed. */
  lemma NewSealSigns(l: Ledger, reviewer: Person, n: nat, coversAll: bool, keys: set<Key>, i: SectionId)
    requires Consistent(l) && i in NewSeal(l, reviewer, n, coversAll, keys).signed
    ensures SnapKey(n, i) in l.snaps
            && l.snaps[SnapKey(n, i)].bodyHash == NewSeal(l, reviewer, n, coversAll, keys).signed[i]
  {
    AtIff(l.snaps, n, i);
  }

  /** And a seal on the document leaves none out. */
  lemma NewSealSignsAll(l: Ledger, reviewer: Person, n: nat, keys: set<Key>, i: SectionId)
    requires Consistent(l) && i in IdsAt(l.snaps, n)
    ensures i in NewSeal(l, reviewer, n, true, keys).signed
  {
    AtIff(l.snaps, n, i);
  }

  lemma NewSealStands(l: Ledger, reviewer: Person, n: nat, coversAll: bool, keys: set<Key>)
    requires Consistent(l)
    ensures StandsAt(l, NewSeal(l, reviewer, n, coversAll, keys), n)
  {
    var s := NewSeal(l, reviewer, n, coversAll, keys);
    forall i | i in s.signed
      ensures SnapKey(n, i) in l.snaps && l.snaps[SnapKey(n, i)].bodyHash == s.signed[i]
    {
      NewSealSigns(l, reviewer, n, coversAll, keys, i);
    }
    if coversAll {
      forall i | i in IdsAt(l.snaps, n) ensures i in s.signed {
        NewSealSignsAll(l, reviewer, n, keys, i);
      }
    }
  }

  lemma RevokeKeeps(strip: Stripper, l: Ledger, e: Event)
    requires Inv(l) && e.Revoke? && Can(l, e)
    ensures Inv(Do(strip, l, e))
  {
    var m := Do(strip, l, e);
    StaysSound(strip, l, e);
    forall k | k in m.records ensures RecordGood(m, k) {
      assert RecordGood(l, k);
    }
    SealsKeep(l, m);
  }

  lemma ConfirmKeeps(strip: Stripper, l: Ledger, e: Event)
    requires Inv(l) && e.Confirm? && Can(l, e)
    ensures Inv(Do(strip, l, e))
  {
    StaysSound(strip, l, e);
    assert RecordGood(l, e.record);
    RecordsKeep(l, Do(strip, l, e));
  }

  /** After a purge, what was not created in the purged version is as it was. */
  lemma PurgeSameSections(l: Ledger, n: nat, m: Ledger, s: Seal, at: nat)
    requires StandsAt(l, s, at) && at != n && m.snaps == PurgeSnaps(l, n)
    requires forall i :: i in s.signed ==> i in l.rows && l.rows[i].created != n
    ensures StandsAt(m, s, at)
  {
  }

  /** A harmless purge leaves a seal in force as it is. */
  lemma PurgedSealSame(l: Ledger, n: nat, id: nat)
    requires Inv(l) && Harmless(l, n) && id in l.seals && l.seals[id].version != n && IsActive(l.seals[id])
    ensures PurgeSeal(l, l.seals[id], n) == l.seals[id]
    ensures forall i :: i in l.seals[id].signed ==> i in l.rows && l.rows[i].created != n
  {
    var s := l.seals[id];
    assert SealGood(l, s) && RowsThere(l, s);
    forall i | i in s.signed ensures i in l.rows && l.rows[i].created != n {
      assert i in s.covers;
    }
    assert PurgeSeal(l, s, n).covers == s.covers;
  }

  lemma PurgedStands(l: Ledger, n: nat, m: Ledger, id: nat, at: nat)
    requires Inv(l) && Harmless(l, n) && id in l.seals && l.seals[id].version != n && IsActive(l.seals[id])
    requires StandsAt(l, l.seals[id], at) && at != n && m.snaps == PurgeSnaps(l, n)
    ensures StandsAt(m, PurgeSeal(l, l.seals[id], n), at)
  {
    PurgedSealSame(l, n, id);
    PurgeSameSections(l, n, m, l.seals[id], at);
  }

  lemma PurgedSealGood(strip: Stripper, l: Ledger, e: Event, id: nat)
    requires Inv(l) && e.Purge? && Can(l, e) && Harmless(l, e.n)
    requires id in l.seals && l.seals[id].version != e.n
    ensures SealGood(Do(strip, l, e), PurgeSeal(l, l.seals[id], e.n))
  {
    var m, s := Do(strip, l, e), l.seals[id];
    assert SealGood(l, s);
    if IsActive(s) {
      PurgedSealSame(l, e.n, id);
      PurgedStands(l, e.n, m, id, s.version);
    }
  }

  lemma PurgedRecordGood(l: Ledger, n: nat, m: Ledger, k: RecordKey)
    requires Inv(l) && Harmless(l, n) && k in l.records && RecordGood(l, k) && k.to != n && l.seals[k.seal].version != n
    requires k in m.records && m.records[k] == l.records[k] && m.snaps == PurgeSnaps(l, n)
    requires k.seal in m.seals && m.seals[k.seal] == PurgeSeal(l, l.seals[k.seal], n)
    requires k.to in m.versions && m.versions[k.to] == l.versions[k.to]
    ensures RecordGood(m, k)
  {
    var s := l.seals[k.seal];
    if IsActive(s) && l.records[k].verdict == Preserved && !l.records[k].byHand {
      PurgedStands(l, n, m, k.seal, k.to);
    }
  }

  lemma HarmlessPurgeKeeps(strip: Stripper, l: Ledger, e: Event)
    requires Inv(l) && e.Purge? && Can(l, e) && Harmless(l, e.n)
    ensures Inv(Do(strip, l, e))
  {
    var m := Do(strip, l, e);
    StaysSound(strip, l, e);
    forall id | id in m.seals ensures SealGood(m, m.seals[id]) {
      PurgedSealGood(strip, l, e, id);
    }
    forall k | k in m.records ensures RecordGood(m, k) {
      assert RecordGood(l, k);
      PurgedRecordGood(l, e.n, m, k);
    }
  }

  ghost predicate PurgesHarmless(l: Ledger, e: Event) {
    e.Purge? ==> Harmless(l, e.n)
  }

  /** Every event keeps the invariant, a purge as long as it is harmless. */
  lemma EventKeeps(strip: Stripper, l: Ledger, e: Event)
    requires Inv(l) && Can(l, e) && PurgesHarmless(l, e)
    ensures Inv(Do(strip, l, e))
  {
    StaysSound(strip, l, e);
    match e
    case Upload(_, _) => VersionsOnly(l, Do(strip, l, e));
    case Analyse(_, _, _, _) => AnalyseKeeps(strip, l, e);
    case Apply(_) => ApplyKeeps(strip, l, e);
    case CreateSeal(_, _, _, _, _) => CreateSealKeeps(strip, l, e);
    case Revoke(_) => RevokeKeeps(strip, l, e);
    case Confirm(_, _) => ConfirmKeeps(strip, l, e);
    case Trash(_) => VersionsOnly(l, Do(strip, l, e));
    case Restore(_) => VersionsOnly(l, Do(strip, l, e));
    case Purge(_) => HarmlessPurgeKeeps(strip, l, e);
  }

  // ---- whole runs ----

  ghost predicate Leads(strip: Stripper, l: Ledger, e: Event, m: Ledger) {
    Sound(l) && Can(l, e) && Do(strip, l, e) == m
  }

  /** A run: each event possible when its turn comes, and the ledgers before and after each. */
  ghost predicate Trace(strip: Stripper, ledgers: seq<Ledger>, events: seq<Event>) {
    && |ledgers| == |events| + 1 && Sound(ledgers[0])
    && forall i :: 0 <= i < |events| ==> Leads(strip, ledgers[i], events[i], ledgers[i + 1])
  }

  function End(ledgers: seq<Ledger>): Ledger
    requires ledgers != []
  {
    ledgers[|ledgers| - 1]
  }

  /** Any event that is possible at its end makes a run longer: nothing else is asked. */
  lemma TraceGrows(strip: Stripper, ledgers: seq<Ledger>, events: seq<Event>, e: Event) returns (next: Ledger)
    requires Trace(strip, ledgers, events) && Can(End(ledgers), e)
    ensures Sound(End(ledgers)) && next == Do(strip, End(ledgers), e)
    ensures Trace(strip, ledgers + [next], events + [e])
  {
    SoundAlong(strip, ledgers, events);
    next := Do(strip, End(ledgers), e);
  }

  lemma SoundAlong(strip: Stripper, ledgers: seq<Ledger>, events: seq<Event>)
    requires Trace(strip, ledgers, events)
    ensures Sound(End(ledgers))
  {
    var n := |events|;
    if n > 0 {
      assert Leads(strip, ledgers[n - 1], events[n - 1], ledgers[n]);
      StaysSound(strip, ledgers[n - 1], events[n - 1]);
    }
  }

  lemma TraceFront(strip: Stripper, ledgers: seq<Ledger>, events: seq<Event>)
    requires Trace(strip, ledgers, events) && events != []
    ensures var n := |events| - 1;
            Trace(strip, ledgers[..n + 1], events[..n]) && Leads(strip, ledgers[n], events[n], ledgers[n + 1])
  {
    var n := |events| - 1;
    forall i | 0 <= i < n ensures Leads(strip, ledgers[..n + 1][i], events[..n][i], ledgers[..n + 1][i + 1]) {
      assert Leads(strip, ledgers[i], events[i], ledgers[i + 1]);
    }
  }

  /** A run in which every purge is harmless when its turn comes. */
  ghost predicate CarefulTrace(strip: Stripper, ledgers: seq<Ledger>, events: seq<Event>) {
    Trace(strip, ledgers, events) && forall i :: 0 <= i < |events| ==> PurgesHarmless(ledgers[i], events[i])
  }

  lemma {:induction false} RunKeeps(strip: Stripper, ledgers: seq<Ledger>, events: seq<Event>)
    requires CarefulTrace(strip, ledgers, events) && Inv(ledgers[0])
    ensures Inv(End(ledgers))
    decreases |events|
  {
    if events != [] {
      var n := |events| - 1;
      TraceFront(strip, ledgers, events);
      RunKeeps(strip, ledgers[..n + 1], events[..n]);
      EventKeeps(strip, ledgers[n], events[n]);
    }
  }

  /** `seal_is_valid_at`: not revoked, and kept at every version since the sealed one that is
      not in the trash, up to and including `n`. */
  ghost predicate ValidAt(l: Ledger, id: nat, n: nat)
    requires id in l.seals
  {
    var s := l.seals[id];
    && !s.revoked && s.version <= n
    && forall m :: m in l.versions && !l.versions[m].trashed && s.version < m <= n ==> IsKept(l, id, m)
  }

  predicate IsKept(l: Ledger, id: nat, m: nat) {
    RecordKey(id, m) in l.records && l.records[RecordKey(id, m)].verdict == Preserved
  }

  predicate ByHand(l: Ledger, id: nat, m: nat) {
    RecordKey(id, m) in l.records && l.records[RecordKey(id, m)].byHand
  }

  /** The central promise: a seal that counts as valid at a version in use stands there for
      exactly what was signed, unless a coordinator said so. */
  ghost predicate Promise(l: Ledger) {
    forall id, n :: id in l.seals && n in l.versions && !l.versions[n].trashed && ValidAt(l, id, n) ==>
      StandsAt(l, l.seals[id], n) || ByHand(l, id, n)
  }

  lemma InvKeepsPromise(l: Ledger)
    requires Inv(l)
    ensures Promise(l)
  {
    forall id, n | id in l.seals && n in l.versions && !l.versions[n].trashed && ValidAt(l, id, n)
      ensures StandsAt(l, l.seals[id], n) || ByHand(l, id, n)
    {
      assert SealGood(l, l.seals[id]);
      if n != l.seals[id].version { assert IsKept(l, id, n) && RecordGood(l, RecordKey(id, n)); }
    }
  }

  /** It is kept over every run from an empty document whose purges are harmless. */
  lemma ValidMeansSigned(strip: Stripper, ledgers: seq<Ledger>, events: seq<Event>)
    requires CarefulTrace(strip, ledgers, events) && ledgers[0] == EMPTY
    ensures Promise(End(ledgers))
  {
    RunKeeps(strip, ledgers, events);
    InvKeepsPromise(End(ledgers));
  }

  // ---- exactly which purges are safe ----

  /** The promise holds here and from here on, as long as purges are harmless. */
  ghost predicate PromisedFrom(strip: Stripper, l: Ledger) {
    forall ledgers, events :: CarefulTrace(strip, ledgers, events) && ledgers[0] == l ==> Promise(End(ledgers))
  }

  /** A purge leaves the promise good, now and later, exactly when no section that a seal in
      force was put on was created in the purged version. */
  lemma PurgeSafeIff(strip: Stripper, l: Ledger, e: Event)
    requires Inv(l) && e.Purge? && Can(l, e)
    ensures PromisedFrom(strip, Do(strip, l, e)) <==> Harmless(l, e.n)
  {
    var m := Do(strip, l, e);
    if Harmless(l, e.n) {
      HarmlessPurgeKeeps(strip, l, e);
      forall ledgers, events | CarefulTrace(strip, ledgers, events) && ledgers[0] == m ensures Promise(End(ledgers)) {
        RunKeeps(strip, ledgers, events);
        InvKeepsPromise(End(ledgers));
      }
    } else {
      var id, i :| id in l.seals && IsActive(l.seals[id]) && l.seals[id].version != e.n && i in l.seals[id].signed
                   && i in l.rows && l.rows[i].created == e.n;
      StaysSound(strip, l, e);
      HarmIsSeen(strip, m, id, i);
    }
  }

  /** A seal in force without one of its sections is valid and does not stand at its own version,
      at the latest when that is taken out of the trash. */
  lemma HarmIsSeen(strip: Stripper, l: Ledger, id: nat, i: SectionId)
    requires Sound(l) && id in l.seals && IsActive(l.seals[id]) && i in l.seals[id].signed
    requires SnapKey(l.seals[id].version, i) !in l.snaps
    ensures !PromisedFrom(strip, l)
  {
    var v := l.seals[id].version;
    if l.versions[v].trashed {
      var m := Do(strip, l, Restore(v));
      assert !StandsAt(m, m.seals[id], v) && ValidAt(m, id, v) && !ByHand(m, id, v);
      assert CarefulTrace(strip, [l, m], [Restore(v)]) && End([l, m]) == m;
    } else {
      assert !StandsAt(l, l.seals[id], v) && ValidAt(l, id, v) && !ByHand(l, id, v);
      assert CarefulTrace(strip, [l], []) && End([l]) == l;
    }
  }

  /** Asked about a version in the trash, the function answers from the versions before it. */
  lemma TrashedVersionIsNotAsked(l: Ledger, id: nat, n: nat)
    requires id in l.seals && l.seals[id].version < n && n in l.versions && l.versions[n].trashed
    ensures ValidAt(l, id, n) <==> ValidAt(l, id, n - 1)
  {
  }

  // ---- the ledger ----

  lemma AllDecided(strip: Stripper, m: Ledger, n: nat)
    requires Sound(m) && n in m.versions
    requires forall id :: Concerned(m, id, n) ==> RecordKey(id, n) in m.records
    ensures RecordsAfter(strip, m, n) == m.records
  {
  }

  /** Deciding twice about the same version changes nothing. */
  lemma ApplyTwice(strip: Stripper, l: Ledger, n: nat)
    requires Sound(l) && Can(l, Apply(n))
    ensures var m := Do(strip, l, Apply(n));
            Sound(m) && RecordsAfter(strip, m, n) == m.records
  {
    var m := Do(strip, l, Apply(n));
    StaysSound(strip, l, Apply(n));
    forall id | Concerned(m, id, n) ensures RecordKey(id, n) in m.records {
      assert Concerned(l, id, n);
    }
    AllDecided(strip, m, n);
  }

  /** A decision that is no longer pending stays, word for word, through every event, until
      its seal's version or its own is purged. */
  lemma DecisionStays(strip: Stripper, l: Ledger, e: Event, k: RecordKey)
    requires Sound(l) && Can(l, e) && k in l.records && l.records[k].verdict != Pending
    ensures k in Do(strip, l, e).records ==> Do(strip, l, e).records[k] == l.records[k]
    ensures k !in Do(strip, l, e).records ==> e.Purge? && (e.n == k.to || e.n == l.seals[k.seal].version)
  {
  }

  // ---- persist_analysis is an analysis in this sense ----

  /** A stored analysis of a version without snapshots does what the run assumes. */
  lemma StoredIsAnalysed(t: Task, l: Ledger, end: Run)
    requires StoredAs(t, end)
    requires l.rows == t.rows && l.snaps == t.snaps && forall k :: k in t.snaps ==> k.version != t.v
    requires forall k :: k in t.snaps ==> k.section in t.rows
    ensures Analysed(l, t.v, RowsAfter(t, end), SnapsAfter(t, end.made))
  {
    KeysStayUnique(t, end);
    StoredRows(t, end);
    StoredSnaps(t, end);
  }
}
