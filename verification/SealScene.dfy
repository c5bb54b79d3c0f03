/** What concrete runs of a document with one section share: what is asked of each event beyond
    the ledger's own rules, and the analyses. */
module SealScene {
  import opened Sections
  import opened Comparison
  import opened Invalidation
  import opened Preservation
  import opened SectionStore
  import opened SealLedger

  /** What a run is about: one heading, its signed body and another one. */
  datatype Scene = Scene(k: Key, title: Heading, body: Body, signed: Hash, other: Hash, p: Person)

  function Draft(trashed: bool): Version { Version(true, trashed, Auto, true) }

  const UPLOADED := Version(false, false, Auto, true)

  function PayloadOf(c: Scene, h: Hash): Payload { Payload(c.k, c.title, h, c.body, 0) }

  function RowsOf(c: Scene, i: SectionId, created: nat): map<SectionId, Row> {
    map[i := Row(c.k, c.title, created, None)]
  }

  function SnapIn(c: Scene, h: Hash): Snap { Snap(c.title, h, c.body, 0) }

  // ---- what the services ask ----

  /** `trash_version` takes the latest version only, and no sealed one; `restore_version` none with
      a newer one in use. A purge waits for the end of the grace time, and so can any run. */
  ghost predicate Guarded(l: Ledger, e: Event) {
    match e
    case Trash(n) =>
      (forall k :: k in l.versions ==> k <= n) && (forall id :: id in l.seals ==> l.seals[id].version != n)
    case Restore(n) => forall k :: k in l.versions && k > n ==> l.versions[k].trashed
    case _ => true
  }

  /** The analysis is what `persist_analysis` stores for some payload. */
  ghost predicate Stores(l: Ledger, e: Event, t: Task) {
    && e.Analyse? && Ready(t) && t.rows == l.rows && t.snaps == l.snaps && t.v == e.n
    && Steps(t, |t.payloads|).Some?
    && (var run := Steps(t, |t.payloads|).value;
        e.rows == RowsAfter(t, run) && e.snaps == SnapsAfter(t, run.made))
  }

  ghost predicate Fair(l: Ledger, e: Event) {
    Guarded(l, e) && (e.Analyse? ==> exists t :: Stores(l, e, t))
  }

  /** Such an analysis is one in the sense of the ledger. */
  lemma StoredAnalysis(l: Ledger, e: Event, t: Task)
    requires Stores(l, e, t) && Consistent(l) && forall k :: k in l.snaps ==> k.version != e.n
    ensures Analysed(l, e.n, e.rows, e.snaps)
  {
    StoredIsAnalysed(t, l, Steps(t, |t.payloads|).value);
  }

  /** A run that the services allow from end to end. */
  ghost predicate FairTrace(strip: Stripper, ledgers: seq<Ledger>, events: seq<Event>) {
    && Trace(strip, ledgers, events) && ledgers[0] == EMPTY
    && forall i :: 0 <= i < |events| ==> Fair(ledgers[i], events[i])
  }

  datatype Tale = Tale(ledgers: seq<Ledger>, events: seq<Event>)

  ghost predicate Told(strip: Stripper, t: Tale, end: Ledger) {
    FairTrace(strip, t.ledgers, t.events) && End(t.ledgers) == end
  }

  const BEGINNING := Tale([EMPTY], [])

  /** One event more. */
  lemma Then(strip: Stripper, t: Tale, l: Ledger, e: Event, m: Ledger) returns (longer: Tale)
    requires Told(strip, t, l) && Leads(strip, l, e, m) && Fair(l, e)
    ensures Told(strip, longer, m) && longer == Tale(t.ledgers + [m], t.events + [e])
  {
    longer := Tale(t.ledgers + [m], t.events + [e]);
    var n := |t.events|;
    forall i | 0 <= i <= n ensures Leads(strip, longer.ledgers[i], longer.events[i], longer.ledgers[i + 1]) {
      if i < n { assert Leads(strip, t.ledgers[i], t.events[i], t.ledgers[i + 1]); }
    }
    forall i | 0 <= i <= n ensures Fair(longer.ledgers[i], longer.events[i]) {
      if i < n { assert Fair(t.ledgers[i], t.events[i]); }
    }
  }

  // ---- analyses of one section ----

  /** The section is known by its key. */
  lemma KnownSection(l: Ledger, n: nat, c: Scene, h: Hash, created: nat, e: Event)
    requires l.rows == RowsOf(c, 0, created) && e.Analyse? && e.n == n
    requires e.rows == l.rows && e.snaps == l.snaps[SnapKey(n, 0) := SnapIn(c, h)]
    ensures Fair(l, e)
  {
    var t := OneTask(l, 1, n, c, h);
    assert Alive(t.rows, 0);
    var run := KnownAlone(t, PayloadOf(c, h), 0);
    OneStored(l, e, t, run, 0);
  }

  lemma OneTask(l: Ledger, next: SectionId, n: nat, c: Scene, h: Hash) returns (t: Task)
    requires UniqueKeys(l.rows) && forall i :: i in l.rows ==> i < next
    ensures Ready(t) && t.rows == l.rows && t.snaps == l.snaps && t.v == n && t.next == next
    ensures t.payloads == [PayloadOf(c, h)] && SnapOf(t.payloads[0]) == SnapIn(c, h)
  {
    t := TaskOf(l.rows, next, [], l.snaps, n, [PayloadOf(c, h)]);
    TaskIsReady(l.rows, next, [], l.snaps, n, t.payloads);
  }

  /** The section is new, in a document that has none. */
  lemma NewSection(l: Ledger, n: nat, c: Scene, h: Hash, next: SectionId, e: Event)
    requires l.rows == map[] && e.Analyse? && e.n == n
    requires e.rows == RowsOf(c, next, n) && e.snaps == l.snaps[SnapKey(n, next) := SnapIn(c, h)]
    ensures Fair(l, e)
  {
    var t := OneTask(l, next, n, c, h);
    assert h !in t.byHash;
    var run := NewAlone(t, PayloadOf(c, h));
    OneStored(l, e, t, run, next);
  }

  lemma OneStored(l: Ledger, e: Event, t: Task, run: Run, i: SectionId)
    requires e.Analyse? && StoredAs(t, run) && t.rows == l.rows && t.snaps == l.snaps && t.v == e.n
    requires |t.payloads| == 1 && run.made == [i] && run.rows == e.rows && forall j :: j in t.rows ==> j == i
    requires e.snaps == l.snaps[SnapKey(e.n, i) := SnapOf(t.payloads[0])]
    ensures Fair(l, e)
  {
    assert Stale(t, run) == {};
    assert RowsAfter(t, run) == e.rows;
    OneSnap(t, i);
    assert Stores(l, e, t);
  }

  // ---- decisions about one seal ----

  /** A seal on sections that hold is kept. */
  lemma HeldIsKept(strip: Stripper, l: Ledger, id: nat, n: nat)
    requires Sound(l) && id in l.seals && !l.seals[id].coversAll && n in l.versions
    requires var s := l.seals[id]; Holds(strip, CoveredNow(l, s), KeyedAt(l, s.version), KeyedAt(l, n))
    ensures RecordFor(strip, l, id, n) == Record(Preserved, Preserved, false)
  {
    var s := l.seals[id];
    SectionSealStepIff(strip, InputFor(l, id, s), KeyedAt(l, s.version), KeyedAt(l, n), ModeFor(l, s.version, n));
  }

  lemma RecordMade(strip: Stripper, l: Ledger, id: nat, n: nat)
    requires Sound(l) && n in l.versions && RecordKey(id, n) in Due(l, n) && RecordKey(id, n) !in l.records
    ensures RecordsAfter(strip, l, n)[RecordKey(id, n)] == RecordFor(strip, l, id, n)
  {
  }

  lemma OthersStay(strip: Stripper, l: Ledger, n: nat, k: RecordKey)
    requires Sound(l) && n in l.versions && Due(l, n) == {k} && k !in l.records
    ensures var after := RecordsAfter(strip, l, n);
            after.Keys == l.records.Keys + {k} && forall x :: x in l.records ==> after[x] == l.records[x]
  {
  }

  lemma OneDecided(strip: Stripper, l: Ledger, id: nat, n: nat, r: Record)
    requires Sound(l) && n in l.versions && id in l.seals && Due(l, n) == {RecordKey(id, n)}
    requires RecordKey(id, n) !in l.records && RecordFor(strip, l, id, n) == r
    ensures RecordsAfter(strip, l, n) == l.records[RecordKey(id, n) := r]
  {
    RecordMade(strip, l, id, n);
    OthersStay(strip, l, n, RecordKey(id, n));
    SameMap(RecordsAfter(strip, l, n), l.records, RecordKey(id, n));
  }

  lemma SameMap<K, V>(m: map<K, V>, before: map<K, V>, k: K)
    requires m.Keys == before.Keys + {k} && k !in before && forall x :: x in before ==> m[x] == before[x]
    ensures m == before[k := m[k]]
  {
  }
}
