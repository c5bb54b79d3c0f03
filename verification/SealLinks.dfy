/** Two runs in which a seal's chain gets a second link: the version in between was out of use
    when the next one was decided about, and is in use at the end. */
module SealLinks {
  import opened Comparison
  import opened Invalidation
  import opened Preservation
  import opened SectionStore
  import opened SealLedger
  import opened SealScene

  /** A document whose one section stays the same: the versions analysed, what became of them, and
      the versions for which the seal on version 1 was kept. */
  datatype Book = Book(analysed: seq<nat>, versions: map<nat, Version>, sealed: bool, kept: seq<nat>)

  function Copies(c: Scene, ns: seq<nat>): map<SnapKey, Snap> {
    if ns == [] then map[]
    else Copies(c, ns[..|ns| - 1])[SnapKey(ns[|ns| - 1], 0) := SnapIn(c, c.signed)]
  }

  lemma {:induction false} CopiesAre(c: Scene, ns: seq<nat>)
    ensures forall k :: k in Copies(c, ns) <==> k.section == 0 && k.version in ns
    ensures forall k :: k in Copies(c, ns) ==> Copies(c, ns)[k] == SnapIn(c, c.signed)
  {
    if ns != [] {
      assert ns == ns[..|ns| - 1] + [ns[|ns| - 1]];
      CopiesAre(c, ns[..|ns| - 1]);
    }
  }

  const KEPT := Record(Preserved, Preserved, false)

  function RecordsFor(ns: seq<nat>): map<RecordKey, Record> {
    if ns == [] then map[] else RecordsFor(ns[..|ns| - 1])[RecordKey(0, ns[|ns| - 1]) := KEPT]
  }

  lemma {:induction false} RecordsAre(ns: seq<nat>)
    ensures forall k :: k in RecordsFor(ns) <==> k.seal == 0 && k.to in ns
    ensures forall k :: k in RecordsFor(ns) ==> RecordsFor(ns)[k] == KEPT
  {
    if ns != [] {
      assert ns == ns[..|ns| - 1] + [ns[|ns| - 1]];
      RecordsAre(ns[..|ns| - 1]);
    }
  }

  function SealOn(c: Scene): Seal { Seal(1, c.p, false, false, map[0 := c.signed], {0}) }

  function SealsIn(c: Scene, sealed: bool): map<nat, Seal> { if sealed then map[0 := SealOn(c)] else map[] }

  function LedgerOf(c: Scene, b: Book): Ledger {
    Ledger(RowsOf(c, 0, 1), Copies(c, b.analysed), b.versions, SealsIn(c, b.sealed), RecordsFor(b.kept))
  }

  ghost predicate Fine(b: Book) {
    && 1 in b.analysed && 1 in b.versions && (forall n :: n in b.analysed ==> n in b.versions)
    && (b.kept != [] ==> b.sealed) && (forall n :: n in b.kept ==> n in b.versions && n > 1)
  }

  lemma FineIsSound(c: Scene, b: Book)
    requires Fine(b)
    ensures Sound(LedgerOf(c, b))
  {
    CopiesAre(c, b.analysed);
    RecordsAre(b.kept);
  }

  // ---- the events ----

  lemma Uploads(strip: Stripper, c: Scene, b: Book, n: nat)
    requires Fine(b) && forall k :: k in b.versions ==> k < n
    ensures Leads(strip, LedgerOf(c, b), Upload(n, Auto), LedgerOf(c, b.(versions := b.versions[n := UPLOADED])))
  {
    FineIsSound(c, b);
  }

  function AnalyseEvent(c: Scene, b: Book, n: nat): Event {
    Analyse(n, true, RowsOf(c, 0, 1), Copies(c, b.analysed + [n]))
  }

  lemma MoreCopies(c: Scene, ns: seq<nat>, n: nat)
    ensures Copies(c, ns + [n]) == Copies(c, ns)[SnapKey(n, 0) := SnapIn(c, c.signed)]
  {
    assert (ns + [n])[..|ns|] == ns;
  }

  lemma CopyIsAnalysed(c: Scene, b: Book, n: nat)
    requires Fine(b) && n !in b.analysed
    ensures Analysed(LedgerOf(c, b), n, RowsOf(c, 0, 1), Copies(c, b.analysed + [n]))
  {
    var l, e := LedgerOf(c, b), AnalyseEvent(c, b, n);
    CopiesAre(c, b.analysed);
    FineIsSound(c, b);
    AnalysesFairly(c, b, n);
    var t :| Stores(l, e, t);
    StoredAnalysis(l, e, t);
  }

  lemma Analyses(strip: Stripper, c: Scene, b: Book, n: nat)
    requires Fine(b) && n in b.versions && b.versions[n] == UPLOADED && n !in b.analysed
    ensures Leads(strip, LedgerOf(c, b), AnalyseEvent(c, b, n),
                  LedgerOf(c, b.(analysed := b.analysed + [n], versions := b.versions[n := Draft(false)])))
  {
    FineIsSound(c, b);
    CopyIsAnalysed(c, b, n);
  }

  lemma AnalysesFairly(c: Scene, b: Book, n: nat)
    requires Fine(b) && n !in b.analysed
    ensures Fair(LedgerOf(c, b), AnalyseEvent(c, b, n))
  {
    MoreCopies(c, b.analysed, n);
    KnownSection(LedgerOf(c, b), n, c, c.signed, 1, AnalyseEvent(c, b, n));
  }

  lemma Trashes(strip: Stripper, c: Scene, b: Book, n: nat, trashed: bool)
    requires Fine(b) && n in b.versions && b.versions[n] == Draft(!trashed)
    ensures Leads(strip, LedgerOf(c, b), if trashed then Trash(n) else Restore(n),
                  LedgerOf(c, b.(versions := b.versions[n := Draft(trashed)])))
  {
    FineIsSound(c, b);
  }

  lemma Seals(strip: Stripper, c: Scene, b: Book)
    requires Fine(b) && !b.sealed && b.versions[1] == Draft(false)
    ensures Leads(strip, LedgerOf(c, b), CreateSeal(0, c.p, 1, false, {c.k}), LedgerOf(c, b.(sealed := true)))
  {
    var l := LedgerOf(c, b);
    FineIsSound(c, b);
    CopiesAre(c, b.analysed);
    KeyedAtHas(l, 1, 0);
    AtIff(l.snaps, 1, 0);
    assert Chosen(l, 1, false, {c.k}) == {0};
    assert NewSeal(l, c.p, 1, false, {c.k}) == SealOn(c);
  }

  lemma SectionHolds(strip: Stripper, c: Scene, b: Book, n: nat)
    requires Fine(b) && b.sealed && n in b.analysed && Sound(LedgerOf(c, b))
    ensures var l := LedgerOf(c, b);
            Holds(strip, CoveredNow(l, SealOn(c)), KeyedAt(l, 1), KeyedAt(l, n))
  {
    var l := LedgerOf(c, b);
    CopiesAre(c, b.analysed);
    KeyedAtHas(l, 1, 0);
    KeyedAtHas(l, n, 0);
  }

  lemma SectionKept(strip: Stripper, c: Scene, b: Book, n: nat)
    requires Fine(b) && b.sealed && n in b.analysed && Sound(LedgerOf(c, b))
    ensures RecordFor(strip, LedgerOf(c, b), 0, n) == KEPT
  {
    var l := LedgerOf(c, b);
    SectionHolds(strip, c, b, n);
    HeldIsKept(strip, l, 0, n);
  }

  lemma MoreRecords(ns: seq<nat>, n: nat)
    ensures RecordsFor(ns + [n]) == RecordsFor(ns)[RecordKey(0, n) := KEPT]
  {
    assert (ns + [n])[..|ns|] == ns;
  }

  lemma OneDue(c: Scene, b: Book, n: nat)
    requires Fine(b) && b.sealed && IsPrevious(LedgerOf(c, b), 1, n)
    ensures Due(LedgerOf(c, b), n) == {RecordKey(0, n)}
  {
    assert Concerned(LedgerOf(c, b), 0, n);
  }

  lemma Applies(strip: Stripper, c: Scene, b: Book, n: nat)
    requires Fine(b) && b.sealed && n in b.analysed && n !in b.kept
    requires Usable(LedgerOf(c, b), n) && IsPrevious(LedgerOf(c, b), 1, n)
    ensures Leads(strip, LedgerOf(c, b), Apply(n), LedgerOf(c, b.(kept := b.kept + [n])))
  {
    var l := LedgerOf(c, b);
    FineIsSound(c, b);
    SectionKept(strip, c, b, n);
    OneDue(c, b, n);
    RecordsAre(b.kept);
    OneDecided(strip, l, 0, n, KEPT);
    MoreRecords(b.kept, n);
  }

  // ---- the beginning both runs share ----

  const FIRST := Book([1], map[1 := Draft(false)], true, [])

  const UNSEALED := FIRST.(sealed := false)

  const OPENED := Ledger(map[], map[], map[1 := UPLOADED], map[], map[])

  function FirstAnalysis(c: Scene): Event { Analyse(1, true, RowsOf(c, 0, 1), Copies(c, [1])) }

  lemma FirstCopy(c: Scene)
    ensures Copies(c, [1]) == map[SnapKey(1, 0) := SnapIn(c, c.signed)]
  {
    MoreCopies(c, [], 1);
    assert [] + [1] == [1];
  }

  lemma FirstIsFair(c: Scene)
    ensures Fair(OPENED, FirstAnalysis(c))
  {
    FirstCopy(c);
    NewSection(OPENED, 1, c, c.signed, 0, FirstAnalysis(c));
  }

  lemma FirstAnalysed(strip: Stripper, c: Scene)
    ensures Leads(strip, OPENED, FirstAnalysis(c), LedgerOf(c, UNSEALED))
  {
    FirstCopy(c);
  }

  lemma Opens(strip: Stripper, c: Scene) returns (t: Tale)
    ensures Told(strip, t, LedgerOf(c, UNSEALED))
  {
    t := Then(strip, BEGINNING, EMPTY, Upload(1, Auto), OPENED);
    FirstAnalysed(strip, c);
    FirstIsFair(c);
    t := Then(strip, t, OPENED, FirstAnalysis(c), LedgerOf(c, UNSEALED));
  }

  lemma Begins(strip: Stripper, c: Scene) returns (t: Tale)
    ensures Told(strip, t, LedgerOf(c, FIRST))
  {
    t := Opens(strip, c);
    Seals(strip, c, UNSEALED);
    t := Then(strip, t, LedgerOf(c, UNSEALED), CreateSeal(0, c.p, 1, false, {c.k}), LedgerOf(c, FIRST));
  }

  // ---- one event more, told of books ----

  lemma ThenUpload(strip: Stripper, c: Scene, b: Book, before: Tale, n: nat) returns (t: Tale)
    requires Told(strip, before, LedgerOf(c, b)) && Fine(b) && forall k :: k in b.versions ==> k < n
    ensures Told(strip, t, LedgerOf(c, b.(versions := b.versions[n := UPLOADED])))
  {
    Uploads(strip, c, b, n);
    t := Then(strip, before, LedgerOf(c, b), Upload(n, Auto), LedgerOf(c, b.(versions := b.versions[n := UPLOADED])));
  }

  lemma ThenAnalyse(strip: Stripper, c: Scene, b: Book, before: Tale, n: nat) returns (t: Tale)
    requires Told(strip, before, LedgerOf(c, b)) && Fine(b)
    requires n in b.versions && b.versions[n] == UPLOADED && n !in b.analysed
    ensures Told(strip, t, LedgerOf(c, b.(analysed := b.analysed + [n], versions := b.versions[n := Draft(false)])))
  {
    Analyses(strip, c, b, n);
    AnalysesFairly(c, b, n);
    t := Then(strip, before, LedgerOf(c, b), AnalyseEvent(c, b, n),
              LedgerOf(c, b.(analysed := b.analysed + [n], versions := b.versions[n := Draft(false)])));
  }

  lemma ThenApply(strip: Stripper, c: Scene, b: Book, before: Tale, n: nat) returns (t: Tale)
    requires Told(strip, before, LedgerOf(c, b)) && Fine(b) && b.sealed && n in b.analysed && n !in b.kept
    requires Usable(LedgerOf(c, b), n) && IsPrevious(LedgerOf(c, b), 1, n)
    ensures Told(strip, t, LedgerOf(c, b.(kept := b.kept + [n])))
  {
    Applies(strip, c, b, n);
    t := Then(strip, before, LedgerOf(c, b), Apply(n), LedgerOf(c, b.(kept := b.kept + [n])));
  }

  /** The latest version goes, or the latest of those in use comes back. */
  lemma ThenTrash(strip: Stripper, c: Scene, b: Book, before: Tale, n: nat, trashed: bool) returns (t: Tale)
    requires Told(strip, before, LedgerOf(c, b)) && Fine(b) && n in b.versions && b.versions[n] == Draft(!trashed)
    requires n > 1 && forall k :: k in b.versions && k > n ==> !trashed && b.versions[k].trashed
    ensures Told(strip, t, LedgerOf(c, b.(versions := b.versions[n := Draft(trashed)])))
  {
    Trashes(strip, c, b, n, trashed);
    t := Then(strip, before, LedgerOf(c, b), if trashed then Trash(n) else Restore(n),
              LedgerOf(c, b.(versions := b.versions[n := Draft(trashed)])));
  }

  // ---- the two runs ----

  function Drafts(second: Version, third: Version): map<nat, Version> {
    map[1 := Draft(false), 2 := second, 3 := third]
  }

  const TWO: map<nat, Version> := map[1 := Draft(false), 2 := Draft(false)]

  lemma SecondDecided(strip: Stripper, c: Scene) returns (t: Tale)
    ensures Told(strip, t, LedgerOf(c, Book([1, 2], TWO, true, [2])))
  {
    t := Begins(strip, c);
    t := ThenUpload(strip, c, FIRST, t, 2);
    t := ThenAnalyse(strip, c, FIRST.(versions := FIRST.versions[2 := UPLOADED]), t, 2);
    assert FIRST.versions[2 := UPLOADED][2 := Draft(false)] == TWO;
    assert [1] + [2] == [1, 2] && [] + [2] == [2];
    t := ThenApply(strip, c, Book([1, 2], TWO, true, []), t, 2);
  }

  lemma ThirdAnalysed(strip: Stripper, c: Scene) returns (t: Tale)
    ensures Told(strip, t, LedgerOf(c, Book([1, 2, 3], Drafts(Draft(true), Draft(false)), true, [2])))
  {
    t := SecondDecided(strip, c);
    t := ThenTrash(strip, c, Book([1, 2], TWO, true, [2]), t, 2, true);
    t := ThenUpload(strip, c, Book([1, 2], TWO[2 := Draft(true)], true, [2]), t, 3);
    assert TWO[2 := Draft(true)][3 := UPLOADED] == Drafts(Draft(true), UPLOADED);
    t := ThenAnalyse(strip, c, Book([1, 2], Drafts(Draft(true), UPLOADED), true, [2]), t, 3);
    assert [1, 2] + [3] == [1, 2, 3];
    assert Drafts(Draft(true), UPLOADED)[3 := Draft(false)] == Drafts(Draft(true), Draft(false));
  }

  lemma ThirdDecided(strip: Stripper, c: Scene) returns (t: Tale)
    ensures Told(strip, t, LedgerOf(c, Book([1, 2, 3], Drafts(Draft(true), Draft(false)), true, [2, 3])))
  {
    t := ThirdAnalysed(strip, c);
    t := ThenApply(strip, c, Book([1, 2, 3], Drafts(Draft(true), Draft(false)), true, [2]), t, 3);
    assert [2] + [3] == [2, 3];
  }

  /** Both later versions are in use, and the seal is valid over two links. */
  ghost predicate Linked(l: Ledger) {
    && 0 in l.seals && l.seals[0].version == 1 && Usable(l, 2) && Usable(l, 3)
    && IsKept(l, 0, 2) && IsKept(l, 0, 3) && ValidAt(l, 0, 3)
  }

  lemma AllKept(c: Scene, b: Book)
    requires Fine(b) && b.sealed && b.versions == Drafts(Draft(false), Draft(false)) && 2 in b.kept && 3 in b.kept
    ensures Linked(LedgerOf(c, b))
  {
    RecordsAre(b.kept);
  }

  /** Version 2 is decided about and goes to the trash, version 3 is decided about and goes as well,
      and both come back: the seal on version 1 is valid at version 3 over two links. */
  lemma LinkedByRestoring(strip: Stripper, c: Scene) returns (t: Tale)
    ensures FairTrace(strip, t.ledgers, t.events) && Linked(End(t.ledgers))
  {
    t := ThirdDecided(strip, c);
    var b := Book([1, 2, 3], Drafts(Draft(true), Draft(false)), true, [2, 3]);
    t := ThenTrash(strip, c, b, t, 3, true);
    b := b.(versions := b.versions[3 := Draft(true)]);
    t := ThenTrash(strip, c, b, t, 2, false);
    b := b.(versions := b.versions[2 := Draft(false)]);
    t := ThenTrash(strip, c, b, t, 3, false);
    b := b.(versions := b.versions[3 := Draft(false)]);
    assert b.versions == Drafts(Draft(false), Draft(false));
    AllKept(c, b);
  }

  lemma BothUploaded(strip: Stripper, c: Scene) returns (t: Tale)
    ensures Told(strip, t, LedgerOf(c, Book([1], Drafts(UPLOADED, UPLOADED), true, [])))
  {
    t := Begins(strip, c);
    t := ThenUpload(strip, c, FIRST, t, 2);
    t := ThenUpload(strip, c, FIRST.(versions := FIRST.versions[2 := UPLOADED]), t, 3);
    assert FIRST.versions[2 := UPLOADED][3 := UPLOADED] == Drafts(UPLOADED, UPLOADED);
  }

  /** Nothing goes to the trash: version 3 is analysed and decided about before version 2 is. */
  lemma LinkedByALateAnalysis(strip: Stripper, c: Scene) returns (t: Tale)
    ensures FairTrace(strip, t.ledgers, t.events) && Linked(End(t.ledgers))
  {
    t := ThirdBefore(strip, c);
    var b := Book([1, 3], Drafts(UPLOADED, Draft(false)), true, [3]);
    t := ThenAnalyse(strip, c, b, t, 2);
    b := b.(analysed := b.analysed + [2], versions := b.versions[2 := Draft(false)]);
    t := ThenApply(strip, c, b, t, 2);
    b := b.(kept := b.kept + [2]);
    assert b.versions == Drafts(Draft(false), Draft(false));
    AllKept(c, b);
  }

  lemma ThirdBefore(strip: Stripper, c: Scene) returns (t: Tale)
    ensures Told(strip, t, LedgerOf(c, Book([1, 3], Drafts(UPLOADED, Draft(false)), true, [3])))
  {
    t := BothUploaded(strip, c);
    t := ThenAnalyse(strip, c, Book([1], Drafts(UPLOADED, UPLOADED), true, []), t, 3);
    assert [1] + [3] == [1, 3] && [] + [3] == [3];
    assert Drafts(UPLOADED, UPLOADED)[3 := Draft(false)] == Drafts(UPLOADED, Draft(false));
    t := ThenApply(strip, c, Book([1, 3], Drafts(UPLOADED, Draft(false)), true, []), t, 3);
  }
}
