/** A run in which purging a version from the trash takes a signed section away, so that the
    resolver preserves a seal whose content changed. */
module SealPurge {
  import opened Comparison
  import opened Invalidation
  import opened SectionStore
  import opened SealLedger
  import opened SealScene

  function OldRows(c: Scene): map<SectionId, Row> { RowsOf(c, 0, 1) }

  function FirstSnaps(c: Scene): map<SnapKey, Snap> { map[SnapKey(1, 0) := SnapIn(c, c.signed)] }

  function BothSnaps(c: Scene): map<SnapKey, Snap> {
    map[SnapKey(1, 0) := SnapIn(c, c.signed), SnapKey(2, 0) := SnapIn(c, c.signed)]
  }

  function SealOn(c: Scene, covers: set<SectionId>): Seal { Seal(2, c.p, false, false, map[0 := c.signed], covers) }

  // The ledger after each event.

  function L1(): Ledger { Ledger(map[], map[], map[1 := UPLOADED], map[], map[]) }

  function L2(c: Scene): Ledger { Ledger(OldRows(c), FirstSnaps(c), map[1 := Draft(false)], map[], map[]) }

  function L3(c: Scene): Ledger { Ledger(OldRows(c), FirstSnaps(c), map[1 := Draft(true)], map[], map[]) }

  function L4(c: Scene): Ledger {
    Ledger(OldRows(c), FirstSnaps(c), map[1 := Draft(true), 2 := UPLOADED], map[], map[])
  }

  function L5(c: Scene): Ledger {
    Ledger(OldRows(c), BothSnaps(c), map[1 := Draft(true), 2 := Draft(false)], map[], map[])
  }

  function L6(c: Scene): Ledger {
    Ledger(OldRows(c), BothSnaps(c), map[1 := Draft(true), 2 := Draft(false)], map[0 := SealOn(c, {0})], map[])
  }

  /** Version 1 is gone, its section with it, and the seal covers nothing any more. */
  function L7(c: Scene): Ledger {
    Ledger(map[], map[], map[2 := Draft(false)], map[0 := SealOn(c, {})], map[])
  }

  function L8(c: Scene): Ledger {
    Ledger(map[], map[], map[2 := Draft(false), 3 := UPLOADED], map[0 := SealOn(c, {})], map[])
  }

  /** Version 3: the same heading over another body. */
  function L9(c: Scene): Ledger {
    Ledger(RowsOf(c, 1, 3), map[SnapKey(3, 1) := SnapIn(c, c.other)],
           map[2 := Draft(false), 3 := Draft(false)], map[0 := SealOn(c, {})], map[])
  }

  function Analyse1(c: Scene): Event { Analyse(1, true, OldRows(c), FirstSnaps(c)) }

  function Analyse2(c: Scene): Event { Analyse(2, true, OldRows(c), BothSnaps(c)) }

  function Analyse3(c: Scene): Event { Analyse(3, true, L9(c).rows, L9(c).snaps) }

  function Seal2(c: Scene): Event { CreateSeal(0, c.p, 2, false, {c.k}) }

  lemma Leads1(strip: Stripper)
    ensures Leads(strip, EMPTY, Upload(1, Auto), L1())
  {
  }

  lemma Leads2(strip: Stripper, c: Scene)
    ensures Leads(strip, L1(), Analyse1(c), L2(c))
  {
  }

  lemma Leads3(strip: Stripper, c: Scene)
    ensures Leads(strip, L2(c), Trash(1), L3(c))
  {
  }

  lemma Leads4(strip: Stripper, c: Scene)
    ensures Leads(strip, L3(c), Upload(2, Auto), L4(c))
  {
  }

  lemma Leads5(strip: Stripper, c: Scene)
    ensures Leads(strip, L4(c), Analyse2(c), L5(c))
  {
  }

  lemma Leads6(strip: Stripper, c: Scene)
    ensures Leads(strip, L5(c), Seal2(c), L6(c))
  {
    var l := L5(c);
    assert Consistent(l);
    KeyedAtHas(l, 2, 0);
    OnlySection(c);
    assert NewSeal(l, c.p, 2, false, {c.k}) == SealOn(c, {0});
  }

  lemma OnlySection(c: Scene)
    ensures Consistent(L5(c)) && Chosen(L5(c), 2, false, {c.k}) == {0}
  {
    AtIff(L5(c).snaps, 2, 0);
  }

  lemma Leads7(strip: Stripper, c: Scene)
    ensures Leads(strip, L6(c), Purge(1), L7(c))
  {
    var l := L6(c);
    PurgedTables(c);
    assert PurgeSeals(l, 1) == L7(c).seals;
    assert l.versions - {1} == L7(c).versions;
  }

  lemma PurgedTables(c: Scene)
    ensures PurgeRows(OldRows(c), 1) == map[] && PurgeSnaps(L6(c), 1) == map[]
    ensures PurgeSeal(L6(c), SealOn(c, {0}), 1) == SealOn(c, {})
  {
  }

  lemma Leads8(strip: Stripper, c: Scene)
    ensures Leads(strip, L7(c), Upload(3, Auto), L8(c))
  {
  }

  lemma Leads9(strip: Stripper, c: Scene)
    ensures Leads(strip, L8(c), Analyse3(c), L9(c))
  {
  }

  /** A seal with no rows left is preserved whatever became of the document. */
  lemma EmptySealKept(strip: Stripper, l: Ledger, id: nat, n: nat)
    requires Sound(l) && id in l.seals && !l.seals[id].coversAll && l.seals[id].covers == {} && n in l.versions
    ensures RecordFor(strip, l, id, n) == Record(Preserved, Preserved, false)
  {
    assert CoveredNow(l, l.seals[id]) == map[];
    HeldIsKept(strip, l, id, n);
  }

  function L10(c: Scene): Ledger { L9(c).(records := map[RecordKey(0, 3) := Record(Preserved, Preserved, false)]) }

  lemma ThirdIsSound(c: Scene)
    ensures Sound(L9(c))
  {
    assert RowsThere(L9(c), SealOn(c, {}));
  }

  lemma ThirdCanBeDecided(c: Scene)
    ensures Can(L9(c), Apply(3)) && IsPrevious(L9(c), 2, 3)
  {
    assert IsPrevious(L9(c), 2, 3);
  }

  lemma OneConcerned(c: Scene)
    requires IsPrevious(L9(c), 2, 3)
    ensures Due(L9(c), 3) == {RecordKey(0, 3)}
  {
    assert Concerned(L9(c), 0, 3);
  }

  lemma OneRecord(strip: Stripper, c: Scene)
    requires Sound(L9(c)) && IsPrevious(L9(c), 2, 3)
    ensures RecordsAfter(strip, L9(c), 3) == L10(c).records
  {
    EmptySealKept(strip, L9(c), 0, 3);
    OneConcerned(c);
    OneDecided(strip, L9(c), 0, 3, Record(Preserved, Preserved, false));
  }

  lemma Leads10(strip: Stripper, c: Scene)
    ensures Leads(strip, L9(c), Apply(3), L10(c))
  {
    ThirdIsSound(c);
    ThirdCanBeDecided(c);
    OneRecord(strip, c);
  }

  lemma Outcome(c: Scene)
    ensures var end := L10(c);
            && 0 in end.seals && RecordKey(0, 3) in end.records
            && end.records[RecordKey(0, 3)] == Record(Preserved, Preserved, false) && ValidAt(end, 0, 3)
            && !StandsAt(end, end.seals[0], 3)
  {
    var end := L10(c);
    assert 0 in end.seals[0].signed && SnapKey(3, 0) !in end.snaps;
  }

  lemma Begins(strip: Stripper, c: Scene) returns (t: Tale)
    ensures Told(strip, t, L5(c))
  {
    Leads1(strip);
    t := Then(strip, BEGINNING, EMPTY, Upload(1, Auto), L1());
    Leads2(strip, c);
    NewSection(L1(), 1, c, c.signed, 0, Analyse1(c));
    t := Then(strip, t, L1(), Analyse1(c), L2(c));
    Leads3(strip, c);
    t := Then(strip, t, L2(c), Trash(1), L3(c));
    Leads4(strip, c);
    t := Then(strip, t, L3(c), Upload(2, Auto), L4(c));
    Leads5(strip, c);
    KnownSection(L4(c), 2, c, c.signed, 1, Analyse2(c));
    t := Then(strip, t, L4(c), Analyse2(c), L5(c));
  }

  lemma Ends(strip: Stripper, c: Scene, before: Tale) returns (t: Tale)
    requires Told(strip, before, L5(c))
    ensures Told(strip, t, L10(c))
  {
    Leads6(strip, c);
    t := Then(strip, before, L5(c), Seal2(c), L6(c));
    Leads7(strip, c);
    t := Then(strip, t, L6(c), Purge(1), L7(c));
    Leads8(strip, c);
    t := Then(strip, t, L7(c), Upload(3, Auto), L8(c));
    Leads9(strip, c);
    NewSection(L8(c), 3, c, c.other, 1, Analyse3(c));
    t := Then(strip, t, L8(c), Analyse3(c), L9(c));
    Leads10(strip, c);
    t := Then(strip, t, L9(c), Apply(3), L10(c));
  }

  /** A section brought in by a draft that was thrown away, signed in the next version: purging
      the draft takes it from under the seal, and a version with another body under the same
      heading is recorded as preserving the seal, by the resolver itself. */
  lemma HarmfulPurge(strip: Stripper, c: Scene) returns (t: Tale)
    ensures FairTrace(strip, t.ledgers, t.events)
    ensures var end := End(t.ledgers);
            && 0 in end.seals && RecordKey(0, 3) in end.records
            && end.records[RecordKey(0, 3)] == Record(Preserved, Preserved, false) && ValidAt(end, 0, 3)
            && !StandsAt(end, end.seals[0], 3)
  {
    t := Begins(strip, c);
    t := Ends(strip, c, t);
    Outcome(c);
  }
}
