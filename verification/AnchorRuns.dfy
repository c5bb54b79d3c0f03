/** Complete histories of one observed section, every analysis as it is stored, in which what anchors
    say by version number is not what happened. */
module AnchorRuns {
  import opened Sections
  import opened SectionStore
  import opened Anchors
  import opened AnchorOrder

  /** An analysis that finds one section: which version, which section, its body and place. */
  datatype Entry = Entry(version: nat, section: SectionId, hash: Hash, at: Place)

  const TITLE := Heading([])

  const TEXT := Body([])

  function PayloadFor(key: string, h: Hash): Payload { Payload(Key(key), TITLE, h, TEXT, 0) }

  function KeyOf(e: Entry): SnapKey { SnapKey(e.version, e.section) }

  function ShotFor(e: Entry): Shot { Shot(Snap(TITLE, e.hash, TEXT, 0), e.at) }

  function ShotsAt(es: seq<Entry>): Shots {
    if es == [] then map[] else ShotsAt(es[..|es| - 1])[KeyOf(es[|es| - 1]) := ShotFor(es[|es| - 1])]
  }

  ghost predicate Apart(es: seq<Entry>) {
    forall i, j :: 0 <= i < j < |es| ==> es[i].version != es[j].version
  }

  lemma {:induction false} EntryIn(es: seq<Entry>, i: nat)
    requires Apart(es) && i < |es|
    ensures KeyOf(es[i]) in ShotsAt(es) && ShotsAt(es)[KeyOf(es[i])] == ShotFor(es[i])
  {
    if i < |es| - 1 { EntryIn(es[..|es| - 1], i); }
  }

  lemma {:induction false} OnlyEntriesIn(es: seq<Entry>, k: SnapKey)
    requires forall e :: e in es ==> KeyOf(e) != k
    ensures k !in ShotsAt(es)
  {
    if es != [] { OnlyEntriesIn(es[..|es| - 1], k); }
  }

  lemma OneMore(es: seq<Entry>, e: Entry)
    requires forall x :: x in es ==> x.version != e.version
    ensures ShotsAt(es + [e]) == ShotsAt(es)[KeyOf(e) := ShotFor(e)] && KeyOf(e) !in ShotsAt(es)
  {
    assert (es + [e])[..|es|] == es;
    OnlyEntriesIn(es, KeyOf(e));
  }

  lemma ApartMore(es: seq<Entry>, e: Entry)
    requires Apart(es) && forall x :: x in es ==> x.version != e.version
    ensures Apart(es + [e])
  {
    assert forall i :: 0 <= i < |es| ==> es[i] in es && (es + [e])[i] == es[i];
  }

  // ---- boards ----

  /** An observation of the first section and its anchors, if there is one yet. */
  datatype Note = Note(created: nat, since: nat, anchors: Anchored) | NoNote

  /** What a board of these histories is made of. */
  datatype Stage = Stage(rows: map<SectionId, Row>, es: seq<Entry>, when: map<nat, nat>, passed: map<nat, nat>,
                         clock: nat, due: set<nat>, trashed: set<nat>, note: Note)

  function OnStage(s: Stage): Board {
    Board(s.rows, ShotsAt(s.es), s.when, s.passed, s.clock, s.due, s.trashed,
          if s.note.Note? then map[0 := Observation(Some(0), s.note.created)] else map[],
          if s.note.Note? then map[0 := s.note.since] else map[], if s.note.Note? then s.note.anchors else map[])
  }

  ghost predicate Reaches(history: seq<Board>, s: Stage) {
    Apart(s.es) && History(history) && history[|history| - 1] == OnStage(s)
  }

  lemma Longer(history: seq<Board>, b: Board) returns (longer: seq<Board>)
    requires History(history) && Next(history[|history| - 1], b)
    ensures History(longer) && longer[|longer| - 1] == b
  {
    longer := history + [b];
  }

  // ---- an analysis of one section is stored ----

  lemma StoredOne(b: Board, d: Board, t: Task, run: Run, i: SectionId, shot: Shot)
    requires StoredAs(t, run) && |t.payloads| == 1 && run.made == [i]
    requires t.rows == b.rows && t.snaps == SnapsOf(b.shots) && d.rows == RowsAfter(t, run)
    requires d.shots == b.shots[SnapKey(t.v, i) := shot] && shot.snap == SnapOf(t.payloads[0])
    requires SnapKey(t.v, i) !in b.shots
    ensures AnalysisStored(b, d, t.v)
  {
    OneSnap(t, i);
    assert SnapsOf(d.shots) == SnapsOf(b.shots)[SnapKey(t.v, i) := shot.snap];
    assert StoredBy(b, d, t.v, t, run);
  }

  lemma OneTask(b: Board, next: SectionId, n: nat, p: Payload) returns (t: Task)
    requires UniqueKeys(b.rows) && forall i :: i in b.rows ==> i < next
    ensures Ready(t) && t.rows == b.rows && t.snaps == SnapsOf(b.shots) && t.v == n && t.next == next
    ensures t.payloads == [p]
  {
    t := TaskOf(b.rows, next, [], SnapsOf(b.shots), n, [p]);
    TaskIsReady(b.rows, next, [], SnapsOf(b.shots), n, [p]);
  }

  lemma NoneStale(t: Task, run: Run, i: SectionId)
    requires run.made == [i] && forall j :: j in t.rows ==> j == i
    ensures RowsAfter(t, run) == run.rows
  {
    assert Stale(t, run) == {};
  }

  /** The first section, there since version `v`. */
  function Alone(v: nat): map<SectionId, Row> { map[0 := Row(Key("a"), TITLE, v, None)] }

  /** And the second, there instead of it since version 2. */
  function Instead(v: nat): map<SectionId, Row> {
    map[0 := Row(Key("a"), TITLE, v, Some(2)), 1 := Row(Key("b"), TITLE, 2, None)]
  }

  lemma StoredFirst(b: Board, d: Board, e: Entry)
    requires b.rows == map[] && b.shots == map[] && e.section == 0
    requires d.rows == Alone(e.version) && d.shots == map[KeyOf(e) := ShotFor(e)]
    ensures AnalysisStored(b, d, e.version)
  {
    var t := OneTask(b, 0, e.version, PayloadFor("a", e.hash));
    assert e.hash !in t.byHash;
    var run := NewAlone(t, PayloadFor("a", e.hash));
    NoneStale(t, run, 0);
    StoredOne(b, d, t, run, 0, ShotFor(e));
  }

  lemma StoredKnown(b: Board, d: Board, v: nat, e: Entry)
    requires b.rows == d.rows == Alone(v) && e.section == 0
    requires KeyOf(e) !in b.shots && d.shots == b.shots[KeyOf(e) := ShotFor(e)]
    ensures AnalysisStored(b, d, e.version)
  {
    var t := OneTask(b, 1, e.version, PayloadFor("a", e.hash));
    assert Alive(t.rows, 0);
    var run := KnownAlone(t, PayloadFor("a", e.hash), 0);
    NoneStale(t, run, 0);
    StoredOne(b, d, t, run, 0, ShotFor(e));
  }

  /** Version 2 has another section instead, with a body that the first one did not have. */
  lemma StoredInstead(b: Board, d: Board, v: nat, e: Entry)
    requires b.rows == Alone(v) && d.rows == Instead(v) && e.section == 1 && e.version == 2
    requires SnapKey(1, 0) in b.shots && b.shots[SnapKey(1, 0)].snap.bodyHash != e.hash
    requires KeyOf(e) !in b.shots && d.shots == b.shots[KeyOf(e) := ShotFor(e)]
    ensures AnalysisStored(b, d, 2)
  {
    var t := OneTask(b, 1, 2, PayloadFor("b", e.hash));
    assert Latest(t.snaps, 0, 2) == Some(b.shots[SnapKey(1, 0)].snap.bodyHash);
    var run := InsteadRun(t, v, PayloadFor("b", e.hash));
    StoredOne(b, d, t, run, 1, ShotFor(e));
  }

  lemma InsteadRun(t: Task, v: nat, p: Payload) returns (run: Run)
    requires Ready(t) && t.rows == Alone(v) && t.v == 2 && t.next == 1 && t.payloads == [p]
    requires p.key == Key("b") && p.heading == TITLE && Latest(t.snaps, 0, 2) != Some(p.bodyHash)
    ensures StoredAs(t, run) && run.made == [1] && RowsAfter(t, run) == Instead(v)
  {
    assert p.bodyHash !in t.byHash;
    run := NewAlone(t, p);
    assert Stale(t, run) == {0};
  }

  // ---- histories, told step by step ----

  function Opening(e: Entry): Stage { Stage(Alone(e.version), [e], map[e.version := 0], map[], 1, {}, {}, NoNote) }

  lemma Begin(e: Entry) returns (history: seq<Board>, now: Stage)
    requires e.version > 0 && e.section == 0
    ensures now == Opening(e) && Reaches(history, now)
  {
    now := Opening(e);
    OneMore([], e);
    assert [] + [e] == [e];
    StoredFirst(BLANK, OnStage(Opening(e)), e);
    assert Analysed(BLANK, OnStage(Opening(e)), e.version);
    history := Longer([BLANK], OnStage(Opening(e)));
  }

  function Stored(s: Stage, rows: map<SectionId, Row>, e: Entry): Stage {
    s.(rows := rows, es := s.es + [e], when := s.when[e.version := s.clock], clock := s.clock + 1)
  }

  ghost predicate IsNew(s: Stage, e: Entry) {
    e.version > 0 && e.version !in s.when && forall x :: x in s.es ==> x.version != e.version
  }

  lemma StoredNext(before: seq<Board>, s: Stage, rows: map<SectionId, Row>, e: Entry) returns (history: seq<Board>)
    requires Reaches(before, s) && IsNew(s, e)
    requires AnalysisStored(OnStage(s), OnStage(Stored(s, rows, e)), e.version)
    ensures Reaches(history, Stored(s, rows, e))
  {
    ApartMore(s.es, e);
    assert Analysed(OnStage(s), OnStage(Stored(s, rows, e)), e.version);
    history := Longer(before, OnStage(Stored(s, rows, e)));
  }

  /** The section is found in one more version. */
  lemma ThenStored(before: seq<Board>, s: Stage, v: nat, e: Entry) returns (history: seq<Board>, now: Stage)
    requires Reaches(before, s) && IsNew(s, e) && s.rows == Alone(v) && e.section == 0
    ensures now == Stored(s, Alone(v), e) && Reaches(history, now)
  {
    now := Stored(s, Alone(v), e);
    OneMore(s.es, e);
    StoredKnown(OnStage(s), OnStage(Stored(s, Alone(v), e)), v, e);
    history := StoredNext(before, s, Alone(v), e);
  }

  /** Version 2 has another one instead. */
  lemma ThenInstead(before: seq<Board>, s: Stage, e: Entry) returns (history: seq<Board>, now: Stage)
    requires Reaches(before, s) && IsNew(s, e) && s.rows == Alone(1) && e.section == 1 && e.version == 2
    requires |s.es| > 0 && KeyOf(s.es[0]) == SnapKey(1, 0) && s.es[0].hash != e.hash
    ensures now == Stored(s, Instead(1), e) && Reaches(history, now)
  {
    now := Stored(s, Instead(1), e);
    OneMore(s.es, e);
    EntryIn(s.es, 0);
    StoredInstead(OnStage(s), OnStage(Stored(s, Instead(1), e)), 1, e);
    history := StoredNext(before, s, Instead(1), e);
  }

  /** The anchors after one more version was gone through. */
  function NotedOn(note: Note, shots: Shots, n: nat): Note {
    if note.Note? && AnchorKey(0, n) !in note.anchors then
      var made := AnchorFor(shots, note.anchors, 0, Observation(Some(0), note.created), n);
      note.(anchors := note.anchors[AnchorKey(0, n) := made])
    else note
  }

  function Went(s: Stage, n: nat): Stage {
    s.(due := s.due + {n}, passed := s.passed[n := s.clock], clock := s.clock + 1,
       note := NotedOn(s.note, ShotsAt(s.es), n))
  }

  function Due(s: Stage, n: nat): Stage { s.(due := s.due + {n}) }

  lemma ThenDue(before: seq<Board>, s: Stage, n: nat, previous: nat) returns (history: seq<Board>)
    requires Reaches(before, s) && n in s.when
    requires previous in s.when && previous < n && previous !in s.trashed
    ensures Reaches(history, Due(s, n))
  {
    assert HasPrevious(OnStage(s), n);
    assert Compared(OnStage(s), OnStage(Due(s, n)), n);
    history := Longer(before, OnStage(Due(s, n)));
  }

  lemma NotedReanchors(note: Note, s: Stage, n: nat)
    requires note == NotedOn(s.note, ShotsAt(s.es), n)
    ensures var (b, d) := (OnStage(s), OnStage(s.(note := note)));
            && d.observations == b.observations && d.since == b.since
            && ReanchoredTo(b.anchors, d.anchors, b.shots, b.observations, b.observations.Keys, n)
  {
  }

  /** A version finds one to be compared with, and is gone through. */
  lemma ThenWent(before: seq<Board>, s: Stage, n: nat, previous: nat)
    returns (history: seq<Board>, now: Stage)
    requires Reaches(before, s) && n in s.when && n !in s.passed
    requires previous in s.when && previous < n && previous !in s.trashed
    ensures now == Went(s, n) && Reaches(history, now)
  {
    now := Went(s, n);
    history := ThenDue(before, s, n, previous);
    NotedReanchors(now.note, Due(s, n), n);
    assert Advanced(OnStage(Due(s, n)), OnStage(now), n);
    history := Longer(history, OnStage(now));
  }

  function FirstAnchor(v: nat, at: Place): Anchored { map[AnchorKey(0, v) := Anchor(at, Exact)] }

  function Noted(s: Stage, e: Entry): Stage { s.(note := Note(e.version, s.clock, FirstAnchor(e.version, e.at))) }

  /** The section is observed in a version. */
  lemma ThenNoted(before: seq<Board>, s: Stage, i: nat) returns (history: seq<Board>, now: Stage)
    requires Reaches(before, s) && s.note == NoNote && i < |s.es| && s.es[i].section == 0
    ensures now == Noted(s, s.es[i]) && Reaches(history, now)
  {
    now := Noted(s, s.es[i]);
    EntryIn(s.es, i);
    assert Observed(OnStage(s), OnStage(Noted(s, s.es[i])), 0, Observation(Some(0), s.es[i].version), s.es[i].at);
    history := Longer(before, OnStage(Noted(s, s.es[i])));
  }

  lemma ThenTrashed(before: seq<Board>, s: Stage, more: set<nat>) returns (history: seq<Board>, now: Stage)
    requires Reaches(before, s)
    ensures now == s.(trashed := more) && Reaches(history, now)
  {
    now := s.(trashed := more);
    assert Shifted(OnStage(s), OnStage(s.(trashed := more)));
    history := Longer(before, OnStage(s.(trashed := more)));
  }

  /** The first section was observed on the version `created`; the versions were analysed at the one
      times and gone through at the other. */
  ghost predicate Tells(history: seq<Board>, end: Board, created: nat, when: map<nat, nat>, passed: map<nat, nat>) {
    && History(history) && history[|history| - 1] == end && Good(end)
    && end.observations == map[0 := Observation(Some(0), created)] && end.when == when && end.passed == passed
  }

  lemma Telling(history: seq<Board>, s: Stage)
    requires Reaches(history, s) && s.note.Note?
    ensures Tells(history, OnStage(s), s.note.created, s.when, s.passed)
  {
    HistoryIsGood(history, |history| - 1);
  }

  // ---- two histories in which an exact anchor is over another body ----

  /** What an analysis finds of the first section. */
  datatype Finding = Finding(hash: Hash, at: Place)

  function In(v: nat, x: Finding): Entry { Entry(v, 0, x.hash, x.at) }

  function OneTwoThree(x1: Finding, x2: Finding, x3: Finding): seq<Entry> { [In(1, x1), In(2, x2), In(3, x3)] }

  ghost predicate OverAnotherBody(b: Board, o: nat, n: nat) {
    && o in b.observations && b.observations[o].section.Some? && MadeExact(b, o, n)
    && !Faithful(b, o, n, RootOf(b, o, n))
  }

  /** With anchors on versions 1 and 3 only, the one on 3 is where the one on 1 was. */
  function OnThird(x1: Finding): Anchored { FirstAnchor(1, x1.at)[AnchorKey(0, 3) := Anchor(x1.at, Exact)] }

  lemma MadeOnThird(x1: Finding, x2: Finding, x3: Finding, since: nat)
    requires x2.hash == x3.hash
    ensures NotedOn(Note(1, since, FirstAnchor(1, x1.at)), ShotsAt(OneTwoThree(x1, x2, x3)), 3)
            == Note(1, since, OnThird(x1))
  {
    EntryIn(OneTwoThree(x1, x2, x3), 1);
    EntryIn(OneTwoThree(x1, x2, x3), 2);
    assert LastBefore(FirstAnchor(1, x1.at), 0, 3) == Some(1);
  }

  lemma BodiesDiffer(x1: Finding, x2: Finding, x3: Finding, b: Board)
    requires x1.hash != x3.hash && b.shots == ShotsAt(OneTwoThree(x1, x2, x3))
    requires 0 in b.observations && b.observations[0].section == Some(0)
    ensures BodyAt(b, 0, 1) != BodyAt(b, 0, 3)
  {
    EntryIn(OneTwoThree(x1, x2, x3), 0);
    EntryIn(OneTwoThree(x1, x2, x3), 2);
  }

  lemma RootIsFirst(b: Board)
    requires Good(b) && b.observations == map[0 := Observation(Some(0), 1)] && MadeExact(b, 0, 3)
    requires forall k :: k in b.anchors ==> k.version in {1, 3}
    ensures RootOf(b, 0, 3) == 1
  {
    IsAnchored(b, 0, 3);
    SourceSide(b, 0, 3);
    SourceIsAnchor(b, 0, 3);
  }

  lemma ThirdIsOver(x1: Finding, x2: Finding, x3: Finding, s: Stage)
    requires x1.hash != x2.hash == x3.hash && s.es == OneTwoThree(x1, x2, x3) && Good(OnStage(s))
    requires s.note.Note? && s.note == Note(1, s.note.since, OnThird(x1))
    ensures OverAnotherBody(OnStage(s), 0, 3)
  {
    BodiesDiffer(x1, x2, x3, OnStage(s));
    RootIsFirst(OnStage(s));
  }

  lemma TwoFound(x1: Finding, x2: Finding) returns (history: seq<Board>, s: Stage)
    ensures Reaches(history, s)
    ensures s == Stage(Alone(1), [In(1, x1), In(2, x2)], map[1 := 0, 2 := 1], map[2 := 2], 3, {2}, {}, NoNote)
  {
    history, s := Begin(In(1, x1));
    history, s := ThenStored(history, s, 1, In(2, x2));
    history, s := ThenWent(history, s, 2, 1);
  }

  lemma ObservedLate(x1: Finding, x2: Finding, x3: Finding) returns (history: seq<Board>, s: Stage)
    requires x2.hash == x3.hash
    ensures Reaches(history, s) && s.es == OneTwoThree(x1, x2, x3) && s.note == Note(1, 3, OnThird(x1))
    ensures s.when == map[1 := 0, 2 := 1, 3 := 3] && s.passed == map[2 := 2, 3 := 4] && s.trashed == {}
  {
    history, s := TwoFound(x1, x2);
    history, s := ThenNoted(history, s, 0);
    history, s := ThenStored(history, s, 1, In(3, x3));
    history, s := ThenWent(history, s, 3, 2);
    MadeOnThird(x1, x2, x3, 3);
  }

  /** Made on version 1 when version 2 had already changed the section, an observation is
      anchored on version 3 as exact, at the place it had over the old body. */
  lemma LateObservationIsNotFaithful(x1: Finding, x2: Finding, x3: Finding) returns (history: seq<Board>, end: Board)
    requires x1.hash != x2.hash == x3.hash
    ensures Tells(history, end, 1, map[1 := 0, 2 := 1, 3 := 3], map[2 := 2, 3 := 4])
    ensures end.trashed == {} && OverAnotherBody(end, 0, 3)
  {
    var s;
    history, s := ObservedLate(x1, x2, x3);
    end := OnStage(s);
    Telling(history, s);
    ThirdIsOver(x1, x2, x3, s);
  }

  lemma ObservedThenTrashed(x1: Finding, x2: Finding, x3: Finding) returns (history: seq<Board>, s: Stage)
    requires x2.hash == x3.hash
    ensures Reaches(history, s) && s.es == OneTwoThree(x1, x2, x3) && s.note == Note(1, 1, OnThird(x1))
    ensures s.when == map[1 := 0, 2 := 1, 3 := 2] && s.passed == map[3 := 3]
  {
    history, s := Begin(In(1, x1));
    history, s := ThenNoted(history, s, 0);
    history, s := ThenTrashed(history, s, {1});
    history, s := ThenStored(history, s, 1, In(2, x2));
    history, s := ThenStored(history, s, 1, In(3, x3));
    history, s := ThenWent(history, s, 3, 2);
    MadeOnThird(x1, x2, x3, 1);
  }

  /** Made on the newest version, which then goes to the trash: version 2 finds none to be compared
      with and gets no anchor, and version 3 an exact one over the body that version 2 brought. */
  lemma TrashedFirstIsNotFaithful(x1: Finding, x2: Finding, x3: Finding) returns (history: seq<Board>, end: Board)
    requires x1.hash != x2.hash == x3.hash
    ensures Tells(history, end, 1, map[1 := 0, 2 := 1, 3 := 2], map[3 := 3])
    ensures end.since == map[0 := 1] && OverAnotherBody(end, 0, 3)
  {
    var s;
    history, s := ObservedThenTrashed(x1, x2, x3);
    end := OnStage(s);
    Telling(history, s);
    ThirdIsOver(x1, x2, x3, s);
  }

  // ---- four histories in which version 2 is analysed last ----

  function OneThreeTwo(x1: Finding, x2: Finding, x3: Finding): seq<Entry> { [In(1, x1), In(3, x3), In(2, x2)] }

  lemma OneAndThree(x1: Finding, x3: Finding) returns (history: seq<Board>, s: Stage)
    ensures Reaches(history, s)
    ensures s == Stage(Alone(1), [In(1, x1), In(3, x3)], map[1 := 0, 3 := 1], map[3 := 2], 3, {3}, {}, NoNote)
  {
    history, s := Begin(In(1, x1));
    history, s := ThenStored(history, s, 1, In(3, x3));
    history, s := ThenWent(history, s, 3, 1);
  }

  function AlsoOnSecond(x2: Finding, x3: Finding): Anchored {
    FirstAnchor(3, x3.at)[AnchorKey(0, 2) := Anchor(x2.at, Exact)]
  }

  lemma MadeBelow(x1: Finding, x2: Finding, x3: Finding)
    requires x2.hash == x1.hash
    ensures NotedOn(Note(3, 3, FirstAnchor(3, x3.at)), ShotsAt(OneThreeTwo(x1, x2, x3)), 2)
            == Note(3, 3, AlsoOnSecond(x2, x3))
  {
    EntryIn(OneThreeTwo(x1, x2, x3), 0);
    EntryIn(OneThreeTwo(x1, x2, x3), 2);
    assert LastBefore(FirstAnchor(3, x3.at), 0, 2) == None;
  }

  lemma ObservedAbove(x1: Finding, x2: Finding, x3: Finding) returns (history: seq<Board>, s: Stage)
    requires x2.hash == x1.hash
    ensures Reaches(history, s) && s.note == Note(3, 3, AlsoOnSecond(x2, x3))
    ensures s.when == map[1 := 0, 3 := 1, 2 := 3] && s.passed == map[3 := 2, 2 := 4]
  {
    history, s := OneAndThree(x1, x3);
    history, s := ThenNoted(history, s, 1);
    history, s := ThenStored(history, s, 1, In(2, x2));
    history, s := ThenWent(history, s, 2, 1);
    MadeBelow(x1, x2, x3);
    assert s.es == OneThreeTwo(x1, x2, x3);
  }

  lemma NoSourceBelow(b: Board)
    requires Good(b) && b.observations == map[0 := Observation(Some(0), 3)] && MadeExact(b, 0, 2)
    requires forall k :: k in b.anchors ==> k.version in {2, 3}
    ensures RootOf(b, 0, 2) == 2
  {
    IsAnchored(b, 0, 2);
    if Source(b, 0, 2).Some? { SourceIsAnchor(b, 0, 2); }
  }

  /** An anchor on a version numbered below the one the observation was made on is exact without
      one to go by: its place is neither where the observation was made nor where it was
      re-anchored. */
  lemma ExactWithoutSource(x1: Finding, x2: Finding, x3: Finding) returns (history: seq<Board>, end: Board)
    requires x2.hash == x1.hash
    ensures Tells(history, end, 3, map[1 := 0, 3 := 1, 2 := 3], map[3 := 2, 2 := 4])
    ensures MadeExact(end, 0, 2) && RootOf(end, 0, 2) == 2 && PlaceOn(end, 0, 2) == x2.at
  {
    var s;
    history, s := ObservedAbove(x1, x2, x3);
    end := OnStage(s);
    Telling(history, s);
    NoSourceBelow(end);
  }

  function OneThreeFour(x1: Finding, x3: Finding, x4: Finding): seq<Entry> { [In(1, x1), In(3, x3), In(4, x4)] }

  function OnFourth(x1: Finding): Anchored { FirstAnchor(1, x1.at)[AnchorKey(0, 4) := Anchor(x1.at, Exact)] }

  lemma MadeOnFourth(x1: Finding, x3: Finding, x4: Finding)
    requires x3.hash == x4.hash
    ensures NotedOn(Note(1, 3, FirstAnchor(1, x1.at)), ShotsAt(OneThreeFour(x1, x3, x4)), 4) == Note(1, 3, OnFourth(x1))
  {
    EntryIn(OneThreeFour(x1, x3, x4), 1);
    EntryIn(OneThreeFour(x1, x3, x4), 2);
    assert LastBefore(FirstAnchor(1, x1.at), 0, 4) == Some(1);
  }

  lemma FourthFound(x1: Finding, x3: Finding, x4: Finding) returns (history: seq<Board>, s: Stage)
    requires x3.hash == x4.hash
    ensures Reaches(history, s)
    ensures s == Stage(Alone(1), OneThreeFour(x1, x3, x4), map[1 := 0, 3 := 1, 4 := 3], map[3 := 2, 4 := 4], 5, {3, 4},
                       {}, Note(1, 3, OnFourth(x1)))
  {
    history, s := OneAndThree(x1, x3);
    history, s := ThenNoted(history, s, 0);
    history, s := ThenStored(history, s, 1, In(4, x4));
    assert s.es == OneThreeFour(x1, x3, x4);
    history, s := ThenWent(history, s, 4, 3);
    MadeOnFourth(x1, x3, x4);
  }

  function SecondLast(x1: Finding, x2: Finding, x3: Finding, x4: Finding): seq<Entry> {
    [In(1, x1), In(3, x3), In(4, x4), In(2, x2)]
  }

  function Skipping(x1: Finding, x2: Finding): Anchored { OnFourth(x1)[AnchorKey(0, 2) := Anchor(x2.at, Reanchored)] }

  lemma MadeOnSecond(x1: Finding, x2: Finding, x3: Finding, x4: Finding)
    requires x2.hash != x1.hash
    ensures NotedOn(Note(1, 3, OnFourth(x1)), ShotsAt(SecondLast(x1, x2, x3, x4)), 2) == Note(1, 3, Skipping(x1, x2))
  {
    EntryIn(SecondLast(x1, x2, x3, x4), 0);
    EntryIn(SecondLast(x1, x2, x3, x4), 3);
  }

  lemma SecondFoundLast(x1: Finding, x2: Finding, x3: Finding, x4: Finding) returns (history: seq<Board>, s: Stage)
    requires x3.hash == x4.hash && x2.hash != x1.hash
    ensures Reaches(history, s) && s.es == SecondLast(x1, x2, x3, x4) && s.note == Note(1, 3, Skipping(x1, x2))
    ensures s.when == map[1 := 0, 3 := 1, 4 := 3, 2 := 5] && s.passed == map[3 := 2, 4 := 4, 2 := 6]
  {
    history, s := FourthFound(x1, x3, x4);
    history, s := ThenStored(history, s, 1, In(2, x2));
    assert s.es == SecondLast(x1, x2, x3, x4);
    history, s := ThenWent(history, s, 2, 1);
    MadeOnSecond(x1, x2, x3, x4);
  }

  lemma SkippedIs(x1: Finding, x2: Finding, x3: Finding, x4: Finding, b: Board)
    requires x2.hash == x3.hash && x2.at != x1.at
    requires b.shots == ShotsAt(SecondLast(x1, x2, x3, x4)) && b.anchors == Skipping(x1, x2)
    requires 0 in b.observations && b.observations[0].section == Some(0)
    ensures MadeExact(b, 0, 4) && LastBefore(b.anchors, 0, 4) == Some(2)
    ensures BodyAt(b, 0, 2) == BodyAt(b, 0, 3) && !SamePlace(b, 0, 4, 2)
  {
    EntryIn(SecondLast(x1, x2, x3, x4), 1);
    EntryIn(SecondLast(x1, x2, x3, x4), 3);
  }

  /** An exact anchor is not at the place of the one that now precedes it by number, over the same
      body as the version numbered one less. */
  lemma SkippedByNumber(x1: Finding, x2: Finding, x3: Finding, x4: Finding) returns (history: seq<Board>, end: Board)
    requires x2.hash == x3.hash == x4.hash != x1.hash && x2.at != x1.at
    ensures Tells(history, end, 1, map[1 := 0, 3 := 1, 4 := 3, 2 := 5], map[3 := 2, 4 := 4, 2 := 6])
    ensures MadeExact(end, 0, 4) && LastBefore(end.anchors, 0, 4) == Some(2)
    ensures BodyAt(end, 0, 2) == BodyAt(end, 0, 3) && !SamePlace(end, 0, 4, 2)
  {
    var s;
    history, s := SecondFoundLast(x1, x2, x3, x4);
    end := OnStage(s);
    Telling(history, s);
    SkippedIs(x1, x2, x3, x4, end);
  }

  /** Version 2 with another section. */
  function Other(x2: Finding): Entry { Entry(2, 1, x2.hash, x2.at) }

  function OverThird(x1: Finding, x3: Finding): Anchored {
    FirstAnchor(1, x1.at)[AnchorKey(0, 3) := Anchor(x3.at, Reanchored)]
  }

  function NotOnSecond(anchors: Anchored, x1: Finding): Anchored {
    anchors[AnchorKey(0, 2) := Anchor(Place(x1.at.page, []), Orphaned)]
  }

  lemma MadeOverThird(x1: Finding, x3: Finding)
    ensures NotedOn(Note(1, 1, FirstAnchor(1, x1.at)), ShotsAt([In(1, x1), In(3, x3)]), 3)
            == Note(1, 1, OverThird(x1, x3))
  {
    EntryIn([In(1, x1), In(3, x3)], 1);
    OnlyEntriesIn([In(1, x1), In(3, x3)], SnapKey(2, 0));
  }

  /** With the observation on version 1, one that misses the section is orphaned. */
  lemma MadeMissing(anchors: Anchored, shots: Shots, x1: Finding)
    requires SnapKey(2, 0) !in shots && AnchorKey(0, 2) !in anchors
    requires AnchorKey(0, 1) in anchors && anchors[AnchorKey(0, 1)] == Anchor(x1.at, Exact)
    ensures NotedOn(Note(1, 1, anchors), shots, 2) == Note(1, 1, NotOnSecond(anchors, x1))
  {
    assert LastBefore(anchors, 0, 2) == Some(1);
  }

  lemma ThirdOver(x1: Finding, x3: Finding) returns (history: seq<Board>, s: Stage)
    ensures Reaches(history, s)
    ensures s == Stage(Alone(1), [In(1, x1), In(3, x3)], map[1 := 0, 3 := 1], map[3 := 2], 3, {3}, {},
                       Note(1, 1, OverThird(x1, x3)))
  {
    history, s := Begin(In(1, x1));
    history, s := ThenNoted(history, s, 0);
    history, s := ThenStored(history, s, 1, In(3, x3));
    assert s.es == [In(1, x1), In(3, x3)];
    history, s := ThenWent(history, s, 3, 1);
    MadeOverThird(x1, x3);
  }

  lemma SecondInstead(x1: Finding, x2: Finding, x3: Finding) returns (history: seq<Board>, s: Stage)
    requires x2.hash != x1.hash
    ensures Reaches(history, s) && s.note == Note(1, 1, NotOnSecond(OverThird(x1, x3), x1))
    ensures s.when == map[1 := 0, 3 := 1, 2 := 3] && s.passed == map[3 := 2, 2 := 4]
  {
    history, s := ThirdOver(x1, x3);
    history, s := ThenInstead(history, s, Other(x2));
    OnlyEntriesIn(s.es, SnapKey(2, 0));
    MadeMissing(OverThird(x1, x3), ShotsAt(s.es), x1);
    history, s := ThenWent(history, s, 2, 1);
  }

  /** The observed section is in versions 1 and 3. Version 2 comes late and has another one instead:
      the observation is orphaned there, and on version 3 it is not. */
  lemma OrphanedBelow(x1: Finding, x2: Finding, x3: Finding) returns (history: seq<Board>, end: Board)
    requires x2.hash != x1.hash
    ensures Tells(history, end, 1, map[1 := 0, 3 := 1, 2 := 3], map[3 := 2, 2 := 4])
    ensures IsOrphaned(end, 0, 2) && AnchorKey(0, 3) in end.anchors && !IsOrphaned(end, 0, 3)
  {
    var s;
    history, s := SecondInstead(x1, x2, x3);
    end := OnStage(s);
    Telling(history, s);
  }

  function ThirdAndFourth(x1: Finding, x2: Finding, x3: Finding, x4: Finding): seq<Entry> {
    [In(1, x1), In(3, x3), In(4, x4), Other(x2)]
  }

  lemma ThreeWaiting(x1: Finding, x2: Finding, x3: Finding, x4: Finding) returns (history: seq<Board>, s: Stage)
    requires x2.hash != x1.hash
    ensures Reaches(history, s)
    ensures s == Stage(Instead(1), ThirdAndFourth(x1, x2, x3, x4), map[1 := 0, 3 := 1, 4 := 2, 2 := 3], map[], 4, {},
                       {}, Note(1, 1, FirstAnchor(1, x1.at)))
  {
    history, s := Begin(In(1, x1));
    history, s := ThenNoted(history, s, 0);
    history, s := ThenStored(history, s, 1, In(3, x3));
    history, s := ThenStored(history, s, 1, In(4, x4));
    history, s := ThenInstead(history, s, Other(x2));
  }

  function AtNothing(x1: Finding): Anchored {
    NotOnSecond(FirstAnchor(1, x1.at), x1)[AnchorKey(0, 4) := Anchor(Place(x1.at.page, []), Exact)]
  }

  lemma MadeAtNothing(x1: Finding, x2: Finding, x3: Finding, x4: Finding)
    requires x3.hash == x4.hash
    ensures NotedOn(Note(1, 1, NotOnSecond(FirstAnchor(1, x1.at), x1)), ShotsAt(ThirdAndFourth(x1, x2, x3, x4)), 4)
            == Note(1, 1, AtNothing(x1))
  {
    EntryIn(ThirdAndFourth(x1, x2, x3, x4), 1);
    EntryIn(ThirdAndFourth(x1, x2, x3, x4), 2);
    assert LastBefore(NotOnSecond(FirstAnchor(1, x1.at), x1), 0, 4) == Some(2);
  }

  lemma FourthAfterSecond(x1: Finding, x2: Finding, x3: Finding, x4: Finding) returns (history: seq<Board>, s: Stage)
    requires x2.hash != x1.hash && x3.hash == x4.hash
    ensures Reaches(history, s) && s.note == Note(1, 1, AtNothing(x1))
    ensures s.when == map[1 := 0, 3 := 1, 4 := 2, 2 := 3] && s.passed == map[2 := 4, 4 := 5]
  {
    history, s := ThreeWaiting(x1, x2, x3, x4);
    OnlyEntriesIn(s.es, SnapKey(2, 0));
    MadeMissing(FirstAnchor(1, x1.at), ShotsAt(s.es), x1);
    history, s := ThenWent(history, s, 2, 1);
    MadeAtNothing(x1, x2, x3, x4);
    history, s := ThenWent(history, s, 4, 3);
  }

  lemma RootIsSecond(b: Board)
    requires Good(b) && b.observations == map[0 := Observation(Some(0), 1)] && b.passed == map[2 := 4, 4 := 5]
    requires MadeExact(b, 0, 4) && IsOrphaned(b, 0, 2) && AnchorKey(0, 3) !in b.anchors
    ensures RootOf(b, 0, 4) == 2
  {
    assert ThereBefore(b, 0, 2, 4);
    assert AnchorKey(0, 2) in AnchorsThen(b, 0, 4) && AnchorKey(0, 3) !in AnchorsThen(b, 0, 4);
    assert Source(b, 0, 4) == Some(2);
  }

  /** Versions 3 and 4 have the observed section and wait to be gone through. Version 2 comes late
      with another one and is gone through first: then version 4 gets an exact anchor, and from the
      orphaned one on version 2 it has no boxes. */
  lemma ExactAtNothing(x1: Finding, x2: Finding, x3: Finding, x4: Finding) returns (history: seq<Board>, end: Board)
    requires x2.hash != x1.hash && x3.hash == x4.hash
    ensures Tells(history, end, 1, map[1 := 0, 3 := 1, 4 := 2, 2 := 3], map[2 := 4, 4 := 5])
    ensures MadeExact(end, 0, 4) && PlaceOn(end, 0, 4).boxes == [] && RootOf(end, 0, 4) == 2 && IsOrphaned(end, 0, 2)
  {
    var s;
    history, s := FourthAfterSecond(x1, x2, x3, x4);
    end := OnStage(s);
    Telling(history, s);
    RootIsSecond(end);
  }
}
