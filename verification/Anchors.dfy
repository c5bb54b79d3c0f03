/** Where observations sit in every version: reanchor_observations of
    backend/observations/services.py, over whole histories of a document whose versions may be
    analysed and gone through in any order. */
module Anchors {
  import opened Sections
  import opened SectionStore

  /** Page and boxes as stored; boxes are only carried around. */
  datatype Place = Place(page: nat, boxes: seq<int>)

  /** A SectionVersion row with its place. */
  datatype Shot = Shot(snap: Snap, at: Place)

  datatype How = Exact | Reanchored | Orphaned

  datatype Anchor = Anchor(at: Place, how: How)

  datatype Observation = Observation(section: Option<SectionId>, created: nat)

  datatype AnchorKey = AnchorKey(observation: nat, version: nat)

  type Shots = map<SnapKey, Shot>

  type Anchored = map<AnchorKey, Anchor>

  /** The last version before `n` on which the observation has an anchor. */
  function LastBefore(anchors: Anchored, o: nat, n: nat): (m: Option<nat>)
    ensures m.Some? ==> m.value < n && AnchorKey(o, m.value) in anchors
    ensures forall k :: (if m.Some? then m.value < k < n else 0 <= k < n) ==> AnchorKey(o, k) !in anchors
  {
    if n == 0 then None
    else if AnchorKey(o, n - 1) in anchors then Some(n - 1)
    else LastBefore(anchors, o, n - 1)
  }

  function HashAt(shots: Shots, n: int, section: SectionId): Option<Hash> {
    if n >= 0 && SnapKey(n, section) in shots then Some(shots[SnapKey(n, section)].snap.bodyHash) else None
  }

  /** The anchor made for an observation on version `n`: its body is compared with that of
      version `n - 1`, its place taken from the anchor before. */
  function AnchorFor(shots: Shots, anchors: Anchored, o: nat, x: Observation, n: nat): Anchor {
    var before := LastBefore(anchors, o, n);
    if x.section == None || SnapKey(n, x.section.value) !in shots then
      Anchor(Place(if before.Some? then anchors[AnchorKey(o, before.value)].at.page else 1, []), Orphaned)
    else
      var shot := shots[SnapKey(n, x.section.value)];
      if HashAt(shots, n - 1, x.section.value) == Some(shot.snap.bodyHash) then
        Anchor(if before.Some? then anchors[AnchorKey(o, before.value)].at else shot.at, Exact)
      else Anchor(shot.at, Reanchored)
  }

  datatype Tally = Tally(exact: nat, reanchored: nat, orphaned: nat)

  function Count(c: Tally, m: How): Tally {
    match m
    case Exact => c.(exact := c.exact + 1)
    case Reanchored => c.(reanchored := c.reanchored + 1)
    case Orphaned => c.(orphaned := c.orphaned + 1)
  }

  /** The anchors that are new, of one kind. */
  function NewOf(was: Anchored, now: Anchored, how: How): set<AnchorKey> {
    set k | k in now && k !in was && now[k].how == how
  }

  ghost predicate CountsNew(c: Tally, was: Anchored, now: Anchored) {
    && c.exact == |NewOf(was, now, Exact)| && c.reanchored == |NewOf(was, now, Reanchored)|
    && c.orphaned == |NewOf(was, now, Orphaned)|
  }

  lemma OneMoreOf(was: Anchored, now: Anchored, k: AnchorKey, a: Anchor, how: How)
    requires k !in was && k !in now
    ensures |NewOf(was, now[k := a], how)| == |NewOf(was, now, how)| + if a.how == how then 1 else 0
  {
    assert NewOf(was, now[k := a], how) == NewOf(was, now, how) + if a.how == how then {k} else {};
  }

  lemma OneMoreNew(c: Tally, was: Anchored, now: Anchored, k: AnchorKey, a: Anchor)
    requires CountsNew(c, was, now) && k !in was && k !in now
    ensures CountsNew(Count(c, a.how), was, now[k := a])
  {
    OneMoreOf(was, now, k, a, Exact);
    OneMoreOf(was, now, k, a, Reanchored);
    OneMoreOf(was, now, k, a, Orphaned);
  }

  /** The anchors after version `n` has been gone through. */
  ghost predicate ReanchoredTo(was: Anchored, now: Anchored, shots: Shots, observations: map<nat, Observation>,
                               done: set<nat>, n: nat)
  {
    && (forall k :: k in was ==> k in now && now[k] == was[k])
    && (forall o :: o in done && o in observations ==> AnchorKey(o, n) in now)
    && (forall k :: k in now && k !in was ==>
          && k.version == n && k.observation in done && k.observation in observations
          && now[k] == AnchorFor(shots, was, k.observation, observations[k.observation], n))
  }

  class AnchorTable {
    var anchors: Anchored

    constructor ()
      ensures anchors == map[]
    {
      anchors := map[];
    }

    /** One anchor for every observation that has none on this version yet. */
    method Reanchor(observations: map<nat, Observation>, shots: Shots, n: nat) returns (counters: Tally)
      modifies this
      ensures ReanchoredTo(old(anchors), anchors, shots, observations, observations.Keys, n)
      ensures CountsNew(counters, old(anchors), anchors)
    {
      ghost var was := anchors;
      counters := Tally(0, 0, 0);
      var todo := observations.Keys;
      while todo != {}
        invariant todo <= observations.Keys
        invariant ReanchoredTo(was, anchors, shots, observations, observations.Keys - todo, n)
        invariant CountsNew(counters, was, anchors)
      {
        var o :| o in todo;
        if AnchorKey(o, n) !in anchors {
          SameBefore(was, anchors, shots, observations, observations.Keys - todo, o, n);
          var anchor := AnchorFor(shots, anchors, o, observations[o], n);
          OneMoreNew(counters, was, anchors, AnchorKey(o, n), anchor);
          anchors := anchors[AnchorKey(o, n) := anchor];
          counters := Count(counters, anchor.how);
        }
        todo := todo - {o};
      }
    }
  }

  /** Anchors on the version itself do not change what is made there. */
  lemma SameBefore(was: Anchored, now: Anchored, shots: Shots, observations: map<nat, Observation>, done: set<nat>,
                   o: nat, n: nat)
    requires ReanchoredTo(was, now, shots, observations, done, n) && o in observations
    ensures AnchorFor(shots, now, o, observations[o], n) == AnchorFor(shots, was, o, observations[o], n)
  {
  }

  /** Going through a version again changes nothing. */
  lemma AgainIsNothing(was: Anchored, now: Anchored, again: Anchored, shots: Shots,
                       observations: map<nat, Observation>, n: nat)
    requires ReanchoredTo(was, now, shots, observations, observations.Keys, n)
    requires ReanchoredTo(now, again, shots, observations, observations.Keys, n)
    ensures again == now
  {
  }

  /** What is made depends on the observation's own anchors on earlier versions. */
  lemma {:induction false} LastStays(was: Anchored, now: Anchored, o: nat, n: nat)
    requires forall k: nat :: k < n ==> (AnchorKey(o, k) in was <==> AnchorKey(o, k) in now)
    ensures LastBefore(now, o, n) == LastBefore(was, o, n)
  {
  }

  lemma SameAnchorMade(was: Anchored, now: Anchored, shots: Shots, o: nat, x: Observation, n: nat)
    requires forall k: nat :: k < n ==> (AnchorKey(o, k) in was <==> AnchorKey(o, k) in now)
    requires forall k: nat :: k < n && AnchorKey(o, k) in was ==> now[AnchorKey(o, k)] == was[AnchorKey(o, k)]
    ensures AnchorFor(shots, now, o, x, n) == AnchorFor(shots, was, o, x, n)
  {
    LastStays(was, now, o, n);
  }

  // ---- the history of a document ----

  /** The tables, and what happened at which time: `when` says when a version's analysis was
      stored, `passed` when re-anchoring went through it, and `since` when an observation was
      made; `due` are the versions that found one to be compared with. */
  datatype Board = Board(rows: map<SectionId, Row>, shots: Shots, when: map<nat, nat>, passed: map<nat, nat>,
                         clock: nat, due: set<nat>, trashed: set<nat>, observations: map<nat, Observation>,
                         since: map<nat, nat>, anchors: Anchored)

  const BLANK := Board(map[], map[], map[], map[], 0, {}, {}, map[], map[], map[])

  function SnapsOf(shots: Shots): map<SnapKey, Snap> { map k | k in shots :: shots[k].snap }

  /** An observation is made on a version, on one of its sections or on none, and anchored there. */
  ghost predicate Observed(b: Board, c: Board, o: nat, x: Observation, at: Place) {
    && o !in b.observations
    && (x.section.Some? ==> SnapKey(x.created, x.section.value) in b.shots)
    && c == b.(observations := b.observations[o := x], since := b.since[o := b.clock],
               anchors := b.anchors[AnchorKey(o, x.created) := Anchor(at, Exact)])
  }

  /** `persist_analysis` stores an analysis of version `n`; every new snapshot comes with a place. */
  ghost predicate StoredBy(b: Board, c: Board, n: nat, t: Task, run: Run) {
    && Ready(t) && t.rows == b.rows && t.snaps == SnapsOf(b.shots) && t.v == n
    && Steps(t, |t.payloads|) == Some(run)
    && c.rows == RowsAfter(t, run) && SnapsOf(c.shots) == SnapsAfter(t, run.made)
    && forall k :: k in b.shots ==> k in c.shots && c.shots[k] == b.shots[k]
  }

  ghost predicate AnalysisStored(b: Board, c: Board, n: nat) { exists t, run :: StoredBy(b, c, n, t, run) }

  /** A version to compare `n` with: a lower one, analysed and not in the trash. */
  ghost predicate HasPrevious(b: Board, n: nat) { exists m :: m in b.when && m < n && m !in b.trashed }

  /** The analysis of a version is stored. */
  ghost predicate Analysed(b: Board, c: Board, n: nat) {
    && n > 0 && n !in b.when && AnalysisStored(b, c, n)
    && c == b.(rows := c.rows, shots := c.shots, when := b.when[n := b.clock], clock := b.clock + 1)
  }

  /** There is a version to compare it with. */
  ghost predicate Compared(b: Board, c: Board, n: nat) {
    n in b.when && HasPrevious(b, n) && c == b.(due := b.due + {n})
  }

  /** It is gone through. */
  ghost predicate Advanced(b: Board, c: Board, n: nat) {
    && n in b.due && n in b.when && n !in b.passed
    && ReanchoredTo(b.anchors, c.anchors, b.shots, b.observations, b.observations.Keys, n)
    && c == b.(anchors := c.anchors, passed := b.passed[n := b.clock], clock := b.clock + 1)
  }

  /** Versions go to the trash and come back. */
  ghost predicate Shifted(b: Board, c: Board) { c == b.(trashed := c.trashed) }

  // ---- times and sections ----

  ghost predicate IsLast(when: map<nat, nat>, n: nat) {
    n in when && forall m :: m in when ==> when[m] <= when[n]
  }

  ghost predicate TimesGood(when: map<nat, nat>, clock: nat) {
    && (forall n :: n in when ==> when[n] < clock)
    && (forall n, m :: n in when && m in when && when[n] == when[m] ==> n == m)
  }

  /** A version is gone through after its analysis was stored. */
  ghost predicate PassedGood(b: Board) {
    TimesGood(b.passed, b.clock) && forall n :: n in b.passed ==> n in b.when && b.when[n] < b.passed[n]
  }

  /** The sections alive are those of the version analysed last. */
  ghost predicate RowsGood(b: Board) {
    && (forall k :: k in b.shots ==> k.section in b.rows && k.version in b.when)
    && (forall i, n :: Alive(b.rows, i) && IsLast(b.when, n) ==> SnapKey(n, i) in b.shots)
    && (b.when != map[] ==> exists n :: IsLast(b.when, n))
  }

  /** The section was there at some time and is missing from the version `k` analysed later. */
  ghost predicate Gone(b: Board, s: SectionId, k: nat) {
    && k in b.when && SnapKey(k, s) !in b.shots
    && exists j :: j in b.when && b.when[j] < b.when[k] && SnapKey(j, s) in b.shots
  }

  ghost predicate NoReturn(b: Board) {
    forall s, k, l :: Gone(b, s, k) && l in b.when && b.when[k] < b.when[l] ==> SnapKey(l, s) !in b.shots
  }

  /** What `persist_analysis` does to sections: snapshots of the new version only, for sections
      alive before or new ones; those are the ones alive now, and the retired stay retired. */
  ghost predicate Succeeds(b: Board, c: Board, n: nat) {
    && (forall k :: k in b.shots ==> k in c.shots && c.shots[k] == b.shots[k])
    && (forall k :: k in c.shots && k !in b.shots ==> k.version == n && k.section in c.rows)
    && (forall i :: i in b.rows ==> i in c.rows)
    && (forall i :: SnapKey(n, i) in c.shots && i in b.rows ==> Alive(b.rows, i))
    && (forall i :: Alive(c.rows, i) ==> SnapKey(n, i) in c.shots)
  }

  lemma StoredSucceeds(b: Board, c: Board, n: nat)
    requires AnalysisStored(b, c, n) && forall k :: k in b.shots ==> k.version != n
    ensures Succeeds(b, c, n) && UniqueKeys(c.rows)
  {
    var t, run :| StoredBy(b, c, n, t, run);
    AliveAfterwards(t, run);
    KeysStayUnique(t, run);
    StoredRows(t, run);
    StoredSnaps(t, run);
    forall k ensures (k in c.shots <==> k in SnapsAfter(t, run.made)) && (k in b.shots <==> k in t.snaps) {
      assert k in c.shots <==> k in SnapsOf(c.shots);
    }
    AllTakenWereAlive(t, run);
  }

  lemma AllTakenWereAlive(t: Task, run: Run)
    requires StoredAs(t, run)
    ensures forall i :: i in run.made && i in t.rows ==> Alive(t.rows, i)
  {
    forall i | i in run.made && i in t.rows ensures Alive(t.rows, i) {
      var m :| 0 <= m < |run.made| && run.made[m] == i;
      TakenWereAlive(t, run, m);
    }
  }

  // ---- what every history keeps ----

  /** The versions on which re-anchoring made the observation's anchor. */
  ghost predicate Later(b: Board, o: nat, n: nat) {
    && o in b.observations && o in b.since && n in b.passed
    && b.since[o] <= b.passed[n] && n != b.observations[o].created
  }

  /** Where an observation has its anchors: where it was made, and on every version gone through
      since, whatever its number. */
  ghost predicate PlacesGood(b: Board, o: nat)
    requires o in b.observations
  {
    var x := b.observations[o];
    && o in b.since && b.since[o] <= b.clock
    && (x.section.Some? ==>
          x.created in b.when && b.when[x.created] < b.since[o] && SnapKey(x.created, x.section.value) in b.shots)
    && (forall n: nat :: AnchorKey(o, n) in b.anchors <==> n == x.created || Later(b, o, n))
    && b.anchors[AnchorKey(o, x.created)].how == Exact
  }

  /** The snapshots there were when `n` was gone through. */
  function ShotsThen(b: Board, n: nat): Shots
    requires n in b.passed
  {
    map k | k in b.shots && k.version in b.when && b.when[k.version] < b.passed[n] :: b.shots[k]
  }

  /** The anchor on `k` was there when `n` was gone through. */
  predicate ThereBefore(b: Board, o: nat, k: nat, n: nat)
    requires o in b.observations && n in b.passed
  {
    AnchorKey(o, k) in b.anchors && (k == b.observations[o].created || (k in b.passed && b.passed[k] < b.passed[n]))
  }

  /** The observation's anchors there were then. */
  function AnchorsThen(b: Board, o: nat, n: nat): Anchored
    requires o in b.observations && n in b.passed
  {
    map k | k in b.anchors && k.observation == o && ThereBefore(b, o, k.version, n) :: b.anchors[k]
  }

  /** An anchor is what re-anchoring made of the snapshots and anchors that were there then. */
  ghost predicate MadeRight(b: Board, o: nat, n: nat)
    requires o in b.observations
  {
    && AnchorKey(o, n) in b.anchors && n in b.passed
    && b.anchors[AnchorKey(o, n)] == AnchorFor(ShotsThen(b, n), AnchorsThen(b, o, n), o, b.observations[o], n)
  }

  ghost predicate AllMadeRight(b: Board, o: nat)
    requires o in b.observations
  {
    forall n: nat {:trigger MadeRight(b, o, n)} :: Later(b, o, n) ==> MadeRight(b, o, n)
  }

  ghost predicate TablesGood(b: Board) {
    TimesGood(b.when, b.clock) && PassedGood(b) && RowsGood(b) && NoReturn(b)
  }

  ghost predicate Good(b: Board) {
    && TablesGood(b)
    && (forall o :: o in b.observations ==> PlacesGood(b, o) && AllMadeRight(b, o))
    && (forall k :: k in b.anchors ==> k.observation in b.observations)
  }

  // ---- an analysis is stored ----

  lemma AnalysingKeepsTables(b: Board, c: Board, n: nat)
    requires TablesGood(b) && Analysed(b, c, n)
    ensures TablesGood(c) && Succeeds(b, c, n)
  {
    StoredSucceeds(b, c, n);
    assert IsLast(c.when, n);
    forall m | IsLast(c.when, m) ensures m == n {
    }
    forall s, k, l | Gone(c, s, k) && l in c.when && c.when[k] < c.when[l] ensures SnapKey(l, s) !in c.shots {
      GoneNow(b, c, n, s, k, l);
    }
  }

  lemma GoneNow(b: Board, c: Board, n: nat, s: SectionId, k: nat, l: nat)
    requires TimesGood(b.when, b.clock) && RowsGood(b) && NoReturn(b)
    requires n !in b.when && c.when == b.when[n := b.clock] && Succeeds(b, c, n)
    requires Gone(c, s, k) && l in c.when && c.when[k] < c.when[l]
    ensures SnapKey(l, s) !in c.shots
  {
    GoneBefore(b, c, n, s, k);
    if l == n { NotInNewest(b, c, n, s, k); }
  }

  lemma GoneBefore(b: Board, c: Board, n: nat, s: SectionId, k: nat)
    requires TimesGood(b.when, b.clock) && n !in b.when && c.when == b.when[n := b.clock] && Succeeds(b, c, n)
    requires Gone(c, s, k) && k in b.when
    ensures Gone(b, s, k)
  {
    var j :| j in c.when && c.when[j] < c.when[k] && SnapKey(j, s) in c.shots;
    assert j in b.when && SnapKey(j, s) in b.shots;
  }

  lemma NotInNewest(b: Board, c: Board, n: nat, s: SectionId, k: nat)
    requires TimesGood(b.when, b.clock) && RowsGood(b) && NoReturn(b) && Succeeds(b, c, n) && Gone(b, s, k)
    requires forall i :: i in b.shots ==> i.version != n
    ensures SnapKey(n, s) !in c.shots
  {
    var last :| IsLast(b.when, last);
    assert last == k || b.when[k] < b.when[last];
    assert SnapKey(last, s) !in b.shots && s in b.rows && !Alive(b.rows, s);
  }

  lemma AnalysingKeeps(b: Board, c: Board, n: nat)
    requires Good(b) && Analysed(b, c, n)
    ensures Good(c)
  {
    AnalysingKeepsTables(b, c, n);
    forall o | o in c.observations ensures PlacesGood(c, o) && AllMadeRight(c, o) {
      assert PlacesGood(b, o) && AllMadeRight(b, o);
      AnalysingKeepsOne(b, c, n, o);
    }
  }

  lemma AnalysingKeepsOne(b: Board, c: Board, n: nat, o: nat)
    requires TablesGood(b) && Analysed(b, c, n) && Succeeds(b, c, n)
    requires o in b.observations && PlacesGood(b, o) && AllMadeRight(b, o)
    ensures PlacesGood(c, o) && AllMadeRight(c, o)
  {
    AnalysingKeepsPlaces(b, c, n, o);
    forall m: nat | Later(c, o, m) ensures MadeRight(c, o, m) {
      assert Later(b, o, m) && MadeRight(b, o, m);
      SameShotsAfter(b, c, n, m);
      assert AnchorsThen(c, o, m) == AnchorsThen(b, o, m);
    }
  }

  lemma AnalysingKeepsPlaces(b: Board, c: Board, n: nat, o: nat)
    requires Analysed(b, c, n) && Succeeds(b, c, n) && o in b.observations && PlacesGood(b, o)
    ensures PlacesGood(c, o)
  {
    forall m: nat ensures Later(c, o, m) <==> Later(b, o, m) {
    }
  }

  lemma SameShotsAfter(b: Board, c: Board, n: nat, m: nat)
    requires forall k :: k in b.shots ==> k.version in b.when
    requires n !in b.when && c.when == b.when[n := b.clock] && Succeeds(b, c, n)
    requires c.passed == b.passed && m in b.passed && b.passed[m] < b.clock
    ensures ShotsThen(c, m) == ShotsThen(b, m)
  {
    forall k ensures k in ShotsThen(c, m) <==> k in ShotsThen(b, m) {
    }
  }

  // ---- what changes nothing ----

  /** For this observation nothing is different. */
  ghost predicate SameFor(b: Board, c: Board, p: nat) {
    && p in b.observations && p in c.observations && c.observations[p] == b.observations[p]
    && p in b.since && p in c.since && c.since[p] == b.since[p]
    && c.when == b.when && c.passed == b.passed && c.clock == b.clock && c.shots == b.shots
    && (forall n: nat :: AnchorKey(p, n) in b.anchors <==> AnchorKey(p, n) in c.anchors)
    && (forall n: nat :: AnchorKey(p, n) in b.anchors ==> c.anchors[AnchorKey(p, n)] == b.anchors[AnchorKey(p, n)])
  }

  lemma SameForThen(b: Board, c: Board, p: nat, n: nat)
    requires SameFor(b, c, p) && n in b.passed
    ensures ShotsThen(c, n) == ShotsThen(b, n) && AnchorsThen(c, p, n) == AnchorsThen(b, p, n)
  {
    forall k ensures k in AnchorsThen(c, p, n) <==> k in AnchorsThen(b, p, n) {
      if k.observation == p { assert k == AnchorKey(p, k.version); }
    }
    forall k | k in AnchorsThen(b, p, n) ensures AnchorsThen(c, p, n)[k] == AnchorsThen(b, p, n)[k] {
      assert k == AnchorKey(p, k.version);
    }
  }

  lemma SameForKeeps(b: Board, c: Board, p: nat)
    requires SameFor(b, c, p) && PlacesGood(b, p) && AllMadeRight(b, p)
    ensures PlacesGood(c, p) && AllMadeRight(c, p)
  {
    forall n: nat ensures Later(c, p, n) <==> Later(b, p, n) {
    }
    forall n: nat | Later(c, p, n) ensures MadeRight(c, p, n) {
      assert MadeRight(b, p, n);
      SameForThen(b, c, p, n);
    }
  }

  lemma SameTables(b: Board, c: Board)
    requires TablesGood(b) && c.rows == b.rows && c.shots == b.shots && c.when == b.when
    requires c.passed == b.passed && c.clock == b.clock
    ensures TablesGood(c)
  {
    forall s, k, l | Gone(c, s, k) && l in c.when && c.when[k] < c.when[l] ensures SnapKey(l, s) !in c.shots {
      assert Gone(b, s, k);
    }
  }

  lemma ObservingKeeps(b: Board, c: Board, o: nat, x: Observation, at: Place)
    requires Good(b) && Observed(b, c, o, x, at)
    ensures Good(c)
  {
    SameTables(b, c);
    forall p | p in c.observations ensures PlacesGood(c, p) && AllMadeRight(c, p) {
      if p == o {
        JustObserved(b, c, o, x, at);
      } else {
        assert PlacesGood(b, p) && AllMadeRight(b, p) && SameFor(b, c, p);
        SameForKeeps(b, c, p);
      }
    }
  }

  lemma JustObserved(b: Board, c: Board, o: nat, x: Observation, at: Place)
    requires TablesGood(b) && Observed(b, c, o, x, at) && forall k :: k in b.anchors ==> k.observation in b.observations
    ensures PlacesGood(c, o) && AllMadeRight(c, o)
  {
    forall n: nat ensures !Later(c, o, n) {
    }
  }

  lemma UnchangedKeeps(b: Board, c: Board)
    requires Good(b) && c == b.(due := c.due, trashed := c.trashed)
    ensures Good(c)
  {
    SameTables(b, c);
    forall o | o in c.observations ensures PlacesGood(c, o) && AllMadeRight(c, o) {
      assert PlacesGood(b, o) && AllMadeRight(b, o) && SameFor(b, c, o);
      SameForKeeps(b, c, o);
    }
  }

  // ---- a version is gone through ----

  lemma AdvancingKeeps(b: Board, c: Board, n: nat)
    requires Good(b) && Advanced(b, c, n)
    ensures Good(c)
  {
    AdvancingKeepsTables(b, c, n);
    forall o | o in c.observations ensures PlacesGood(c, o) && AllMadeRight(c, o) {
      assert PlacesGood(b, o) && AllMadeRight(b, o);
      AdvancingKeepsPlaces(b, c, n, o);
      AdvancingKeepsMade(b, c, n, o);
    }
  }

  lemma AdvancingKeepsTables(b: Board, c: Board, n: nat)
    requires TablesGood(b) && Advanced(b, c, n)
    ensures TablesGood(c)
  {
    forall s, k, l | Gone(c, s, k) && l in c.when && c.when[k] < c.when[l] ensures SnapKey(l, s) !in c.shots {
      assert Gone(b, s, k);
    }
  }

  /** What that changes for one observation. */
  ghost predicate Moves(b: Board, c: Board, n: nat, o: nat)
    requires o in b.observations
  {
    && o in c.observations && c.observations[o] == b.observations[o]
    && (forall k: nat :: k != n ==> (AnchorKey(o, k) in c.anchors <==> AnchorKey(o, k) in b.anchors))
    && (forall k: nat :: AnchorKey(o, k) in b.anchors ==>
          AnchorKey(o, k) in c.anchors && c.anchors[AnchorKey(o, k)] == b.anchors[AnchorKey(o, k)])
    && (AnchorKey(o, n) in b.anchors <==> n == b.observations[o].created) && AnchorKey(o, n) in c.anchors
  }

  lemma AdvancingMoves(b: Board, c: Board, n: nat, o: nat)
    requires Advanced(b, c, n) && o in b.observations && PlacesGood(b, o)
    ensures Moves(b, c, n, o)
  {
    assert !Later(b, o, n);
  }

  lemma AdvancingKeepsPlaces(b: Board, c: Board, n: nat, o: nat)
    requires Advanced(b, c, n) && o in b.observations && PlacesGood(b, o)
    ensures PlacesGood(c, o)
  {
    AdvancingMoves(b, c, n, o);
    forall k: nat ensures AnchorKey(o, k) in c.anchors <==> k == c.observations[o].created || Later(c, o, k) {
      assert Later(c, o, k) <==> Later(b, o, k) || (k == n && n != c.observations[o].created);
    }
  }

  lemma AdvancingKeepsMade(b: Board, c: Board, n: nat, o: nat)
    requires TablesGood(b) && Advanced(b, c, n) && o in b.observations && PlacesGood(b, o) && AllMadeRight(b, o)
    ensures AllMadeRight(c, o)
  {
    AdvancingMoves(b, c, n, o);
    forall m: nat | Later(c, o, m) ensures MadeRight(c, o, m) {
      if m == n {
        JustMade(b, c, n, o);
      } else {
        assert Later(b, o, m) && MadeRight(b, o, m);
        StaysMade(b, c, n, o, m);
      }
    }
  }

  lemma StaysMade(b: Board, c: Board, n: nat, o: nat, m: nat)
    requires TablesGood(b) && Advanced(b, c, n) && o in b.observations && Moves(b, c, n, o)
    requires m in b.passed && MadeRight(b, o, m)
    ensures MadeRight(c, o, m)
  {
    SameAnchorsAfter(b, c, n, o, m);
    assert ShotsThen(c, m) == ShotsThen(b, m);
  }

  lemma SameAnchorsAfter(b: Board, c: Board, n: nat, o: nat, m: nat)
    requires TimesGood(b.passed, b.clock) && n !in b.passed && c.passed == b.passed[n := b.clock] && m in b.passed
    requires o in b.observations && Moves(b, c, n, o)
    ensures AnchorsThen(c, o, m) == AnchorsThen(b, o, m)
  {
    forall k: nat ensures ThereBefore(c, o, k, m) <==> ThereBefore(b, o, k, m) {
      if k == n { assert c.passed[n] > b.passed[m]; }
    }
    var was, now := AnchorsThen(b, o, m), AnchorsThen(c, o, m);
    forall k ensures k in now <==> k in was {
      assert k.observation == o ==> k == AnchorKey(o, k.version);
    }
    forall k | k in was ensures now[k] == was[k] {
      assert k == AnchorKey(o, k.version);
    }
  }

  lemma JustMade(b: Board, c: Board, n: nat, o: nat)
    requires TablesGood(b) && Advanced(b, c, n) && o in b.observations && PlacesGood(b, o) && Moves(b, c, n, o)
    requires Later(c, o, n)
    ensures MadeRight(c, o, n)
  {
    AllShotsThen(b, c, n);
    AllAnchorsThen(b, c, n, o);
    SameAnchorMade(b.anchors, AnchorsThen(c, o, n), c.shots, o, c.observations[o], n);
    assert AnchorKey(o, n) !in b.anchors;
  }

  lemma AllShotsThen(b: Board, c: Board, n: nat)
    requires (forall k :: k in b.shots ==> k.version in b.when) && forall k :: k in b.when ==> b.when[k] < b.clock
    requires c.shots == b.shots && c.when == b.when && c.passed == b.passed[n := b.clock]
    ensures ShotsThen(c, n) == c.shots
  {
    forall k | k in c.shots ensures k in ShotsThen(c, n) {
    }
  }

  lemma AllAnchorsThen(b: Board, c: Board, n: nat, o: nat)
    requires TimesGood(b.passed, b.clock) && n !in b.passed && c.passed == b.passed[n := b.clock]
    requires o in b.observations && PlacesGood(b, o) && Moves(b, c, n, o)
    ensures forall k: nat :: k < n ==> (AnchorKey(o, k) in b.anchors <==> AnchorKey(o, k) in AnchorsThen(c, o, n))
    ensures forall k: nat :: k < n && AnchorKey(o, k) in b.anchors ==>
              AnchorsThen(c, o, n)[AnchorKey(o, k)] == b.anchors[AnchorKey(o, k)]
  {
    forall k: nat | k < n && AnchorKey(o, k) in b.anchors ensures ThereBefore(c, o, k, n) {
    }
  }

  // ---- whole histories ----

  /** One step: an observation is made, an analysis stored, a version found to compare with, a
      version gone through, or the trash changes; steps of different versions come in any order. */
  ghost predicate Next(b: Board, c: Board) {
    TablesStep(b, c) || PassStep(b, c) || Shifted(b, c)
  }

  ghost predicate TablesStep(b: Board, c: Board) {
    (exists o, x, at :: Observed(b, c, o, x, at)) || exists n: nat :: Analysed(b, c, n)
  }

  ghost predicate PassStep(b: Board, c: Board) {
    (exists n: nat :: Compared(b, c, n)) || exists n: nat :: Advanced(b, c, n)
  }

  lemma TablesStepKeeps(b: Board, c: Board)
    requires Good(b) && TablesStep(b, c)
    ensures Good(c)
  {
    if o, x, at :| Observed(b, c, o, x, at) {
      ObservingKeeps(b, c, o, x, at);
    } else {
      var n: nat :| Analysed(b, c, n);
      AnalysingKeeps(b, c, n);
    }
  }

  lemma PassStepKeeps(b: Board, c: Board)
    requires Good(b) && PassStep(b, c)
    ensures Good(c)
  {
    if n: nat :| Advanced(b, c, n) {
      AdvancingKeeps(b, c, n);
    } else {
      UnchangedKeeps(b, c);
    }
  }

  lemma NextKeeps(b: Board, c: Board)
    requires Good(b) && Next(b, c)
    ensures Good(c)
  {
    if TablesStep(b, c) {
      TablesStepKeeps(b, c);
    } else if PassStep(b, c) {
      PassStepKeeps(b, c);
    } else {
      UnchangedKeeps(b, c);
    }
  }

  ghost predicate History(boards: seq<Board>) {
    boards != [] && boards[0] == BLANK && forall k :: 0 <= k < |boards| - 1 ==> Next(boards[k], boards[k + 1])
  }

  /** Along every history: one anchor where an observation was made and one on each version
      gone through since, none elsewhere, each made by the rule from what was there. */
  lemma {:induction false} HistoryIsGood(history: seq<Board>, i: nat)
    requires History(history) && i < |history|
    ensures Good(history[i])
  {
    if i > 0 {
      HistoryIsGood(history, i - 1);
      NextKeeps(history[i - 1], history[i]);
    }
  }

  // ---- who is gone through ----

  /** Only a version with an analysed one below it. */
  ghost predicate OnlyWithLower(b: Board) {
    && b.passed.Keys <= b.due && forall n :: n in b.due ==> exists m :: m in b.when && m < n
  }

  /** One step makes a version due only if it has one to be compared with, and goes through due ones. */
  ghost predicate InTurn(b: Board, c: Board) {
    && b.when.Keys <= c.when.Keys && b.due <= c.due
    && (forall n :: n in c.due && n !in b.due ==> HasPrevious(b, n))
    && (forall n :: n in c.passed && n !in b.passed ==> n in b.due)
  }

  lemma NextInTurn(b: Board, c: Board)
    requires Next(b, c)
    ensures InTurn(b, c)
  {
    if TablesStep(b, c) {
      TablesInTurn(b, c);
    } else if PassStep(b, c) {
      PassInTurn(b, c);
    }
  }

  lemma TablesInTurn(b: Board, c: Board)
    requires TablesStep(b, c)
    ensures InTurn(b, c)
  {
    if n: nat :| Analysed(b, c, n) {
      AnalysedInTurn(b, c, n);
    } else {
      var o, x, at :| Observed(b, c, o, x, at);
      ObservedInTurn(b, c, o, x, at);
    }
  }

  lemma PassInTurn(b: Board, c: Board)
    requires PassStep(b, c)
    ensures InTurn(b, c)
  {
    if n: nat :| Compared(b, c, n) {
      ComparedInTurn(b, c, n);
    } else {
      var n: nat :| Advanced(b, c, n);
      AdvancedInTurn(b, c, n);
    }
  }

  lemma ObservedInTurn(b: Board, c: Board, o: nat, x: Observation, at: Place)
    requires Observed(b, c, o, x, at)
    ensures InTurn(b, c)
  {
  }

  lemma AnalysedInTurn(b: Board, c: Board, n: nat)
    requires Analysed(b, c, n)
    ensures InTurn(b, c)
  {
    assert c.due == b.due && c.passed == b.passed;
  }

  lemma ComparedInTurn(b: Board, c: Board, n: nat)
    requires Compared(b, c, n)
    ensures InTurn(b, c)
  {
    assert c.when == b.when && c.passed == b.passed;
  }

  lemma AdvancedInTurn(b: Board, c: Board, n: nat)
    requires Advanced(b, c, n)
    ensures InTurn(b, c)
  {
    assert c.when == b.when && c.due == b.due && c.passed.Keys == b.passed.Keys + {n};
  }

  lemma NextOnlyWithLower(b: Board, c: Board)
    requires OnlyWithLower(b) && InTurn(b, c)
    ensures OnlyWithLower(c)
  {
    forall n | n in c.due ensures exists m :: m in c.when && m < n {
      var m :| m in b.when && m < n;
      assert m in c.when;
    }
  }

  /** Along every history, re-anchoring goes through a version only if a lower one was analysed. */
  lemma {:induction false} LowestIsLeftOut(history: seq<Board>, i: nat)
    requires History(history) && i < |history|
    ensures OnlyWithLower(history[i])
  {
    if i > 0 {
      LowestIsLeftOut(history, i - 1);
      NextInTurn(history[i - 1], history[i]);
      NextOnlyWithLower(history[i - 1], history[i]);
    }
  }
}
