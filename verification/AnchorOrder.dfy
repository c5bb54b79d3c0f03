/** What anchors mean: which of the things that hold in the order in which versions were analysed
    and gone through hold by version number as well, and when an exact anchor is over the body it
    was made on. */
module AnchorOrder {
  import opened Sections
  import opened SectionStore
  import opened Anchors

  ghost predicate MadeExact(b: Board, o: nat, n: nat) {
    AnchorKey(o, n) in b.anchors && b.anchors[AnchorKey(o, n)].how == Exact
  }

  ghost predicate IsOrphaned(b: Board, o: nat, n: nat) {
    AnchorKey(o, n) in b.anchors && b.anchors[AnchorKey(o, n)].how == Orphaned
  }

  function PlaceOn(b: Board, o: nat, n: nat): Place
    requires AnchorKey(o, n) in b.anchors
  {
    b.anchors[AnchorKey(o, n)].at
  }

  /** The body of the observation's section in version `n`. */
  function BodyAt(b: Board, o: nat, n: int): Option<Hash>
    requires o in b.observations && b.observations[o].section.Some?
  {
    HashAt(b.shots, n, b.observations[o].section.value)
  }

  /** The anchor that the one on `n` was made from: the last by number of those there were then. */
  function Source(b: Board, o: nat, n: nat): Option<nat>
    requires o in b.observations && n in b.passed
  {
    LastBefore(AnchorsThen(b, o, n), o, n)
  }

  // ---- the three kinds of anchors ----

  /** The version numbered one less had been analysed when `n` was gone through. */
  predicate Preceded(b: Board, n: nat) {
    n in b.passed && n - 1 in b.when && b.when[n - 1] < b.passed[n]
  }

  lemma SourceIsAnchor(b: Board, o: nat, n: nat)
    requires o in b.observations && n in b.passed && Source(b, o, n).Some?
    ensures var m := Source(b, o, n).value;
            m < n && ThereBefore(b, o, m, n) && AnchorsThen(b, o, n)[AnchorKey(o, m)] == b.anchors[AnchorKey(o, m)]
  {
  }

  /** What could be seen of a section when `n` was gone through. */
  lemma SeenThen(b: Board, n: nat, s: SectionId)
    requires n in b.passed && n in b.when && b.when[n] < b.passed[n] && forall k :: k in b.shots ==> k.version in b.when
    ensures SnapKey(n, s) in ShotsThen(b, n) <==> SnapKey(n, s) in b.shots
    ensures HashAt(ShotsThen(b, n), n - 1, s) == if Preceded(b, n) then HashAt(b.shots, n - 1, s) else None
  {
  }

  /** An anchor is exact exactly if the version numbered one less had been analysed, with the same
      body; then it has the place of its source, or the section's own without one. */
  lemma ExactIs(b: Board, o: nat, n: nat)
    requires Good(b) && Later(b, o, n) && b.observations[o].section.Some?
    ensures MadeExact(b, o, n) <==> Preceded(b, n) && BodyAt(b, o, n) == BodyAt(b, o, n - 1) != None
    ensures MadeExact(b, o, n) ==>
              PlaceOn(b, o, n) == if Source(b, o, n).Some? then PlaceOn(b, o, Source(b, o, n).value)
                                  else b.shots[SnapKey(n, b.observations[o].section.value)].at
  {
    assert AllMadeRight(b, o) && MadeRight(b, o, n);
    SeenThen(b, n, b.observations[o].section.value);
    if Source(b, o, n).Some? { SourceIsAnchor(b, o, n); }
  }

  /** Orphaned exactly if the section is not in the version. */
  lemma OrphanedIs(b: Board, o: nat, n: nat)
    requires Good(b) && Later(b, o, n)
    ensures IsOrphaned(b, o, n) <==>
            b.observations[o].section == None || SnapKey(n, b.observations[o].section.value) !in b.shots
  {
    assert AllMadeRight(b, o) && MadeRight(b, o, n);
  }

  /** Then it has no boxes, and the page of its source, or the first page without one. */
  lemma OrphanedAt(b: Board, o: nat, n: nat)
    requires Good(b) && Later(b, o, n) && IsOrphaned(b, o, n)
    ensures PlaceOn(b, o, n).boxes == []
    ensures PlaceOn(b, o, n).page == if Source(b, o, n).Some? then PlaceOn(b, o, Source(b, o, n).value).page else 1
  {
    assert AllMadeRight(b, o) && MadeRight(b, o, n);
    if Source(b, o, n).Some? { SourceIsAnchor(b, o, n); }
  }

  /** Re-anchored: at the section's own place. */
  lemma ReanchoredIs(b: Board, o: nat, n: nat)
    requires Good(b) && Later(b, o, n) && b.anchors[AnchorKey(o, n)].how == Reanchored
    ensures b.observations[o].section.Some? && SnapKey(n, b.observations[o].section.value) in b.shots
    ensures PlaceOn(b, o, n) == b.shots[SnapKey(n, b.observations[o].section.value)].at
  {
    assert AllMadeRight(b, o) && MadeRight(b, o, n);
  }

  lemma IsAnchored(b: Board, o: nat, n: nat)
    requires Good(b) && o in b.observations
    ensures AnchorKey(o, n) in b.anchors <==> n == b.observations[o].created || Later(b, o, n)
    ensures MadeExact(b, o, b.observations[o].created)
  {
    assert PlacesGood(b, o);
  }

  /** Without version `n - 1`, or if that had not been analysed yet, no anchor on `n` is exact,
      however equal the bodies. */
  lemma GapIsNeverExact(b: Board, o: nat, n: nat)
    requires Good(b) && Later(b, o, n) && !Preceded(b, n)
    ensures !MadeExact(b, o, n)
  {
    assert AllMadeRight(b, o) && MadeRight(b, o, n);
    if b.observations[o].section.Some? { ExactIs(b, o, n); }
  }

  // ---- the same times ----

  /** The same observation, and the same versions analysed and gone through at the same times. */
  ghost predicate SameTimes(b: Board, c: Board, o: nat) {
    && c.when == b.when && c.passed == b.passed && c.clock == b.clock
    && c.due == b.due && c.trashed == b.trashed
    && o in b.observations && o in c.observations && c.observations[o] == b.observations[o]
    && o in b.since && o in c.since && c.since[o] == b.since[o]
  }

  /** Those say where the anchors are, and which one each was made from. */
  lemma SameSources(b: Board, c: Board, o: nat, n: nat)
    requires Good(b) && Good(c) && SameTimes(b, c, o) && n in b.passed
    ensures Source(c, o, n) == Source(b, o, n) && LastBefore(c.anchors, o, n) == LastBefore(b.anchors, o, n)
  {
    forall k: nat ensures AnchorKey(o, k) in c.anchors <==> AnchorKey(o, k) in b.anchors {
      IsAnchored(b, o, k);
      IsAnchored(c, o, k);
    }
    LastStays(b.anchors, c.anchors, o, n);
    forall k: nat ensures AnchorKey(o, k) in AnchorsThen(c, o, n) <==> AnchorKey(o, k) in AnchorsThen(b, o, n) {
      assert ThereBefore(c, o, k, n) <==> ThereBefore(b, o, k, n);
    }
    LastStays(AnchorsThen(b, o, n), AnchorsThen(c, o, n), o, n);
  }

  // ---- any tables, gone through in these times ----

  /** The version gone through at time `t`, if that made an anchor. */
  ghost function VersionAt(b: Board, o: nat, t: nat): (n: Option<nat>)
    ensures n.Some? ==> Later(b, o, n.value) && b.passed[n.value] == t
    ensures n == None ==> forall m: nat :: Later(b, o, m) ==> b.passed[m] != t
  {
    if exists n: nat :: Later(b, o, n) && b.passed[n] == t then
      var n: nat :| Later(b, o, n) && b.passed[n] == t;
      Some(n)
    else None
  }

  lemma VersionAtIs(b: Board, o: nat, n: nat)
    requires TimesGood(b.passed, b.clock) && Later(b, o, n)
    ensures VersionAt(b, o, b.passed[n]) == Some(n)
  {
  }

  /** The anchors made before time `t`. */
  ghost function MadeUpTo(b: Board, o: nat, at: Place, t: nat): Anchored
    requires o in b.observations
  {
    if t == 0 then map[AnchorKey(o, b.observations[o].created) := Anchor(at, Exact)]
    else
      var before := MadeUpTo(b, o, at, t - 1);
      match VersionAt(b, o, t - 1)
      case None => before
      case Some(n) => before[AnchorKey(o, n) := AnchorFor(ShotsThen(b, n), before, o, b.observations[o], n)]
  }

  lemma {:induction false} MadeHas(b: Board, o: nat, at: Place, t: nat, k: AnchorKey)
    requires o in b.observations && TimesGood(b.passed, b.clock)
    ensures k in MadeUpTo(b, o, at, t) <==>
            k.observation == o && (k.version == b.observations[o].created
                                   || (Later(b, o, k.version) && b.passed[k.version] < t))
  {
    if t > 0 {
      MadeHas(b, o, at, t - 1, k);
      if Later(b, o, k.version) { VersionAtIs(b, o, k.version); }
    }
  }

  lemma MadeStays(b: Board, o: nat, at: Place, t: nat, k: AnchorKey)
    requires o in b.observations && TimesGood(b.passed, b.clock) && k in MadeUpTo(b, o, at, t)
    ensures k in MadeUpTo(b, o, at, t + 1) && MadeUpTo(b, o, at, t + 1)[k] == MadeUpTo(b, o, at, t)[k]
  {
    MadeHas(b, o, at, t, k);
  }

  lemma {:induction false} MadeGrows(b: Board, o: nat, at: Place, t: nat, u: nat, k: AnchorKey)
    requires o in b.observations && TimesGood(b.passed, b.clock) && t <= u && k in MadeUpTo(b, o, at, t)
    ensures k in MadeUpTo(b, o, at, u) && MadeUpTo(b, o, at, u)[k] == MadeUpTo(b, o, at, t)[k]
    decreases u
  {
    if t < u {
      MadeGrows(b, o, at, t, u - 1, k);
      MadeStays(b, o, at, u - 1, k);
    }
  }

  lemma MadeAt(b: Board, o: nat, at: Place, n: nat)
    requires TimesGood(b.passed, b.clock) && Later(b, o, n)
    ensures AnchorKey(o, n) in MadeUpTo(b, o, at, b.passed[n] + 1)
    ensures MadeUpTo(b, o, at, b.passed[n] + 1)[AnchorKey(o, n)]
            == AnchorFor(ShotsThen(b, n), MadeUpTo(b, o, at, b.passed[n]), o, b.observations[o], n)
  {
    VersionAtIs(b, o, n);
  }

  ghost predicate CanBeObserved(b: Board, o: nat) {
    && o in b.observations && o in b.since && b.since[o] <= b.clock
    && var x := b.observations[o];
       x.section.Some? ==> x.created in b.when && b.when[x.created] < b.since[o]
                           && SnapKey(x.created, x.section.value) in b.shots
  }

  /** A board with these tables, and with the anchors that re-anchoring makes of them. */
  lemma Rebuilt(b: Board, o: nat, at: Place) returns (c: Board)
    requires TablesGood(b) && CanBeObserved(b, o)
    ensures Good(c) && SameTimes(b, c, o) && c.shots == b.shots
    ensures AnchorKey(o, b.observations[o].created) in c.anchors && PlaceOn(c, o, b.observations[o].created) == at
  {
    c := b.(observations := map[o := b.observations[o]], since := map[o := b.since[o]],
            anchors := MadeUpTo(b, o, at, b.clock));
    RebuiltTables(b, c);
    RebuiltPlaces(b, c, o, at);
    RebuiltAllMade(b, c, o, at);
  }

  lemma RebuiltAllMade(b: Board, c: Board, o: nat, at: Place)
    requires TimesGood(b.passed, b.clock) && IsRebuilt(b, c, o, at)
    ensures AllMadeRight(c, o)
  {
    forall n: nat | Later(c, o, n) ensures MadeRight(c, o, n) {
      assert Later(b, o, n);
      RebuiltMadeRight(b, c, o, at, n);
    }
  }

  lemma RebuiltPlaces(b: Board, c: Board, o: nat, at: Place)
    requires TimesGood(b.passed, b.clock) && IsRebuilt(b, c, o, at) && CanBeObserved(b, o)
    ensures PlacesGood(c, o) && PlaceOn(c, o, b.observations[o].created) == at
    ensures forall k :: k in c.anchors ==> k.observation == o
  {
    forall k ensures k in c.anchors <==>
                     k.observation == o && (k.version == b.observations[o].created || Later(b, o, k.version))
    {
      MadeHas(b, o, at, b.clock, k);
    }
    MadeGrows(b, o, at, 0, b.clock, AnchorKey(o, b.observations[o].created));
    forall n: nat ensures Later(c, o, n) <==> Later(b, o, n) {
    }
  }

  lemma RebuiltTables(b: Board, c: Board)
    requires TablesGood(b) && c == b.(observations := c.observations, since := c.since, anchors := c.anchors)
    ensures TablesGood(c)
  {
    forall s, k, l | Gone(c, s, k) && l in c.when && c.when[k] < c.when[l] ensures SnapKey(l, s) !in c.shots {
      assert Gone(b, s, k);
    }
  }

  ghost predicate IsRebuilt(b: Board, c: Board, o: nat, at: Place) {
    && o in b.observations && o in b.since
    && c == b.(observations := map[o := b.observations[o]], since := map[o := b.since[o]],
               anchors := MadeUpTo(b, o, at, b.clock))
  }

  lemma RebuiltThen(b: Board, c: Board, o: nat, at: Place, n: nat, k: nat)
    requires TimesGood(b.passed, b.clock) && IsRebuilt(b, c, o, at) && Later(b, o, n)
    ensures AnchorKey(o, k) in AnchorsThen(c, o, n) <==> AnchorKey(o, k) in MadeUpTo(b, o, at, b.passed[n])
    ensures AnchorKey(o, k) in AnchorsThen(c, o, n) ==>
              AnchorsThen(c, o, n)[AnchorKey(o, k)] == MadeUpTo(b, o, at, b.passed[n])[AnchorKey(o, k)]
  {
    MadeHas(b, o, at, b.passed[n], AnchorKey(o, k));
    MadeHas(b, o, at, b.clock, AnchorKey(o, k));
    if AnchorKey(o, k) in MadeUpTo(b, o, at, b.passed[n]) {
      MadeGrows(b, o, at, b.passed[n], b.clock, AnchorKey(o, k));
    }
  }

  lemma RebuiltMadeRight(b: Board, c: Board, o: nat, at: Place, n: nat)
    requires TimesGood(b.passed, b.clock) && IsRebuilt(b, c, o, at) && Later(b, o, n)
    ensures MadeRight(c, o, n)
  {
    RebuiltSame(b, c, o, at, n);
    MadeAt(b, o, at, n);
    RebuiltKeeps(b, c, o, at, n, AnchorFor(ShotsThen(c, n), AnchorsThen(c, o, n), o, b.observations[o], n));
  }

  lemma RebuiltKeeps(b: Board, c: Board, o: nat, at: Place, n: nat, made: Anchor)
    requires TimesGood(b.passed, b.clock) && IsRebuilt(b, c, o, at) && Later(b, o, n)
    requires var first := MadeUpTo(b, o, at, b.passed[n] + 1);
             AnchorKey(o, n) in first && first[AnchorKey(o, n)] == made
    ensures AnchorKey(o, n) in c.anchors && c.anchors[AnchorKey(o, n)] == made
  {
    MadeGrows(b, o, at, b.passed[n] + 1, b.clock, AnchorKey(o, n));
  }

  lemma RebuiltSame(b: Board, c: Board, o: nat, at: Place, n: nat)
    requires TimesGood(b.passed, b.clock) && IsRebuilt(b, c, o, at) && Later(b, o, n)
    ensures AnchorFor(ShotsThen(c, n), AnchorsThen(c, o, n), o, b.observations[o], n)
            == AnchorFor(ShotsThen(b, n), MadeUpTo(b, o, at, b.passed[n]), o, b.observations[o], n)
  {
    var made, there := MadeUpTo(b, o, at, b.passed[n]), AnchorsThen(c, o, n);
    forall k: nat
      ensures AnchorKey(o, k) in there <==> AnchorKey(o, k) in made
      ensures AnchorKey(o, k) in there ==> there[AnchorKey(o, k)] == made[AnchorKey(o, k)]
    {
      RebuiltThen(b, c, o, at, n, k);
    }
    assert ShotsThen(c, n) == ShotsThen(b, n);
    SameAnchorMade(made, there, ShotsThen(c, n), o, b.observations[o], n);
  }

  const HERE := Place(1, [])

  const THERE := Place(2, [])

  // ---- orphaned ----

  /** In the order of their analyses, `n` comes between the version the observation was made on and
      `later`. */
  predicate Between(b: Board, o: nat, n: nat, later: nat) {
    && o in b.observations && b.observations[o].created in b.when && n in b.when && later in b.when
    && var first := b.when[b.observations[o].created];
       first < b.when[n] < b.when[later] || b.when[later] < b.when[n] < first
  }

  /** Once orphaned, orphaned in every version beyond in the order of analyses, forth or back: a
      retired section does not come back, and a new one was not there before. */
  lemma OrphanedStays(b: Board, o: nat, n: nat, later: nat)
    requires Good(b) && Later(b, o, n) && Later(b, o, later) && IsOrphaned(b, o, n)
    requires b.observations[o].section == None || Between(b, o, n, later)
    ensures IsOrphaned(b, o, later)
  {
    OrphanedIs(b, o, n);
    OrphanedIs(b, o, later);
    assert PlacesGood(b, o);
    if b.observations[o].section.Some? {
      NotBack(b, b.observations[o].section.value, b.observations[o].created, n, later);
    }
  }

  lemma NotBack(b: Board, s: SectionId, j: nat, k: nat, l: nat)
    requires NoReturn(b) && j in b.when && k in b.when && l in b.when
    requires SnapKey(j, s) in b.shots && SnapKey(k, s) !in b.shots
    requires b.when[j] < b.when[k] < b.when[l] || b.when[l] < b.when[k] < b.when[j]
    ensures SnapKey(l, s) !in b.shots
  {
    var gone := Gone(b, s, k);
  }

  /** The snapshots of one section in these versions. */
  function KeysIn(versions: set<nat>, s: SectionId): (r: set<SnapKey>)
    ensures forall k :: k in r <==> k.section == s && k.version in versions
  {
    var r := set v | v in versions :: SnapKey(v, s);
    assert forall k: SnapKey :: k.section == s && k.version in versions ==> k == SnapKey(k.version, s);
    r
  }

  /** A section that is in these versions; it was retired in `gone`, or is alive. */
  function InThese(b: Board, s: SectionId, versions: set<nat>, gone: Option<nat>): Board {
    b.(rows := map[s := Row(Key(""), Heading([]), 0, gone)],
       shots := map k | k in KeysIn(versions, s) :: Shot(Snap(Heading([]), Hash(0), Body([]), 0), Place(1, [])))
  }

  /** The tables have one section, in these versions. */
  ghost predicate OnlyIn(c: Board, s: SectionId, versions: set<nat>) {
    && c.rows.Keys == {s} && versions <= c.when.Keys
    && (forall k :: k in c.shots <==> k.section == s && k.version in versions)
    && (c.rows[s].retired == None ==> forall n :: IsLast(c.when, n) ==> n in versions)
  }

  /** With a version, those analysed before it, or those analysed after it. */
  ghost predicate OneSided(when: map<nat, nat>, versions: set<nat>) {
    && versions <= when.Keys
    && ((forall v, u :: v in versions && u in when && when[u] < when[v] ==> u in versions)
        || (forall v, u :: v in versions && u in when && when[v] < when[u] ==> u in versions))
  }

  /** They are good if the section stays until it is gone for good, or comes to stay. */
  lemma OneSection(b: Board, c: Board, s: SectionId, versions: set<nat>)
    requires TablesGood(b) && c.when == b.when && c.passed == b.passed && c.clock == b.clock
    requires OnlyIn(c, s, versions) && OneSided(c.when, versions)
    ensures TablesGood(c)
  {
    NeverReturns(c, s, versions);
    OnlyInRows(b, c, s, versions);
  }

  lemma OnlyInRows(b: Board, c: Board, s: SectionId, versions: set<nat>)
    requires RowsGood(b) && c.when == b.when && OnlyIn(c, s, versions)
    ensures RowsGood(c)
  {
  }

  lemma NeverReturns(c: Board, s: SectionId, versions: set<nat>)
    requires OnlyIn(c, s, versions) && OneSided(c.when, versions)
    ensures NoReturn(c)
  {
    forall r, k, l | Gone(c, r, k) && l in c.when && c.when[k] < c.when[l] ensures SnapKey(l, r) !in c.shots {
      var j :| j in c.when && c.when[j] < c.when[k] && SnapKey(j, r) in c.shots;
      assert j in versions && k !in versions;
    }
  }

  /** The versions analysed on the same side of `n` as `v`. */
  function SideOf(when: map<nat, nat>, n: nat, v: nat): (r: set<nat>)
    requires n in when && v in when && n != v
  {
    set u | u in when && if when[v] < when[n] then when[u] < when[n] else when[u] > when[n]
  }

  lemma SideIsOneSided(when: map<nat, nat>, n: nat, v: nat)
    requires n in when && v in when && n != v
    ensures OneSided(when, SideOf(when, n, v))
  {
    if when[v] < when[n] {
      assert forall u, w :: u in SideOf(when, n, v) && w in when && when[w] < when[u] ==> w in SideOf(when, n, v);
    } else {
      assert forall u, w :: u in SideOf(when, n, v) && w in when && when[u] < when[w] ==> w in SideOf(when, n, v);
    }
  }

  lemma LastIsOnSide(when: map<nat, nat>, clock: nat, n: nat, v: nat, last: nat)
    requires TimesGood(when, clock) && n in when && v in when && when[n] < when[v] && IsLast(when, last)
    ensures last in SideOf(when, n, v)
  {
  }

  lemma SideIs(b: Board, s: SectionId, n: nat, v: nat)
    requires TimesGood(b.when, b.clock) && n in b.when && v in b.when && n != v
    ensures OnlyIn(InThese(b, s, SideOf(b.when, n, v), if b.when[v] < b.when[n] then Some(n) else None), s,
                   SideOf(b.when, n, v))
  {
    assert b.when[n] != b.when[v];
    forall last | b.when[n] < b.when[v] && IsLast(b.when, last) ensures last in SideOf(b.when, n, v) {
      LastIsOnSide(b.when, b.clock, n, v, last);
    }
  }

  /** The section could be in the versions on that side and in no others. */
  lemma LeavingThen(b: Board, o: nat, n: nat) returns (c: Board)
    requires Good(b) && Later(b, o, n) && b.observations[o].section.Some?
    requires b.observations[o].created in b.when
    ensures Good(c) && SameTimes(b, c, o)
    ensures forall v: nat :: SnapKey(v, b.observations[o].section.value) in c.shots
                             <==> v in SideOf(b.when, n, b.observations[o].created)
  {
    var (s, v) := (b.observations[o].section.value, b.observations[o].created);
    assert PlacesGood(b, o);
    SideIs(b, s, n, v);
    SideIsOneSided(b.when, n, v);
    c := InThese(b, s, SideOf(b.when, n, v), if b.when[v] < b.when[n] then Some(n) else None);
    OneSection(b, c, s, SideOf(b.when, n, v));
    c := Rebuilt(c, o, HERE);
  }

  lemma OrphanedInThese(b: Board, c: Board, o: nat, v: nat)
    requires Good(c) && SameTimes(b, c, o) && Later(b, o, v) && b.observations[o].section.Some?
    ensures IsOrphaned(c, o, v) <==> SnapKey(v, b.observations[o].section.value) !in c.shots
  {
    OrphanedIs(c, o, v);
  }

  /** So an orphaned anchor makes another one orphaned, whatever the sections, exactly if it comes
      between: neither the numbers nor the order of going through them say so. */
  lemma OrphanedStaysIff(b: Board, o: nat, n: nat, later: nat)
    requires Good(b) && Later(b, o, n) && Later(b, o, later) && n != later && b.observations[o].section.Some?
    ensures (forall c :: Good(c) && SameTimes(b, c, o) && IsOrphaned(c, o, n) ==> IsOrphaned(c, o, later))
            <==> Between(b, o, n, later)
  {
    assert PlacesGood(b, o);
    if Between(b, o, n, later) {
      forall c | Good(c) && SameTimes(b, c, o) && IsOrphaned(c, o, n) ensures IsOrphaned(c, o, later) {
        OrphanedStays(c, o, n, later);
      }
    } else {
      var c := LeavingThen(b, o, n);
      assert later in SideOf(b.when, n, b.observations[o].created);
      OrphanedInThese(b, c, o, n);
      OrphanedInThese(b, c, o, later);
    }
  }

  // ---- the place of an exact anchor ----

  /** On a version gone through since, an exact anchor is over the body of the anchor that its
      place is from exactly when that is the body of the version numbered one less. */
  lemma FaithfulIff(b: Board, o: nat, n: nat, m: nat)
    requires Good(b) && Later(b, o, n) && b.observations[o].section.Some? && MadeExact(b, o, n)
    requires Source(b, o, n) == Some(m)
    ensures Faithful(b, o, n, m) <==> BodyAt(b, o, m) == BodyAt(b, o, n - 1)
  {
    ExactIs(b, o, n);
    SourceIsAnchor(b, o, n);
  }

  /** An exact anchor sits where an earlier one sat, over the same body. */
  ghost predicate Faithful(b: Board, o: nat, n: nat, m: nat)
    requires o in b.observations && b.observations[o].section.Some?
  {
    && AnchorKey(o, m) in b.anchors && AnchorKey(o, n) in b.anchors
    && PlaceOn(b, o, n) == PlaceOn(b, o, m) && BodyAt(b, o, n) == BodyAt(b, o, m) != None
  }

  /** A section that is in every version, with another body from one of them on and another place
      in that one. */
  function DifferentIn(b: Board, s: SectionId, m: nat): Board {
    b.(rows := map[s := Row(Key(""), Heading([]), 0, None)],
       shots := map k | k in KeysIn(b.when.Keys, s) ::
                  Shot(Snap(Heading([]), Hash(if k.version < m then 0 else 1), Body([]), 0),
                       if k.version == m then THERE else HERE))
  }

  lemma DifferentInIs(b: Board, s: SectionId, m: nat)
    requires TablesGood(b)
    ensures TablesGood(DifferentIn(b, s, m))
  {
    EverywhereIsOneSided(b.when);
    DifferentOnlyIn(b, s, m);
    OneSection(b, DifferentIn(b, s, m), s, b.when.Keys);
  }

  lemma EverywhereIsOneSided(when: map<nat, nat>)
    ensures OneSided(when, when.Keys)
  {
  }

  lemma DifferentOnlyIn(b: Board, s: SectionId, m: nat)
    ensures OnlyIn(DifferentIn(b, s, m), s, b.when.Keys)
  {
  }

  /** Until that version is gone through, all anchors are at the one place. */
  lemma {:induction false} AllHere(c: Board, o: nat, s: SectionId, m: nat, k: nat)
    requires Good(c) && Later(c, o, k) && c.observations[o].section == Some(s)
    requires m in c.passed && c.passed[k] < c.passed[m] && c.shots == DifferentIn(c, s, m).shots
    requires PlaceOn(c, o, c.observations[o].created) == HERE
    ensures PlaceOn(c, o, k) == HERE
    decreases c.passed[k]
  {
    OrphanedIs(c, o, k);
    ExactIs(c, o, k);
    HashIn(c, s, m, k);
    if MadeExact(c, o, k) && Source(c, o, k).Some? {
      SourceIsAnchor(c, o, k);
      var from := Source(c, o, k).value;
      IsAnchored(c, o, from);
      if from != c.observations[o].created { AllHere(c, o, s, m, from); }
    } else if !MadeExact(c, o, k) {
      ReanchoredIs(c, o, k);
    }
  }

  /** Otherwise the version before by number was gone through later than `n` itself. */
  lemma LaterThan(b: Board, o: nat, n: nat, m: nat)
    requires Good(b) && Later(b, o, n) && LastBefore(b.anchors, o, n) == Some(m) && Source(b, o, n) != Some(m)
    ensures Later(b, o, m) && b.passed[n] < b.passed[m] && m < n
  {
    IsAnchored(b, o, m);
    IsAnchored(b, o, n);
    assert b.passed[m] != b.passed[n];
    if m == b.observations[o].created || b.passed[m] < b.passed[n] {
      SourceIsLast(b, o, n, m);
    }
  }

  lemma SourceIsLast(b: Board, o: nat, n: nat, m: nat)
    requires o in b.observations && n in b.passed && LastBefore(b.anchors, o, n) == Some(m) && ThereBefore(b, o, m, n)
    ensures Source(b, o, n) == Some(m)
  {
    assert AnchorKey(o, m) in AnchorsThen(b, o, n);
  }

  /** An exact anchor has the place of the one before it by number, whatever the sections, exactly
      if that one was there when it was made, its version not gone through later. */
  lemma PlaceByNumberIff(b: Board, o: nat, n: nat, m: nat)
    requires Good(b) && Later(b, o, n) && b.observations[o].section.Some? && Preceded(b, n)
    requires LastBefore(b.anchors, o, n) == Some(m)
    ensures (forall c :: Good(c) && SameTimes(b, c, o) && MadeExact(c, o, n) ==> SamePlace(c, o, n, m))
            <==> ThereBefore(b, o, m, n)
  {
    if ThereBefore(b, o, m, n) {
      SourceIsLast(b, o, n, m);
      forall c | Good(c) && SameTimes(b, c, o) && MadeExact(c, o, n) ensures SamePlace(c, o, n, m) {
        SameSources(b, c, o, n);
        ExactIs(c, o, n);
        SourceIsAnchor(c, o, n);
      }
    } else {
      if Source(b, o, n) == Some(m) { SourceIsAnchor(b, o, n); }
      var c := PlaceDiffers(b, o, n, m);
    }
  }

  ghost predicate SamePlace(b: Board, o: nat, n: nat, m: nat) {
    AnchorKey(o, n) in b.anchors && AnchorKey(o, m) in b.anchors && PlaceOn(b, o, n) == PlaceOn(b, o, m)
  }

  lemma PlaceDiffers(b: Board, o: nat, n: nat, m: nat) returns (c: Board)
    requires Good(b) && Later(b, o, n) && b.observations[o].section.Some? && Preceded(b, n)
    requires LastBefore(b.anchors, o, n) == Some(m) && Source(b, o, n) != Some(m)
    ensures Good(c) && SameTimes(b, c, o) && MadeExact(c, o, n) && !SamePlace(c, o, n, m)
  {
    var s := b.observations[o].section.value;
    LaterThan(b, o, n, m);
    c := Differing(b, o, s, m);
    ExactHere(c, o, s, m, n);
    AllHere(c, o, s, m, n);
    DifferentThere(c, o, s, m);
  }

  lemma Differing(b: Board, o: nat, s: SectionId, m: nat) returns (c: Board)
    requires Good(b) && o in b.observations && b.observations[o].section == Some(s)
    ensures Good(c) && SameTimes(b, c, o) && c.shots == DifferentIn(c, s, m).shots
    ensures AnchorKey(o, b.observations[o].created) in c.anchors && PlaceOn(c, o, b.observations[o].created) == HERE
  {
    assert PlacesGood(b, o);
    DifferentInIs(b, s, m);
    c := Rebuilt(DifferentIn(b, s, m), o, HERE);
  }

  lemma ExactHere(c: Board, o: nat, s: SectionId, m: nat, n: nat)
    requires Good(c) && Later(c, o, n) && c.observations[o].section == Some(s) && Preceded(c, n)
    requires c.shots == DifferentIn(c, s, m).shots && m < n
    ensures MadeExact(c, o, n)
  {
    assert c.when[n - 1] < c.passed[n] && n in c.when;
    SameBodyHere(c, o, s, m, n);
    ExactIs(c, o, n);
  }

  lemma SameBodyHere(c: Board, o: nat, s: SectionId, m: nat, n: nat)
    requires o in c.observations && c.observations[o].section == Some(s) && n in c.when && n - 1 in c.when
    requires c.shots == DifferentIn(c, s, m).shots && m < n
    ensures BodyAt(c, o, n) == BodyAt(c, o, n - 1) != None
  {
    HashIn(c, s, m, n);
    HashIn(c, s, m, n - 1);
  }

  lemma HashIn(c: Board, s: SectionId, m: nat, k: nat)
    requires c.shots == DifferentIn(c, s, m).shots && k in c.when
    ensures SnapKey(k, s) in c.shots
    ensures HashAt(c.shots, k, s) == Some(Hash(if k < m then 0 else 1))
    ensures c.shots[SnapKey(k, s)].at == if k == m then THERE else HERE
  {
  }

  lemma NotExactThere(c: Board, o: nat, s: SectionId, m: nat)
    requires Good(c) && Later(c, o, m) && c.observations[o].section == Some(s)
    requires c.shots == DifferentIn(c, s, m).shots
    ensures !MadeExact(c, o, m)
  {
    ExactIs(c, o, m);
    HashIn(c, s, m, m);
    if Preceded(c, m) { HashIn(c, s, m, m - 1); }
  }

  lemma DifferentThere(c: Board, o: nat, s: SectionId, m: nat)
    requires Good(c) && Later(c, o, m) && c.observations[o].section == Some(s)
    requires c.shots == DifferentIn(c, s, m).shots
    ensures AnchorKey(o, m) in c.anchors && PlaceOn(c, o, m) == THERE
  {
    IsAnchored(c, o, m);
    OrphanedIs(c, o, m);
    HashIn(c, s, m, m);
    NotExactThere(c, o, s, m);
    ReanchoredIs(c, o, m);
  }

  // ---- where an exact anchor has its place from ----

  /** Back over the exact anchors, each to the one it was made from. */
  ghost function RootOf(b: Board, o: nat, n: nat): (origin: nat)
    requires o in b.observations
    ensures origin <= n
    decreases n
  {
    if MadeExact(b, o, n) && n != b.observations[o].created && n in b.passed && Source(b, o, n).Some? then
      RootOf(b, o, Source(b, o, n).value)
    else n
  }

  /** An anchor at which the way back ends: where the observation was made, at the section's own
      place, or with no boxes at all where the section was missing. */
  ghost predicate IsRoot(b: Board, o: nat, m: nat)
    requires o in b.observations && b.observations[o].section.Some?
  {
    var x := b.observations[o];
    && AnchorKey(o, m) in b.anchors
    && (m == x.created ||
        match b.anchors[AnchorKey(o, m)].how
        case Orphaned => SnapKey(m, x.section.value) !in b.shots && PlaceOn(b, o, m).boxes == []
        case Reanchored => AtOwnPlace(b, o, m, x.section.value)
        case Exact => m < x.created && AtOwnPlace(b, o, m, x.section.value))
  }

  ghost predicate AtOwnPlace(b: Board, o: nat, m: nat, s: SectionId) {
    AnchorKey(o, m) in b.anchors && SnapKey(m, s) in b.shots && PlaceOn(b, o, m) == b.shots[SnapKey(m, s)].at
  }

  lemma NotExactIsRoot(b: Board, o: nat, m: nat)
    requires Good(b) && o in b.observations && b.observations[o].section.Some?
    requires AnchorKey(o, m) in b.anchors && !MadeExact(b, o, m)
    ensures IsRoot(b, o, m)
  {
    IsAnchored(b, o, m);
    assert AllMadeRight(b, o) && MadeRight(b, o, m);
    OrphanedIs(b, o, m);
    if !IsOrphaned(b, o, m) { ReanchoredIs(b, o, m); }
  }

  /** An exact anchor has the place at which the way back ends. On a version numbered above the
      one the observation was made on it ends there or above; below, it ends below. */
  lemma {:induction false} PlaceOfOrigin(b: Board, o: nat, n: nat)
    requires Good(b) && o in b.observations && b.observations[o].section.Some? && MadeExact(b, o, n)
    ensures SamePlace(b, o, n, RootOf(b, o, n)) && IsRoot(b, o, RootOf(b, o, n))
    ensures b.observations[o].created <= RootOf(b, o, n) <==> b.observations[o].created <= n
    decreases n
  {
    IsAnchored(b, o, n);
    if n != b.observations[o].created {
      ExactIs(b, o, n);
      SourceSide(b, o, n);
      if Source(b, o, n).Some? {
        var m := Source(b, o, n).value;
        SourceIsAnchor(b, o, n);
        if MadeExact(b, o, m) {
          PlaceOfOrigin(b, o, m);
        } else {
          IsAnchored(b, o, m);
          NotExactIsRoot(b, o, m);
        }
      }
    }
  }

  /** It ends at a missing section only if that was not missing in between. */
  lemma RootNotBetween(b: Board, o: nat, n: nat)
    requires Good(b) && o in b.observations && b.observations[o].section.Some? && MadeExact(b, o, n)
    ensures IsOrphaned(b, o, RootOf(b, o, n)) ==> !Between(b, o, RootOf(b, o, n), n)
  {
    var m := RootOf(b, o, n);
    if IsOrphaned(b, o, m) && Between(b, o, m, n) {
      IsAnchored(b, o, m);
      IsAnchored(b, o, n);
      OrphanedStays(b, o, m, n);
    }
  }

  /** Above the version it was made on, an observation always has an anchor to go by. */
  lemma SourceSide(b: Board, o: nat, n: nat)
    requires Good(b) && Later(b, o, n)
    ensures b.observations[o].created < n <==>
            Source(b, o, n).Some? && b.observations[o].created <= Source(b, o, n).value
  {
    IsAnchored(b, o, b.observations[o].created);
    if b.observations[o].created < n { assert ThereBefore(b, o, b.observations[o].created, n); }
  }

  // ---- when it means the same body ----

  /** From the one version to the other every anchor is exact. */
  ghost predicate Unbroken(b: Board, o: nat, from: nat, until: nat) {
    forall k: nat :: from < k <= until ==> MadeExact(b, o, k)
  }

  /** Away from the version it was made on, an exact anchor is over the body of the version before. */
  ghost predicate BodiesStay(b: Board, o: nat)
    requires o in b.observations && b.observations[o].section.Some?
  {
    forall n: nat {:trigger MadeExact(b, o, n)} :: MadeExact(b, o, n) && n != b.observations[o].created ==>
      BodyAt(b, o, n) == BodyAt(b, o, n - 1) != None
  }

  lemma GoodBodiesStay(b: Board, o: nat)
    requires Good(b) && o in b.observations && b.observations[o].section.Some?
    ensures BodiesStay(b, o)
  {
    forall n: nat | MadeExact(b, o, n) && n != b.observations[o].created
      ensures BodyAt(b, o, n) == BodyAt(b, o, n - 1) != None
    {
      IsAnchored(b, o, n);
      ExactIs(b, o, n);
    }
  }

  lemma {:induction false} SameBodies(b: Board, o: nat, from: nat, until: nat)
    requires o in b.observations && b.observations[o].section.Some? && BodiesStay(b, o) && Unbroken(b, o, from, until)
    requires from < until && !(from < b.observations[o].created <= until)
    ensures BodyAt(b, o, until) == BodyAt(b, o, from) != None
    decreases until
  {
    assert MadeExact(b, o, until);
    if from < until - 1 { SameBodies(b, o, from, until - 1); }
  }

  /** Then the exact anchor is over the body that it had where its place is from. */
  lemma UnbrokenIsFaithful(b: Board, o: nat, n: nat)
    requires Good(b) && o in b.observations && b.observations[o].section.Some? && MadeExact(b, o, n)
    requires Unbroken(b, o, RootOf(b, o, n), n)
    ensures Faithful(b, o, n, RootOf(b, o, n))
  {
    PlaceOfOrigin(b, o, n);
    GoodBodiesStay(b, o);
    if RootOf(b, o, n) < n {
      SameBodies(b, o, RootOf(b, o, n), n);
    } else {
      assert PlacesGood(b, o);
    }
  }

  /** The same times, sections and places, and the same anchors of this observation: only bodies
      differ. */
  ghost predicate Alike(b: Board, c: Board, o: nat) {
    && SameTimes(b, c, o) && c.rows == b.rows
    && (forall k :: k in b.shots <==> k in c.shots) && (forall k :: k in b.shots ==> c.shots[k].at == b.shots[k].at)
    && (forall n: nat :: AnchorKey(o, n) in b.anchors <==> AnchorKey(o, n) in c.anchors)
    && (forall n: nat :: AnchorKey(o, n) in b.anchors ==> c.anchors[AnchorKey(o, n)] == b.anchors[AnchorKey(o, n)])
  }

  function Swap(h: Hash, x: Hash, y: Hash): Hash { if h == x then y else if h == y then x else h }

  function SwappedShot(k: SnapKey, shot: Shot, m: nat, x: Hash, y: Hash): Shot {
    if k.version <= m then shot.(snap := shot.snap.(bodyHash := Swap(shot.snap.bodyHash, x, y))) else shot
  }

  /** The same board for one observation, with two bodies changing places in versions up to `m`. */
  function Swapped(b: Board, o: nat, m: nat, x: Hash, y: Hash): Board
    requires o in b.observations && o in b.since
  {
    b.(shots := map k | k in b.shots :: SwappedShot(k, b.shots[k], m, x, y),
       observations := map[o := b.observations[o]], since := map[o := b.since[o]],
       anchors := map k | k in b.anchors && k.observation == o :: b.anchors[k])
  }

  lemma SwappedAlike(b: Board, o: nat, m: nat, x: Hash, y: Hash)
    requires o in b.observations && o in b.since
    ensures Alike(b, Swapped(b, o, m, x, y), o)
  {
  }

  lemma SwappedTables(b: Board, o: nat, m: nat, x: Hash, y: Hash)
    requires TablesGood(b) && o in b.observations && o in b.since
    ensures TablesGood(Swapped(b, o, m, x, y))
  {
    var c := Swapped(b, o, m, x, y);
    forall s, k, l | Gone(c, s, k) && l in c.when && c.when[k] < c.when[l] ensures SnapKey(l, s) !in c.shots {
      assert Gone(b, s, k);
    }
  }

  lemma SwappedPlaces(b: Board, o: nat, m: nat, x: Hash, y: Hash)
    requires o in b.observations && PlacesGood(b, o)
    ensures PlacesGood(Swapped(b, o, m, x, y), o)
  {
    var c := Swapped(b, o, m, x, y);
    forall n: nat ensures Later(c, o, n) <==> Later(b, o, n) {
    }
  }

  lemma SwappedSource(b: Board, o: nat, m: nat, x: Hash, y: Hash, n: nat)
    requires o in b.observations && o in b.since && n in b.passed
    ensures AnchorsThen(Swapped(b, o, m, x, y), o, n) == AnchorsThen(b, o, n)
  {
    var c := Swapped(b, o, m, x, y);
    forall k ensures k in AnchorsThen(c, o, n) <==> k in AnchorsThen(b, o, n) {
      if k.observation == o { assert k == AnchorKey(o, k.version); }
    }
  }

  /** Nowhere in the tables. */
  ghost predicate Unused(shots: Shots, y: Hash) { forall k :: k in shots ==> shots[k].snap.bodyHash != y }

  /** Bodies that were equal still are, but for those on the two sides of `m`. */
  lemma SwappedSeen(b: Board, o: nat, m: nat, x: Hash, y: Hash, n: nat, s: SectionId)
    requires o in b.observations && o in b.since && n in b.passed && Unused(b.shots, y)
    requires n == m + 1 ==> HashAt(ShotsThen(b, n), m, s) == None
                            || HashAt(ShotsThen(b, n), m, s) != HashAt(ShotsThen(b, n), n, s)
    ensures var c := Swapped(b, o, m, x, y);
            && (SnapKey(n, s) in ShotsThen(c, n) <==> SnapKey(n, s) in ShotsThen(b, n))
            && (SnapKey(n, s) in ShotsThen(b, n) ==>
                  && ShotsThen(c, n)[SnapKey(n, s)].at == ShotsThen(b, n)[SnapKey(n, s)].at
                  && (HashAt(ShotsThen(c, n), n - 1, s) == HashAt(ShotsThen(c, n), n, s)
                      <==> HashAt(ShotsThen(b, n), n - 1, s) == HashAt(ShotsThen(b, n), n, s)))
  {
  }

  lemma SwappedMadeRight(b: Board, o: nat, m: nat, x: Hash, y: Hash, n: nat)
    requires o in b.observations && o in b.since && MadeRight(b, o, n) && Unused(b.shots, y)
    requires n == m + 1 ==> !MadeExact(b, o, n)
    ensures MadeRight(Swapped(b, o, m, x, y), o, n)
  {
    SwappedSource(b, o, m, x, y, n);
    if b.observations[o].section.Some? && SnapKey(n, b.observations[o].section.value) in ShotsThen(b, n) {
      SwappedSeen(b, o, m, x, y, n, b.observations[o].section.value);
    }
  }

  lemma SwappedAllMade(b: Board, o: nat, m: nat, x: Hash, y: Hash)
    requires o in b.observations && o in b.since && AllMadeRight(b, o) && !MadeExact(b, o, m + 1) && Unused(b.shots, y)
    ensures AllMadeRight(Swapped(b, o, m, x, y), o)
  {
    var c := Swapped(b, o, m, x, y);
    forall n: nat | Later(c, o, n) ensures MadeRight(c, o, n) {
      assert Later(b, o, n) && MadeRight(b, o, n);
      SwappedMadeRight(b, o, m, x, y, n);
    }
  }

  /** Re-anchoring does not see it if the anchor on version `m + 1` is not exact. */
  lemma SwappedGood(b: Board, o: nat, m: nat, x: Hash, y: Hash)
    requires Good(b) && o in b.observations && o in b.since && !MadeExact(b, o, m + 1) && Unused(b.shots, y)
    ensures Good(Swapped(b, o, m, x, y))
  {
    assert PlacesGood(b, o) && AllMadeRight(b, o);
    SwappedTables(b, o, m, x, y);
    SwappedPlaces(b, o, m, x, y);
    SwappedAllMade(b, o, m, x, y);
  }

  lemma {:induction false} AnUnusedHash(shots: Shots) returns (y: Hash)
    ensures Unused(shots, y) && forall k :: k in shots ==> shots[k].snap.bodyHash.digest < y.digest
    decreases |shots|
  {
    if shots == map[] { return Hash(0); }
    var k :| k in shots;
    y := AnUnusedHash(shots - {k});
    assert forall l :: l in shots ==> l == k || l in shots - {k};
    if y.digest <= shots[k].snap.bodyHash.digest { y := Hash(shots[k].snap.bodyHash.digest + 1); }
  }

  ghost function NotExactIn(b: Board, o: nat, from: nat, until: nat): (v: nat)
    requires !Unbroken(b, o, from, until)
    ensures from < v <= until && !MadeExact(b, o, v)
  {
    var v: nat :| from < v <= until && !MadeExact(b, o, v);
    v
  }

  /** With an anchor that is not exact on the way back, there is a board alike in everything but
      bodies on which the same exact anchor sits over another body. */
  lemma BreakHidesAChange(b: Board, o: nat, n: nat) returns (c: Board)
    requires Good(b) && o in b.observations && b.observations[o].section.Some? && MadeExact(b, o, n)
    requires !Unbroken(b, o, RootOf(b, o, n), n)
    ensures Good(c) && Alike(b, c, o) && !Faithful(c, o, n, RootOf(b, o, n))
  {
    c := ChangedBelow(b, o, n, RootOf(b, o, n), NotExactIn(b, o, RootOf(b, o, n), n) - 1);
  }

  lemma AlikeItself(b: Board, o: nat)
    requires Good(b) && o in b.observations
    ensures Alike(b, b, o)
  {
    assert PlacesGood(b, o);
  }

  lemma ChangedBelow(b: Board, o: nat, n: nat, origin: nat, m: nat) returns (c: Board)
    requires Good(b) && o in b.observations && b.observations[o].section.Some?
    requires origin <= m < n && !MadeExact(b, o, m + 1)
    ensures Good(c) && Alike(b, c, o) && !Faithful(c, o, n, origin)
  {
    if !Faithful(b, o, n, origin) {
      AlikeItself(b, o);
      return b;
    }
    var h := BodyAt(b, o, n).value;
    var other := AnUnusedHash(b.shots);
    assert PlacesGood(b, o);
    c := Swapped(b, o, m, h, other);
    SwappedGood(b, o, m, h, other);
    SwappedAlike(b, o, m, h, other);
    SwappedBodies(b, o, m, h, other, n, origin);
  }

  lemma SwappedBodies(b: Board, o: nat, m: nat, h: Hash, other: Hash, n: nat, origin: nat)
    requires o in b.observations && o in b.since && b.observations[o].section.Some?
    requires origin <= m < n && BodyAt(b, o, n) == BodyAt(b, o, origin) == Some(h) && h != other
    ensures BodyAt(Swapped(b, o, m, h, other), o, n) != BodyAt(Swapped(b, o, m, h, other), o, origin)
  {
  }

  /** Exactly when an exact anchor can be trusted: whatever the bodies, it is over the one its
      place is from, if and only if every version in between has an exact anchor too. */
  lemma ExactGoesBack(b: Board, o: nat, n: nat)
    requires Good(b) && o in b.observations && b.observations[o].section.Some? && MadeExact(b, o, n)
    ensures (forall c :: Good(c) && Alike(b, c, o) ==> Faithful(c, o, n, RootOf(b, o, n)))
            <==> Unbroken(b, o, RootOf(b, o, n), n)
  {
    if Unbroken(b, o, RootOf(b, o, n), n) {
      forall c | Good(c) && Alike(b, c, o) ensures Faithful(c, o, n, RootOf(b, o, n)) {
        UnbrokenHolds(b, c, o, n);
      }
    } else {
      var c := BreakHidesAChange(b, o, n);
    }
  }

  lemma UnbrokenHolds(b: Board, c: Board, o: nat, n: nat)
    requires Good(b) && Good(c) && Alike(b, c, o) && b.observations[o].section.Some? && MadeExact(b, o, n)
    requires Unbroken(b, o, RootOf(b, o, n), n)
    ensures Faithful(c, o, n, RootOf(b, o, n))
  {
    SameOrigin(b, c, o, n);
    assert forall k: nat :: MadeExact(b, o, k) ==> MadeExact(c, o, k);
    UnbrokenIsFaithful(c, o, n);
  }

  lemma {:induction false} SameOrigin(b: Board, c: Board, o: nat, n: nat)
    requires Good(b) && Good(c) && Alike(b, c, o)
    ensures RootOf(b, o, n) == RootOf(c, o, n)
    decreases n
  {
    if n in b.passed {
      SameSources(b, c, o, n);
      if Source(b, o, n).Some? { SameOrigin(b, c, o, Source(b, o, n).value); }
    }
  }

  /** The versions since the one the observation was made on, up to `n`, were gone through in the
      order of their numbers. */
  ghost predicate InOrder(b: Board, o: nat, n: nat)
    requires o in b.observations
  {
    && (forall k :: k in b.when && b.observations[o].created < k <= n ==> Later(b, o, k))
    && forall j, k :: j in b.passed && k in b.passed && b.observations[o].created < j < k <= n
                      ==> b.passed[j] < b.passed[k]
  }

  /** Then an exact anchor can be trusted. */
  lemma ExactSinceMade(b: Board, o: nat, n: nat)
    requires Good(b) && o in b.observations && b.observations[o].section.Some? && MadeExact(b, o, n)
    requires b.observations[o].created <= n && InOrder(b, o, n)
    ensures Faithful(b, o, n, RootOf(b, o, n))
  {
    InOrderGoesByNumber(b, o, n);
    InOrderIsUnbroken(b, o, n);
    UnbrokenIsFaithful(b, o, n);
  }

  ghost predicate GoesByNumber(b: Board, o: nat, n: nat)
    requires o in b.observations
  {
    forall k: nat {:trigger MadeExact(b, o, k)} :: b.observations[o].created < k <= n && MadeExact(b, o, k) ==>
      k in b.passed && Source(b, o, k) == Some(k - 1)
  }

  lemma InOrderGoesByNumber(b: Board, o: nat, n: nat)
    requires Good(b) && o in b.observations && b.observations[o].section.Some? && InOrder(b, o, n)
    ensures GoesByNumber(b, o, n)
  {
    forall k: nat | b.observations[o].created < k <= n && MadeExact(b, o, k)
      ensures k in b.passed && Source(b, o, k) == Some(k - 1)
    {
      IsAnchored(b, o, k);
      SourceInOrder(b, o, k);
    }
  }

  lemma {:induction false} InOrderIsUnbroken(b: Board, o: nat, n: nat)
    requires o in b.observations && GoesByNumber(b, o, n) && MadeExact(b, o, n) && b.observations[o].created <= n
    ensures Unbroken(b, o, RootOf(b, o, n), n)
    decreases n
  {
    if n != b.observations[o].created && MadeExact(b, o, n - 1) { InOrderIsUnbroken(b, o, n - 1); }
  }

  lemma SourceInOrder(b: Board, o: nat, n: nat)
    requires Good(b) && Later(b, o, n) && b.observations[o].section.Some? && MadeExact(b, o, n)
    requires b.observations[o].created < n && InOrder(b, o, n)
    ensures Source(b, o, n) == Some(n - 1)
  {
    ExactIs(b, o, n);
    IsAnchored(b, o, n - 1);
    assert ThereBefore(b, o, n - 1, n);
    assert AnchorKey(o, n - 1) in AnchorsThen(b, o, n);
  }
}
