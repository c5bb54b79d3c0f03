/** persist_analysis of backend/engine/services/persistence.py: which section of a document
    each analysed section is, and what becomes of the others. */
module SectionStore {
  import opened Order
  import opened Sections

  type SectionId = nat

  /** A Section row; retired sections keep their key. */
  datatype Row = Row(key: Key, title: Heading, created: nat, retired: Option<nat>)

  /** Which version of which section a SectionVersion row is about. */
  datatype SnapKey = SnapKey(version: nat, section: SectionId)

  datatype Snap = Snap(heading: Heading, bodyHash: Hash, body: Body, order: nat)

  /** One section of an analysis result. */
  datatype Payload = Payload(key: Key, heading: Heading, bodyHash: Hash, body: Body, order: nat)

  datatype Relation = Same | Renamed | Added | Removed

  datatype Lineage = Lineage(version: nat, section: SectionId, relation: Relation)

  datatype Counters = Counters(same: nat, renamed: nat, added: nat, removed: nat)

  datatype Outcome = Stored(counters: Counters) | IntegrityError

  function SnapOf(p: Payload): Snap { Snap(p.heading, p.bodyHash, p.body, p.order) }

  /** uniq_section_key: one row per key in a document, retired rows included. */
  ghost predicate UniqueKeys(rows: map<SectionId, Row>) {
    forall i, j :: i in rows && j in rows && rows[i].key == rows[j].key ==> i == j
  }

  predicate Alive(rows: map<SectionId, Row>, i: SectionId) {
    i in rows && rows[i].retired == None
  }

  predicate Taken(rows: map<SectionId, Row>, k: Key) {
    exists i :: i in rows && rows[i].key == k
  }

  /** The section that a key names. */
  function IdOf(rows: map<SectionId, Row>, k: Key): (i: SectionId)
    requires UniqueKeys(rows) && Taken(rows, k)
    ensures i in rows && rows[i].key == k
  {
    var i :| i in rows && rows[i].key == k;
    i
  }

  function KeysOf(rows: map<SectionId, Row>, ids: set<SectionId>): set<Key> {
    set i | i in ids && i in rows :: rows[i].key
  }

  /** The body hash of a section in its latest version before `v`. */
  function Latest(snaps: map<SnapKey, Snap>, i: SectionId, v: nat): Option<Hash> {
    if v == 0 then None
    else if SnapKey(v - 1, i) in snaps then Some(snaps[SnapKey(v - 1, i)].bodyHash)
    else Latest(snaps, i, v - 1)
  }

  /** The section has a snapshot in version `m` with this body hash, and none since, before `v`. */
  ghost predicate IsLatest(snaps: map<SnapKey, Snap>, i: SectionId, v: nat, m: nat, h: Hash) {
    && m < v && SnapKey(m, i) in snaps && snaps[SnapKey(m, i)].bodyHash == h
    && forall k: nat :: m < k < v ==> SnapKey(k, i) !in snaps
  }

  /** The section carried the body hash last. */
  ghost predicate CarriedLast(snaps: map<SnapKey, Snap>, i: SectionId, v: nat, h: Hash) {
    exists m :: IsLatest(snaps, i, v, m, h)
  }

  lemma {:induction false} LatestIff(snaps: map<SnapKey, Snap>, i: SectionId, v: nat, h: Hash)
    ensures Latest(snaps, i, v) == Some(h) <==> CarriedLast(snaps, i, v, h)
  {
    if v > 0 {
      LatestIff(snaps, i, v - 1, h);
      if SnapKey(v - 1, i) in snaps {
        assert Latest(snaps, i, v) == Some(h) ==> IsLatest(snaps, i, v, v - 1, h);
      } else {
        if m :| IsLatest(snaps, i, v, m, h) {
          assert IsLatest(snaps, i, v - 1, m, h);
        }
        if CarriedLast(snaps, i, v - 1, h) {
          var m :| IsLatest(snaps, i, v - 1, m, h);
          assert IsLatest(snaps, i, v, m, h);
        }
      }
    }
  }

  /** by_body_hash, without a word about how it is made: every hash that an alive section carried
      last leads to the first such section, and no other hash leads anywhere. */
  ghost predicate LeadsToFirst(byHash: map<Hash, SectionId>, rows: map<SectionId, Row>,
                               snaps: map<SnapKey, Snap>, v: nat)
  {
    && (forall h :: h in byHash ==> Alive(rows, byHash[h]) && CarriedLast(snaps, byHash[h], v, h))
    && (forall h, i :: Alive(rows, i) && CarriedLast(snaps, i, v, h) ==> h in byHash && byHash[h] <= i)
  }

  lemma LastWithHashIff(byHash: map<Hash, SectionId>, rows: map<SectionId, Row>, snaps: map<SnapKey, Snap>, v: nat)
    ensures LastWithHash(byHash, rows, snaps, v) <==> LeadsToFirst(byHash, rows, snaps, v)
  {
    forall i, h ensures Latest(snaps, i, v) == Some(h) <==> CarriedLast(snaps, i, v, h) {
      LatestIff(snaps, i, v, h);
    }
    if LeadsToFirst(byHash, rows, snaps, v) {
      forall i | Alive(rows, i) && Latest(snaps, i, v).Some? ensures Latest(snaps, i, v).value in byHash {
        assert CarriedLast(snaps, i, v, Latest(snaps, i, v).value);
      }
    }
  }

  /** alive_sections: the rows not retired, by the key they had at the start. */
  ghost predicate AliveByKey(alive: map<Key, SectionId>, rows: map<SectionId, Row>) {
    && (forall k :: k in alive ==> Alive(rows, alive[k]) && rows[alive[k]].key == k)
    && (forall i :: Alive(rows, i) ==> rows[i].key in alive && alive[rows[i].key] == i)
  }

  /** by_body_hash: the first section, by id, that carried the hash last. */
  ghost predicate LastWithHash(byHash: map<Hash, SectionId>, rows: map<SectionId, Row>,
                               snaps: map<SnapKey, Snap>, v: nat)
  {
    && (forall h :: h in byHash ==> Alive(rows, byHash[h]) && Latest(snaps, byHash[h], v) == Some(h))
    && (forall h, i :: h in byHash && Alive(rows, i) && Latest(snaps, i, v) == Some(h) ==> byHash[h] <= i)
    && (forall i :: Alive(rows, i) && Latest(snaps, i, v).Some? ==> Latest(snaps, i, v).value in byHash)
  }

  // ---- the loop over the payload, as a function ----

  /** Where the loop is: the rows as they are now, the sections snapshotted so far in order. */
  datatype Run = Run(rows: map<SectionId, Row>, next: SectionId, made: seq<SectionId>, orders: set<nat>,
                     lineage: seq<Lineage>, counters: Counters)

  /** One payload; None where the database refuses the row. (The dictionaries only ever name
      rows that are there.) */
  function Step(run: Run, p: Payload, alive: map<Key, SectionId>, byHash: map<Hash, SectionId>, v: nat): Option<Run> {
    if p.order in run.orders then None
    else if p.key in alive then
      var s := alive[p.key];
      if s in run.made || s !in run.rows then None
      else Some(run.(rows := run.rows[s := run.rows[s].(title := p.heading)],
                     made := run.made + [s], orders := run.orders + {p.order},
                     counters := run.counters.(same := run.counters.same + 1)))
    else if Taken(run.rows, p.key) then None
    else if p.bodyHash in byHash && byHash[p.bodyHash] !in run.made && byHash[p.bodyHash] in run.rows then
      var s := byHash[p.bodyHash];
      Some(run.(rows := run.rows[s := run.rows[s].(key := p.key, title := p.heading)],
                made := run.made + [s], orders := run.orders + {p.order},
                lineage := run.lineage + [Lineage(v, s, Relation.Renamed)],
                counters := run.counters.(renamed := run.counters.renamed + 1)))
    else
      Some(Run(run.rows[run.next := Row(p.key, p.heading, v, None)], run.next + 1,
               run.made + [run.next], run.orders + {p.order},
               run.lineage + [Lineage(v, run.next, Relation.Added)],
               run.counters.(added := run.counters.added + 1)))
  }

  /** The start: nothing matched yet. */
  function Start(rows: map<SectionId, Row>, next: SectionId, lineage: seq<Lineage>): Run {
    Run(rows, next, [], {}, lineage, Counters(0, 0, 0, 0))
  }

  /** What stays fixed while the loop runs. */
  datatype Task = Task(rows: map<SectionId, Row>, next: SectionId, log: seq<Lineage>, snaps: map<SnapKey, Snap>, v: nat,
                       alive: map<Key, SectionId>, byHash: map<Hash, SectionId>, payloads: seq<Payload>)

  ghost predicate Ready(t: Task) {
    && UniqueKeys(t.rows) && (forall i :: i in t.rows ==> i < t.next)
    && AliveByKey(t.alive, t.rows) && LastWithHash(t.byHash, t.rows, t.snaps, t.v)
  }

  /** Which section the `n`th payload was taken for, and why. */
  ghost predicate Origin(t: Task, run: Run, n: nat)
    requires n < |t.payloads| && n < |run.made|
  {
    var (p, s) := (t.payloads[n], run.made[n]);
    if p.key in t.alive then s == t.alive[p.key]
    else if s in t.rows then p.bodyHash in t.byHash && s == t.byHash[p.bodyHash]
    else true
  }

  /** Every payload so far has a section of its own, which now carries its key and title. */
  ghost predicate Placed(t: Task, run: Run) {
    && |run.made| <= |t.payloads|
    && Distinct(run.made)
    && (forall n :: 0 <= n < |run.made| ==>
          && run.made[n] in run.rows
          && run.rows[run.made[n]].key == t.payloads[n].key && run.rows[run.made[n]].title == t.payloads[n].heading
          && run.rows[run.made[n]].retired == None
          && Origin(t, run, n))
  }

  /** Rows nobody was taken for are as they were; the others are old rows or new ones. */
  ghost predicate Untouched(t: Task, run: Run) {
    && (forall i :: i in t.rows ==> i in run.rows)
    && (forall i :: i in t.rows && i !in run.made ==> run.rows[i] == t.rows[i])
    && (forall i :: i in t.rows ==>
          run.rows[i].created == t.rows[i].created && run.rows[i].retired == t.rows[i].retired)
    && (forall i :: i in run.rows && i !in t.rows ==> i in run.made && t.next <= i && run.rows[i].created == t.v)
    && (forall i :: i in run.rows ==> i < run.next) && t.next <= run.next
  }

  /** A section that could have been recognised by its content has been taken by somebody. */
  ghost predicate Claimed(t: Task, run: Run) {
    forall n :: 0 <= n < |run.made| && n < |t.payloads|
                && t.payloads[n].key !in t.alive && t.payloads[n].bodyHash in t.byHash
      ==> t.byHash[t.payloads[n].bodyHash] in run.made
  }

  /** How many of the sections taken were there before. */
  function OldOnes(made: seq<SectionId>, rows: map<SectionId, Row>): nat {
    if made == [] then 0
    else
      var n := |made| - 1;
      OldOnes(made[..n], rows) + if made[n] in rows then 1 else 0
  }

  /** The counters count what has been taken so far. */
  ghost predicate Tallied(t: Task, run: Run) {
    && run.counters.same + run.counters.renamed == OldOnes(run.made, t.rows)
    && run.counters.same + run.counters.renamed + run.counters.added == |run.made|
    && run.counters.removed == 0
  }

  ghost predicate Going(t: Task, run: Run) {
    Placed(t, run) && Untouched(t, run) && Claimed(t, run) && Ordered(t, run) && Tallied(t, run)
    && UniqueKeys(run.rows)
  }

  /** uniq_snapshot_order is checked against the payloads so far. */
  ghost predicate Ordered(t: Task, run: Run) {
    && |run.made| <= |t.payloads|
    && forall o :: o in run.orders <==> exists n :: 0 <= n < |run.made| && t.payloads[n].order == o
  }

  /** The next payload takes section `s`, whose row becomes `row`. */
  ghost predicate Takes(t: Task, run: Run, s: SectionId, row: Row) {
    && |run.made| < |t.payloads| && s !in run.made
    && row.key == t.payloads[|run.made|].key && row.title == t.payloads[|run.made|].heading && row.retired == None
    && (if s in t.rows then row.created == t.rows[s].created && t.rows[s].retired == None
        else s == run.next && row.created == t.v)
    && (forall i :: i in run.rows && i != s ==> run.rows[i].key != row.key)
  }

  lemma TakePlaces(t: Task, run: Run, after: Run, s: SectionId, row: Row)
    requires Placed(t, run) && |run.made| < |t.payloads| && s !in run.made
    requires var p := t.payloads[|run.made|]; row.key == p.key && row.title == p.heading && row.retired == None
    requires after.rows == run.rows[s := row] && after.made == run.made + [s]
    requires Origin(t, after, |run.made|)
    ensures Placed(t, after)
  {
  }

  lemma TakeLeavesOthers(t: Task, run: Run, after: Run, s: SectionId, row: Row)
    requires Untouched(t, run) && forall i :: i in t.rows ==> i < t.next
    requires if s in t.rows then row.created == t.rows[s].created && row.retired == t.rows[s].retired
             else s == run.next && row.created == t.v
    requires after.rows == run.rows[s := row] && after.made == run.made + [s]
    requires after.next == if s in t.rows then run.next else run.next + 1
    ensures Untouched(t, after)
  {
    assert s in after.made;
    assert forall i :: i in run.made ==> i in after.made;
  }

  lemma TakeKeepsKeys(rows: map<SectionId, Row>, s: SectionId, row: Row)
    requires UniqueKeys(rows) && forall i :: i in rows && i != s ==> rows[i].key != row.key
    ensures UniqueKeys(rows[s := row])
  {
  }

  lemma TakeClaims(t: Task, run: Run, after: Run, s: SectionId)
    requires Claimed(t, run) && |run.made| < |t.payloads| && after.made == run.made + [s]
    requires var p := t.payloads[|run.made|];
             p.key !in t.alive && p.bodyHash in t.byHash ==> t.byHash[p.bodyHash] in after.made
    ensures Claimed(t, after)
  {
  }

  lemma TakeOrders(t: Task, run: Run, after: Run)
    requires Ordered(t, run) && |run.made| < |t.payloads| && |after.made| == |run.made| + 1
    requires after.orders == run.orders + {t.payloads[|run.made|].order}
    ensures Ordered(t, after)
  {
  }

  function StepOf(t: Task, run: Run): Option<Run>
    requires |run.made| < |t.payloads|
  {
    Step(run, t.payloads[|run.made|], t.alive, t.byHash, t.v)
  }

  ghost predicate Known(t: Task, rows: map<SectionId, Row>) {
    && (forall k :: k in t.alive ==> t.alive[k] in rows)
    && (forall h :: h in t.byHash ==> t.byHash[h] in rows)
  }

  lemma StillKnown(t: Task, run: Run)
    requires Ready(t) && Untouched(t, run)
    ensures Known(t, run.rows)
  {
  }

  /** One step keeps everything the loop relies on. */
  lemma StepKeeps(t: Task, run: Run)
    requires Ready(t) && Going(t, run) && |run.made| < |t.payloads|
    ensures StepOf(t, run).Some? ==> Going(t, StepOf(t, run).value)
                                     && |StepOf(t, run).value.made| == |run.made| + 1
  {
    StillKnown(t, run);
    if StepOf(t, run).Some? {
      var after := StepOf(t, run).value;
      StepShape(t, run);
      StepKeepsRows(t, run);
      TakeOrders(t, run, after);
      StepTallies(t, run);
      StepClaims(t, run);
      TakeClaims(t, run, after, after.made[|run.made|]);
    }
  }

  lemma StepKeepsRows(t: Task, run: Run)
    requires Ready(t) && Going(t, run) && |run.made| < |t.payloads| && StepOf(t, run).Some?
    ensures var after := StepOf(t, run).value;
            Placed(t, after) && Untouched(t, after) && UniqueKeys(after.rows)
  {
    var after := StepOf(t, run).value;
    var s := after.made[|run.made|];
    StepShape(t, run);
    StepTakes(t, run);
    TakePlaces(t, run, after, s, after.rows[s]);
    TakeLeavesOthers(t, run, after, s, after.rows[s]);
    TakeKeepsKeys(run.rows, s, after.rows[s]);
  }

  /** What any step does, whatever section it takes. */
  lemma StepShape(t: Task, run: Run)
    requires |run.made| < |t.payloads| && StepOf(t, run).Some?
    ensures var after := StepOf(t, run).value;
            && |after.made| == |run.made| + 1
            && var s := after.made[|run.made|];
            && s in after.rows && after.rows == run.rows[s := after.rows[s]] && after.made == run.made + [s]
            && after.orders == run.orders + {t.payloads[|run.made|].order}
            && after.rows[s].key == (if t.payloads[|run.made|].key in t.alive then run.rows[s].key
                                     else t.payloads[|run.made|].key)
            && after.rows[s].title == t.payloads[|run.made|].heading
  {
  }

  lemma StepTakes(t: Task, run: Run)
    requires Ready(t) && Going(t, run) && |run.made| < |t.payloads|
    requires StepOf(t, run).Some?
    ensures var after := StepOf(t, run).value;
            && |after.made| == |run.made| + 1
            && var s := after.made[|run.made|];
            && s in after.rows && Takes(t, run, s, after.rows[s]) && Origin(t, after, |run.made|)
            && after.next == (if s in t.rows then run.next else run.next + 1)
  {
    var p := t.payloads[|run.made|];
    StepShape(t, run);
    if p.key in t.alive {
      OldRow(t, run, t.alive[p.key]);
      OthersDiffer(run.rows, t.alive[p.key], p.key);
    } else {
      NewSectionIsNew(t, run);
      if p.bodyHash in t.byHash && t.byHash[p.bodyHash] !in run.made { OldRow(t, run, t.byHash[p.bodyHash]); }
    }
  }

  /** A section alive at the start that nobody took yet is as it was. */
  lemma OldRow(t: Task, run: Run, s: SectionId)
    requires Untouched(t, run) && Alive(t.rows, s) && s !in run.made
    ensures s in run.rows && run.rows[s] == t.rows[s]
  {
  }

  lemma OthersDiffer(rows: map<SectionId, Row>, s: SectionId, k: Key)
    requires UniqueKeys(rows) && s in rows && rows[s].key == k
    ensures forall i :: i in rows && i != s ==> rows[i].key != k
  {
  }

  /** A section that the payload's content names is taken now, or was before. */
  lemma StepClaims(t: Task, run: Run)
    requires Ready(t) && Untouched(t, run) && |run.made| < |t.payloads| && StepOf(t, run).Some?
    ensures var p := t.payloads[|run.made|];
            p.key !in t.alive && p.bodyHash in t.byHash ==> t.byHash[p.bodyHash] in StepOf(t, run).value.made
  {
  }

  lemma StepTallies(t: Task, run: Run)
    requires Ready(t) && Going(t, run) && |run.made| < |t.payloads|
    requires StepOf(t, run).Some?
    ensures Tallied(t, StepOf(t, run).value)
  {
    var after := StepOf(t, run).value;
    StepShape(t, run);
    StepTakes(t, run);
    var s := after.made[|run.made|];
    assert after.made[..|run.made|] == run.made;
    assert OldOnes(after.made, t.rows) == OldOnes(run.made, t.rows) + if s in t.rows then 1 else 0;
    NewSectionIsNew(t, run);
  }

  lemma NewSectionIsNew(t: Task, run: Run)
    requires Ready(t) && Going(t, run)
    ensures run.next !in t.rows
  {
  }

  // ---- when the database takes the analysis ----

  /** The loop after `n` payloads. */
  function Steps(t: Task, n: nat): (r: Option<Run>)
    requires n <= |t.payloads|
    ensures r.Some? ==> |r.value.made| == n
  {
    if n == 0 then Some(Start(t.rows, t.next, t.log))
    else
      var before := Steps(t, n - 1);
      if before == None then None else StepOf(t, before.value)
  }

  lemma {:induction false} StepsGo(t: Task, n: nat)
    requires Ready(t) && n <= |t.payloads| && Steps(t, n).Some?
    ensures Going(t, Steps(t, n).value)
  {
    if n > 0 {
      StepsGo(t, n - 1);
      StepKeeps(t, Steps(t, n - 1).value);
    }
  }

  /** The `j`th payload cannot go in after the `i`th: a repeated key or place, or the `i`th has
      been recognised by its content as the section that still answers to the `j`th's key. */
  predicate Clash(t: Task, i: nat, j: nat)
    requires i < |t.payloads| && j < |t.payloads|
  {
    var (p, q) := (t.payloads[i], t.payloads[j]);
    || p.key == q.key
    || p.order == q.order
    || (p.key !in t.alive && p.bodyHash in t.byHash && q.key in t.alive && t.alive[q.key] == t.byHash[p.bodyHash])
  }

  /** The key belongs to a retired section and to no other. */
  ghost predicate Barred(t: Task, j: nat)
    requires j < |t.payloads|
  {
    t.payloads[j].key !in t.alive && Taken(t.rows, t.payloads[j].key)
  }

  /** The `j`th payload is barred or clashes with one before it. */
  ghost predicate Refused(t: Task, j: nat)
    requires j < |t.payloads|
  {
    Barred(t, j) || exists i :: 0 <= i < j && Clash(t, i, j)
  }

  ghost predicate Acceptable(t: Task, n: nat)
    requires n <= |t.payloads|
  {
    n == 0 || (Acceptable(t, n - 1) && !Refused(t, n - 1))
  }

  lemma {:induction false} AcceptableIff(t: Task, n: nat)
    requires n <= |t.payloads|
    ensures Acceptable(t, n) <==> forall j :: 0 <= j < n ==> !Refused(t, j)
  {
    if n > 0 { AcceptableIff(t, n - 1); }
  }

  lemma MadeByKeyIff(t: Task, run: Run)
    requires Ready(t) && Going(t, run) && |run.made| < |t.payloads| && t.payloads[|run.made|].key in t.alive
    requires t.payloads[|run.made|].order !in run.orders
    ensures t.alive[t.payloads[|run.made|].key] in run.made
            <==> exists i :: 0 <= i < |run.made| && Clash(t, i, |run.made|)
  {
    var n := |run.made|;
    var s := t.alive[t.payloads[n].key];
    if s in run.made {
      var i :| 0 <= i < n && run.made[i] == s;
      assert Origin(t, run, i);
      assert Clash(t, i, n);
    }
    if i :| 0 <= i < n && Clash(t, i, n) {
      assert Origin(t, run, i);
      assert run.made[i] in run.made;
    }
  }

  lemma TakenIff(t: Task, run: Run)
    requires Ready(t) && Going(t, run) && |run.made| < |t.payloads| && t.payloads[|run.made|].key !in t.alive
    requires t.payloads[|run.made|].order !in run.orders
    ensures Taken(run.rows, t.payloads[|run.made|].key)
            <==> Barred(t, |run.made|) || exists i :: 0 <= i < |run.made| && Clash(t, i, |run.made|)
  {
    var n := |run.made|;
    var k := t.payloads[n].key;
    if Taken(run.rows, k) {
      var x :| x in run.rows && run.rows[x].key == k;
      if x in run.made {
        var i :| 0 <= i < n && run.made[i] == x;
        assert Clash(t, i, n);
      } else {
        assert x in t.rows && t.rows[x].key == k;
      }
    }
    if Barred(t, n) {
      var x :| x in t.rows && t.rows[x].key == k;
      NotMade(t, run, x);
    }
    if i :| 0 <= i < n && Clash(t, i, n) {
      assert run.rows[run.made[i]].key == k;
    }
  }

  /** Retired sections are left alone. */
  lemma NotMade(t: Task, run: Run, x: SectionId)
    requires Ready(t) && Going(t, run) && x in t.rows && t.rows[x].retired != None
    ensures x !in run.made && run.rows[x] == t.rows[x]
  {
  }

  lemma OrderUsedIff(t: Task, run: Run)
    requires Going(t, run) && |run.made| < |t.payloads| && t.payloads[|run.made|].order in run.orders
    ensures exists i :: 0 <= i < |run.made| && Clash(t, i, |run.made|)
  {
    var i :| 0 <= i < |run.made| && t.payloads[i].order == t.payloads[|run.made|].order;
    assert Clash(t, i, |run.made|);
  }

  /** Why a step is refused, in terms of the rows at hand. */
  lemma StepIsRefused(t: Task, run: Run)
    requires |run.made| < |t.payloads| && Known(t, run.rows)
    ensures var p := t.payloads[|run.made|];
            StepOf(t, run) == None
            <==> p.order in run.orders
                 || if p.key in t.alive then t.alive[p.key] in run.made else Taken(run.rows, p.key)
  {
  }

  lemma StepRefusedIff(t: Task, run: Run)
    requires Ready(t) && Going(t, run) && |run.made| < |t.payloads|
    ensures StepOf(t, run) == None <==> Refused(t, |run.made|)
  {
    StillKnown(t, run);
    StepIsRefused(t, run);
    var p := t.payloads[|run.made|];
    if p.order in run.orders {
      OrderUsedIff(t, run);
    } else if p.key in t.alive {
      MadeByKeyIff(t, run);
    } else {
      TakenIff(t, run);
    }
  }

  lemma StepsNext(t: Task, n: nat)
    requires Ready(t) && n < |t.payloads|
    ensures Steps(t, n + 1).Some? <==> Steps(t, n).Some? && !Refused(t, n)
  {
    var before := Steps(t, n);
    if before.Some? {
      StepsGo(t, n);
      StepRefusedIff(t, before.value);
    }
  }

  /** An analysis is stored exactly when no two of its sections clash and none carries the key
      of a retired section; otherwise a uniqueness constraint fails and nothing is stored. */
  lemma {:induction false} StoredIff(t: Task, n: nat)
    requires Ready(t) && n <= |t.payloads|
    ensures Steps(t, n).Some? <==> Acceptable(t, n)
  {
    if n > 0 {
      StoredIff(t, n - 1);
      StepsNext(t, n - 1);
    }
  }

  // ---- the two dictionaries the loop starts from ----

  predicate IdLe(a: nat, b: nat) { a <= b }

  function AliveIds(rows: map<SectionId, Row>): set<SectionId> {
    set i | i in rows && rows[i].retired == None
  }

  /** The alive sections in the order of their ids. */
  function AliveInOrder(rows: map<SectionId, Row>): (r: seq<SectionId>)
    ensures forall i :: i in r <==> i in AliveIds(rows)
  {
    SortSet(AliveIds(rows), IdLe)
  }

  function AliveKeys(rows: map<SectionId, Row>): map<Key, SectionId>
    requires UniqueKeys(rows)
  {
    map k | k in KeysOf(rows, AliveIds(rows)) :: IdOf(rows, k)
  }

  /** by_body_hash.setdefault, section after section. */
  function HashIndex(ids: seq<SectionId>, snaps: map<SnapKey, Snap>, v: nat): map<Hash, SectionId> {
    if ids == [] then map[]
    else
      var n := |ids| - 1;
      var before := HashIndex(ids[..n], snaps, v);
      match Latest(snaps, ids[n], v)
      case None => before
      case Some(h) => if h in before then before else before[h := ids[n]]
  }

  /** `byHash` has, for every hash, the first of `ids` that carried it last. */
  ghost predicate Indexed(byHash: map<Hash, SectionId>, ids: seq<SectionId>, snaps: map<SnapKey, Snap>, v: nat) {
    && (forall h :: h in byHash ==> byHash[h] in ids && Latest(snaps, byHash[h], v) == Some(h))
    && (forall h, i :: h in byHash && i in ids && Latest(snaps, i, v) == Some(h) ==> byHash[h] <= i)
    && (forall i :: i in ids && Latest(snaps, i, v).Some? ==> Latest(snaps, i, v).value in byHash)
  }

  lemma IndexedNext(byHash: map<Hash, SectionId>, front: seq<SectionId>, last: SectionId,
                    snaps: map<SnapKey, Snap>, v: nat)
    requires Indexed(byHash, front, snaps, v) && forall i :: i in front ==> i <= last
    ensures Indexed(match Latest(snaps, last, v)
                    case None => byHash
                    case Some(h) => if h in byHash then byHash else byHash[h := last],
                    front + [last], snaps, v)
  {
  }

  lemma {:induction false} HashIndexIs(ids: seq<SectionId>, snaps: map<SnapKey, Snap>, v: nat)
    requires Sorted(ids, IdLe)
    ensures Indexed(HashIndex(ids, snaps, v), ids, snaps, v)
  {
    if ids != [] {
      var front, last := ids[..|ids| - 1], ids[|ids| - 1];
      assert ids == front + [last];
      HashIndexIs(front, snaps, v);
      forall i | i in front ensures i <= last {
        var j :| 0 <= j < |front| && front[j] == i;
        assert IdLe(ids[j], ids[|front|]);
      }
      IndexedNext(HashIndex(front, snaps, v), front, last, snaps, v);
    }
  }

  function TaskOf(rows: map<SectionId, Row>, next: SectionId, log: seq<Lineage>, snaps: map<SnapKey, Snap>, v: nat,
                  payloads: seq<Payload>): Task
    requires UniqueKeys(rows)
  {
    Task(rows, next, log, snaps, v, AliveKeys(rows), HashIndex(AliveInOrder(rows), snaps, v), payloads)
  }

  lemma AliveKeysAre(rows: map<SectionId, Row>)
    requires UniqueKeys(rows)
    ensures AliveByKey(AliveKeys(rows), rows)
  {
    forall k | k in AliveKeys(rows) ensures Alive(rows, AliveKeys(rows)[k]) && rows[AliveKeys(rows)[k]].key == k {
      var i :| i in AliveIds(rows) && rows[i].key == k;
    }
    forall i | Alive(rows, i) ensures rows[i].key in AliveKeys(rows) && AliveKeys(rows)[rows[i].key] == i {
      assert i in AliveIds(rows);
    }
  }

  lemma HashIndexIsLast(rows: map<SectionId, Row>, snaps: map<SnapKey, Snap>, v: nat)
    ensures LastWithHash(HashIndex(AliveInOrder(rows), snaps, v), rows, snaps, v)
  {
    SortSetSorted(AliveIds(rows), IdLe);
    HashIndexIs(AliveInOrder(rows), snaps, v);
    IndexedIsLast(HashIndex(AliveInOrder(rows), snaps, v), AliveInOrder(rows), rows, snaps, v);
  }

  lemma IndexedIsLast(byHash: map<Hash, SectionId>, ids: seq<SectionId>, rows: map<SectionId, Row>,
                      snaps: map<SnapKey, Snap>, v: nat)
    requires Indexed(byHash, ids, snaps, v) && forall i :: i in ids <==> Alive(rows, i)
    ensures LastWithHash(byHash, rows, snaps, v)
  {
  }

  lemma TaskIsReady(rows: map<SectionId, Row>, next: SectionId, log: seq<Lineage>, snaps: map<SnapKey, Snap>, v: nat,
                    payloads: seq<Payload>)
    requires UniqueKeys(rows) && forall i :: i in rows ==> i < next
    ensures Ready(TaskOf(rows, next, log, snaps, v, payloads))
  {
    AliveKeysAre(rows);
    HashIndexIsLast(rows, snaps, v);
  }

  // ---- after the loop ----

  /** Sections that were alive and that nobody was taken for are retired. */
  function Retire(rows: map<SectionId, Row>, stale: set<SectionId>, v: nat): map<SectionId, Row> {
    map i | i in rows :: if i in stale then rows[i].(retired := Some(v)) else rows[i]
  }

  function Stale(t: Task, run: Run): set<SectionId> {
    set i | i in AliveIds(t.rows) && i !in run.made
  }

  function RowsAfter(t: Task, run: Run): map<SectionId, Row> {
    Retire(run.rows, Stale(t, run), t.v)
  }

  function SnapsAfter(t: Task, made: seq<SectionId>): map<SnapKey, Snap>
    requires |made| <= |t.payloads|
  {
    if made == [] then t.snaps
    else
      var n := |made| - 1;
      SnapsAfter(t, made[..n])[SnapKey(t.v, made[n]) := SnapOf(t.payloads[n])]
  }

  /** The analysis is stored, and this is what the loop over its payloads ends with. */
  ghost predicate StoredAs(t: Task, run: Run) {
    Ready(t) && Steps(t, |t.payloads|) == Some(run)
  }

  /** The alive sections are exactly the ones the payloads were taken for, one each, under the
      payloads' keys and titles; every other section that was alive is now retired. */
  lemma AliveAfterwards(t: Task, run: Run)
    requires StoredAs(t, run)
    ensures forall i :: Alive(RowsAfter(t, run), i) <==> i in run.made
    ensures forall n :: 0 <= n < |t.payloads| ==>
              && run.made[n] in RowsAfter(t, run)
              && RowsAfter(t, run)[run.made[n]].key == t.payloads[n].key
              && RowsAfter(t, run)[run.made[n]].title == t.payloads[n].heading
    ensures forall i :: Alive(t.rows, i) && i !in run.made ==>
              i in RowsAfter(t, run) && RowsAfter(t, run)[i] == t.rows[i].(retired := Some(t.v))
  {
    StepsGo(t, |t.payloads|);
    TakenAreAlive(t, run);
    LeftAreRetired(t, run);
  }

  lemma TakenAreAlive(t: Task, run: Run)
    requires Placed(t, run) && |run.made| == |t.payloads|
    ensures forall n :: 0 <= n < |t.payloads| ==>
              && run.made[n] in RowsAfter(t, run)
              && RowsAfter(t, run)[run.made[n]].key == t.payloads[n].key
              && RowsAfter(t, run)[run.made[n]].title == t.payloads[n].heading
    ensures forall i :: i in run.made ==> Alive(RowsAfter(t, run), i)
  {
    forall n | 0 <= n < |t.payloads| ensures run.made[n] in run.made {
    }
  }

  lemma LeftAreRetired(t: Task, run: Run)
    requires Untouched(t, run)
    ensures forall i :: Alive(t.rows, i) && i !in run.made ==>
              i in RowsAfter(t, run) && RowsAfter(t, run)[i] == t.rows[i].(retired := Some(t.v))
    ensures forall i :: Alive(RowsAfter(t, run), i) ==> i in run.made
  {
  }

  /** What was retired before stays exactly as it was: no analysis revives a section. */
  lemma RetiredStays(t: Task, run: Run, i: SectionId)
    requires StoredAs(t, run) && i in t.rows && t.rows[i].retired != None
    ensures i in RowsAfter(t, run) && RowsAfter(t, run)[i] == t.rows[i]
  {
    StepsGo(t, |t.payloads|);
  }

  /** A section changes its key only for a payload with its latest earlier body, and no
      section that the payload's key would have named. */
  lemma RenamedByContentOnly(t: Task, run: Run, i: SectionId) returns (n: nat, m: nat)
    requires StoredAs(t, run) && i in t.rows && i in run.rows && run.rows[i].key != t.rows[i].key
    ensures n < |t.payloads| && run.made[n] == i && run.rows[i].key == t.payloads[n].key
    ensures IsLatest(t.snaps, i, t.v, m, t.payloads[n].bodyHash)
    ensures forall j :: Alive(t.rows, j) ==> t.rows[j].key != t.payloads[n].key
  {
    StepsGo(t, |t.payloads|);
    n :| 0 <= n < |run.made| && run.made[n] == i;
    assert Origin(t, run, n);
    LatestIff(t.snaps, i, t.v, t.payloads[n].bodyHash);
    m :| IsLatest(t.snaps, i, t.v, m, t.payloads[n].bodyHash);
  }

  /** A section whose key comes again is the one taken for it. */
  lemma SameKeySameSection(t: Task, run: Run, n: nat)
    requires StoredAs(t, run) && n < |t.payloads| && t.payloads[n].key in t.alive
    ensures run.made[n] == t.alive[t.payloads[n].key] && run.made[n] in t.rows && run.made[n] in run.rows
    ensures run.rows[run.made[n]].created == t.rows[run.made[n]].created
  {
    StepsGo(t, |t.payloads|);
    assert Origin(t, run, n);
  }

  /** Snapshots are written for sections that were alive before, or for new ones. */
  lemma TakenWereAlive(t: Task, run: Run, n: nat)
    requires StoredAs(t, run) && n < |t.payloads|
    ensures run.made[n] in t.rows ==> Alive(t.rows, run.made[n])
  {
    StepsGo(t, |t.payloads|);
    assert Origin(t, run, n);
  }

  lemma KeysStayUnique(t: Task, run: Run)
    requires StoredAs(t, run)
    ensures UniqueKeys(RowsAfter(t, run)) && forall i :: i in RowsAfter(t, run) ==> i < run.next
  {
    StepsGo(t, |t.payloads|);
  }

  // ---- who is who, without the dictionaries ----

  /** An alive section has this key. */
  ghost predicate KeyAlive(t: Task, k: Key) { exists i :: Alive(t.rows, i) && t.rows[i].key == k }

  /** The first of the alive sections that carried the body hash last. */
  ghost predicate FirstWithBody(t: Task, i: SectionId, h: Hash) {
    && Alive(t.rows, i) && CarriedLast(t.snaps, i, t.v, h)
    && forall j :: Alive(t.rows, j) && CarriedLast(t.snaps, j, t.v, h) ==> i <= j
  }

  /** The `n`th payload goes by its key, or else by its content if nobody before it did, or else
      it is a section that was not there. */
  ghost predicate Recognised(t: Task, made: seq<SectionId>, n: nat)
    requires n < |made| && n < |t.payloads|
  {
    var (p, s) := (t.payloads[n], made[n]);
    && (KeyAlive(t, p.key) ==> Alive(t.rows, s) && t.rows[s].key == p.key)
    && (!KeyAlive(t, p.key) ==>
          if exists i :: FirstWithBody(t, i, p.bodyHash) && i !in made[..n] then FirstWithBody(t, s, p.bodyHash)
          else s !in t.rows)
  }

  lemma KeyAliveIff(t: Task, k: Key)
    requires Ready(t)
    ensures KeyAlive(t, k) <==> k in t.alive
  {
  }

  lemma FirstWithBodyIff(t: Task, i: SectionId, h: Hash)
    requires Ready(t)
    ensures FirstWithBody(t, i, h) <==> h in t.byHash && t.byHash[h] == i
  {
    LastWithHashIff(t.byHash, t.rows, t.snaps, t.v);
  }

  lemma StepRecognises(t: Task, run: Run)
    requires Ready(t) && Going(t, run) && |run.made| < |t.payloads| && StepOf(t, run).Some?
    ensures Recognised(t, StepOf(t, run).value.made, |run.made|)
  {
    var after := StepOf(t, run).value;
    var p := t.payloads[|run.made|];
    StillKnown(t, run);
    StepShape(t, run);
    NewSectionIsNew(t, run);
    KeyAliveIff(t, p.key);
    assert after.made[..|run.made|] == run.made;
    forall i ensures FirstWithBody(t, i, p.bodyHash) <==> p.bodyHash in t.byHash && t.byHash[p.bodyHash] == i {
      FirstWithBodyIff(t, i, p.bodyHash);
    }
  }

  /** So it is for every payload of a stored analysis. */
  lemma WhoIsWho(t: Task, run: Run, n: nat)
    requires StoredAs(t, run) && n < |t.payloads|
    ensures Recognised(t, run.made, n)
  {
    RecognisedUpTo(t, |t.payloads|, n);
  }

  lemma MadeGrows(t: Task, k: nat)
    requires 0 < k <= |t.payloads| && Steps(t, k).Some?
    ensures Steps(t, k - 1).Some? && Steps(t, k).value.made[..k - 1] == Steps(t, k - 1).value.made
  {
    StepShape(t, Steps(t, k - 1).value);
  }

  lemma LastIsRecognised(t: Task, k: nat)
    requires Ready(t) && 0 < k <= |t.payloads| && Steps(t, k).Some?
    ensures Recognised(t, Steps(t, k).value.made, k - 1)
  {
    var before := Steps(t, k - 1).value;
    assert StepOf(t, before) == Steps(t, k);
    StepsGo(t, k - 1);
    StepRecognises(t, before);
  }

  lemma {:induction false} RecognisedUpTo(t: Task, k: nat, n: nat)
    requires Ready(t) && n < k <= |t.payloads| && Steps(t, k).Some?
    ensures Recognised(t, Steps(t, k).value.made, n)
  {
    if n == k - 1 {
      LastIsRecognised(t, k);
    } else {
      MadeGrows(t, k);
      RecognisedUpTo(t, k - 1, n);
      StillRecognised(t, Steps(t, k - 1).value.made, Steps(t, k).value.made, n);
    }
  }

  lemma StillRecognised(t: Task, before: seq<SectionId>, made: seq<SectionId>, n: nat)
    requires n < |before| < |made| && n < |t.payloads| && before == made[..|before|] && Recognised(t, before, n)
    ensures Recognised(t, made, n)
  {
    assert made[..n] == before[..n];
  }

  // ---- the counters and the lineage ----

  /** The first `k` payloads whose key an alive section has. */
  function ByKey(t: Task, k: nat): set<nat>
    requires k <= |t.payloads|
  {
    set n | 0 <= n < k && t.payloads[n].key in t.alive
  }

  /** The others, taken for a section that was there. */
  function ByContent(t: Task, made: seq<SectionId>): set<nat>
    requires |made| <= |t.payloads|
  {
    set n | 0 <= n < |made| && t.payloads[n].key !in t.alive && made[n] in t.rows
  }

  function Fresh(t: Task, made: seq<SectionId>): set<nat> { set n | 0 <= n < |made| && made[n] !in t.rows }

  /** What is on record about the payloads: nothing about those that kept their key. */
  function Notes(t: Task, made: seq<SectionId>): seq<Lineage>
    requires |made| <= |t.payloads|
  {
    if made == [] then []
    else
      var n := |made| - 1;
      var relation := if made[n] in t.rows then Relation.Renamed else Relation.Added;
      Notes(t, made[..n]) + if t.payloads[n].key in t.alive then [] else [Lineage(t.v, made[n], relation)]
  }

  ghost predicate Counted(t: Task, run: Run) {
    && |run.made| <= |t.payloads|
    && run.counters == Counters(|ByKey(t, |run.made|)|, |ByContent(t, run.made)|, |Fresh(t, run.made)|, 0)
    && run.lineage == t.log + Notes(t, run.made)
  }

  lemma OneMoreByKey(t: Task, k: nat)
    requires k < |t.payloads|
    ensures |ByKey(t, k + 1)| == |ByKey(t, k)| + if t.payloads[k].key in t.alive then 1 else 0
  {
    assert ByKey(t, k + 1) == ByKey(t, k) + if t.payloads[k].key in t.alive then {k} else {};
  }

  lemma OneMoreByContent(t: Task, made: seq<SectionId>, s: SectionId)
    requires |made| < |t.payloads|
    ensures |ByContent(t, made + [s])|
            == |ByContent(t, made)| + if t.payloads[|made|].key !in t.alive && s in t.rows then 1 else 0
  {
    assert ByContent(t, made + [s])
           == ByContent(t, made) + if t.payloads[|made|].key !in t.alive && s in t.rows then {|made|} else {};
  }

  lemma OneMoreFresh(t: Task, made: seq<SectionId>, s: SectionId)
    ensures |Fresh(t, made + [s])| == |Fresh(t, made)| + if s in t.rows then 0 else 1
  {
    assert Fresh(t, made + [s]) == Fresh(t, made) + if s in t.rows then {} else {|made|};
  }

  lemma OneMoreNoted(t: Task, made: seq<SectionId>, s: SectionId)
    requires |made| < |t.payloads|
    ensures Notes(t, made + [s])
            == Notes(t, made) + if t.payloads[|made|].key in t.alive then []
                                else [Lineage(t.v, s, if s in t.rows then Relation.Renamed else Relation.Added)]
  {
    assert (made + [s])[..|made|] == made;
  }

  ghost predicate NamesOld(t: Task) {
    && (forall k :: k in t.alive ==> t.alive[k] in t.rows)
    && (forall h :: h in t.byHash ==> t.byHash[h] in t.rows)
  }

  /** The next payload is counted and noted under its relation. */
  ghost predicate CountsOne(t: Task, run: Run, after: Run) {
    && |run.made| < |t.payloads| && |after.made| == |run.made| + 1
    && var (c, s, known) := (run.counters, after.made[|run.made|], t.payloads[|run.made|].key in t.alive);
       && after.made == run.made + [s] && (known ==> s in t.rows)
       && after.counters == Counters(c.same + (if known then 1 else 0),
                                     c.renamed + (if !known && s in t.rows then 1 else 0),
                                     c.added + (if s in t.rows then 0 else 1), c.removed)
       && after.lineage
          == run.lineage + (if known then []
                            else [Lineage(t.v, s, if s in t.rows then Relation.Renamed else Relation.Added)])
  }

  lemma StepCountsOne(t: Task, run: Run)
    requires |run.made| < |t.payloads| && StepOf(t, run).Some? && NamesOld(t) && run.next !in t.rows
    ensures CountsOne(t, run, StepOf(t, run).value)
  {
  }

  lemma CountedNext(t: Task, run: Run, after: Run)
    requires Counted(t, run) && CountsOne(t, run, after)
    ensures Counted(t, after)
  {
    var s := after.made[|run.made|];
    OneMoreByKey(t, |run.made|);
    OneMoreByContent(t, run.made, s);
    OneMoreFresh(t, run.made, s);
    OneMoreNoted(t, run.made, s);
  }

  lemma StepsCountOne(t: Task, n: nat)
    requires Ready(t) && 0 < n <= |t.payloads| && Steps(t, n).Some?
    ensures Steps(t, n - 1).Some? && CountsOne(t, Steps(t, n - 1).value, Steps(t, n).value)
  {
    StepsGo(t, n - 1);
    NewSectionIsNew(t, Steps(t, n - 1).value);
    StepCountsOne(t, Steps(t, n - 1).value);
  }

  lemma {:induction false} StepsCount(t: Task, n: nat)
    requires Ready(t) && n <= |t.payloads| && Steps(t, n).Some?
    ensures Counted(t, Steps(t, n).value)
  {
    if n == 0 {
      assert t.log + [] == t.log;
    } else {
      StepsCountOne(t, n);
      StepsCount(t, n - 1);
      CountedNext(t, Steps(t, n - 1).value, Steps(t, n).value);
    }
  }

  /** Each counter counts what its name says, and the lineage says of every payload what became of
      it, after what was on record before. */
  lemma CountersCount(t: Task, run: Run)
    requires StoredAs(t, run)
    ensures run.counters.same == |ByKey(t, |t.payloads|)|
    ensures run.counters.renamed == |ByContent(t, run.made)| && run.counters.added == |Fresh(t, run.made)|
    ensures run.lineage == t.log + Notes(t, run.made)
  {
    StepsCount(t, |t.payloads|);
  }

  // ---- the counters add up ----

  function OldSet(made: seq<SectionId>, rows: map<SectionId, Row>): set<SectionId> {
    set i | i in made && i in rows
  }

  lemma {:induction false} OldOnesAre(made: seq<SectionId>, rows: map<SectionId, Row>)
    requires Distinct(made)
    ensures OldOnes(made, rows) == |OldSet(made, rows)|
  {
    if made != [] {
      var front, last := made[..|made| - 1], made[|made| - 1];
      assert made == front + [last];
      OldOnesAre(front, rows);
      assert last !in front;
      assert OldSet(made, rows) == OldSet(front, rows) + if last in rows then {last} else {};
    }
  }

  /** Recognised, renamed and new sections make up the payload; recognised, renamed and
      removed ones make up what was alive before. */
  lemma CountersAddUp(t: Task, run: Run)
    requires StoredAs(t, run)
    ensures var c := run.counters;
            && c.same + c.renamed + c.added == |t.payloads|
            && c.same + c.renamed + |Stale(t, run)| == |AliveIds(t.rows)|
  {
    StepsGo(t, |t.payloads|);
    OldOnesAre(run.made, t.rows);
    OldAndStale(t, run);
  }

  lemma OldAndStale(t: Task, run: Run)
    requires Ready(t) && Going(t, run)
    ensures |OldSet(run.made, t.rows)| + |Stale(t, run)| == |AliveIds(t.rows)|
  {
    forall i | i in OldSet(run.made, t.rows) ensures i in AliveIds(t.rows) {
      if t.rows[i].retired != None { NotMade(t, run, i); }
    }
    assert AliveIds(t.rows) == OldSet(run.made, t.rows) + Stale(t, run);
    assert OldSet(run.made, t.rows) !! Stale(t, run);
  }

  // ---- the rows of one document, changed in place ----

  /** The removals on record, in the order of the ids. */
  function Removals(ids: seq<SectionId>, made: seq<SectionId>, v: nat): seq<Lineage> {
    if ids == [] then []
    else
      var n := |ids| - 1;
      Removals(ids[..n], made, v) + if ids[n] in made then [] else [Lineage(v, ids[n], Relation.Removed)]
  }

  function StaleIn(ids: seq<SectionId>, made: seq<SectionId>): set<SectionId> {
    if ids == [] then {}
    else
      var n := |ids| - 1;
      StaleIn(ids[..n], made) + if ids[n] in made then {} else {ids[n]}
  }

  lemma {:induction false} StaleInHas(ids: seq<SectionId>, made: seq<SectionId>, i: SectionId)
    ensures i in StaleIn(ids, made) <==> i in ids && i !in made
  {
    if ids != [] {
      var front, last := ids[..|ids| - 1], ids[|ids| - 1];
      assert ids == front + [last];
      StaleInHas(front, made, i);
    }
  }

  /** A removal is noted for every listed section that was not matched, and for no other. */
  lemma {:induction false} RemovalsAre(ids: seq<SectionId>, made: seq<SectionId>, v: nat, x: Lineage)
    ensures x in Removals(ids, made, v) <==>
            x.version == v && x.relation == Relation.Removed && x.section in ids && x.section !in made
    ensures Distinct(ids) ==> |Removals(ids, made, v)| == |StaleIn(ids, made)|
  {
    if ids != [] {
      var front, last := ids[..|ids| - 1], ids[|ids| - 1];
      assert ids == front + [last];
      RemovalsAre(front, made, v, x);
      StaleInHas(front, made, last);
    }
  }

  class SectionStore {
    var rows: map<SectionId, Row>
    var next: SectionId
    var snaps: map<SnapKey, Snap>
    var lineage: seq<Lineage>

    ghost predicate Valid() reads this {
      UniqueKeys(rows) && forall i :: i in rows ==> i < next
    }

    constructor ()
      ensures Valid() && rows == map[] && snaps == map[] && lineage == []
    {
      rows, next, snaps, lineage := map[], 0, map[], [];
    }

    ghost function TaskHere(v: nat, payloads: seq<Payload>): Task
      requires Valid()
      reads this
    {
      TaskOf(rows, next, lineage, snaps, v, payloads)
    }

    method IndexHashes(v: nat) returns (byHash: map<Hash, SectionId>)
      ensures byHash == HashIndex(AliveInOrder(rows), snaps, v)
      ensures LeadsToFirst(byHash, rows, snaps, v)
    {
      HashIndexIsLast(rows, snaps, v);
      LastWithHashIff(HashIndex(AliveInOrder(rows), snaps, v), rows, snaps, v);
      var ids := AliveInOrder(rows);
      byHash := map[];
      var i := 0;
      while i < |ids|
        invariant 0 <= i <= |ids|
        invariant byHash == HashIndex(ids[..i], snaps, v)
      {
        assert ids[..i + 1][..i] == ids[..i];
        var hash := Latest(snaps, ids[i], v);
        if hash.Some? && hash.value !in byHash {
          byHash := byHash[hash.value := ids[i]];
        }
        i := i + 1;
      }
      assert ids[..i] == ids;
    }

    /** The last loop: what was alive and is not matched is retired. */
    method RetireStale(ids: seq<SectionId>, made: seq<SectionId>, v: nat) returns (removed: nat)
      requires Distinct(ids) && forall i :: i in ids ==> i in rows
      modifies this`rows, this`lineage
      ensures rows == Retire(old(rows), StaleIn(ids, made), v)
      ensures lineage == old(lineage) + Removals(ids, made, v)
      ensures removed == |StaleIn(ids, made)|
    {
      ghost var before, known := rows, lineage;
      removed := 0;
      var n := 0;
      while n < |ids|
        invariant 0 <= n <= |ids|
        invariant RetiredSoFar(before, known, rows, lineage, removed, ids[..n], made, v)
      {
        var i := ids[n];
        RetireNext(before, known, rows, lineage, removed, ids, made, n, v);
        if i !in made {
          rows := rows[i := rows[i].(retired := Some(v))];
          lineage := lineage + [Lineage(v, i, Relation.Removed)];
          removed := removed + 1;
        }
        n := n + 1;
      }
      assert ids[..n] == ids;
    }

    /** The body of the loop: the section row, then its snapshot. */
    method Place(p: Payload, v: nat, alive: map<Key, SectionId>, byHash: map<Hash, SectionId>,
                 made: seq<SectionId>, orders: set<nat>, counters: Counters)
      returns (s: SectionId, ok: bool, counted: Counters)
      requires forall k :: k in alive ==> alive[k] in rows
      requires forall h :: h in byHash ==> byHash[h] in rows
      modifies this
      ensures var step := Step(Run(old(rows), old(next), made, orders, old(lineage), counters), p, alive, byHash, v);
              && (ok <==> step.Some?)
              && (ok ==> step == Some(Run(rows, next, made + [s], orders + {p.order}, lineage, counted)))
      ensures ok ==> snaps == old(snaps)[SnapKey(v, s) := SnapOf(p)]
    {
      s, counted := next, counters;
      if p.order in orders { return s, false, counted; }
      if p.key in alive {
        s := alive[p.key];
        if s in made { return s, false, counted; }
        rows := rows[s := rows[s].(title := p.heading)];
        counted := counters.(same := counters.same + 1);
      } else if Taken(rows, p.key) {
        return s, false, counted;
      } else if p.bodyHash in byHash && byHash[p.bodyHash] !in made {
        s := byHash[p.bodyHash];
        rows := rows[s := rows[s].(key := p.key, title := p.heading)];
        lineage := lineage + [Lineage(v, s, Relation.Renamed)];
        counted := counters.(renamed := counters.renamed + 1);
      } else {
        rows := rows[s := Row(p.key, p.heading, v, None)];
        next := next + 1;
        lineage := lineage + [Lineage(v, s, Relation.Added)];
        counted := counters.(added := counters.added + 1);
      }
      snaps := snaps[SnapKey(v, s) := SnapOf(p)];
      ok := true;
    }

    /** The loop over the payloads, up to the first row the database refuses. */
    method PlaceAll(ghost t: Task, payloads: seq<Payload>, v: nat, alive: map<Key, SectionId>,
                    byHash: map<Hash, SectionId>)
      returns (made: seq<SectionId>, ok: bool, counters: Counters)
      requires Ready(t) && t == Task(rows, next, lineage, snaps, v, alive, byHash, payloads)
      modifies this
      ensures ok <==> Steps(t, |payloads|).Some?
      ensures ok ==> Mirrors(Steps(t, |payloads|).value, rows, next, lineage, made, counters)
      ensures ok ==> |made| == |payloads| && snaps == SnapsAfter(t, made)
    {
      made, counters := [], Counters(0, 0, 0, 0);
      var orders: set<nat> := {};
      var n := 0;
      while n != |payloads|
        invariant 0 <= n == |made| <= |payloads|
        invariant Steps(t, n) == Some(Run(rows, next, made, orders, lineage, counters))
        invariant snaps == SnapsAfter(t, made)
      {
        RunKnows(t, n);
        ghost var before := made;
        var s, placed, counted := Place(payloads[n], v, alive, byHash, made, orders, counters);
        if !placed {
          NoneAfter(t, n + 1);
          return made, false, counters;
        }
        made, orders, counters := made + [s], orders + {payloads[n].order}, counted;
        n := n + 1;
      }
      ok := true;
      assert n == |payloads|;
    }

    /** One transaction: the rows of every payload, then the retirements; when the database
        refuses a row, everything is rolled back. */
    method PersistAnalysis(v: nat, payloads: seq<Payload>) returns (r: Outcome)
      requires Valid() && forall k :: k in snaps ==> k.version != v
      modifies this
      ensures Valid()
      ensures r.Stored? <==> Acceptable(old(TaskHere(v, payloads)), |payloads|)
      ensures r == IntegrityError ==>
                rows == old(rows) && next == old(next) && snaps == old(snaps) && lineage == old(lineage)
      ensures r.Stored? ==> Written(old(TaskHere(v, payloads)), rows, next, snaps, lineage, r.counters)
    {
      ghost var t := TaskHere(v, payloads);
      TaskIsReady(rows, next, lineage, snaps, v, payloads);
      StoredIff(t, |payloads|);
      var rowsBefore, nextBefore, snapsBefore, lineageBefore := rows, next, snaps, lineage;
      var byHash := IndexHashes(v);
      var ids := AliveInOrder(rows);
      var made, ok, counters := PlaceAll(t, payloads, v, AliveKeys(rows), byHash);
      if !ok {
        rows, next, snaps, lineage := rowsBefore, nextBefore, snapsBefore, lineageBefore;
        return IntegrityError;
      }
      ghost var run := Steps(t, |payloads|).value;
      StepsGo(t, |payloads|);
      KeysStayUnique(t, run);
      StaleAre(t, run, ids);
      AliveListedOnce(t.rows);
      var removed := RetireStale(ids, made, v);
      r := Stored(counters.(removed := removed));
    }
  }

  lemma RunKnows(t: Task, n: nat)
    requires Ready(t) && n < |t.payloads| && Steps(t, n).Some?
    ensures Known(t, Steps(t, n).value.rows)
  {
    StepsGo(t, n);
    StillKnown(t, Steps(t, n).value);
  }

  lemma {:induction false} NoneAfter(t: Task, n: nat)
    requires n <= |t.payloads| && Steps(t, n) == None
    ensures Steps(t, |t.payloads|) == None
    decreases |t.payloads| - n
  {
    if n < |t.payloads| { NoneAfter(t, n + 1); }
  }

  lemma StaleAre(t: Task, run: Run, ids: seq<SectionId>)
    requires Untouched(t, run) && ids == AliveInOrder(t.rows)
    ensures StaleIn(ids, run.made) == Stale(t, run) && forall i :: i in ids ==> i in run.rows
  {
    forall i ensures i in StaleIn(ids, run.made) <==> i in Stale(t, run) {
      StaleInHas(ids, run.made, i);
    }
  }

  lemma AliveListedOnce(rows: map<SectionId, Row>)
    ensures Distinct(AliveInOrder(rows))
  {
    SortSetSorted(AliveIds(rows), IdLe);
  }

  /** The fields and locals of the loop are those of `run`. */
  ghost predicate Mirrors(run: Run, rows: map<SectionId, Row>, next: SectionId, lineage: seq<Lineage>,
                          made: seq<SectionId>, counters: Counters)
  {
    run.rows == rows && run.next == next && run.lineage == lineage && run.made == made && run.counters == counters
  }

  /** What a stored analysis leaves behind. */
  ghost predicate Written(t: Task, rows: map<SectionId, Row>, next: SectionId, snaps: map<SnapKey, Snap>,
                          lineage: seq<Lineage>, counters: Counters)
  {
    && Steps(t, |t.payloads|).Some?
    && var run := Steps(t, |t.payloads|).value;
       && rows == RowsAfter(t, run) && next == run.next && snaps == SnapsAfter(t, run.made)
       && lineage == run.lineage + Removals(AliveInOrder(t.rows), run.made, t.v)
       && counters == run.counters.(removed := |Stale(t, run)|)
  }

  /** The last loop after the sections `ids`. */
  ghost predicate RetiredSoFar(before: map<SectionId, Row>, known: seq<Lineage>, rows: map<SectionId, Row>,
                               lineage: seq<Lineage>, removed: nat, ids: seq<SectionId>, made: seq<SectionId>, v: nat)
  {
    && rows == Retire(before, StaleIn(ids, made), v)
    && lineage == known + Removals(ids, made, v)
    && removed == |StaleIn(ids, made)|
  }

  lemma RetireNext(before: map<SectionId, Row>, known: seq<Lineage>, rows: map<SectionId, Row>,
                   lineage: seq<Lineage>, removed: nat, ids: seq<SectionId>, made: seq<SectionId>, n: nat, v: nat)
    requires Distinct(ids) && n < |ids| && ids[n] in before
    requires RetiredSoFar(before, known, rows, lineage, removed, ids[..n], made, v)
    ensures ids[n] in rows
    ensures ids[n] in made ==> RetiredSoFar(before, known, rows, lineage, removed, ids[..n + 1], made, v)
    ensures ids[n] !in made ==>
              RetiredSoFar(before, known, rows[ids[n] := rows[ids[n]].(retired := Some(v))],
                           lineage + [Lineage(v, ids[n], Relation.Removed)], removed + 1, ids[..n + 1], made, v)
  {
    var i, stale := ids[n], StaleIn(ids[..n], made);
    assert ids[..n + 1][..n] == ids[..n];
    StaleInHas(ids[..n], made, i);
    if i !in made {
      RetireOne(before, stale, i, v);
    }
  }

  lemma RetireOne(rows: map<SectionId, Row>, stale: set<SectionId>, i: SectionId, v: nat)
    requires i in rows && i !in stale
    ensures i in Retire(rows, stale, v)
    ensures Retire(rows, stale, v)[i := Retire(rows, stale, v)[i].(retired := Some(v))] == Retire(rows, stale + {i}, v)
  {
  }

  // ---- the snapshots written ----

  /** Every payload has its snapshot, under the section taken for it; those of other
      versions are as they were. */
  lemma {:induction false} SnapsWritten(t: Task, made: seq<SectionId>, n: nat, k: SnapKey)
    requires |made| <= |t.payloads| && Distinct(made)
    ensures n < |made| ==> SnapKey(t.v, made[n]) in SnapsAfter(t, made)
                           && var p := t.payloads[n];
                              SnapsAfter(t, made)[SnapKey(t.v, made[n])] == Snap(p.heading, p.bodyHash, p.body, p.order)
    ensures k.version != t.v || k.section !in made ==>
              (k in SnapsAfter(t, made) <==> k in t.snaps)
              && (k in t.snaps ==> SnapsAfter(t, made)[k] == t.snaps[k])
  {
    if made != [] {
      var front, last := made[..|made| - 1], made[|made| - 1];
      assert made == front + [last];
      SnapsWritten(t, front, n, k);
    }
  }

  /** What a stored analysis does to the rows. */
  lemma StoredRows(t: Task, run: Run)
    requires StoredAs(t, run)
    ensures var rows := RowsAfter(t, run);
            && (forall i :: i in t.rows ==> i in rows && rows[i].created == t.rows[i].created)
            && (forall i :: i in rows && i !in t.rows ==> rows[i].created == t.v)
            && (forall i :: i in run.made ==> i in rows)
  {
    StepsGo(t, |t.payloads|);
  }

  /** And to the snapshots of a version that had none. */
  lemma StoredSnaps(t: Task, run: Run)
    requires StoredAs(t, run) && forall k :: k in t.snaps ==> k.version != t.v
    ensures var snaps := SnapsAfter(t, run.made);
            && (forall k :: k in t.snaps ==> k in snaps && snaps[k] == t.snaps[k])
            && (forall k :: k in snaps && k !in t.snaps <==> k.version == t.v && k.section in run.made)
  {
    StepsGo(t, |t.payloads|);
    var snaps := SnapsAfter(t, run.made);
    forall k ensures k in t.snaps ==> k in snaps && snaps[k] == t.snaps[k]
             ensures k in snaps && k !in t.snaps <==> k.version == t.v && k.section in run.made
    {
      SnapsWritten(t, run.made, 0, k);
      if k.version == t.v && k.section in run.made {
        var n :| 0 <= n < |run.made| && run.made[n] == k.section;
        SnapsWritten(t, run.made, n, k);
      }
    }
  }

  // ---- documents of one section ----

  /** The section is known by its key. */
  lemma KnownAlone(t: Task, p: Payload, i: SectionId) returns (run: Run)
    requires Ready(t) && t.payloads == [p] && Alive(t.rows, i) && t.rows[i].key == p.key && t.rows[i].title == p.heading
    ensures StoredAs(t, run) && run.rows == t.rows && run.made == [i]
  {
    assert p.key in t.alive && t.alive[p.key] == i;
    assert Steps(t, 0) == Some(Start(t.rows, t.next, t.log));
    assert t.rows[i := t.rows[i].(title := p.heading)] == t.rows;
    run := Steps(t, 1).value;
  }

  /** The section is new, by its key and by its content. */
  lemma NewAlone(t: Task, p: Payload) returns (run: Run)
    requires Ready(t) && t.payloads == [p] && !Taken(t.rows, p.key) && p.bodyHash !in t.byHash
    ensures StoredAs(t, run) && run.rows == t.rows[t.next := Row(p.key, p.heading, t.v, None)] && run.made == [t.next]
  {
    assert p.key !in t.alive;
    assert Steps(t, 0) == Some(Start(t.rows, t.next, t.log));
    run := Steps(t, 1).value;
  }

  lemma OneSnap(t: Task, i: SectionId)
    requires |t.payloads| == 1
    ensures SnapsAfter(t, [i]) == t.snaps[SnapKey(t.v, i) := SnapOf(t.payloads[0])]
  {
    assert SnapsAfter(t, []) == t.snaps && [i][..0] == [];
  }

  // ---- documents that cannot be stored ----

  /** A section's content moved under a new heading, and its old heading kept for something
      else: all keys differ, and yet the analysis is refused. */
  lemma MovedContentIsRefused(a: Key, b: Key, h: Hash, g: Hash, title: Heading, body: Body) returns (t: Task)
    requires a != b
    ensures Ready(t) && |t.payloads| == 2 && t.payloads[0].key != t.payloads[1].key
    ensures t.payloads[0].order != t.payloads[1].order && !Taken(t.rows, t.payloads[0].key)
    ensures Steps(t, 2) == None
  {
    var rows: map<SectionId, Row> := map[0 := Row(a, title, 1, None)];
    var snaps: map<SnapKey, Snap> := map[SnapKey(1, 0) := Snap(title, h, body, 0)];
    t := TaskOf(rows, 1, [], snaps, 2, [Payload(b, title, h, body, 0), Payload(a, title, g, body, 1)]);
    TaskIsReady(rows, 1, [], snaps, 2, t.payloads);
    assert Alive(rows, 0) && Latest(snaps, 0, 2) == Some(h);
    assert t.alive[a] == 0 && t.byHash[h] == 0 && b !in t.alive;
    assert Clash(t, 0, 1);
    assert Refused(t, 1);
    StoredIff(t, 2);
  }

  /** A heading that comes back after its section was retired: refused as well. */
  lemma ReturningKeyIsRefused(a: Key, h: Hash, title: Heading, body: Body) returns (t: Task)
    ensures Ready(t) && |t.payloads| == 1 && AliveIds(t.rows) == {}
    ensures Steps(t, 1) == None
  {
    var rows: map<SectionId, Row> := map[0 := Row(a, title, 1, Some(2))];
    t := TaskOf(rows, 1, [], map[], 3, [Payload(a, title, h, body, 0)]);
    TaskIsReady(rows, 1, [], map[], 3, t.payloads);
    assert rows[0].key == a;
    assert Barred(t, 0);
    assert Refused(t, 0);
    StoredIff(t, 1);
  }
}
