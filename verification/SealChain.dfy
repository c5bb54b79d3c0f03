/** Which links a seal's chain of records has: over whole runs, a seal is valid exactly when every
    version in use since the sealed one was decided about while that was the last usable one. */
module SealChain {
  import opened Comparison
  import opened Invalidation
  import opened SealLedger

  // ---- what one event does to one record ----

  ghost predicate Decides(l: Ledger, e: Event, k: RecordKey) {
    e == Apply(k.to) && Concerned(l, k.seal, k.to)
  }

  /** A record goes with its seal and with its version. */
  ghost predicate Deletes(e: Event, k: RecordKey, sealedAt: nat) {
    e == Purge(k.to) || e == Purge(sealedAt)
  }

  /** Deciding adds a record for exactly the seals concerned, and nothing else adds one. */
  lemma RecordedIff(strip: Stripper, l: Ledger, e: Event, k: RecordKey)
    requires Sound(l) && Can(l, e)
    ensures k in Do(strip, l, e).records <==>
            Decides(l, e, k) || (k in l.records && !Deletes(e, k, l.seals[k.seal].version))
  {
    if e.Apply? {
      DecidedIff(strip, l, e, k);
    } else if e.Purge? {
      PurgedIff(strip, l, e, k);
    } else {
      OthersAddNone(strip, l, e, k);
    }
  }

  lemma DecidedIff(strip: Stripper, l: Ledger, e: Event, k: RecordKey)
    requires Sound(l) && e.Apply? && Can(l, e)
    ensures k in Do(strip, l, e).records <==>
            Decides(l, e, k) || (k in l.records && !Deletes(e, k, l.seals[k.seal].version))
  {
    assert k in Due(l, e.n) <==> k.to == e.n && Concerned(l, k.seal, e.n);
  }

  lemma PurgedIff(strip: Stripper, l: Ledger, e: Event, k: RecordKey)
    requires Sound(l) && e.Purge? && Can(l, e)
    ensures k in Do(strip, l, e).records <==>
            Decides(l, e, k) || (k in l.records && !Deletes(e, k, l.seals[k.seal].version))
  {
  }

  lemma OthersAddNone(strip: Stripper, l: Ledger, e: Event, k: RecordKey)
    requires Sound(l) && Can(l, e) && !e.Apply? && !e.Purge?
    ensures k in Do(strip, l, e).records <==>
            Decides(l, e, k) || (k in l.records && !Deletes(e, k, l.seals[k.seal].version))
  {
  }

  /** What the resolver decides about the seal at this moment. */
  ghost function VerdictOf(strip: Stripper, l: Ledger, k: RecordKey): Verdict {
    if Sound(l) && k.seal in l.seals && k.to in l.versions then
      DecisionFor(strip, l, k.seal, l.seals[k.seal], k.to).verdict
    else Pending
  }

  /** A verdict is that of the decision until a coordinator confirms one that is pending. */
  lemma VerdictAfter(strip: Stripper, l: Ledger, e: Event, k: RecordKey)
    requires Sound(l) && Can(l, e) && k in Do(strip, l, e).records
    ensures k !in l.records ==> Do(strip, l, e).records[k].verdict == VerdictOf(strip, l, k)
    ensures k in l.records ==>
              if e.Confirm? && e.record == k then
                l.records[k].verdict == Pending && Do(strip, l, e).records[k].verdict == e.choice
              else Do(strip, l, e).records[k].verdict == l.records[k].verdict
  {
  }

  /** A seal stays on its version until that is purged. */
  lemma SealedAtAfter(strip: Stripper, l: Ledger, e: Event, id: nat)
    requires Sound(l) && Can(l, e) && id in l.seals && e != Purge(l.seals[id].version)
    ensures id in Do(strip, l, e).seals && Do(strip, l, e).seals[id].version == l.seals[id].version
  {
  }

  /** The three together, for one record and the ledgers before and after. */
  ghost predicate Turn(strip: Stripper, l: Ledger, e: Event, m: Ledger, k: RecordKey) {
    && (k in l.records ==> k.seal in l.seals) && (Decides(l, e, k) ==> k.seal in l.seals)
    && (k in m.records <==>
          Decides(l, e, k) || (k in l.records && !Deletes(e, k, l.seals[k.seal].version)))
    && (k in m.records && k !in l.records ==> m.records[k].verdict == VerdictOf(strip, l, k))
    && (k in m.records && k in l.records ==>
          if e.Confirm? && e.record == k then l.records[k].verdict == Pending && m.records[k].verdict == e.choice
          else m.records[k].verdict == l.records[k].verdict)
    && (k.seal in l.seals && e != Purge(l.seals[k.seal].version) ==>
          k.seal in m.seals && m.seals[k.seal].version == l.seals[k.seal].version)
  }

  lemma EachTurn(strip: Stripper, l: Ledger, e: Event, m: Ledger, k: RecordKey)
    requires Leads(strip, l, e, m)
    ensures Turn(strip, l, e, m, k)
  {
    RecordedIff(strip, l, e, k);
    if k in m.records { VerdictAfter(strip, l, e, k); }
    if k.seal in l.seals && e != Purge(l.seals[k.seal].version) { SealedAtAfter(strip, l, e, k.seal); }
  }

  // ---- what a run remembers ----

  /** At the `i`th event of the run the seal was decided about for the first time, its version
      being the last usable one, and up to the `p`th neither version was purged. */
  ghost predicate DecidedAt(ledgers: seq<Ledger>, events: seq<Event>, k: RecordKey, i: nat, p: nat) {
    && i < p <= |events| && p < |ledgers| && k.seal in ledgers[i].seals
    && Decides(ledgers[i], events[i], k) && k !in ledgers[i].records
    && forall j :: i < j < p ==> !Deletes(events[j], k, ledgers[i].seals[k.seal].version)
  }

  ghost predicate ConfirmedAfter(events: seq<Event>, k: RecordKey, i: nat, p: nat) {
    exists j :: i < j < p && j < |events| && events[j] == Confirm(k, Preserved)
  }

  /** Decided so, and kept: by the resolver then, or by a coordinator later. */
  ghost predicate KeptSince(strip: Stripper, ledgers: seq<Ledger>, events: seq<Event>, k: RecordKey, i: nat) {
    && DecidedAt(ledgers, events, k, i, |events|)
    && (var v := VerdictOf(strip, ledgers[i], k);
        v == Preserved || (v == Pending && ConfirmedAfter(events, k, i, |events|)))
  }

  /** The record of a seal on version `at` that was decided as `v`, and confirmed as kept or not. */
  ghost predicate Stands(l: Ledger, k: RecordKey, at: nat, v: Verdict, confirmed: bool) {
    && k in l.records && k.seal in l.seals && l.seals[k.seal].version == at
    && (v != Pending ==> l.records[k].verdict == v)
    && (v == Pending ==> (l.records[k].verdict == Preserved <==> confirmed))
  }

  lemma StandsOn(strip: Stripper, l: Ledger, e: Event, m: Ledger, k: RecordKey, at: nat, v: Verdict, confirmed: bool)
    requires Turn(strip, l, e, m, k) && Stands(l, k, at, v, confirmed) && !Deletes(e, k, at)
    ensures Stands(m, k, at, v, confirmed || e == Confirm(k, Preserved))
  {
  }

  /** Nothing but turns, as far as one record goes. */
  ghost predicate Turns(strip: Stripper, ledgers: seq<Ledger>, events: seq<Event>, k: RecordKey) {
    && |ledgers| == |events| + 1
    && forall i :: 0 <= i < |events| ==> Turn(strip, ledgers[i], events[i], ledgers[i + 1], k)
  }

  lemma TraceTurns(strip: Stripper, ledgers: seq<Ledger>, events: seq<Event>, k: RecordKey)
    requires Trace(strip, ledgers, events)
    ensures Turns(strip, ledgers, events, k)
  {
    forall i | 0 <= i < |events| ensures Turn(strip, ledgers[i], events[i], ledgers[i + 1], k) {
      EachTurn(strip, ledgers[i], events[i], ledgers[i + 1], k);
    }
  }

  lemma {:induction false} GoesOnStanding(strip: Stripper, ledgers: seq<Ledger>, events: seq<Event>, k: RecordKey,
                                          i: nat, p: nat, at: nat, v: Verdict)
    requires Turns(strip, ledgers, events, k) && i < p <= |events| && Stands(ledgers[i + 1], k, at, v, false)
    requires forall j :: i < j < p ==> !Deletes(events[j], k, at)
    ensures Stands(ledgers[p], k, at, v, ConfirmedAfter(events, k, i, p))
    decreases p
  {
    if p > i + 1 {
      var q := p - 1;
      GoesOnStanding(strip, ledgers, events, k, i, q, at, v);
      StandsOn(strip, ledgers[q], events[q], ledgers[p], k, at, v, ConfirmedAfter(events, k, i, q));
      ConfirmedByLast(events, k, i, p);
    }
  }

  lemma ConfirmedByLast(events: seq<Event>, k: RecordKey, i: nat, p: nat)
    requires i + 1 < p <= |events|
    ensures ConfirmedAfter(events, k, i, p) <==>
            ConfirmedAfter(events, k, i, p - 1) || events[p - 1] == Confirm(k, Preserved)
  {
  }

  lemma DecisionIsRecorded(strip: Stripper, ledgers: seq<Ledger>, events: seq<Event>, k: RecordKey, i: nat, p: nat)
    requires Turns(strip, ledgers, events, k) && DecidedAt(ledgers, events, k, i, p)
    ensures Stands(ledgers[p], k, ledgers[i].seals[k.seal].version, VerdictOf(strip, ledgers[i], k),
                   ConfirmedAfter(events, k, i, p))
  {
    var l := ledgers[i];
    JustDecided(strip, l, events[i], ledgers[i + 1], k);
    GoesOnStanding(strip, ledgers, events, k, i, p, l.seals[k.seal].version, VerdictOf(strip, l, k));
  }

  lemma JustDecided(strip: Stripper, l: Ledger, e: Event, m: Ledger, k: RecordKey)
    requires Turn(strip, l, e, m, k) && Decides(l, e, k) && k !in l.records
    ensures k.seal in l.seals && Stands(m, k, l.seals[k.seal].version, VerdictOf(strip, l, k), false)
  {
  }

  lemma {:induction false} RecordWasDecided(strip: Stripper, ledgers: seq<Ledger>, events: seq<Event>,
                                            k: RecordKey, p: nat)
    returns (i: nat)
    requires Turns(strip, ledgers, events, k) && ledgers[0] == EMPTY && p <= |events| && k in ledgers[p].records
    ensures DecidedAt(ledgers, events, k, i, p)
    decreases p
  {
    var q := p - 1;
    assert Turn(strip, ledgers[q], events[q], ledgers[p], k);
    if k in ledgers[q].records {
      i := RecordWasDecided(strip, ledgers, events, k, q);
      DecisionIsRecorded(strip, ledgers, events, k, i, q);
    } else {
      i := q;
    }
  }

  /** A version counts as kept exactly when at some moment the sealed version was the last usable
      one before it, what was decided then was to keep the seal or was confirmed so, and nothing
      of it was purged. */
  lemma KeptIff(strip: Stripper, ledgers: seq<Ledger>, events: seq<Event>, id: nat, m: nat)
    requires Trace(strip, ledgers, events) && ledgers[0] == EMPTY
    ensures IsKept(End(ledgers), id, m) <==> exists i :: KeptSince(strip, ledgers, events, RecordKey(id, m), i)
  {
    var k := RecordKey(id, m);
    TraceTurns(strip, ledgers, events, k);
    if IsKept(End(ledgers), id, m) {
      var i := RecordWasDecided(strip, ledgers, events, k, |events|);
      DecisionIsRecorded(strip, ledgers, events, k, i, |events|);
      assert KeptSince(strip, ledgers, events, k, i);
    }
    if i: nat :| KeptSince(strip, ledgers, events, k, i) {
      DecisionIsRecorded(strip, ledgers, events, k, i, |events|);
    }
  }

  /** So, over every run: a seal is valid at a version exactly when it is not revoked and every
      version in use since the sealed one was decided so and kept. */
  lemma ValidIff(strip: Stripper, ledgers: seq<Ledger>, events: seq<Event>, id: nat, n: nat)
    requires Trace(strip, ledgers, events) && ledgers[0] == EMPTY && id in End(ledgers).seals
    ensures var end := End(ledgers);
            var s := end.seals[id];
            ValidAt(end, id, n) <==>
              && IsActive(s) && s.version <= n
              && forall m :: m in end.versions && !end.versions[m].trashed && s.version < m <= n ==>
                   exists i :: KeptSince(strip, ledgers, events, RecordKey(id, m), i)
  {
    var end := End(ledgers);
    forall m | m in end.versions
      ensures IsKept(end, id, m) <==> exists i :: KeptSince(strip, ledgers, events, RecordKey(id, m), i)
    {
      KeptIff(strip, ledgers, events, id, m);
    }
  }

  // ---- the next version only ----

  /** Nothing comes back from the trash, and versions are analysed in the order of their numbers. */
  ghost predicate InOrder(ledgers: seq<Ledger>, events: seq<Event>)
    requires |ledgers| == |events| + 1
  {
    forall i :: 0 <= i < |events| ==> Orderly(ledgers[i], events[i])
  }

  ghost predicate Orderly(l: Ledger, e: Event) {
    !e.Restore? && (e.Analyse? ==> forall k :: k in l.versions && l.versions[k].ready ==> k < e.n)
  }

  /** No record reaches over a usable version. */
  ghost predicate NoneSkipped(l: Ledger) {
    && (forall k :: k in l.records ==> k.to in l.versions && l.versions[k.to].ready)
    && forall k, b :: k in l.records && k.seal in l.seals && l.seals[k.seal].version < b < k.to ==> !Usable(l, b)
  }

  lemma OrderlyKeeps(strip: Stripper, l: Ledger, e: Event)
    requires Sound(l) && Can(l, e) && Orderly(l, e) && NoneSkipped(l)
    ensures NoneSkipped(Do(strip, l, e))
  {
    var m := Do(strip, l, e);
    forall k | k in m.records ensures k.to in m.versions && m.versions[k.to].ready {
      RecordedIff(strip, l, e, k);
    }
    forall k, b | k in m.records && k.seal in m.seals && m.seals[k.seal].version < b < k.to ensures !Usable(m, b) {
      RecordedIff(strip, l, e, k);
      SealedAtAfter(strip, l, e, k.seal);
      if Decides(l, e, k) {
        assert !Usable(l, b);
      } else {
        StaysUnusable(strip, l, e, b, k.to);
      }
    }
  }

  lemma StaysUnusable(strip: Stripper, l: Ledger, e: Event, b: nat, n: nat)
    requires Sound(l) && Can(l, e) && Orderly(l, e)
    requires !Usable(l, b) && b < n && n in l.versions && l.versions[n].ready
    ensures !Usable(Do(strip, l, e), b)
  {
  }

  lemma {:induction false} OrderlyRunKeeps(strip: Stripper, ledgers: seq<Ledger>, events: seq<Event>)
    requires Trace(strip, ledgers, events) && ledgers[0] == EMPTY && InOrder(ledgers, events)
    ensures NoneSkipped(End(ledgers))
    decreases |events|
  {
    if events != [] {
      var n := |events| - 1;
      TraceFront(strip, ledgers, events);
      assert Orderly(ledgers[n], events[n]);
      assert forall i :: 0 <= i < n ==> Orderly(ledgers[..n + 1][i], events[..n][i]);
      OrderlyRunKeeps(strip, ledgers[..n + 1], events[..n]);
      OrderlyKeeps(strip, ledgers[n], events[n]);
    }
  }

  /** In such runs a seal gets no record, and is not valid, beyond the first usable version after
      its own, however equal the content. */
  lemma OnlyTheNextVersion(strip: Stripper, ledgers: seq<Ledger>, events: seq<Event>, id: nat, between: nat, n: nat)
    requires Trace(strip, ledgers, events) && ledgers[0] == EMPTY && InOrder(ledgers, events)
    requires var end := End(ledgers);
             && id in end.seals && end.seals[id].version < between < n && Usable(end, between)
             && n in end.versions && !end.versions[n].trashed
    ensures RecordKey(id, n) !in End(ledgers).records && !ValidAt(End(ledgers), id, n)
  {
    OrderlyRunKeeps(strip, ledgers, events);
  }
}
