/** What the operations of version_service.py and trash_service.py under backend/documents/services
    are good for when nothing comes in between: trash and restore undo each other, a purge takes
    what has expired and nothing in use, and later checks see what was done. */
module LifecycleEffects {
  import opened Sections
  import opened Lifecycle

  // ---- into the trash and back ----

  /** No version of the document has a higher number than the latest. */
  lemma LatestIsHighest(w: World, v: nat)
    requires Linked(w) && NumbersKept(w) && v in w.versions
    ensures w.versions[v].number <= w.documents[w.versions[v].document].latest
  {
    assert w.versions[v].number in w.issued[w.versions[v].document];
  }

  /** The latest draft goes out of use, nothing else does, and restoring it at once is allowed and
      gives the tables back as they were. */
  lemma TrashedVersionComesBack(w: World, v: nat, now: int)
    requires Linked(w) && NumbersKept(w) && Guard(w, TrashVersion(v, now))
    ensures var m := Effect(w, TrashVersion(v, now));
            && !InUse(m, v) && (forall u :: u != v ==> (InUse(m, u) <==> InUse(w, u)))
            && Guard(m, RestoreVersion(v)) && Effect(m, RestoreVersion(v)) == w
  {
    var m := Effect(w, TrashVersion(v, now));
    forall y | y in w.versions && w.versions[y].document == w.versions[v].document
      ensures w.versions[y].number <= w.versions[v].number
    {
      LatestIsHighest(w, y);
    }
    assert Effect(m, RestoreVersion(v)).versions == w.versions;
  }

  /** A document takes its versions out of use with it, and no others. */
  lemma TrashedDocumentComesBack(w: World, d: nat, now: int)
    requires Linked(w) && Guard(w, TrashDocument(d, now)) && d !in w.locks
    ensures var m := Effect(w, TrashDocument(d, now));
            && (forall u :: InUse(m, u) <==> InUse(w, u) && w.versions[u].document != d)
            && Guard(m, RestoreDocument(d)) && Effect(m, RestoreDocument(d)) == w
  {
    var m := Effect(w, TrashDocument(d, now));
    assert Effect(m, RestoreDocument(d)).documents == w.documents;
  }

  /** So does a project. */
  lemma TrashedProjectComesBack(w: World, p: nat, now: int)
    requires Linked(w) && Guard(w, TrashProject(p, now))
    ensures var m := Effect(w, TrashProject(p, now));
            && (forall u :: InUse(m, u) <==> InUse(w, u) && ProjectOf(w, u) != p)
            && Guard(m, RestoreProject(p)) && Effect(m, RestoreProject(p)) == w
  {
    var m := Effect(w, TrashProject(p, now));
    assert Effect(m, RestoreProject(p)).projects == w.projects;
  }

  /** Whenever a version may be restored, it is in use afterwards, is the newest one in use of its
      document, and nothing else has changed. */
  lemma RestoredIsNewest(w: World, v: nat)
    requires Guard(w, RestoreVersion(v))
    ensures var m := Effect(w, RestoreVersion(v));
            && InUse(m, v) && (forall u :: u != v ==> (InUse(m, u) <==> InUse(w, u)))
            && (forall u :: InUse(m, u) && m.versions[u].document == m.versions[v].document ==>
                  m.versions[u].number <= m.versions[v].number)
  {
  }

  /** A restored document or project brings back what it took: every version that is not in the
      trash itself, nor under anything else that is. */
  lemma RestoredBringsBack(w: World, d: nat, p: nat)
    requires Linked(w)
    ensures Guard(w, RestoreDocument(d)) && d !in w.locks ==>
              var m := Effect(w, RestoreDocument(d));
              forall u :: InUse(m, u) <==>
                InUse(w, u) || (u in w.versions && w.versions[u].document == d && w.versions[u].deletedAt == None)
    ensures Guard(w, RestoreProject(p)) ==>
              var m := Effect(w, RestoreProject(p));
              forall u :: InUse(m, u) <==>
                InUse(w, u) || (VersionOf(w, u) && ProjectOf(w, u) == p && w.versions[u].deletedAt == None
                                && w.documents[w.versions[u].document].deletedAt == None)
  {
  }

  // ---- the purge ----

  /** What the row of version `v` hangs on, or is. */
  predicate Under(w: World, op: Op, v: nat)
    requires v in w.versions && w.versions[v].document in w.documents
  {
    match op
    case PurgeVersion(u, _) => u == v
    case PurgeDocument(d, _) => w.versions[v].document == d
    case PurgeProject(p, _) => w.documents[w.versions[v].document].project == p
    case _ => false
  }

  /** No upload holds a row that is to go. */
  predicate Unblocked(w: World, op: Op) {
    (op.PurgeDocument? ==> op.d !in w.locks) && (op.PurgeProject? ==> DocumentsIn(w, op.p) !! w.locks.Keys)
  }

  /** Only what is under the purged row goes, and all of it goes. */
  lemma PurgeTakesExpired(w: World, op: Op, v: nat)
    requires Linked(w) && Guard(w, op) && (op.PurgeVersion? || op.PurgeDocument? || op.PurgeProject?)
    requires Unblocked(w, op) && v in w.versions
    ensures v in Effect(w, op).versions <==> !Under(w, op, v)
    ensures v in Effect(w, op).versions ==> Effect(w, op).versions[v] == w.versions[v]
  {
  }

  /** And nothing in use. */
  lemma PurgeSparesUse(w: World, op: Op, v: nat)
    requires Linked(w) && Guard(w, op) && (op.PurgeVersion? || op.PurgeDocument? || op.PurgeProject?)
    requires InUse(w, v)
    ensures InUse(Effect(w, op), v)
  {
  }

  lemma PurgeTakesDocuments(w: World, op: Op, d: nat)
    requires Linked(w) && Guard(w, op) && (op.PurgeVersion? || op.PurgeDocument? || op.PurgeProject?)
    requires Unblocked(w, op) && d in w.documents
    ensures d in Effect(w, op).documents <==>
            !(op.PurgeDocument? && op.d == d) && !(op.PurgeProject? && op.p == w.documents[d].project)
    ensures d in Effect(w, op).documents ==> Effect(w, op).documents[d] == w.documents[d]
    ensures op.PurgeProject? ==> Effect(w, op).projects == w.projects - {op.p}
    ensures !op.PurgeProject? ==> Effect(w, op).projects == w.projects
  {
  }

  // ---- what later checks see ----

  /** An uploaded file is the new latest version, with a number of its own, in use if the document
      is; what was there stays, and it differs from the version numbered one less, if that is not in
      the trash. */
  lemma UploadedIsLatest(w: World, v: nat, d: nat, sha: Hash)
    requires Linked(w) && NumbersKept(w) && Guard(w, Upload(v, d, sha))
    ensures var m := Effect(w, Upload(v, d, sha));
            && v in m.versions && m.versions[v].document == d && m.versions[v].sha == sha
            && m.versions[v].number == m.documents[d].latest == w.documents[d].latest + 1
            && (InUse(m, v) <==> DocumentInUse(w, d)) && d !in m.locks && Draft(m.versions[v]) && !m.versions[v].ready
            && (forall u :: u in w.versions ==> u in m.versions && m.versions[u] == w.versions[u])
            && (forall u ::
                  (u in w.versions && w.versions[u].document == d && w.versions[u].deletedAt == None
                   && w.versions[u].number + 1 == m.versions[v].number)
                  ==> w.versions[u].sha != sha)
  {
  }

  /** A sealed version cannot go to the trash any more, nor its document, nor its project. */
  lemma SealedCannotBeTrashed(w: World, v: nat, approves: bool, now: int)
    requires Guard(w, PlaceSeal(v, approves))
    ensures var m := Effect(w, PlaceSeal(v, approves));
            && VersionOf(m, v) && Sealed(m.versions[v]) && v in m.everSealed
            && !Guard(m, TrashVersion(v, now)) && !Guard(m, TrashDocument(m.versions[v].document, now))
            && !Guard(m, TrashProject(ProjectOf(m, v), now))
  {
  }

  /** A version is a draft until it is reviewed or sealed, and a project takes writes until it is
      archived or trashed. */
  lemma ReviewAndArchive(w: World, v: nat, p: nat, flag: bool)
    ensures Guard(w, Analysed(v)) ==> Effect(w, Analysed(v)).versions[v] == w.versions[v].(ready := true)
    ensures Guard(w, Review(v, flag)) ==>
              (Draft(Effect(w, Review(v, flag)).versions[v]) <==> !Sealed(w.versions[v]) && !flag)
    ensures Guard(w, Archive(p, flag)) ==>
              (Writable(Effect(w, Archive(p, flag)), p) <==> !flag && w.projects[p].deletedAt == None)
  {
  }

  /** While an upload holds the document no other can start, and giving up undoes taking the lock. */
  lemma LockAndAbort(w: World, d: nat)
    requires Guard(w, Lock(d))
    ensures var m := Effect(w, Lock(d)); !Guard(m, Lock(d)) && Guard(m, Abort(d)) && Effect(m, Abort(d)) == w
  {
    assert w.locks[d := w.documents[d].latest] - {d} == w.locks;
  }

  /** Nothing but an upload touches locks or gives numbers out. */
  lemma OnlyUploadsLock(w: World, op: Op)
    requires !op.Lock? && !op.Upload? && !op.Abort?
    ensures Effect(w, op).locks == w.locks
    ensures !op.NewDocument? ==> Effect(w, op).issued == w.issued
  {
  }

  /** A file that went to the trash as the latest version may be uploaded again. */
  lemma TrashedFileMayComeBack(w: World, v: nat, now: int, u: nat)
    requires Linked(w) && NumbersKept(w) && Guard(w, TrashVersion(v, now))
    requires u !in w.versions && u !in w.everSealed && w.versions[v].document !in w.locks
    ensures var m := Effect(Effect(w, TrashVersion(v, now)), Lock(w.versions[v].document));
            Guard(m, Upload(u, w.versions[v].document, w.versions[v].sha))
  {
    var d := w.versions[v].document;
    var m := Effect(Effect(w, TrashVersion(v, now)), Lock(d));
    forall x | x in m.versions && m.versions[x].document == d && m.versions[x].number == m.locks[d]
      ensures x == v
    {
      assert SameNumber(w.versions[x], w.versions[v]);
    }
  }

  // ---- what the checks rule out ----

  /** An archived or trashed project gets no documents, whatever is done in its turn. */
  lemma ReadOnlyProject(w: World, op: Op, p: nat)
    requires Guard(w, op) && !Writable(w, p)
    ensures DocumentsIn(Effect(w, op), p) <= DocumentsIn(w, p)
  {
  }

  /** And its versions get no seals. */
  lemma ReadOnlyVersion(w: World, op: Op, v: nat)
    requires Guard(w, op) && VersionOf(w, v) && !Writable(w, ProjectOf(w, v)) && v in Effect(w, op).versions
    ensures Effect(w, op).versions[v].seals == w.versions[v].seals
    ensures Effect(w, op).versions[v].approved == w.versions[v].approved
  {
  }

  /** Nothing is sealed or approved that was not analysed. */
  ghost predicate SealedAreReady(w: World) {
    forall v :: v in w.versions && Sealed(w.versions[v]) ==> w.versions[v].ready
  }

  lemma SealedStayReady(w: World, op: Op)
    requires SealedAreReady(w) && Guard(w, op)
    ensures SealedAreReady(Effect(w, op))
  {
  }
}
