/** Projects, documents and versions through upload, seal, trash, restore and purge
    (version_service.py and trash_service.py under backend/documents/services): what checks
    made before an action are worth when other requests come in between. */
module Lifecycle {
  import opened Sections

  datatype Project = Project(archived: bool, deletedAt: Option<int>)

  datatype Document = Document(project: nat, latest: nat, deletedAt: Option<int>)

  /** `seals` counts Seal rows, revoked ones included: they are never deleted. */
  datatype Version = Version(document: nat, number: nat, sha: Hash, deletedAt: Option<int>, ready: bool,
                             seals: nat, approved: bool, inReview: bool)

  /** The rows, the document rows locked by an upload with the latest number it read, and two
      histories: the versions ever sealed or approved, the numbers ever given out. */
  datatype World = World(projects: map<nat, Project>, documents: map<nat, Document>, versions: map<nat, Version>,
                         locks: map<nat, nat>, everSealed: set<nat>, issued: map<nat, set<nat>>)

  const EMPTY := World(map[], map[], map[], map[], {}, map[])

  datatype Op =
    | NewProject(p: nat)
    | NewDocument(d: nat, p: nat)
    | Lock(d: nat)
    | Upload(v: nat, d: nat, sha: Hash)
    | Abort(d: nat)
    | Analysed(v: nat)
    | Review(v: nat, open: bool)
    | Archive(p: nat, archived: bool)
    | PlaceSeal(v: nat, approves: bool)
    | TrashVersion(v: nat, now: int)
    | TrashDocument(d: nat, now: int)
    | TrashProject(p: nat, now: int)
    | RestoreVersion(v: nat)
    | RestoreDocument(d: nat)
    | RestoreProject(p: nat)
    | PurgeVersion(v: nat, cutoff: int)
    | PurgeDocument(d: nat, cutoff: int)
    | PurgeProject(p: nat, cutoff: int)

  // ---- where a row stands ----

  predicate DocumentOf(w: World, d: nat) { d in w.documents && w.documents[d].project in w.projects }

  predicate VersionOf(w: World, v: nat) { v in w.versions && DocumentOf(w, w.versions[v].document) }

  function ProjectOf(w: World, v: nat): nat
    requires VersionOf(w, v)
  {
    w.documents[w.versions[v].document].project
  }

  /** Neither the document nor its project is in the trash. */
  predicate DocumentInUse(w: World, d: nat) {
    DocumentOf(w, d) && w.documents[d].deletedAt == None && w.projects[w.documents[d].project].deletedAt == None
  }

  predicate InUse(w: World, v: nat) {
    VersionOf(w, v) && w.versions[v].deletedAt == None && DocumentInUse(w, w.versions[v].document)
  }

  predicate Writable(w: World, p: nat) {
    p in w.projects && !w.projects[p].archived && w.projects[p].deletedAt == None
  }

  predicate Sealed(x: Version) { x.seals > 0 || x.approved }

  /** `is_draft`. */
  predicate Draft(x: Version) { !Sealed(x) && !x.inReview }

  predicate Expired(at: Option<int>, cutoff: int) { at.Some? && at.value < cutoff }

  // ---- what is checked first ----

  /** The checks of the service (and of the views before it) when the request comes in. */
  ghost predicate Guard(w: World, op: Op) {
    match op
    case NewProject(p) => p !in w.projects && p !in w.issued
    case NewDocument(d, p) => d !in w.documents && d !in w.issued && Writable(w, p)
    case Lock(d) => DocumentOf(w, d) && d !in w.locks && w.documents[d].deletedAt == None
    case Upload(v, d, sha) => d in w.documents && d in w.locks && v !in w.versions && v !in w.everSealed
                              && !SameAsLatest(w, d, w.locks[d], sha)
    case Abort(d) => d in w.locks
    case Analysed(v) => v in w.versions
    case Review(v, _) => InUse(w, v)
    case Archive(p, _) => p in w.projects
    case PlaceSeal(v, _) => InUse(w, v) && Writable(w, ProjectOf(w, v)) && w.versions[v].ready
    case TrashVersion(v, _) => InUse(w, v) && Draft(w.versions[v])
                               && w.versions[v].number == w.documents[w.versions[v].document].latest
    case TrashDocument(d, _) => DocumentInUse(w, d) && NoneSealedIn(w, d)
    case TrashProject(p, _) => p in w.projects && w.projects[p].deletedAt == None
                               && forall d :: d in w.documents && w.documents[d].project == p ==> NoneSealedIn(w, d)
    case RestoreVersion(v) =>
      VersionOf(w, v) && w.versions[v].deletedAt.Some? && DocumentInUse(w, w.versions[v].document)
                              && NoneNewer(w, w.versions[v])
    case RestoreDocument(d) => DocumentOf(w, d) && w.documents[d].deletedAt.Some?
                               && w.projects[w.documents[d].project].deletedAt == None
    case RestoreProject(p) => p in w.projects && w.projects[p].deletedAt.Some?
    case PurgeVersion(v, cutoff) => v in w.versions && Expired(w.versions[v].deletedAt, cutoff)
    case PurgeDocument(d, cutoff) => d in w.documents && Expired(w.documents[d].deletedAt, cutoff)
    case PurgeProject(p, cutoff) => p in w.projects && Expired(w.projects[p].deletedAt, cutoff)
  }

  /** The file is the one already stored as the latest version. */
  predicate SameAsLatest(w: World, d: nat, latest: nat, sha: Hash) {
    exists x :: x in w.versions && w.versions[x].document == d && w.versions[x].number == latest
                && w.versions[x].deletedAt == None && w.versions[x].sha == sha
  }

  predicate NoneNewer(w: World, x: Version) {
    forall y :: y in w.versions && w.versions[y].document == x.document && w.versions[y].number > x.number ==>
      w.versions[y].deletedAt.Some?
  }

  /** `not _has_sealed_versions`. */
  predicate NoneSealedIn(w: World, d: nat) {
    forall v :: v in w.versions && w.versions[v].document == d ==> !Sealed(w.versions[v])
  }

  // ---- what is then done, whatever happened in between ----

  function WithVersion(w: World, v: nat, x: Version): World { w.(versions := w.versions[v := x]) }

  function WithDocument(w: World, d: nat, x: Document): World { w.(documents := w.documents[d := x]) }

  /** trg_versiona_version_guard_del: a row that is not in the trash is not deleted. */
  function DeleteVersion(w: World, v: nat): World {
    if v in w.versions && w.versions[v].deletedAt.Some? then w.(versions := w.versions - {v}) else w
  }

  function VersionsIn(w: World, d: nat): set<nat> {
    set v | v in w.versions && w.versions[v].document == d
  }

  function DocumentsIn(w: World, p: nat): set<nat> {
    set d | d in w.documents && w.documents[d].project == p
  }

  function VersionsUnder(w: World, p: nat): set<nat> {
    set v | v in w.versions && w.versions[v].document in w.documents && w.documents[w.versions[v].document].project == p
  }

  /** The writes. A row that is gone is not written; a locked document row is waited for. */
  function Effect(w: World, op: Op): World {
    match op
    case NewProject(p) => w.(projects := w.projects[p := Project(false, None)])
    case NewDocument(d, p) => WithDocument(w, d, Document(p, 0, None)).(issued := w.issued[d := {}])
    case Lock(d) => if d in w.documents then w.(locks := w.locks[d := w.documents[d].latest]) else w
    case Upload(v, d, sha) =>
      if d in w.documents && d in w.locks && d in w.issued then
        var n := w.locks[d] + 1;
        WithDocument(WithVersion(w, v, Version(d, n, sha, None, false, 0, false, false)),
                     d, w.documents[d].(latest := n))
        .(locks := w.locks - {d}, issued := w.issued[d := w.issued[d] + {n}])
      else w
    case Abort(d) => w.(locks := w.locks - {d})
    case Analysed(v) => if v in w.versions then WithVersion(w, v, w.versions[v].(ready := true)) else w
    case Review(v, open) => if v in w.versions then WithVersion(w, v, w.versions[v].(inReview := open)) else w
    case Archive(p, archived) =>
      if p in w.projects then w.(projects := w.projects[p := w.projects[p].(archived := archived)]) else w
    case PlaceSeal(v, approves) =>
      if v in w.versions then
        var x := w.versions[v];
        WithVersion(w, v, x.(seals := x.seals + 1, approved := x.approved || approves))
        .(everSealed := w.everSealed + {v})
      else w
    case TrashVersion(v, now) =>
      if v in w.versions then WithVersion(w, v, w.versions[v].(deletedAt := Some(now))) else w
    case TrashDocument(d, now) =>
      if d in w.documents && d !in w.locks then WithDocument(w, d, w.documents[d].(deletedAt := Some(now))) else w
    case TrashProject(p, now) =>
      if p in w.projects then w.(projects := w.projects[p := w.projects[p].(deletedAt := Some(now))]) else w
    case RestoreVersion(v) => if v in w.versions then WithVersion(w, v, w.versions[v].(deletedAt := None)) else w
    case RestoreDocument(d) =>
      if d in w.documents && d !in w.locks then WithDocument(w, d, w.documents[d].(deletedAt := None)) else w
    case RestoreProject(p) =>
      if p in w.projects then w.(projects := w.projects[p := w.projects[p].(deletedAt := None)]) else w
    case PurgeVersion(v, _) => DeleteVersion(w, v)
    case PurgeDocument(d, _) =>
      if d in w.documents && d !in w.locks then
        w.(versions := w.versions - VersionsIn(w, d), documents := w.documents - {d})
      else w
    case PurgeProject(p, _) =>
      if p in w.projects && DocumentsIn(w, p) !! w.locks.Keys then
        w.(versions := w.versions - VersionsUnder(w, p), documents := w.documents - DocumentsIn(w, p),
           projects := w.projects - {p})
      else w
  }

  // ---- numbers: kept by every write, checked or not ----

  ghost predicate Linked(w: World) {
    && (forall d :: d in w.documents ==> w.documents[d].project in w.projects && d in w.issued)
    && (forall v :: v in w.versions ==> w.versions[v].document in w.documents)
    && (forall d :: d in w.locks ==> d in w.documents)
  }

  /** The numbers given out for a document are 1 to its latest one; an upload that holds the lock
      has read the latest one. */
  ghost predicate NumbersKept(w: World) {
    && (forall d, n :: d in w.documents && d in w.issued ==> (n in w.issued[d] <==> 1 <= n <= w.documents[d].latest))
    && (forall d :: d in w.locks && d in w.documents ==> w.locks[d] == w.documents[d].latest)
    && (forall v :: v in w.versions && w.versions[v].document in w.issued ==>
          w.versions[v].number in w.issued[w.versions[v].document])
    && (forall u, v :: u in w.versions && v in w.versions && SameNumber(w.versions[u], w.versions[v]) ==> u == v)
  }

  predicate SameNumber(x: Version, y: Version) { x.document == y.document && x.number == y.number }

  /** What the code checks about the rows an operation creates or locks, in the same transaction. */
  ghost predicate Proper(w: World, op: Op) {
    match op
    case NewProject(p) => p !in w.projects
    case NewDocument(d, p) => d !in w.documents && d !in w.issued && p in w.projects
    case Lock(d) => Guard(w, op)
    case Upload(v, d, sha) => Guard(w, op)
    case _ => true
  }

  lemma WritesStayLinked(w: World, op: Op)
    requires Linked(w) && Proper(w, op)
    ensures Linked(Effect(w, op))
  {
    if op.PurgeVersion? || op.PurgeDocument? || op.PurgeProject? {
      PurgesStayLinked(w, op);
    }
  }

  lemma PurgesStayLinked(w: World, op: Op)
    requires Linked(w) && (op.PurgeVersion? || op.PurgeDocument? || op.PurgeProject?)
    ensures Linked(Effect(w, op))
  {
  }

  /** Rows may go, and fields other than numbers may change. */
  ghost predicate NumbersFrom(w: World, m: World) {
    && m.issued == w.issued
    && (forall d :: d in m.documents ==> d in w.documents && m.documents[d].latest == w.documents[d].latest)
    && (forall d :: d in m.locks ==> d in w.locks && m.locks[d] == w.locks[d])
    && (forall v :: v in m.versions ==> v in w.versions && SameNumber(m.versions[v], w.versions[v]))
  }

  lemma NumbersStay(w: World, m: World)
    requires NumbersKept(w) && NumbersFrom(w, m)
    ensures NumbersKept(m)
  {
  }

  lemma VersionWriteKeeps(w: World, v: nat, x: Version)
    requires v in w.versions && SameNumber(x, w.versions[v])
    ensures NumbersFrom(w, WithVersion(w, v, x))
  {
  }

  lemma DocumentWriteKeeps(w: World, d: nat, x: Document)
    requires d in w.documents && x.latest == w.documents[d].latest
    ensures NumbersFrom(w, WithDocument(w, d, x))
  {
  }

  lemma PurgesKeepNumbers(w: World, op: Op)
    requires op.PurgeVersion? || op.PurgeDocument? || op.PurgeProject? || op.Abort?
    ensures NumbersFrom(w, Effect(w, op))
  {
  }

  lemma OtherWritesKeepNumbers(w: World, op: Op)
    requires !op.NewDocument? && !op.Lock? && !op.Upload?
    ensures NumbersFrom(w, Effect(w, op))
  {
    match op
    case Analysed(v) => if v in w.versions { VersionWriteKeeps(w, v, w.versions[v].(ready := true)); }
    case Review(v, open) => if v in w.versions { VersionWriteKeeps(w, v, w.versions[v].(inReview := open)); }
    case PlaceSeal(v, approves) =>
      if v in w.versions {
        var x := w.versions[v];
        VersionWriteKeeps(w, v, x.(seals := x.seals + 1, approved := x.approved || approves));
      }
    case TrashVersion(v, now) =>
      if v in w.versions { VersionWriteKeeps(w, v, w.versions[v].(deletedAt := Some(now))); }
    case RestoreVersion(v) => if v in w.versions { VersionWriteKeeps(w, v, w.versions[v].(deletedAt := None)); }
    case TrashDocument(_, _) => DocumentWritesKeepNumbers(w, op);
    case RestoreDocument(_) => DocumentWritesKeepNumbers(w, op);
    case NewProject(_) => ProjectWritesKeepNumbers(w, op);
    case Archive(_, _) => ProjectWritesKeepNumbers(w, op);
    case TrashProject(_, _) => ProjectWritesKeepNumbers(w, op);
    case RestoreProject(_) => ProjectWritesKeepNumbers(w, op);
    case _ => PurgesKeepNumbers(w, op);
  }

  lemma DocumentWritesKeepNumbers(w: World, op: Op)
    requires op.TrashDocument? || op.RestoreDocument?
    ensures NumbersFrom(w, Effect(w, op))
  {
    if op.d in w.documents {
      DocumentWriteKeeps(w, op.d, w.documents[op.d].(deletedAt := if op.TrashDocument? then Some(op.now) else None));
    }
  }

  lemma ProjectWritesKeepNumbers(w: World, op: Op)
    requires op.NewProject? || op.Archive? || op.TrashProject? || op.RestoreProject?
    ensures NumbersFrom(w, Effect(w, op))
  {
  }

  lemma UploadKeepsNumbers(w: World, op: Op)
    requires Linked(w) && NumbersKept(w) && op.Upload? && Guard(w, op)
    ensures NumbersKept(Effect(w, op))
    ensures w.locks[op.d] + 1 !in w.issued[op.d]
  {
    var m := Effect(w, op);
    forall u, v | u in m.versions && v in m.versions && SameNumber(m.versions[u], m.versions[v]) ensures u == v {
      if u != op.v && v != op.v {
        assert SameNumber(w.versions[u], w.versions[v]);
      }
    }
  }

  lemma WritesKeepNumbers(w: World, op: Op)
    requires Linked(w) && NumbersKept(w) && Proper(w, op)
    ensures NumbersKept(Effect(w, op))
  {
    if op.Upload? {
      UploadKeepsNumbers(w, op);
    } else if !op.NewDocument? && !op.Lock? {
      OtherWritesKeepNumbers(w, op);
      NumbersStay(w, Effect(w, op));
    }
  }

  /** A number once given out is not given out again, and the latest number never goes down:
      not after trash, restore or purge, and not under concurrent uploads. */
  lemma NumbersNeverReturn(w: World, op: Op, d: nat)
    requires Linked(w) && NumbersKept(w) && Proper(w, op) && d in w.documents
    ensures d in Effect(w, op).issued && w.issued[d] <= Effect(w, op).issued[d]
    ensures d in Effect(w, op).documents ==> w.documents[d].latest <= Effect(w, op).documents[d].latest
    ensures op.Upload? && op.d == d ==>
              Effect(w, op).issued[d] - w.issued[d] == {Effect(w, op).versions[op.v].number}
  {
    if op.Upload? { UploadKeepsNumbers(w, op); }
  }

  // ---- what was ever sealed or approved ----

  /** A version in the tables carries a seal or an approval exactly when it ever did. */
  ghost predicate MarksKept(w: World) {
    forall v :: v in w.versions ==> (Sealed(w.versions[v]) <==> v in w.everSealed)
  }

  /** Whatever was ever sealed or approved is there, and nothing above it is in the trash. */
  ghost predicate Protected(w: World) {
    forall v :: v in w.everSealed ==> InUse(w, v)
  }

  lemma WritesKeepMarks(w: World, op: Op)
    requires MarksKept(w) && Proper(w, op)
    ensures MarksKept(Effect(w, op))
  {
  }

  predicate NoneSealedUnder(w: World, p: nat) {
    forall v :: v in VersionsUnder(w, p) ==> !Sealed(w.versions[v])
  }

  /** What must be so at the moment of the write. */
  predicate Safe(w: World, op: Op) {
    match op
    case PlaceSeal(v, _) => v in w.versions ==> InUse(w, v)
    case TrashVersion(v, _) => v in w.versions ==> !Sealed(w.versions[v])
    case TrashDocument(d, _) => d in w.documents && d !in w.locks ==> NoneSealedIn(w, d)
    case PurgeDocument(d, _) => d in w.documents && d !in w.locks ==> NoneSealedIn(w, d)
    case TrashProject(p, _) => p in w.projects ==> NoneSealedUnder(w, p)
    case PurgeProject(p, _) => p in w.projects && DocumentsIn(w, p) !! w.locks.Keys ==> NoneSealedUnder(w, p)
    case _ => true
  }

  lemma HarmlessWrites(w: World, op: Op, v: nat)
    requires Linked(w) && Proper(w, op) && InUse(w, v)
    requires !op.TrashVersion? && !op.TrashDocument? && !op.TrashProject? && !op.PurgeDocument? && !op.PurgeProject?
    ensures InUse(Effect(w, op), v)
  {
    if op.Upload? {
      HarmlessUpload(w, op, v);
    }
  }

  lemma HarmlessUpload(w: World, op: Op, v: nat)
    requires Linked(w) && Proper(w, op) && InUse(w, v) && op.Upload?
    ensures InUse(Effect(w, op), v)
  {
  }

  /** Exactly which writes keep the promise: those whose check still holds when they happen. */
  lemma WriteSafeIff(w: World, op: Op)
    requires Linked(w) && MarksKept(w) && Protected(w) && Proper(w, op)
    ensures Protected(Effect(w, op)) <==> Safe(w, op)
  {
    match op
    case TrashVersion(v, _) => TrashVersionSafeIff(w, op);
    case TrashDocument(d, _) => DocumentSafeIff(w, op);
    case PurgeDocument(d, _) => DocumentSafeIff(w, op);
    case TrashProject(p, _) => ProjectSafeIff(w, op);
    case PurgeProject(p, _) => ProjectSafeIff(w, op);
    case _ => OtherSafeIff(w, op);
  }

  lemma OtherSafeIff(w: World, op: Op)
    requires Linked(w) && MarksKept(w) && Protected(w) && Proper(w, op)
    requires !op.TrashVersion? && !op.TrashDocument? && !op.TrashProject? && !op.PurgeDocument? && !op.PurgeProject?
    ensures Protected(Effect(w, op)) <==> Safe(w, op)
  {
    var m := Effect(w, op);
    forall v | v in w.everSealed ensures InUse(m, v) {
      HarmlessWrites(w, op, v);
    }
    if op.PlaceSeal? && op.v in w.versions {
      SealKeepsPlace(w, op);
    }
  }

  lemma SealKeepsPlace(w: World, op: Op)
    requires op.PlaceSeal? && op.v in w.versions
    ensures InUse(Effect(w, op), op.v) <==> InUse(w, op.v)
  {
  }

  lemma TrashVersionSafeIff(w: World, op: Op)
    requires Linked(w) && MarksKept(w) && Protected(w) && op.TrashVersion?
    ensures Protected(Effect(w, op)) <==> Safe(w, op)
  {
  }

  lemma DocumentSafeIff(w: World, op: Op)
    requires Linked(w) && MarksKept(w) && Protected(w) && (op.TrashDocument? || op.PurgeDocument?)
    ensures Protected(Effect(w, op)) <==> Safe(w, op)
  {
  }

  lemma ProjectSafeIff(w: World, op: Op)
    requires Linked(w) && MarksKept(w) && Protected(w) && (op.TrashProject? || op.PurgeProject?)
    ensures Protected(Effect(w, op)) <==> Safe(w, op)
  {
  }

  /** In the same state, what the services check is enough. */
  lemma GuardIsSafe(w: World, op: Op)
    requires Linked(w) && MarksKept(w) && Protected(w) && Guard(w, op)
    ensures Safe(w, op)
  {
  }

  // ---- requests that come in between ----

  /** An operation in one go, or its checks first and its writes some time later. */
  datatype Step = Now(op: Op) | Begin(op: Op) | Commit(op: Op)

  /** The tables, and the operations that have been checked and not yet written. */
  datatype State = State(world: World, begun: multiset<Op>)

  /** Operations that check and write without holding a lock in between. */
  predicate Unlocked(op: Op) {
    !op.NewProject? && !op.NewDocument? && !op.Lock? && !op.Upload?
  }

  ghost predicate Possible(s: State, step: Step) {
    match step
    case Now(op) => Guard(s.world, op) && Proper(s.world, op)
    case Begin(op) => Guard(s.world, op) && Unlocked(op)
    case Commit(op) => op in s.begun && Unlocked(op)
  }

  ghost function After(s: State, step: Step): State {
    match step
    case Now(op) => State(Effect(s.world, op), s.begun)
    case Begin(op) => State(s.world, s.begun + multiset{op})
    case Commit(op) => State(Effect(s.world, op), s.begun - multiset{op})
  }

  ghost predicate Happens(s: State, steps: seq<Step>, end: State)
    decreases |steps|
  {
    if steps == [] then s == end
    else Possible(s, steps[0]) && Happens(After(s, steps[0]), steps[1..], end)
  }

  /** Every late write still meets its check. */
  ghost predicate InTime(s: State, steps: seq<Step>)
    decreases |steps|
  {
    steps != [] ==>
      (steps[0].Commit? ==> Safe(s.world, steps[0].op)) && InTime(After(s, steps[0]), steps[1..])
  }

  ghost predicate Kept(w: World) {
    Linked(w) && NumbersKept(w) && MarksKept(w)
  }

  lemma StepKeeps(s: State, step: Step)
    requires Kept(s.world) && Possible(s, step)
    ensures Kept(After(s, step).world)
    ensures Protected(s.world) && (step.Commit? ==> Safe(s.world, step.op)) ==> Protected(After(s, step).world)
  {
    if !step.Begin? {
      WritesStayLinked(s.world, step.op);
      WritesKeepNumbers(s.world, step.op);
      WritesKeepMarks(s.world, step.op);
      if Protected(s.world) {
        WriteSafeIff(s.world, step.op);
        if step.Now? { GuardIsSafe(s.world, step.op); }
      }
    }
  }

  /** Over every interleaving the numbers are kept; and as long as every late write still meets
      its check, nothing ever sealed or approved is trashed, deleted, or under something trashed. */
  lemma {:induction false} RunKeeps(s: State, steps: seq<Step>, end: State)
    requires Kept(s.world) && Happens(s, steps, end)
    ensures Kept(end.world)
    ensures Protected(s.world) && InTime(s, steps) ==> Protected(end.world)
    decreases |steps|
  {
    if steps != [] {
      StepKeeps(s, steps[0]);
      RunKeeps(After(s, steps[0]), steps[1..], end);
    }
  }

  lemma {:induction false} OneAtATime(s: State, steps: seq<Step>)
    requires forall i :: 0 <= i < |steps| ==> steps[i].Now?
    ensures InTime(s, steps)
    decreases |steps|
  {
    if steps != [] { OneAtATime(After(s, steps[0]), steps[1..]); }
  }

  /** With one operation at a time, everything ever sealed or approved stays in use. */
  lemma SealedStayInUse(steps: seq<Step>, end: State, v: nat)
    requires Happens(State(EMPTY, multiset{}), steps, end) && (forall i :: 0 <= i < |steps| ==> steps[i].Now?)
    requires v in end.world.everSealed
    ensures InUse(end.world, v)
  {
    OneAtATime(State(EMPTY, multiset{}), steps);
    RunKeeps(State(EMPTY, multiset{}), steps, end);
  }

  /** Along any run at all, numbers given out stay given out and the latest number never goes down. */
  lemma {:induction false} NumbersOverRuns(s: State, steps: seq<Step>, end: State, d: nat)
    requires Kept(s.world) && Happens(s, steps, end) && d in s.world.documents && d in end.world.documents
    ensures d in s.world.issued && d in end.world.issued && s.world.issued[d] <= end.world.issued[d]
    ensures s.world.documents[d].latest <= end.world.documents[d].latest
    decreases |steps|
  {
    if steps != [] {
      var m := After(s, steps[0]);
      StepKeeps(s, steps[0]);
      NumbersOverStep(s, steps[0], d);
      GoneStaysGone(m, steps[1..], end, d);
      NumbersOverRuns(m, steps[1..], end, d);
    }
  }

  lemma NumbersOverStep(s: State, step: Step, d: nat)
    requires Kept(s.world) && Possible(s, step) && d in s.world.documents
    ensures var m := After(s, step).world;
            && d in s.world.issued && d in m.issued && s.world.issued[d] <= m.issued[d]
            && (d in m.documents ==> s.world.documents[d].latest <= m.documents[d].latest)
  {
    if !step.Begin? { NumbersNeverReturn(s.world, step.op, d); }
  }

  lemma NoReturn(w: World, op: Op, d: nat)
    requires d in w.issued && Proper(w, op)
    ensures d in Effect(w, op).issued
    ensures d in Effect(w, op).documents ==> d in w.documents
  {
  }

  /** A purged document does not come back: new documents get new ids. */
  lemma {:induction false} GoneStaysGone(s: State, steps: seq<Step>, end: State, d: nat)
    requires Happens(s, steps, end) && d in s.world.issued && d in end.world.documents
    ensures d in s.world.documents
    decreases |steps|
  {
    if steps != [] {
      if !steps[0].Begin? { NoReturn(s.world, steps[0].op, d); }
      GoneStaysGone(After(s, steps[0]), steps[1..], end, d);
    }
  }
}
