/** A run in which a seal comes between the check and the write of trashing its document: the
    sealed version ends up in the trash, and is deleted for good when that is emptied. */
module LifecycleRace {
  import opened Sections
  import opened Lifecycle

  function Upload1(sha: Hash): Version { Version(0, 1, sha, None, false, 0, false, false) }

  function Ready1(sha: Hash): Version { Version(0, 1, sha, None, true, 0, false, false) }

  function Sealed1(sha: Hash): Version { Version(0, 1, sha, None, true, 1, false, false) }

  const P0: map<nat, Project> := map[0 := Project(false, None)]

  const FRESH: map<nat, Document> := map[0 := Document(0, 0, None)]

  const USED: map<nat, Document> := map[0 := Document(0, 1, None)]

  function NoneBegun(): multiset<Op> { multiset{} }

  function Started(): State { State(World(P0, FRESH, map[], map[0 := 0], {}, map[0 := {}]), NoneBegun()) }

  function ReadyState(sha: Hash): State {
    State(World(P0, USED, map[0 := Ready1(sha)], map[], {}, map[0 := {1}]), NoneBegun())
  }

  function Checked(sha: Hash, t: int): State {
    State(ReadyState(sha).world, multiset{TrashDocument(0, t)})
  }

  function SealedInBetween(sha: Hash, t: int): State {
    State(World(P0, USED, map[0 := Sealed1(sha)], map[], {0}, map[0 := {1}]), multiset{TrashDocument(0, t)})
  }

  function Trashed(sha: Hash, t: int): State {
    State(World(P0, map[0 := Document(0, 1, Some(t))], map[0 := Sealed1(sha)], map[], {0}, map[0 := {1}]), NoneBegun())
  }

  function Purged(t: int): State { State(World(P0, map[], map[], map[], {0}, map[0 := {1}]), NoneBegun()) }

  ghost predicate Leads(s: State, step: Step, m: State) { Possible(s, step) && After(s, step) == m }

  lemma HappensFirst(s: State, step: Step, m: State, steps: seq<Step>, end: State)
    requires Leads(s, step, m) && Happens(m, steps, end)
    ensures Happens(s, [step] + steps, end)
  {
  }

  lemma ToStarted(steps: seq<Step>, end: State) returns (all: seq<Step>)
    requires Happens(Started(), steps, end)
    ensures Happens(State(EMPTY, multiset{}), all, end)
  {
    var one := State(World(P0, map[], map[], map[], {}, map[]), NoneBegun());
    var two := State(World(P0, FRESH, map[], map[], {}, map[0 := {}]), NoneBegun());
    HappensFirst(two, Now(Lock(0)), Started(), steps, end);
    all := [Now(Lock(0))] + steps;
    HappensFirst(one, Now(NewDocument(0, 0)), two, all, end);
    all := [Now(NewDocument(0, 0))] + all;
    HappensFirst(State(EMPTY, multiset{}), Now(NewProject(0)), one, all, end);
    all := [Now(NewProject(0))] + all;
  }

  lemma FirstUpload(sha: Hash)
    ensures Leads(Started(), Now(Upload(0, 0, sha)),
                  State(World(P0, USED, map[0 := Upload1(sha)], map[], {}, map[0 := {1}]), NoneBegun()))
  {
    var w := Started().world;
    assert w.locks - {0} == map[] && w.issued[0] + {1} == {1};
    assert w.issued[0 := {1}] == map[0 := {1}];
    assert w.documents[0 := Document(0, 1, None)] == USED;
  }

  lemma ToReady(sha: Hash, steps: seq<Step>, end: State) returns (all: seq<Step>)
    requires Happens(ReadyState(sha), steps, end)
    ensures Happens(Started(), all, end)
  {
    var m := State(World(P0, USED, map[0 := Upload1(sha)], map[], {}, map[0 := {1}]), NoneBegun());
    HappensFirst(m, Now(Analysed(0)), ReadyState(sha), steps, end);
    all := [Now(Analysed(0))] + steps;
    FirstUpload(sha);
    HappensFirst(Started(), Now(Upload(0, 0, sha)), m, all, end);
    all := [Now(Upload(0, 0, sha))] + all;
  }

  lemma CheckThenSeal(sha: Hash, t: int)
    ensures Leads(ReadyState(sha), Begin(TrashDocument(0, t)), Checked(sha, t))
    ensures Leads(Checked(sha, t), Now(PlaceSeal(0, false)), SealedInBetween(sha, t))
  {
  }

  /** The check was right when it was made, the seal was allowed when it was placed, the purge
      kept to its rules: and a sealed version is gone. */
  lemma SealedVersionIsLost(sha: Hash, t: int) returns (steps: seq<Step>, end: State)
    ensures Happens(State(EMPTY, multiset{}), steps, end)
    ensures 0 in end.world.everSealed && 0 !in end.world.versions
    ensures !Safe(SealedInBetween(sha, t).world, TrashDocument(0, t))
  {
    end := Purged(t);
    CheckThenSeal(sha, t);
    HappensFirst(Trashed(sha, t), Now(PurgeDocument(0, t + 1)), end, [], end);
    steps := [Now(PurgeDocument(0, t + 1))] + [];
    HappensFirst(SealedInBetween(sha, t), Commit(TrashDocument(0, t)), Trashed(sha, t), steps, end);
    steps := [Commit(TrashDocument(0, t))] + steps;
    HappensFirst(Checked(sha, t), Now(PlaceSeal(0, false)), SealedInBetween(sha, t), steps, end);
    steps := [Now(PlaceSeal(0, false))] + steps;
    HappensFirst(ReadyState(sha), Begin(TrashDocument(0, t)), Checked(sha, t), steps, end);
    steps := [Begin(TrashDocument(0, t))] + steps;
    steps := ToReady(sha, steps, end);
    steps := ToStarted(steps, end);
  }
}
