/** The trash: purge_expired of backend/documents/services/trash_service.py, row by row under
    the delete guard of the database. */
module Trash {
  import opened Sections
  import opened Lifecycle

  datatype Counts = Counts(versions: nat, documents: nat, projects: nat)

  predicate DocumentExpired(w: World, d: nat, cutoff: int) {
    DocumentOf(w, d)
    && (Expired(w.documents[d].deletedAt, cutoff) || Expired(w.projects[w.documents[d].project].deletedAt, cutoff))
  }

  /** The version's grace time is over, or that of its document or project. */
  predicate VersionExpired(w: World, v: nat, cutoff: int) {
    VersionOf(w, v)
    && (Expired(w.versions[v].deletedAt, cutoff) || DocumentExpired(w, w.versions[v].document, cutoff))
  }

  /** Nothing ever sealed or approved is among what a purge deletes. */
  lemma SealedNeverExpires(w: World, v: nat, cutoff: int)
    requires Protected(w) && v in w.everSealed
    ensures v in w.versions && !VersionExpired(w, v, cutoff)
    ensures w.versions[v].document in w.documents && !DocumentExpired(w, w.versions[v].document, cutoff)
  {
    assert InUse(w, v);
  }

  /** What is deleted has been in the trash since before the cutoff, itself or what it hangs on. */
  lemma DeletedIff(w: World, v: nat, d: nat, cutoff: int)
    requires Linked(w)
    ensures v in ExpiredVersions(w, cutoff) <==>
            && v in w.versions
            && var x := w.versions[v];
               || (x.deletedAt.Some? && x.deletedAt.value < cutoff)
               || DeletedBefore(w, x.document, cutoff)
    ensures d in ExpiredDocuments(w, cutoff) <==> d in w.documents && DeletedBefore(w, d, cutoff)
  {
  }

  /** The document went to the trash before the cutoff, or its project did. */
  predicate DeletedBefore(w: World, d: nat, cutoff: int)
    requires d in w.documents && w.documents[d].project in w.projects
  {
    var (at, above) := (w.documents[d].deletedAt, w.projects[w.documents[d].project].deletedAt);
    (at.Some? && at.value < cutoff) || (above.Some? && above.value < cutoff)
  }

  class TrashService {
    var projects: map<nat, Project>
    var documents: map<nat, Document>
    var versions: map<nat, Version>
    var refused: nat    // deletes the database turned down

    ghost predicate Valid() reads this {
      && (forall d :: d in documents ==> documents[d].project in projects)
      && (forall v :: v in versions ==> versions[v].document in documents)
    }

    ghost function Tables(): World reads this {
      World(projects, documents, versions, map[], {}, map[])
    }

    constructor (w: World)
      requires Linked(w)
      ensures Valid() && projects == w.projects && documents == w.documents && versions == w.versions && refused == 0
    {
      projects, documents, versions, refused := w.projects, w.documents, w.versions, 0;
    }

    /** `version.delete()`: the trigger lets only rows from the trash go. */
    method Delete(v: nat)
      requires v in versions
      modifies this`versions, this`refused
      ensures old(versions)[v].deletedAt.Some? ==> versions == old(versions) - {v} && refused == old(refused)
      ensures old(versions)[v].deletedAt == None ==> versions == old(versions) && refused == old(refused) + 1
    {
      if versions[v].deletedAt == None {
        refused := refused + 1;
      } else {
        versions := versions - {v};
      }
    }

    /** Deletes rows that are all in the trash. */
    method DeleteAll(doomed: set<nat>)
      requires forall v :: v in doomed ==> v in versions && versions[v].deletedAt.Some?
      modifies this`versions, this`refused
      ensures versions == old(versions) - doomed && refused == old(refused)
    {
      var todo := doomed;
      while todo != {}
        invariant todo <= doomed && refused == old(refused)
        invariant versions == old(versions) - (doomed - todo)
      {
        var v :| v in todo;
        Delete(v);
        todo := todo - {v};
      }
    }

    /** An expired document: its versions get its own time of deletion, then all rows go. */
    method PurgeDocument(d: nat)
      requires Valid() && d in documents && documents[d].deletedAt.Some?
      modifies this
      ensures Valid() && projects == old(projects) && refused == old(refused)
      ensures versions == old(versions) - old(VersionsIn(Tables(), d)) && documents == old(documents) - {d}
    {
      ghost var was := versions;
      var doomed := set v | v in versions && versions[v].document == d;
      versions := map v | v in versions ::
        if v in doomed then versions[v].(deletedAt := documents[d].deletedAt) else versions[v];
      DeleteAll(doomed);
      assert versions == was - doomed;
      documents := documents - {d};
    }

    /** A document of an expired project: every version is sent to the trash and deleted. */
    method PurgeWithProject(d: nat, now: int)
      requires Valid() && d in documents
      modifies this
      ensures Valid() && projects == old(projects) && refused == old(refused)
      ensures versions == old(versions) - old(VersionsIn(Tables(), d)) && documents == old(documents) - {d}
    {
      ghost var was := versions;
      var doomed := set v | v in versions && versions[v].document == d;
      var todo := doomed;
      while todo != {}
        invariant todo <= doomed && refused == old(refused) && projects == old(projects) && documents == old(documents)
        invariant versions == was - (doomed - todo)
      {
        var v :| v in todo;
        versions := versions[v := versions[v].(deletedAt := Some(now))];
        Delete(v);
        todo := todo - {v};
      }
      documents := documents - {d};
    }

    method PurgeProject(p: nat, now: int)
      requires Valid() && p in projects
      modifies this
      ensures Valid() && projects == old(projects) - {p} && refused == old(refused)
      ensures documents == old(documents) - old(DocumentsIn(Tables(), p))
      ensures versions == old(versions) - old(VersionsUnder(Tables(), p))
    {
      ghost var was := Tables();
      var doomed := set d | d in documents && documents[d].project == p;
      var todo := doomed;
      while todo != {}
        invariant todo <= doomed && refused == old(refused) && projects == old(projects) && Valid()
        invariant documents == was.documents - (doomed - todo)
        invariant versions == was.versions - (set v | v in was.versions && was.versions[v].document in doomed - todo)
      {
        var d :| d in todo;
        PurgeWithProject(d, now);
        todo := todo - {d};
      }
      projects := projects - {p};
    }

    /** The second loop: documents whose own grace time is over. */
    method PurgeDocuments(doomed: set<nat>)
      requires Valid() && forall d :: d in doomed ==> d in documents && documents[d].deletedAt.Some?
      modifies this
      ensures Valid() && projects == old(projects) && refused == old(refused)
      ensures documents == old(documents) - doomed && versions == old(versions) - InAny(old(Tables()), doomed)
    {
      ghost var was := Tables();
      var todo := doomed;
      while todo != {}
        invariant todo <= doomed && refused == old(refused) && projects == was.projects && Valid()
        invariant documents == was.documents - (doomed - todo)
        invariant versions == was.versions - InAny(was, doomed - todo)
      {
        var d :| d in todo;
        PurgeDocument(d);
        todo := todo - {d};
      }
    }

    /** The third loop: projects whose own grace time is over. */
    method PurgeProjects(doomed: set<nat>, now: int)
      requires Valid() && doomed <= projects.Keys
      modifies this
      ensures Valid() && projects == old(projects) - doomed && refused == old(refused)
      ensures documents == old(documents) - DocumentsUnderAny(old(Tables()), doomed)
      ensures versions == old(versions) - UnderAny(old(Tables()), doomed)
    {
      ghost var was := Tables();
      var todo := doomed;
      while todo != {}
        invariant todo <= doomed && refused == old(refused) && Valid()
        invariant projects == was.projects - (doomed - todo)
        invariant documents == was.documents - DocumentsUnderAny(was, doomed - todo)
        invariant versions == was.versions - UnderAny(was, doomed - todo)
      {
        var p :| p in todo;
        PurgeProject(p, now);
        todo := todo - {p};
      }
    }

    /** The beat task. Every delete it issues passes the guard, exactly the rows whose grace time
        is over, or that of something above them, are gone, and nothing else has changed. */
    method PurgeExpired(cutoff: int, now: int) returns (counts: Counts)
      requires Valid()
      modifies this
      ensures Valid() && refused == old(refused)
      ensures versions == old(versions) - ExpiredVersions(old(Tables()), cutoff)
      ensures documents == old(documents) - ExpiredDocuments(old(Tables()), cutoff)
      ensures projects == old(projects) - OwnExpiredProjects(old(projects), cutoff)
      ensures counts == Counts(|OwnExpiredVersions(old(versions), cutoff)|,
                               |OwnExpiredDocuments(old(documents), cutoff)|,
                               |OwnExpiredProjects(old(projects), cutoff)|)
    {
      ghost var was := Tables();
      var first := OwnExpiredVersions(versions, cutoff);
      DeleteAll(first);
      var second := OwnExpiredDocuments(documents, cutoff);
      ghost var one := Tables();
      PurgeDocuments(second);
      var third := OwnExpiredProjects(projects, cutoff);
      ghost var two := Tables();
      PurgeProjects(third, now);
      ThreeLoops(was, one, two, cutoff);
      counts := Counts(|first|, |second|, |third|);
    }
  }

  /** What is left after the three loops is what is not expired. */
  lemma ThreeLoops(was: World, one: World, two: World, cutoff: int)
    requires forall d :: d in was.documents ==> was.documents[d].project in was.projects
    requires forall v :: v in was.versions ==> was.versions[v].document in was.documents
    requires one.versions == was.versions - OwnExpiredVersions(was.versions, cutoff) && one.documents == was.documents
    requires two.versions == one.versions - InAny(one, OwnExpiredDocuments(was.documents, cutoff))
    requires two.documents == was.documents - OwnExpiredDocuments(was.documents, cutoff)
    ensures var third := OwnExpiredProjects(was.projects, cutoff);
            && two.documents - DocumentsUnderAny(two, third) == was.documents - ExpiredDocuments(was, cutoff)
            && two.versions - UnderAny(two, third) == was.versions - ExpiredVersions(was, cutoff)
  {
    var third := OwnExpiredProjects(was.projects, cutoff);
    var documents, versions := two.documents - DocumentsUnderAny(two, third), two.versions - UnderAny(two, third);
    forall d ensures d in documents <==> d in was.documents && d !in ExpiredDocuments(was, cutoff) {
    }
    forall v ensures v in versions <==> v in was.versions && v !in ExpiredVersions(was, cutoff) {
    }
  }

  function OwnExpiredVersions(versions: map<nat, Version>, cutoff: int): set<nat> {
    set v | v in versions && Expired(versions[v].deletedAt, cutoff)
  }

  function OwnExpiredDocuments(documents: map<nat, Document>, cutoff: int): set<nat> {
    set d | d in documents && Expired(documents[d].deletedAt, cutoff)
  }

  function OwnExpiredProjects(projects: map<nat, Project>, cutoff: int): set<nat> {
    set p | p in projects && Expired(projects[p].deletedAt, cutoff)
  }

  function ExpiredVersions(w: World, cutoff: int): set<nat> {
    set v | v in w.versions && VersionExpired(w, v, cutoff)
  }

  function ExpiredDocuments(w: World, cutoff: int): set<nat> {
    set d | d in w.documents && DocumentExpired(w, d, cutoff)
  }

  function InAny(w: World, documents: set<nat>): set<nat> {
    set v | v in w.versions && w.versions[v].document in documents
  }

  function DocumentsUnderAny(w: World, projects: set<nat>): set<nat> {
    set d | d in w.documents && w.documents[d].project in projects
  }

  function UnderAny(w: World, projects: set<nat>): set<nat> {
    set v | v in w.versions && w.versions[v].document in w.documents
            && w.documents[w.versions[v].document].project in projects
  }
}
