/** What a seal signs and how anybody checks it: canonical_payload, canonical_bytes and verify
    of backend/reviews/services/signing.py, and verify_snapshot of scripts/verify_certificate.py. */
module Signing {
  import opened Order
  import opened Sections
  import opened CanonicalJson
  import Utf8

  type Bytes = seq<Utf8.Byte>

  /** `canonical_bytes`, the same in the signer and in the independent verifier. */
  function CanonicalBytes(j: Json): Bytes { Utf8.Encode(Canonical(j)) }

  /** Payloads share their bytes exactly when they are the same Python object. */
  lemma BytesIff(j: Json, k: Json)
    requires WellFormed(j) && WellFormed(k)
    ensures CanonicalBytes(j) == CanonicalBytes(k) <==> Meaning(j) == Meaning(k)
  {
    CanonicalIff(j, k);
    if CanonicalBytes(j) == CanonicalBytes(k) { Utf8.EncodeIsInjective(Canonical(j), Canonical(k)); }
  }

  // ---- canonical_payload ----

  datatype Covered = Covered(key: string, bodyHash: string)

  /** Python's order on (stable_key, body_hash). */
  predicate CoveredLe(a: Covered, b: Covered) {
    if a.key == b.key then LexLe(a.bodyHash, b.bodyHash) else LexLe(a.key, b.key)
  }

  lemma CoveredTotal()
    ensures Total(CoveredLe)
  {
    forall a: Covered, b: Covered ensures CoveredLe(a, b) || CoveredLe(b, a) {
      LexConnected(a.key, b.key);
      LexConnected(a.bodyHash, b.bodyHash);
    }
    forall a: Covered, b: Covered | CoveredLe(a, b) && CoveredLe(b, a) ensures a == b {
      if a.key != b.key { LexAntisymmetric(a.key, b.key); }
      LexAntisymmetric(a.bodyHash, b.bodyHash);
    }
    forall a: Covered, b: Covered, c: Covered | CoveredLe(a, b) && CoveredLe(b, c) ensures CoveredLe(a, c) {
      CoveredTransitive(a, b, c);
    }
  }

  lemma CoveredTransitive(a: Covered, b: Covered, c: Covered)
    requires CoveredLe(a, b) && CoveredLe(b, c)
    ensures CoveredLe(a, c)
  {
    if a.key == b.key == c.key {
      LexTransitive(a.bodyHash, b.bodyHash, c.bodyHash);
    } else if a.key != b.key && b.key != c.key {
      LexTransitive(a.key, b.key, c.key);
      if a.key == c.key { LexAntisymmetric(a.key, b.key); }
    }
  }

  /** Everything a seal binds. */
  datatype Facts = Facts(sealId: string, org: string, project: string, document: string, versionNumber: int,
                         versionSha256: string, reviewerId: string, reviewerEmail: string, coversAll: bool,
                         sections: seq<Covered>, configVersion: int, signedAt: string)

  /** An object with the given keys and values, in this order. */
  function FieldsOf(names: seq<string>, values: seq<Json>): Fields
    requires |names| == |values|
    decreases |names|
  {
    if names == [] then NoFields else Field(names[0], values[0], FieldsOf(names[1..], values[1..]))
  }

  function SectionFields(c: Covered): Json {
    Obj(FieldsOf(["stable_key", "body_hash"], [Str(c.key), Str(c.bodyHash)]))
  }

  function SectionItems(sections: seq<Covered>): Items {
    if sections == [] then NoItems else Item(SectionFields(sections[0]), SectionItems(sections[1..]))
  }

  function SortedSections(sections: seq<Covered>): seq<Covered> { SortSeq(sections, CoveredLe) }

  const REVIEWER_KEYS := ["id", "email", "role"]

  function ReviewerValues(f: Facts): (r: seq<Json>)
    ensures |r| == |REVIEWER_KEYS|
  {
    [Str(f.reviewerId), Str(f.reviewerEmail), Str("reviewer")]
  }

  const PAYLOAD_KEYS := ["v", "seal_id", "org", "project", "document", "version_number", "version_sha256",
                         "reviewer", "covers_all", "sections", "config_version", "signed_at"]

  function PayloadValues(f: Facts): (r: seq<Json>)
    ensures |r| == |PAYLOAD_KEYS|
  {
    [Int(1), Str(f.sealId), Str(f.org), Str(f.project), Str(f.document), Int(f.versionNumber), Str(f.versionSha256),
     ReviewerOf(f), Bool(f.coversAll),
     Arr(SectionItems(SortedSections(f.sections))), Int(f.configVersion), Str(f.signedAt)]
  }

  function CanonicalPayload(f: Facts): Json { Obj(FieldsOf(PAYLOAD_KEYS, PayloadValues(f))) }

  // ---- objects by their keys ----

  ghost predicate DifferentNames(names: seq<string>) {
    forall i, j :: 0 <= i < j < |names| ==> names[i] != names[j]
  }

  lemma {:induction false} KeysAreNames(names: seq<string>, values: seq<Json>)
    requires |names| == |values|
    ensures forall k :: k in KeysOf(FieldsOf(names, values)) <==> k in names
    decreases |names|
  {
    if names != [] {
      KeysAreNames(names[1..], values[1..]);
      assert names == [names[0]] + names[1..];
    }
  }

  lemma {:induction false} FieldsOfWellFormed(names: seq<string>, values: seq<Json>)
    requires |names| == |values| && DifferentNames(names) && forall v :: v in values ==> WellFormed(v)
    ensures FieldsWellFormed(FieldsOf(names, values))
    decreases |names|
  {
    if names != [] {
      KeysAreNames(names[1..], values[1..]);
      FieldsOfWellFormed(names[1..], values[1..]);
    }
  }

  lemma {:induction false} FieldIs(names: seq<string>, values: seq<Json>, i: nat)
    requires |names| == |values| && DifferentNames(names) && i < |names|
    ensures names[i] in FieldsMeaning(FieldsOf(names, values))
    ensures FieldsMeaning(FieldsOf(names, values))[names[i]] == Meaning(values[i])
    decreases |names|
  {
    if i > 0 { FieldIs(names[1..], values[1..], i - 1); }
  }

  lemma SameField(names: seq<string>, values: seq<Json>, others: seq<Json>, i: nat)
    requires |names| == |values| == |others| && DifferentNames(names) && i < |names|
    requires Meaning(Obj(FieldsOf(names, values))) == Meaning(Obj(FieldsOf(names, others)))
    ensures Meaning(values[i]) == Meaning(others[i])
  {
    FieldIs(names, values, i);
    FieldIs(names, others, i);
  }

  lemma PayloadNamesDiffer()
    ensures DifferentNames(PAYLOAD_KEYS)
  {
  }

  // ---- sections ----

  lemma SectionWellFormed(c: Covered)
    ensures WellFormed(SectionFields(c))
  {
    FieldsOfWellFormed(["stable_key", "body_hash"], [Str(c.key), Str(c.bodyHash)]);
  }

  lemma SectionIsBound(c: Covered, d: Covered)
    requires Meaning(SectionFields(c)) == Meaning(SectionFields(d))
    ensures c == d
  {
    var names := ["stable_key", "body_hash"];
    SameField(names, [Str(c.key), Str(c.bodyHash)], [Str(d.key), Str(d.bodyHash)], 0);
    SameField(names, [Str(c.key), Str(c.bodyHash)], [Str(d.key), Str(d.bodyHash)], 1);
  }

  lemma {:induction false} SectionsWellFormed(sections: seq<Covered>)
    ensures ItemsWellFormed(SectionItems(sections))
  {
    if sections != [] {
      SectionWellFormed(sections[0]);
      SectionsWellFormed(sections[1..]);
    }
  }

  lemma {:induction false} SectionsAreBound(a: seq<Covered>, b: seq<Covered>)
    requires ItemsMeaning(SectionItems(a)) == ItemsMeaning(SectionItems(b))
    ensures a == b
  {
    if a != [] && b != [] {
      var u, v := ItemsMeaning(SectionItems(a)), ItemsMeaning(SectionItems(b));
      assert u[0] == v[0] && u[1..] == v[1..];
      assert u[1..] == ItemsMeaning(SectionItems(a[1..])) && v[1..] == ItemsMeaning(SectionItems(b[1..]));
      SectionIsBound(a[0], b[0]);
      SectionsAreBound(a[1..], b[1..]);
      assert a == [a[0]] + a[1..] && b == [b[0]] + b[1..];
    }
  }

  // ---- what a signature binds ----

  lemma PayloadWellFormed(f: Facts)
    ensures WellFormed(CanonicalPayload(f))
  {
    PayloadNamesDiffer();
    FieldsOfWellFormed(REVIEWER_KEYS, ReviewerValues(f));
    SectionsWellFormed(SortedSections(f.sections));
    FieldsOfWellFormed(PAYLOAD_KEYS, PayloadValues(f));
  }

  /** The same facts, the sections in whatever order. */
  ghost predicate SameFacts(f: Facts, g: Facts) {
    f == g.(sections := f.sections) && multiset(f.sections) == multiset(g.sections)
  }

  /** The order in which the sections are given does not matter. */
  lemma SectionOrderDoesNotMatter(f: Facts, g: Facts)
    requires SameFacts(f, g)
    ensures CanonicalPayload(f) == CanonicalPayload(g)
  {
    CoveredTotal();
    SortForgetsOrder(f.sections, g.sections, CoveredLe);
  }

  ghost predicate SameValues(f: Facts, g: Facts) {
    forall i :: 0 <= i < |PAYLOAD_KEYS| ==> Meaning(PayloadValues(f)[i]) == Meaning(PayloadValues(g)[i])
  }

  lemma ValuesAreBound(f: Facts, g: Facts)
    requires Meaning(CanonicalPayload(f)) == Meaning(CanonicalPayload(g))
    ensures SameValues(f, g)
  {
    PayloadNamesDiffer();
    forall i | 0 <= i < |PAYLOAD_KEYS| ensures Meaning(PayloadValues(f)[i]) == Meaning(PayloadValues(g)[i]) {
      SameField(PAYLOAD_KEYS, PayloadValues(f), PayloadValues(g), i);
    }
  }

  lemma PlainFactsBound(f: Facts, g: Facts)
    requires SameValues(f, g)
    ensures f.sealId == g.sealId && f.org == g.org && f.project == g.project && f.document == g.document
    ensures f.versionNumber == g.versionNumber && f.versionSha256 == g.versionSha256
    ensures f.coversAll == g.coversAll && f.configVersion == g.configVersion && f.signedAt == g.signedAt
  {
    var x, y := PayloadValues(f), PayloadValues(g);
    assert Meaning(x[1]) == Meaning(y[1]) && Meaning(x[2]) == Meaning(y[2]) && Meaning(x[3]) == Meaning(y[3]);
    assert Meaning(x[4]) == Meaning(y[4]) && Meaning(x[5]) == Meaning(y[5]) && Meaning(x[6]) == Meaning(y[6]);
    assert Meaning(x[8]) == Meaning(y[8]) && Meaning(x[10]) == Meaning(y[10]) && Meaning(x[11]) == Meaning(y[11]);
  }

  lemma SectionFactsBound(f: Facts, g: Facts)
    requires Meaning(PayloadValues(f)[9]) == Meaning(PayloadValues(g)[9])
    ensures multiset(f.sections) == multiset(g.sections)
  {
    SectionsAreBound(SortedSections(f.sections), SortedSections(g.sections));
    SortKeeps(f.sections, CoveredLe);
    SortKeeps(g.sections, CoveredLe);
  }

  lemma PayloadIsBound(f: Facts, g: Facts)
    requires Meaning(CanonicalPayload(f)) == Meaning(CanonicalPayload(g))
    ensures SameFacts(f, g)
  {
    ValuesAreBound(f, g);
    PlainFactsBound(f, g);
    ReviewerIsBound(f, g);
    SectionFactsBound(f, g);
  }

  lemma ReviewerIsBound(f: Facts, g: Facts)
    requires Meaning(PayloadValues(f)[7]) == Meaning(PayloadValues(g)[7])
    ensures f.reviewerId == g.reviewerId && f.reviewerEmail == g.reviewerEmail
  {
    SameField(REVIEWER_KEYS, ReviewerValues(f), ReviewerValues(g), 0);
    SameField(REVIEWER_KEYS, ReviewerValues(f), ReviewerValues(g), 1);
  }

  /** The bytes signed bind every fact, and nothing but the facts: two payloads have the same
      bytes exactly when they say the same, whatever the order of their sections. */
  lemma SignatureBindsFacts(f: Facts, g: Facts)
    ensures CanonicalBytes(CanonicalPayload(f)) == CanonicalBytes(CanonicalPayload(g)) <==> SameFacts(f, g)
  {
    PayloadWellFormed(f);
    PayloadWellFormed(g);
    BytesIff(CanonicalPayload(f), CanonicalPayload(g));
    if SameFacts(f, g) {
      SectionOrderDoesNotMatter(f, g);
    } else if Meaning(CanonicalPayload(f)) == Meaning(CanonicalPayload(g)) {
      PayloadIsBound(f, g);
    }
  }

  // ---- what is found under which name ----

  /** The object says so under this name. */
  ghost predicate Says(j: Json, name: string, value: Json) {
    j.Obj? && name in FieldsMeaning(j.fields) && FieldsMeaning(j.fields)[name] == Meaning(value)
  }

  lemma SaysIts(names: seq<string>, values: seq<Json>, i: nat)
    requires |names| == |values| && DifferentNames(names) && i < |names|
    ensures Says(Obj(FieldsOf(names, values)), names[i], values[i])
  {
    FieldIs(names, values, i);
  }

  lemma SaysFact(f: Facts, i: nat, name: string, value: Json)
    requires i < |PAYLOAD_KEYS| && PAYLOAD_KEYS[i] == name && PayloadValues(f)[i] == value
    ensures Says(CanonicalPayload(f), name, value)
  {
    PayloadNamesDiffer();
    SaysIts(PAYLOAD_KEYS, PayloadValues(f), i);
  }

  lemma PayloadNames()
    ensures PAYLOAD_KEYS[0] == "v"
    ensures PAYLOAD_KEYS[1] == "seal_id"
    ensures PAYLOAD_KEYS[2] == "org"
    ensures PAYLOAD_KEYS[3] == "project"
    ensures PAYLOAD_KEYS[4] == "document"
    ensures PAYLOAD_KEYS[5] == "version_number"
    ensures PAYLOAD_KEYS[6] == "version_sha256"
    ensures PAYLOAD_KEYS[7] == "reviewer"
    ensures PAYLOAD_KEYS[8] == "covers_all"
    ensures PAYLOAD_KEYS[9] == "sections"
    ensures PAYLOAD_KEYS[10] == "config_version"
    ensures PAYLOAD_KEYS[11] == "signed_at"
  {
  }

  lemma PayloadSaysWhose(f: Facts)
    ensures Says(CanonicalPayload(f), "seal_id", Str(f.sealId))
    ensures Says(CanonicalPayload(f), "org", Str(f.org))
    ensures Says(CanonicalPayload(f), "project", Str(f.project))
  {
    PayloadNames();
    SaysFact(f, 1, "seal_id", Str(f.sealId));
    SaysFact(f, 2, "org", Str(f.org));
    SaysFact(f, 3, "project", Str(f.project));
  }

  lemma PayloadSaysWhat(f: Facts)
    ensures Says(CanonicalPayload(f), "document", Str(f.document))
    ensures Says(CanonicalPayload(f), "version_number", Int(f.versionNumber))
    ensures Says(CanonicalPayload(f), "version_sha256", Str(f.versionSha256))
  {
    PayloadNames();
    SaysFact(f, 4, "document", Str(f.document));
    SaysFact(f, 5, "version_number", Int(f.versionNumber));
    SaysFact(f, 6, "version_sha256", Str(f.versionSha256));
  }

  lemma PayloadSaysWho(f: Facts)
    ensures Says(CanonicalPayload(f), "v", Int(1))
    ensures Says(CanonicalPayload(f), "reviewer", ReviewerOf(f))
    ensures Says(CanonicalPayload(f), "covers_all", Bool(f.coversAll))
  {
    PayloadNames();
    SaysFact(f, 0, "v", Int(1));
    SaysFact(f, 7, "reviewer", ReviewerOf(f));
    SaysFact(f, 8, "covers_all", Bool(f.coversAll));
  }

  lemma PayloadSaysWhen(f: Facts)
    ensures Says(CanonicalPayload(f), "sections", Arr(SectionItems(SortedSections(f.sections))))
    ensures Says(CanonicalPayload(f), "config_version", Int(f.configVersion))
    ensures Says(CanonicalPayload(f), "signed_at", Str(f.signedAt))
  {
    PayloadNames();
    SaysFact(f, 9, "sections", Arr(SectionItems(SortedSections(f.sections))));
    SaysFact(f, 10, "config_version", Int(f.configVersion));
    SaysFact(f, 11, "signed_at", Str(f.signedAt));
  }

  /** The payload has every fact under its own name. */
  lemma PayloadSays(f: Facts)
    ensures Says(CanonicalPayload(f), "seal_id", Str(f.sealId))
    ensures Says(CanonicalPayload(f), "org", Str(f.org))
    ensures Says(CanonicalPayload(f), "project", Str(f.project))
    ensures Says(CanonicalPayload(f), "document", Str(f.document))
    ensures Says(CanonicalPayload(f), "version_number", Int(f.versionNumber))
    ensures Says(CanonicalPayload(f), "version_sha256", Str(f.versionSha256))
    ensures Says(CanonicalPayload(f), "v", Int(1))
    ensures Says(CanonicalPayload(f), "reviewer", ReviewerOf(f))
    ensures Says(CanonicalPayload(f), "covers_all", Bool(f.coversAll))
    ensures Says(CanonicalPayload(f), "sections", Arr(SectionItems(SortedSections(f.sections))))
    ensures Says(CanonicalPayload(f), "config_version", Int(f.configVersion))
    ensures Says(CanonicalPayload(f), "signed_at", Str(f.signedAt))
  {
    PayloadSaysWhose(f);
    PayloadSaysWhat(f);
    PayloadSaysWho(f);
    PayloadSaysWhen(f);
  }

  function ReviewerOf(f: Facts): Json { Obj(FieldsOf(REVIEWER_KEYS, ReviewerValues(f))) }

  lemma ReviewerSays(f: Facts)
    ensures Says(ReviewerOf(f), "id", Str(f.reviewerId)) && Says(ReviewerOf(f), "email", Str(f.reviewerEmail))
    ensures Says(ReviewerOf(f), "role", Str("reviewer"))
  {
    forall i | 0 <= i < |REVIEWER_KEYS| ensures Says(ReviewerOf(f), REVIEWER_KEYS[i], ReviewerValues(f)[i]) {
      SaysIts(REVIEWER_KEYS, ReviewerValues(f), i);
    }
    assert REVIEWER_KEYS[0] == "id" && REVIEWER_KEYS[1] == "email" && REVIEWER_KEYS[2] == "role";
  }

  function ItemAt(items: Items, i: nat): Option<Json> {
    match items
    case NoItems => None
    case Item(first, rest) => if i == 0 then Some(first) else ItemAt(rest, i - 1)
  }

  lemma {:induction false} ItemIsSection(sections: seq<Covered>, i: nat)
    ensures ItemAt(SectionItems(sections), i) == if i < |sections| then Some(SectionFields(sections[i])) else None
  {
    if sections != [] && i > 0 { ItemIsSection(sections[1..], i - 1); }
  }

  /** The sections in the order of their keys, and for one key of the hashes; none is left out. */
  lemma SectionsSorted(f: Facts)
    ensures var sections := SortedSections(f.sections);
            forall a, b :: 0 <= a < b < |sections| ==>
              (sections[a].key != sections[b].key && LexLe(sections[a].key, sections[b].key))
              || (sections[a].key == sections[b].key && LexLe(sections[a].bodyHash, sections[b].bodyHash))
    ensures multiset(SortedSections(f.sections)) == multiset(f.sections)
  {
    CoveredTotal();
    SortKeeps(f.sections, CoveredLe);
    SortSorted(f.sections, CoveredLe);
    var sections := SortedSections(f.sections);
    assert forall a, b :: 0 <= a < b < |sections| ==> CoveredLe(sections[a], sections[b]);
  }

  /** Each under `stable_key` with its `body_hash`. */
  lemma SectionsSay(sections: seq<Covered>, i: nat)
    ensures var item := ItemAt(SectionItems(sections), i);
            && (item.Some? <==> i < |sections|)
            && (item.Some? ==> Says(item.value, "stable_key", Str(sections[i].key))
                               && Says(item.value, "body_hash", Str(sections[i].bodyHash)))
  {
    ItemIsSection(sections, i);
    if i < |sections| {
      SaysIts(["stable_key", "body_hash"], [Str(sections[i].key), Str(sections[i].bodyHash)], 0);
      SaysIts(["stable_key", "body_hash"], [Str(sections[i].key), Str(sections[i].bodyHash)], 1);
    }
  }

  // ---- checking signatures ----

  /** Ed25519 verification: key, signature and message; anything it raises counts as false. */
  type Check = (string, string, Bytes) -> bool

  /** A seal in a certificate snapshot; None where the key is missing. */
  datatype SealEntry = SealEntry(reviewer: Option<string>, sealedVersion: Option<int>,
                                 signature: Option<string>, payload: Option<Json>)

  datatype Row = Row(reviewer: string, sealedVersion: Option<int>, valid: bool)

  /** The platform's own `verify`. */
  function Verify(check: Check, payload: Json, signature: string, publicKey: string): bool {
    check(publicKey, signature, CanonicalBytes(payload))
  }

  function RowFor(check: Check, publicKey: string, seal: SealEntry): Row {
    Row(if seal.reviewer.Some? then seal.reviewer.value else "?", seal.sealedVersion,
        && seal.signature.Some? && seal.payload.Some?
        && Verify(check, seal.payload.value, seal.signature.value, publicKey))
  }

  /** Who signed which version, and whether the signature checks for the bytes of the payload. */
  predicate Shows(row: Row, seal: SealEntry, check: Check, publicKey: string) {
    && row.sealedVersion == seal.sealedVersion
    && (if seal.reviewer.Some? then row.reviewer == seal.reviewer.value else row.reviewer == "?")
    && (row.valid <==> seal.signature.Some? && seal.payload.Some?
                       && check(publicKey, seal.signature.value, CanonicalBytes(seal.payload.value)))
  }

  method VerifySnapshot(check: Check, publicKey: string, seals: seq<SealEntry>) returns (results: seq<Row>)
    ensures |results| == |seals|
    ensures forall i :: 0 <= i < |seals| ==> results[i] == RowFor(check, publicKey, seals[i])
    ensures forall i :: 0 <= i < |seals| ==> Shows(results[i], seals[i], check, publicKey)
  {
    results := [];
    var i := 0;
    while i < |seals|
      invariant 0 <= i == |results| <= |seals|
      invariant forall j :: 0 <= j < i ==> results[j] == RowFor(check, publicKey, seals[j])
    {
      var seal := seals[i];
      var valid := false;
      if seal.signature.Some? && seal.payload.Some? {
        valid := check(publicKey, seal.signature.value, CanonicalBytes(seal.payload.value));
      }
      var reviewer := "?";
      if seal.reviewer.Some? { reviewer := seal.reviewer.value; }
      results := results + [Row(reviewer, seal.sealedVersion, valid)];
      i := i + 1;
    }
  }

  /** A payload that was stored and came back with its keys in another order is checked like
      the one that was signed: a seal signed by the platform is valid for anybody. */
  lemma StoredPayloadVerifies(check: Check, sign: Bytes -> string, publicKey: string, f: Facts, stored: Json,
                              entry: SealEntry)
    requires forall b :: check(publicKey, sign(b), b)
    requires WellFormed(stored) && Meaning(stored) == Meaning(CanonicalPayload(f))
    requires entry.signature == Some(sign(CanonicalBytes(CanonicalPayload(f)))) && entry.payload == Some(stored)
    ensures RowFor(check, publicKey, entry).valid
  {
    PayloadWellFormed(f);
    BytesIff(stored, CanonicalPayload(f));
  }

  /** If a signature is only good for what was signed with it, a valid row proves that the
      payload shown says exactly the signed facts. */
  lemma ValidMeansUnaltered(check: Check, publicKey: string, f: Facts, g: Facts, entry: SealEntry)
    requires entry.signature.Some?
    requires forall b :: check(publicKey, entry.signature.value, b) ==> b == CanonicalBytes(CanonicalPayload(f))
    requires entry.payload == Some(CanonicalPayload(g)) && RowFor(check, publicKey, entry).valid
    ensures SameFacts(f, g)
  {
    SignatureBindsFacts(f, g);
  }
}
