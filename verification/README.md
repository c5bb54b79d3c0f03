# Versiona, modelled and proved

Versiona keeps the versions of a document, recognises the same section from one version to
the next, compares versions, and decides which signed approvals (seals) survive a new one.
This project models that logic in Dafny and proves what it promises, over every input and
every run. `dafny verify dfyconfig.toml` checks all of it.

| module | models |
|---|---|
| `Text`, `Normalise` | text as code points with their regex classes; the normalisation under every content hash |
| `Sectioning`, `SectionKeys`, `Analysis` | cutting the line stream at headings; stable keys and their suffixes; from the lines to the keys |
| `SectionStore` | which section is which in a new version: matching, renaming, retiring, under the database's uniqueness constraints |
| `Difflib`, `WordDiff`, `Comparison` | longest-matching-block diffs, the marks a reader sees, the comparison of two versions |
| `Invalidation`, `Preservation` | the resolver of seals; resolver and comparison together over any number of versions |
| `SealLedger`, `SealChain`, `SealModes` | a document's whole life as a transition system: analyses, seals, decisions, confirmations, trash, purge; the chain of records over whole runs; who decides, and when a seal is kept |
| `SealScene`, `SealPurge`, `SealLinks` | complete runs, each event allowed by the services and each analysis one that is stored: a purge that harms, chains with two links |
| `Anchors`, `AnchorOrder`, `AnchorRuns` | where observations sit in every version, versions being analysed and gone through in any order; what anchors mean, by time and by number; complete histories in which the two differ |
| `Lifecycle`, `LifecycleRace`, `LifecycleEffects`, `Trash` | projects, documents and versions under interleaved requests; number allocation under the row lock; what operations undo; the purge task |
| `CanonicalJson`, `Utf8`, `Signing` | the bytes a seal signs, the payload, and the independent verifier |
| `ListScheduling`, `Shards` | duration-balanced CI shards and their approximation bounds |
| `Masker`, `MaskerTokens`, `TagClosure` | the scanner's masking of strings, comments and regular expressions, and the grammar that determines it; tag aliases with cycles |
| `Order`, `Sections` | orders and sorting; keys, hashes and change types |

What is behind the system is a parameter here: SHA-256 values are only compared, Ed25519 is
a check and a sign function, slugify, lower() and the Unicode classes of letters are
functions, page layout decides headings as a flag on each line, and clocks are arguments.

## What turned out differently from what is written in the repository

- `normalize_text` needs two passes: `"a- b- c"` gives `"ab- c"` and then `"abc"`. Bodies are
  hashed after two, which always settle (`Normalise.TwoPassesSettle`); one settles exactly when the
  collapsed text has no chained hyphenation (`Normalise.OnePassSettlesIff`).
- `persist_analysis` refuses some analyses whose keys are all different. A section whose body
  moved under a new heading while its old heading stays in use is snapshotted twice
  (`MovedContentIsRefused`), and a heading that comes back after its section was retired meets the
  retired row's key (`ReturningKeyIsRefused`). The second also follows from throwing a draft away:
  sections it dropped stay retired until the draft is purged. `StoredIff` says exactly when an
  analysis is stored.
- Validity is described as an unbroken chain of records (`backend/reviews/models/validity.py:4-7`).
  `apply_invalidation` decides about seals placed on the preceding usable version only, so a version
  gets a record exactly if at some moment the sealed one was the last usable one before it
  (`SealChain.RecordedIff`, `SealChain.ValidIff`). With versions analysed in order and nothing taken out of
  the trash there is never a second link: with a usable version in between, a seal is not valid
  however equal the content (`SealChain.OnlyTheNextVersion`). A second link comes about when the
  version in between was out of use at the right moment: by trashing and restoring
  (`SealLinks.LinkedByRestoring`), or because its analysis finished late (`SealLinks.LinkedByALateAnalysis`).
- A false preserve is possible after a purge. Deleting a version deletes the sections created in
  it, and with them the rows of seals placed later; a seal left without rows is preserved
  whatever becomes of its content (`SealPurge.HarmfulPurge`, a complete run). `SealLedger.PurgeSafeIff` gives
  the exact condition: the promise holds after a purge and ever after if and only if no section
  that a seal in force was put on was created in the purged version. Under it, `ValidMeansSigned`
  holds for every run.
- The proposal to a coordinator needs sealed hashes to be those of the version compared from;
  otherwise a stale hash can hide behind a renamed section (`StaleHashHides`).
- The checks of `trash_document`, `trash_project`, `trash_version` and `create_seal` hold no lock until
  the write. A seal placed in between leaves a sealed version in the trash, and the purge deletes it
  (`LifecycleRace.SealedVersionIsLost`). `WriteSafeIff` says which late writes are harmless: exactly
  those whose check still holds.
- Re-anchoring goes by version numbers, but versions are analysed, and gone through after that, in
  the order in which jobs and their retries come, each as it finds the others then; one that finds
  no usable lower version is left out (`backend/engine/tasks.py:79-112`). What holds in the order of
  time need not hold by number. An orphaned anchor makes another one orphaned exactly if its version
  was analysed between that one's and the one the observation was made on (`OrphanedStaysIff`;
  `AnchorRuns.OrphanedBelow` is a history with an orphaned anchor on version 2 and none on version 3). An
  exact anchor has the place of the one before it by number exactly if that one was there first
  (`PlaceByNumberIff`; `AnchorRuns.SkippedByNumber`). Below the version an observation was made on, an anchor
  can be exact with no other to go by (`AnchorRuns.ExactWithoutSource`), and an exact one made from an
  orphaned one is there but has no boxes (`AnchorRuns.ExactAtNothing`); `PlaceOfOrigin` lists all that can be
  at the end of the way back.
- An exact anchor is over the body its place is from, whatever the bodies, if and only if every
  version in between has an exact anchor too (`AnchorOrder.ExactGoesBack`). Two histories break that:
  an observation made on a version that is no longer the newest (`LateObservationIsNotFaithful`), and
  one whose version went to the trash before the next was analysed (`TrashedFirstIsNotFaithful`).
  Where the number before is missing, or had not been analysed yet, no anchor is exact at all
  (`GapIsNeverExact`).
- Masking is meant to keep line breaks; one inside a regular expression, which can only stand
  after a backslash, is lost (`BreakLostIff`, `BreakIsLost`). Masking twice can blank more than masking
  once (`MaskingTwiceDiffers`): it does exactly when a slash that the mask left alone opens a regular
  expression in the masked text (`MaskingTwiceIff`).

## Model

| member | source | states |
|---|---|---|
| `Normalise.TwoPassesSettle` | backend/engine/services/analysis.py:58-72 | normalising a body a third time changes nothing: what is hashed is a normal form, for every text |
| `Normalise.BrokenWordsMeet` | backend/engine/services/analysis.py:67 | a hyphen between word glyphs goes with all white space after it, from left to right; anything else stays |
| `Normalise.OnePassSettlesIff` | backend/engine/services/analysis.py:63-68 | one pass is already a normal form exactly when no word glyph between two hyphenations belongs to both |
| `Normalise.OnePassIsNotEnough` | backend/engine/services/analysis.py:63-68 | for any three word glyphs, `a- b- c` needs the second pass |
| `Normalise.CollapseFirst` | backend/engine/services/analysis.py:63-68 | collapsing white space before normalising makes no difference |
| `Normalise.OnlyWordsCount` | backend/engine/services/analysis.py:63-72 | texts with the same words have the same normal form, so line breaks and spacing never reach a hash |
| `Text.SplitJoin` | backend/engine/services/comparison.py:34-45 | splitting joined words gives the words back |
| `Text.CollapseIsSplitJoin` | backend/engine/services/analysis.py:68 | collapsing and stripping is splitting and joining with single spaces |
| `Sectioning.CutIntoSections` | backend/engine/services/analysis.py:155-183 | the loop cuts the line stream into consecutive pieces, one per section: a heading and the lines up to the next, at most one preamble and that first, orders 0, 1, 2, ... |
| `Sectioning.CutIsUnique` | backend/engine/services/analysis.py:155-183 | there is only one way to cut a line stream up like that, so the previous row leaves nothing of the answer open |
| `Sectioning.LevelIff` | backend/engine/services/analysis.py:142-146 | a heading is of level 2 exactly if it starts with a number that has a dot in it and white space after it |
| `Sectioning.NothingIsLost` | backend/engine/services/analysis.py:159-183 | all boxes, and all texts that are no headings, reappear in the sections once and in document order |
| `Sectioning.PageRangesRise` | backend/engine/services/analysis.py:160-183 | if pages never go down along the lines, page ranges are well formed and follow one another |
| `Sectioning.HeadingsCounted` | backend/engine/services/analysis.py:185-187 | sections that count as real headings are exactly the heading lines |
| `Sectioning.ExtractSections` | backend/engine/services/analysis.py:149-204 | degraded exactly when fewer than two lines are headings, and then one section per page, with its text, number and title |
| `SectionKeys.NumberingGoes` | backend/engine/services/analysis.py:28 | the regular expression removes any section number, with or without a mark, and the white space after it |
| `SectionKeys.EitherMarkGoes` | backend/engine/services/analysis.py:28 | a dot or a closing parenthesis goes with the number; after any other sign the heading stays whole |
| `SectionKeys.OnlyNumberingGoes` | backend/engine/services/analysis.py:28 | whatever it removes is a number, at most one mark, and white space |
| `SectionKeys.StrippedIff` | backend/engine/services/analysis.py:28 | the expression leaves what comes after a numbering and its white space, or all if there is none |
| `SectionKeys.NormalizeNumbered` | backend/engine/services/analysis.py:78 | a number in front of words survives normalisation, with one space after it |
| `SectionKeys.CandidatesDiffer` | backend/engine/services/analysis.py:80-84 | suffixed keys are pairwise different, because decimal notation is injective |
| `SectionKeys.StableKeyFor` | backend/engine/services/analysis.py:75-86 | the key is the slug of the heading without its number, cut to 200 characters, "seccion" if empty; and if that is taken, with the least suffix from 2 on that is free |
| `SectionKeys.KeyForIff` | backend/engine/services/analysis.py:75-86 | that description fits exactly one key |
| `SectionKeys.NumberedTitle` | backend/engine/services/analysis.py:78-79 | for a numbered heading the slug is that of its words, normalised |
| `SectionKeys.DecimalDigits` | backend/engine/services/analysis.py:84 | suffixes are written with digits only and no zero in front |
| `SectionKeys.DocumentKeys` | backend/engine/services/analysis.py:250-256 | each section of a document gets that key, with the keys of the sections before it taken; the keys are pairwise different |
| `SectionKeys.DifferentSlugsStay` | backend/engine/services/analysis.py:75-86 | headings with pairwise different slugs get exactly these as keys |
| `SectionKeys.KeysDistinct` | backend/engine/services/analysis.py:75-86 | keys are pairwise different and avoid those taken before, for every document |
| `SectionKeys.RenumberingKeepsKeys` | backend/engine/services/analysis.py:75-86 | renumbering any headings leaves the whole key list unchanged |
| `SectionKeys.AppendingKeepsKeys` | backend/engine/services/analysis.py:75-86 | sections added at the end change no earlier key |
| `Analysis.RenumberingKeepsDocumentKeys` | backend/engine/services/analysis.py:149-188 | from the line stream to the keys: other numbers on heading lines, and any other words on the other lines, leave the key list of the document as it was, and whether it is cut at headings |
| `Analysis.RenumberedNormalised` | backend/engine/services/analysis.py:63-76 | headings that differ only in their number still do once normalised, as they are before their key is made |
| `SectionStore.SectionStore.PersistAnalysis` | backend/engine/services/persistence.py:14-106 | one transaction: stored exactly when acceptable, otherwise every table is as before; what is stored is the run of the payload loop followed by the retirements |
| `SectionStore.SectionStore.IndexHashes` | backend/engine/services/persistence.py:21-36 | a hash leads somewhere exactly if an alive section carried it in the latest of its versions before this one, and then to the first such section by id |
| `SectionStore.LatestIff` | backend/engine/services/persistence.py:23-35 | what the index takes as the latest earlier hash is the one of a version before this one, with no snapshot of the section in between |
| `SectionStore.SectionStore.Place` | backend/engine/services/persistence.py:39-95 | one payload: by key, by content, or new, with the row, snapshot, lineage and counters that go with it, or refused |
| `SectionStore.SectionStore.PlaceAll` | backend/engine/services/persistence.py:36-95 | the loop over the payloads, up to the first row the database refuses |
| `SectionStore.SectionStore.RetireStale` | backend/engine/services/persistence.py:97-106 | exactly the unmatched alive sections are retired, with their lineage and count |
| `SectionStore.RemovalsAre` | backend/engine/services/persistence.py:97-106 | a removal is noted for every section left, and for no other |
| `SectionStore.StoredIff` | backend/engine/services/persistence.py:39-84 | an analysis is stored if and only if no two sections clash (same key, same place, or content of the one recognised as the section named by the other's key) and none has a retired section's key |
| `SectionStore.AcceptableIff` | backend/documents/models/section.py:36-77 | acceptable means that no payload is refused on its own or with an earlier one |
| `SectionStore.AliveAfterwards` | backend/engine/services/persistence.py:39-106 | afterwards the alive sections are exactly the matched ones, one per payload, under the payloads' keys and titles; the others that were alive are retired in this version and otherwise untouched |
| `SectionStore.RetiredStays` | backend/engine/services/persistence.py:17-20 | a retired section stays exactly as it was: no analysis revives it |
| `SectionStore.TakenWereAlive` | backend/engine/services/persistence.py:17-34 | snapshots are written for sections alive before, or for new ones |
| `SectionStore.RenamedByContentOnly` | backend/engine/services/persistence.py:42-52 | a section changes its key only for a payload whose key no alive section has, and whose body hash is that of the latest earlier version with a snapshot of the section |
| `SectionStore.SameKeySameSection` | backend/engine/services/persistence.py:40-41 | a key that named an alive section leads to that very section |
| `SectionStore.WhoIsWho` | backend/engine/services/persistence.py:41-65 | every payload goes to the alive section with its key; without one, to the first alive section that carried its body last, unless an earlier payload went there; and is a new section otherwise |
| `SectionStore.CountersAddUp` | backend/engine/services/persistence.py:37-106 | same + renamed + added is the payload count; same + renamed + removed is the number alive before |
| `SectionStore.CountersCount` | backend/engine/services/persistence.py:37-95 | same counts the payloads whose key an alive section has, renamed the others taken for a section that was there, added those taken for a new one; the lineage notes each renamed and added section in turn after what was on record |
| `SectionStore.SnapsWritten` | backend/engine/services/persistence.py:67-84 | every payload has its snapshot under its section; snapshots of other versions are untouched |
| `SectionStore.KeysStayUnique` | backend/documents/models/section.py:38 | keys stay unique in a document, retired rows included |
| `SectionStore.MovedContentIsRefused` | backend/engine/services/persistence.py:40-52 | an analysis with different keys that is refused: content moved under a new heading, old heading kept |
| `SectionStore.ReturningKeyIsRefused` | backend/documents/models/section.py:38 | an analysis that is refused because its key belongs to a retired section |
| `Difflib.LongestIsLongest` | backend/engine/services/comparison.py:36 | no common stretch of the two lists is longer than the block found, and none as long comes earlier |
| `Difflib.MatchingIsDivision` | backend/engine/services/comparison.py:36 | the matching blocks are those of cutting out the first longest common stretch and going on to its left and right until nothing is in common, neighbours joined |
| `Difflib.DivisionIsUnique` | backend/engine/services/comparison.py:36 | there is only one way of cutting like that |
| `Difflib.ReplacedIsForeign` | backend/engine/services/comparison.py:37-47 | what an opcode replaces and what it puts there have no element in common |
| `Difflib.LongestIsKept` | backend/engine/services/comparison.py:36-39 | a longest common stretch of the two lists, the first of them, is one equal opcode |
| `Difflib.OpcodesAreTiling` | backend/engine/services/comparison.py:36-38 | for any two lists the opcodes run through both without gap or overlap, equal stretches are equal, and equal and changed stretches alternate |
| `Difflib.RatioRange` | backend/engine/services/comparison.py:51-55 | the unrounded similarity lies in [0, 1] and is 1 exactly for equal lists |
| `Difflib.RatioIsShareKept` | backend/engine/services/comparison.py:51-55 | the similarity is the share of the elements of both lists that the opcodes keep |
| `WordDiff.WordDiff` | backend/engine/services/comparison.py:32-48 | kept and gone words are the old text's, kept and new words the new text's, in order; no op is empty and no two neighbours are of one kind; words marked gone are not among those marked new in their place |
| `WordDiff.LongestRunIsKept` | backend/engine/services/comparison.py:32-48 | the first longest stretch of words that two texts have in common is kept in one piece |
| `WordDiff.TilingConserves` | backend/engine/services/comparison.py:37-48 | the same for any opcodes that tile the two word lists |
| `WordDiff.NothingMarkedIff` | backend/engine/services/comparison.py:32-48 | nothing is marked exactly when the texts differ in white space only |
| `Comparison.CompareSnapshots` | backend/engine/services/comparison.py:64-144 | the loops give one diff per section in order, each as specified, and the counts of the classes |
| `Comparison.AnswersCompare` | backend/engine/services/comparison.py:64-138 | the two sorted runs list the newer version and what it lost, each section once |
| `Comparison.DiffsTell` | backend/engine/services/comparison.py:75-138 | each diff has the headings of both versions and, where the bodies differ, marks that give back the words of either |
| `Comparison.DiffsInOrder` | backend/engine/services/comparison.py:72-124 | the diffs of the newer version come in its order, then those of what was removed in the order of the older one |
| `Order.SortIsStable` | backend/engine/services/comparison.py:72 | sorting leaves what is on a level in the order it had |
| `Comparison.EachSectionOnce` | backend/engine/services/comparison.py:70-138 | every key of either version gets exactly one diff, of the right class |
| `Comparison.CountsMakeUpBothVersions` | backend/engine/services/comparison.py:68-138 | each count is the size of its class, and the classes add up to the sizes of both versions |
| `Comparison.SwapMirrorsCounts` | backend/engine/services/comparison.py:58-144 | comparing the other way round swaps added and removed and nothing else |
| `Comparison.DiffsAreNumbered` | backend/engine/services/comparison.py:70-133 | when the newer version's indexes are 0..n-1, every diff's index is its place in the list |
| `Comparison.MarksConserve` | backend/engine/services/comparison.py:112-114 | the marks of a modified section give both bodies back |
| `Comparison.RenumberedHeadingsMatch` | backend/engine/services/comparison.py:24-29 | headings that differ in their number only count as the same |
| `Comparison.CutNumberIff` | backend/engine/services/comparison.py:28-29 | of a heading exactly the longest number at its start is cut, with one mark after it and the white space after both; any other heading stays whole |
| `Comparison.ChangesFromComparison` | backend/reviews/services/seal_service.py:231-255 | the change map has every section of either version, with its class and both hashes |
| `Invalidation.ResolveSealInvalidation` | backend/reviews/services/invalidation.py:62-140 | one decision per seal, in order, each the specified one |
| `Invalidation.CheckSections` | backend/reviews/services/invalidation.py:99-123 | the covered sections fall into verified and breaking ones, in key order |
| `Invalidation.ReasonOf` | backend/reviews/services/invalidation.py:143-153 | the tests on the set of kinds find a breaker that no other exceeds in gravity, and give the reason for its kind |
| `Invalidation.ReasonIff` | backend/reviews/services/invalidation.py:143-153 | which reason a decision gives: removed exactly if a covered section was removed or is unknown, else ambiguous exactly if one is ambiguous, split or merged, else modified, else renamed, else not found; unchanged exactly if preserved, and the document's own reason for a broken seal on it |
| `Invalidation.PreservedIff` | backend/reviews/services/invalidation.py:76-128 | a seal on sections is preserved exactly when each is unchanged with the signed hash, a seal on the document exactly when nothing changed |
| `Invalidation.ModeNeverPreserves` | backend/reviews/services/invalidation.py:167-193 | the preserved seals are the same in both modes; auto leaves none pending, coordinator invalidates none |
| `Invalidation.OtherSectionsDoNotMatter` | backend/reviews/services/invalidation.py:99-138 | the whole decision depends on the covered sections only |
| `Invalidation.CoveringMoreNeverSaves` | backend/reviews/services/invalidation.py:99-128 | enlarging the coverage never turns a broken seal into a preserved one |
| `Invalidation.EvidencePartitionsCoverage` | backend/reviews/services/invalidation.py:130-138 | changed and still intact sections partition the coverage |
| `Invalidation.BreakersInOrder` | backend/reviews/services/invalidation.py:101-123 | breakers are listed by key, without repeats |
| `Invalidation.EvidenceSays` | backend/reviews/services/invalidation.py:79-138 | which sections the evidence of any decision names, with which kind of change, and which hashes it certifies |
| `Invalidation.ProposalIff` | backend/reviews/services/invalidation.py:167-193 | what is decided at once is what is proposed; what waits is proposed to be kept exactly for the reason that a heading moved |
| `Invalidation.ProposedKeptIff` | backend/reviews/services/invalidation.py:143-185 | keeping is proposed exactly when some heading moved and no breaker is worse than a stale hash |
| `Invalidation.ProposedKeptMeansBodiesKept` | backend/reviews/services/invalidation.py:167-185 | with hashes of the version compared from, exactly when every covered body is hash-equal |
| `Invalidation.StaleHashHides` | backend/reviews/services/invalidation.py:143-176 | without that, keeping can be proposed over a body that differs |
| `Invalidation.ReviewersToNotify` | backend/reviews/services/invalidation.py:196-203 | exactly the reviewers with an invalidated seal, sorted, once each |
| `Invalidation.WhoIsTold` | backend/reviews/services/invalidation.py:196-203 | in auto mode exactly those with a seal not preserved; in coordinator mode nobody |
| `Preservation.SectionSealStepIff` | backend/reviews/services/invalidation.py:99-128 | over a comparison, a seal on sections is kept exactly when every covered key is in both versions with the signed hash and the same heading up to its number |
| `Preservation.DocumentSealStepIff` | backend/reviews/services/invalidation.py:79-97 | a seal on the document exactly when both versions have the same sections, bodies and headings up to numbers |
| `Preservation.ProposalForComparison` | backend/reviews/services/invalidation.py:167-176 | for a seal signed at the older version, keeping is proposed exactly when every covered section is still there with the signed body |
| `Preservation.SectionSealRun` | backend/reviews/services/invalidation.py:9-17 | over any number of versions: kept at every step means every covered section is in the last version with the signed hash, and comparing the ends directly keeps the seal too |
| `Preservation.DocumentSealRun` | backend/reviews/services/invalidation.py:79-97 | the same for a seal on the document: same key set, same hashes |
| `Preservation.ThereAndBack` | backend/reviews/models/validity.py:4-7 | the converse fails: content that changes and returns cuts the chain |
| `SealLedger.KeptStands` | backend/reviews/services/seal_service.py:258-310 | whatever the resolver keeps stands in the newer version by section, hash for hash, and for a document seal there is nothing else |
| `SealLedger.StaysSound` | backend/reviews/services/seal_service.py:38-434 | every event, any purge included, leaves the references between the tables good, so a run asks nothing but that each event is possible |
| `SealLedger.EventKeeps` | backend/reviews/services/seal_service.py:38-434 | every event, analysis and rename, seal, decision, confirmation, revocation, trash, restore and harmless purge, keeps what the promise rests on |
| `SealLedger.PurgeSafeIff` | backend/documents/models/section.py:25-34 | after a purge valid seals stand, now and along every run with harmless purges, if and only if no section that a seal in force was put on was created in the purged version |
| `SealLedger.RunKeeps` | backend/reviews/services/seal_service.py:258-339 | the same over every run whose purges take no section from under a seal in force |
| `SealLedger.ValidMeansSigned` | backend/reviews/services/seal_service.py:411-434 | over every such run from an empty document: valid at a version in use means every signed section is there with the signed body, unless a coordinator confirmed it |
| `SealLedger.TrashedVersionIsNotAsked` | backend/reviews/services/seal_service.py:425-434 | for a version in the trash the answer is that for the number before |
| `SealLedger.ApplyTwice` | backend/reviews/services/seal_service.py:299-318 | deciding again about the same version changes nothing |
| `SealLedger.DecisionStays` | backend/reviews/services/seal_service.py:299-318 | a decision that is not pending stays word for word through every event but the purge of one of its versions |
| `SealModes.DecidedHow` | backend/reviews/services/seal_service.py:274-300 | a seal that is not kept falls at once exactly if both versions have text and the newer one is in auto mode, and waits for a person otherwise |
| `SealModes.ScannedNeedsAPerson` | backend/reviews/services/seal_service.py:274-278 | over every run: between versions of which one was scanned, or in coordinator mode, no seal falls unless a coordinator said so, and none waits otherwise |
| `SealModes.KeptExactlyIf` | backend/reviews/services/seal_service.py:231-300 | a decision keeps a seal exactly if every section it is on is in both versions with the signed body and the same heading up to its number, whatever their keys have become; for a seal on the document, if no section of either version is missing or different in the other |
| `SealModes.ProposedExactlyIf` | backend/reviews/services/invalidation.py:167-185 | a coordinator is proposed to keep a waiting seal on sections exactly if every one of them is in the newer version with the signed body |
| `SealModes.SealIsPutOn` | backend/reviews/services/seal_service.py:37-91 | a seal is put on exactly the sections asked for that the version has, or on all of them, with the hashes they have there |
| `SealModes.SealFindsAll` | backend/reviews/services/seal_service.py:55-62 | none of the sections asked for is left out |
| `SealModes.OneSealInForce` | backend/reviews/services/seal_service.py:49-52 | over every run a reviewer has at most one seal in force on a version |
| `SealModes.PurgeLeaves` | backend/documents/models/section.py:21-77 | a purge takes the sections created in the version with their snapshots and seal rows, the seals on it and the records of either side, and nothing else |
| `SealModes.UploadedWithMode` | backend/documents/services/version_service.py:147-157 | a version has the mode of the configuration it was uploaded under, and is not in use yet |
| `SealModes.AnalysedAsFound` | backend/engine/services/persistence.py:108-130 | whether it has text is found out by its analysis, which puts it in use |
| `SealModes.TrashedAndRestored` | backend/documents/services/trash_service.py:34-63 | trashing takes a version out of use, and restoring it gives everything back as it was |
| `SealModes.RevokedIsInvalid` | backend/reviews/services/seal_service.py:123-145 | a revoked seal is valid nowhere, and nothing else changes |
| `SealModes.ConfirmedAsChosen` | backend/reviews/services/seal_service.py:359-408 | a confirmed record has the coordinator's choice, is marked so, and keeps what was proposed |
| `SealChain.RecordedIff` | backend/reviews/services/seal_service.py:258-318 | deciding about a version adds a record for exactly the seals in force on the last usable version before it, no other event adds one, and only a purge of either version removes one |
| `SealChain.KeptIff` | backend/reviews/services/seal_service.py:299-339 | over every run: a version counts as kept exactly when at some moment the sealed version was the last usable one before it, the seal was kept then or confirmed later, and neither was purged since |
| `SealChain.ValidIff` | backend/reviews/services/seal_service.py:411-434 | over every run: a seal is valid at a version exactly when it is not revoked and that holds of every version in use since the sealed one |
| `SealChain.OnlyTheNextVersion` | backend/reviews/services/seal_service.py:267-271 | in runs without restores, with versions analysed in order, a seal gets no record and is not valid beyond the first usable version after its own |
| `SealLinks.LinkedByRestoring` | backend/documents/services/trash_service.py:34-61 | a run of allowed events in which a seal becomes valid over two links by trash and restore |
| `SealLinks.LinkedByALateAnalysis` | backend/engine/tasks.py:87-108 | the same without trash, when the version in between is analysed after the next one |
| `SealLedger.StoredIsAnalysed` | backend/engine/services/persistence.py:14-106 | what `persist_analysis` stores is an analysis in the sense of the run |
| `SealPurge.HarmfulPurge` | backend/documents/models/section.py:25-34 | a run from an empty document, each event within the checks of the trash services and each analysis stored by `persist_analysis`, after which a seal is preserved and valid although its signed section is gone |
| `Anchors.AnchorTable.Reanchor` | backend/observations/services.py:171-227 | every observation without an anchor on the version gets the specified one, others keep theirs, and each counter counts the new anchors of its kind |
| `Anchors.AgainIsNothing` | backend/observations/services.py:197-200 | going through a version again changes nothing |
| `Anchors.StoredSucceeds` | backend/engine/services/persistence.py:17-106 | what a stored analysis does to sections: snapshots for sections alive before or new ones only, exactly those are alive afterwards, and retired ones stay so |
| `Anchors.HistoryIsGood` | backend/observations/services.py:171-227 | over every history of observations, trash, restore, stored analyses, comparisons and re-anchorings, each a step of its own and for any versions in any order: one anchor where an observation was made and one on each version gone through since, none elsewhere, each made by the rule from the snapshots and anchors there were then |
| `Anchors.LowestIsLeftOut` | backend/engine/tasks.py:84-96 | along every history, only versions with a lower analysed one are gone through |
| `AnchorOrder.ExactIs` | backend/observations/services.py:187-213 | an anchor is exact exactly if the version numbered one less had been analysed, with the same body; its place is that of the last anchor below it at that time, or the section's own |
| `AnchorOrder.GapIsNeverExact` | backend/observations/services.py:187-194 | where the version numbered one less is missing or had not been analysed yet, no anchor is exact |
| `AnchorOrder.OrphanedAt` | backend/observations/services.py:201-208 | an orphaned anchor has no boxes, and the page of the last anchor below it at that time, or page 1 |
| `AnchorOrder.OrphanedStays` | backend/observations/services.py:206-208 | once orphaned, orphaned on every version beyond it in the order of analyses, seen from the one the observation was made on, whatever their numbers: a retired section does not come back |
| `AnchorOrder.OrphanedStaysIff` | backend/observations/services.py:206-208 | whatever the sections, an orphaned anchor makes another one orphaned if and only if its version was analysed between that one's and the one the observation was made on |
| `AnchorOrder.FaithfulIff` | backend/observations/services.py:201-213 | an exact anchor covers the body its place was taken from exactly when that body is the one of the version numbered one less |
| `AnchorOrder.PlaceByNumberIff` | backend/observations/services.py:201-213 | whatever the sections, an exact anchor has the place of the one before it by number if and only if that one was there when it was made |
| `AnchorOrder.PlaceOfOrigin` | backend/observations/services.py:201-213 | an exact anchor has the place at the end of the way back: where the observation was made, the section's own place in a re-anchored one or in an exact one below, or no boxes in an orphaned one; from the version it was made on upwards, that end is there or above |
| `AnchorOrder.RootNotBetween` | backend/observations/services.py:201-208 | it ends in an orphaned one only if that was not analysed between the version and the one the observation was made on |
| `AnchorOrder.ExactGoesBack` | backend/observations/services.py:201-213 | whatever the bodies, an exact anchor is over the body it had there if and only if every version in between has an exact anchor |
| `AnchorOrder.ExactSinceMade` | backend/engine/tasks.py:79-112 | so it is above the version the observation was made on, if every version in between was gone through since, in the order of their numbers |
| `AnchorRuns.LateObservationIsNotFaithful` | backend/observations/services.py:187-213 | a history in which an observation on an older version gets an exact anchor over a changed body |
| `AnchorRuns.TrashedFirstIsNotFaithful` | backend/engine/tasks.py:96-112 | a history in which one on the newest version does, because that version was in the trash when the next was analysed |
| `AnchorRuns.OrphanedBelow` | backend/engine/tasks.py:79-112 | a history with a late analysis after which an observation is orphaned on version 2 and not on version 3 |
| `AnchorRuns.ExactWithoutSource` | backend/observations/services.py:201-213 | a history with a late analysis that makes an exact anchor below the version the observation was made on, at the section's own place |
| `AnchorRuns.SkippedByNumber` | backend/observations/services.py:201-213 | a history with a late analysis after which an exact anchor has another place than the one before it by number |
| `AnchorRuns.ExactAtNothing` | backend/observations/services.py:201-213 | a history in which the versions wait and a late one goes first, and an exact anchor has no boxes |
| `Lifecycle.NumbersNeverReturn` | backend/documents/services/version_service.py:135-174 | no write gives a number out again or lowers the latest one |
| `Lifecycle.UploadKeepsNumbers` | backend/documents/services/version_service.py:138-160 | under the lock an upload takes a number never given out |
| `Lifecycle.NumbersOverRuns` | backend/documents/services/version_service.py:135-174 | along any interleaving, with trash and purge, numbers given out stay given out and the latest never goes down |
| `Lifecycle.WriteSafeIff` | backend/documents/services/trash_service.py:34-109 | a write keeps everything ever sealed in use exactly when its check still holds at that moment |
| `Lifecycle.GuardIsSafe` | backend/documents/services/trash_service.py:22-43 | in the state they are made in, the checks are sufficient, those of the purge included |
| `Lifecycle.RunKeeps` | backend/documents/services/trash_service.py:22-161 | over every interleaving of checks and writes, numbers are kept, and sealed versions too as long as late writes meet their checks |
| `Lifecycle.SealedStayInUse` | backend/documents/services/trash_service.py:1-13 | with one operation at a time, whatever was ever sealed or approved is never trashed, deleted or under anything trashed |
| `LifecycleEffects.TrashedVersionComesBack` | backend/documents/services/trash_service.py:34-63 | trashing the latest draft takes it and nothing else out of use, and restoring it is allowed and gives everything back as it was |
| `LifecycleEffects.TrashedDocumentComesBack` | backend/documents/services/trash_service.py:66-95 | the same for a document and all its versions |
| `LifecycleEffects.TrashedProjectComesBack` | backend/documents/services/trash_service.py:98-120 | and for a project |
| `LifecycleEffects.RestoredIsNewest` | backend/documents/services/trash_service.py:46-59 | a version that may be restored is in use afterwards, as the newest in use of its document, and nothing else has changed |
| `LifecycleEffects.RestoredBringsBack` | backend/documents/services/trash_service.py:78-120 | a restored document or project brings back every version that is not in the trash itself or under anything else there |
| `LifecycleEffects.PurgeTakesExpired` | backend/documents/services/trash_service.py:137-161 | a purge takes exactly the versions under the expired row |
| `LifecycleEffects.PurgeSparesUse` | backend/documents/services/trash_service.py:137-161 | and none in use |
| `LifecycleEffects.PurgeTakesDocuments` | backend/documents/services/trash_service.py:137-161 | and exactly the documents under it |
| `LifecycleEffects.UploadedIsLatest` | backend/documents/services/version_service.py:135-174 | an uploaded file is the latest version under the next number, in use if its document is, and differs from the version numbered one less if that is not in the trash |
| `LifecycleEffects.TrashedFileMayComeBack` | backend/documents/services/version_service.py:138-147 | a file that went to the trash as the latest version may be uploaded again |
| `LifecycleEffects.LockAndAbort` | backend/documents/services/version_service.py:135-138 | while an upload holds the document no other starts, and an upload that gives up leaves everything as it was |
| `LifecycleEffects.OnlyUploadsLock` | backend/documents/services/version_service.py:135-174 | nothing but an upload takes locks or gives numbers out |
| `LifecycleEffects.SealedCannotBeTrashed` | backend/documents/services/trash_service.py:22-75 | once a version is sealed, no check lets it, its document or its project go to the trash |
| `LifecycleEffects.ReviewAndArchive` | backend/documents/services/trash_service.py:123-134 | a project takes writes exactly while it is neither archived nor trashed; a version is a draft while it is neither reviewed nor sealed |
| `LifecycleEffects.ReadOnlyProject` | backend/documents/services/version_service.py:37-48 | an archived or trashed project gets no documents |
| `LifecycleEffects.ReadOnlyVersion` | backend/reviews/services/seal_service.py:37-52 | and its versions no seals |
| `LifecycleEffects.SealedStayReady` | backend/reviews/services/seal_service.py:45-46 | nothing is ever sealed that was not analysed |
| `LifecycleRace.SealedVersionIsLost` | backend/documents/services/trash_service.py:66-75 | an interleaving in which a sealed version is trashed with its document and purged |
| `Trash.SealedNeverExpires` | backend/documents/services/trash_service.py:137-161 | nothing ever sealed or approved is among what a purge deletes |
| `Trash.DeletedIff` | backend/documents/services/trash_service.py:137-161 | what a purge deletes are the rows that went to the trash before the cutoff, themselves or with what they hang on |
| `Trash.TrashService.Delete` | backend/documents/migrations/0002_version_guard_trigger.py:60-70 | a row is deleted only if it is in the trash |
| `Trash.TrashService.PurgeDocument` | backend/documents/services/trash_service.py:145-152 | an expired document goes with exactly its versions, and the guard turns none of the deletes down |
| `Trash.TrashService.PurgeProject` | backend/documents/services/trash_service.py:153-160 | an expired project goes with exactly its documents and versions, and the guard turns none of the deletes down |
| `Trash.TrashService.PurgeExpired` | backend/documents/services/trash_service.py:137-161 | exactly the rows are gone whose grace time, or that of something above them, is over; everything else is unchanged; no delete is refused; the counts are those of each loop |
| `CanonicalJson.ReadsBack` | backend/reviews/services/signing.py:99-100 | a reader after RFC 8259 gives back every value written, whatever follows |
| `CanonicalJson.PrintIsInjective` | backend/reviews/services/signing.py:99-100 | two JSON values that differ are never written alike |
| `CanonicalJson.WrittenIsShortest` | backend/reviews/services/signing.py:99-100 | of all texts that read as the value none is shorter than the one written: no white space, and no escape that is not needed |
| `CanonicalJson.EscapedSmall` | backend/reviews/services/signing.py:99-100 | codes of control characters are written in small letters |
| `CanonicalJson.SortKeepsMeaning` | backend/reviews/services/signing.py:100 | sorting keys at every level changes the order and nothing else |
| `CanonicalJson.CanonicalIff` | backend/reviews/services/signing.py:99-100 | two payloads are written alike exactly when they are the same Python object |
| `Order.LexLeIff` | backend/reviews/services/signing.py:100 | strings are ordered by the first place where they differ |
| `Utf8.EncodeIsInjective` | backend/reviews/services/signing.py:100 | UTF-8 keeps different texts apart |
| `Signing.BytesIff` | scripts/verify_certificate.py:23-26 | payloads share their bytes exactly when they are equal up to the order of keys, so a stored and reloaded payload has the signed bytes |
| `Signing.SectionOrderDoesNotMatter` | backend/reviews/services/signing.py:90-93 | the payload does not depend on the order its sections are given in |
| `Signing.PayloadSays` | backend/reviews/services/signing.py:72-96 | the payload has every fact under its own name |
| `Signing.ReviewerSays` | backend/reviews/services/signing.py:84-88 | and the reviewer under theirs |
| `Signing.SectionsSorted` | backend/reviews/services/signing.py:90-93 | the sections come in the order of their keys, and of their hashes for one key, none left out |
| `Signing.SectionsSay` | backend/reviews/services/signing.py:90-93 | each section is there with its key and its hash under their names |
| `Signing.SignatureBindsFacts` | backend/reviews/services/signing.py:72-100 | the signed bytes are equal exactly when all facts are, sections as a multiset |
| `Signing.VerifySnapshot` | scripts/verify_certificate.py:29-48 | one row per seal, valid exactly when key, payload and signature are there and check |
| `Signing.StoredPayloadVerifies` | scripts/verify_certificate.py:29-48 | a seal signed by the platform is valid for the independent verifier after storage |
| `Signing.ValidMeansUnaltered` | backend/reviews/services/signing.py:108-117 | if a signature is good only for what was signed, a valid row proves the facts shown are the signed ones |
| `Shards.DefaultNonNegative` | scripts/ci/backend-shard-files.py:58 | durations recorded as non-negative give a non-negative stand-in, so the bounds below apply to every such record |
| `Shards.DefaultIsMedian` | scripts/ci/backend-shard-files.py:58 | a file without a recorded duration counts with the median of the recorded ones, halfway between the numbers that have at least half of them on either side; with 1 if there are none |
| `Shards.Assign` | scripts/ci/backend-shard-files.py:54-75 | the answer is the pinned placement followed by the greedy one, or the error for no shards |
| `Shards.PlacePinned` | scripts/ci/backend-shard-files.py:62-68 | the first loop puts each pinned file that is there on its own shard and keeps the loads |
| `Shards.PlaceRest` | scripts/ci/backend-shard-files.py:69-74 | the second loop puts every other file, heaviest first, on the lightest shard |
| `Shards.PlacedByWeight` | scripts/ci/backend-shard-files.py:69-71 | the files that are not pinned are placed heaviest first, by name where two weigh the same |
| `Shards.EveryFileOnce` | scripts/ci/backend-shard-files.py:54-75 | every file is in exactly one shard, once |
| `Shards.GroupsAreSorted` | scripts/ci/backend-shard-files.py:75 | each shard lists its files by name |
| `Shards.PinnedApart` | scripts/ci/backend-shard-files.py:62-66 | from two shards on, the two pinned files are apart |
| `Shards.LptGuarantee` | scripts/ci/backend-shard-files.py:54-75 | without pinned files no shard is heavier than (4/3 - 1/(3N)) times the heaviest of any other assignment |
| `Shards.PinnedGuarantee` | scripts/ci/backend-shard-files.py:54-75 | with or without them, (2 - 1/N) times |
| `Shards.Balanced` | scripts/ci/backend-shard-files.py:54-75 | from two shards on, any two shards differ by at most the heaviest file |
| `ListScheduling.LptWhole` | scripts/ci/backend-shard-files.py:69-74 | the 4/3 bound for any longest-first list schedule |
| `ListScheduling.GrahamWhole` | scripts/ci/backend-shard-files.py:69-74 | the 2 - 1/N bound for any list schedule |
| `Masker.StripForScanning` | scripts/quality/junk_detectors.py:312-370 | the index loop over the array puts out what the token-by-token definition says |
| `MaskerTokens.MaskIffTokenised` | scripts/quality/junk_detectors.py:312-370 | the masked text is the one that puts out one token after the other: strings in any of three quotes up to the first that is not escaped, both kinds of comments, regular expressions, and single characters |
| `MaskerTokens.OneToken` | scripts/quality/junk_detectors.py:312-370 | at every place there is one way to take the next token |
| `MaskerTokens.RegexCloseIff` | scripts/quality/junk_detectors.py:286-309 | what counts as a regular expression: a body of escapes, classes and other characters on one line, a slash that is in none of these, and all letters after it |
| `MaskerTokens.ExpectingIff` | scripts/quality/junk_detectors.py:252-284 | where one can start: first, or after one of 15 signs or one of 14 words |
| `MaskerTokens.SameCharacters` | scripts/quality/junk_detectors.py:272-284 | what belongs to a word, and what is white space |
| `Masker.RegexLiteralEnd` | scripts/quality/junk_detectors.py:261-309 | a slash opens a regular expression exactly where one is expected and it closes, and ends where the definition says |
| `Masker.MaskKeeps` | scripts/quality/junk_detectors.py:312-370 | same length, every place its own character or a space, and a line break goes only after a backslash |
| `Masker.BreakLostIff` | scripts/quality/junk_detectors.py:312-370 | a line break is lost exactly when it stands in a regular expression |
| `Masker.BreakIsLost` | scripts/quality/junk_detectors.py:291-295 | and that does happen |
| `Masker.MaskingTwiceIff` | scripts/quality/junk_detectors.py:261-370 | masking again changes nothing if and only if no slash left as a division has, in the masked text, an expression expected before it and a closing slash after it |
| `Masker.MaskingTwiceDiffers` | scripts/quality/junk_detectors.py:312-370 | a text for which it does change something |
| `Masker.MatchParen` | scripts/quality/junk_detectors.py:450-460 | the first place where the depth is back at zero, or -1 exactly when there is none |
| `Masker.InsideUntilMatched` | scripts/quality/junk_detectors.py:450-460 | started on an opening parenthesis, everything before the match is inside it |
| `TagClosure.VisitAll` | scripts/quality/junk_detectors.py:1014-1047 | the worklist ends on every alias graph and visits exactly the names reachable, each once, in the order in which the tags and then the visited names in their turn first mention them |
| `TagClosure.InTurnIsUnique` | scripts/quality/junk_detectors.py:1014-1047 | there is only one such order of visiting, whatever circles the aliases run in |
| `TagClosure.ResolveTagIds` | scripts/quality/junk_detectors.py:966-1051 | the ids and outcomes are exactly the literals and those of reachable names, each once, in the order in which that visit first meets them |
| `TagClosure.OnlyLocalArraysLeadOn` | scripts/quality/junk_detectors.py:966-1047 | what a name stands for, by where it is declared, and that only arrays of the same file lead on |
| `TagClosure.FirstsInOrder` | scripts/quality/junk_detectors.py:1049-1051 | removing repeats keeps the order of first occurrence |

## Left out

- PDF parsing, fonts, OCR and thumbnails: the styled line stream is the input, and whether a line is a heading is given with it.
- Unicode normalisation (NFC) is taken as done before; slugify, lower() and the truncation of titles to column widths are not looked into.
- SHA-256 and Ed25519: hashes are compared for equality only; a signature scheme is a parameter.
- `similarity` is the unrounded ratio; the rounding to four digits is not modelled, nor are the summary texts and bounding boxes of diffs.
- difflib is modelled without its junk and popularity heuristics, which the code switches off.
- `Shards`: weights and loads are reals; the rounding of floating-point sums is not modelled.
- JSON numbers other than integers, which the payload does not contain, and lone surrogates, which Python cannot encode.
- `SectionStore.PersistAnalysis`: requires that the version has no snapshots yet, as on its first analysis; running the task again on a stored analysis, thumbnails and status fields are not modelled.
- `SealLedger`: trash, restore and purge are allowed more freely than the services allow, and at any time; comparison and decision are one step; two analyses of one document at the same time are not modelled, nor are approval policies, notifications and audit rows.
- `Lifecycle`: slugs and their collisions on restore, roles and memberships are not modelled; a locked document row is waited for.
- `Trash.TrashService.PurgeExpired`: runs on its own; what other requests do in between is in `Lifecycle`.
- `Anchors`: storing an analysis, finding a version to compare with and going through the observations are three steps, each without interruption; nothing is purged, and a version is analysed once; text snippets are not carried. Versions may go to the trash and come back more freely than the services allow.
- `Masker`: what counts as a letter or digit is a parameter.
- The status machine and the replies of observations, checklists, permissions, billing, search and the other detectors: each is settled by reading one or two branches.
