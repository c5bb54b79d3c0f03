/** What sections are identified and compared by. */
module Sections {
  import opened Order
  import Text

  datatype Option<T> = None | Some(value: T)

  /** A stable key; keys are compared and sorted as Python strings. */
  datatype Key = Key(text: string)

  predicate KeyLe(a: Key, b: Key) { LexLe(a.text, b.text) }

  lemma KeysTotal()
    ensures Total(KeyLe)
  {
    forall a: Key, b: Key ensures KeyLe(a, b) || KeyLe(b, a) {
      LexConnected(a.text, b.text);
    }
    forall a: Key, b: Key | KeyLe(a, b) && KeyLe(b, a) ensures a == b {
      LexAntisymmetric(a.text, b.text);
    }
    forall a: Key, b: Key, c: Key | KeyLe(a, b) && KeyLe(b, c) ensures KeyLe(a, c) {
      LexTransitive(a.text, b.text, c.text);
    }
  }

  /** The SHA-256 of a normalised text: only ever compared for equality. */
  datatype Hash = Hash(digest: int)

  datatype Heading = Heading(text: Text.Text)

  datatype Body = Body(text: Text.Text)

  datatype ChangeType = Unchanged | Modified | Added | Removed | RenamedOnly | Ambiguous | WasSplit | Merged

  /** What the resolver is told about one section. */
  datatype Change = Change(kind: ChangeType, hashFrom: Option<Hash>, hashTo: Option<Hash>)
}
