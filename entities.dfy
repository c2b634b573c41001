/** The records the back end hands to the front end: a database node with
    its identity, labels and properties, and a relationship carrying its own
    identity, type and properties together with both end nodes. */
module Entities {
  import opened Attributes

  /** `NodeObject`. Properties are a JSON object; the values are kept as
      their string form. */
  datatype NodeObject = NodeObject(identity: string, labels: seq<string>, props: Attrs)

  /** `RelationshipObject`: a relationship has exactly one type, held in
      `labels`. */
  datatype RelationshipObject = RelationshipObject(identity: string, labels: string, props: Attrs, source: NodeObject, target: NodeObject)

  /** The constants of `NodeObject.TypeLabels`: the labels that select a
      symbol. */
  const TypeLabels: seq<string> :=
    ["database", "databases", "process", "processes", "institution", "institutions", "decision", "event", "document"]

  /** The constants of `NodeObject.FunctionalLabel`. */
  const FunctionalLabels: seq<string> := ["origin", "parent", "test"]

  /** `TypeLabels.valueOf(label)` succeeds. */
  predicate IsTypeLabel(name: string) {
    name in TypeLabels
  }

  /** `FunctionalLabel.valueOf(label)` succeeds. */
  predicate IsFunctionalLabel(name: string) {
    name in FunctionalLabels
  }

  /** No label belongs to both enums. */
  lemma LabelEnumsDisjoint(name: string)
    ensures !(IsTypeLabel(name) && IsFunctionalLabel(name))
  {
  }

  /** No constant of either enum contains a colon. */
  lemma LabelsColonFree(name: string)
    requires IsTypeLabel(name) || IsFunctionalLabel(name)
    ensures ':' !in name
  {
  }
}
