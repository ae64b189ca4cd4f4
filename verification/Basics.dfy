/** Values every part of the archive shares. */
module Basics {
  datatype Option<+T> = None | Some(value: T)

  /** A public calendar date, as its ordinal in the proleptic Gregorian calendar. */
  type Day = nat

  /** The typed metadata a recorded statement carries about the event it describes. */
  datatype Stamp = Stamp(key: string, title: string, featured: bool, order: nat, position: nat)

  /** A published statement; its provenance names the claim or value it rests on. */
  datatype Statement = Statement(text: string, root: Root, dateSpecific: bool, stamp: Option<Stamp>)

  /** What an artifact holds: a profile in canonical JSON, or bytes that are no profile. */
  datatype Payload =
    | Profile(day: Day, sections: map<Section, seq<Statement>>)
    | Bytes(text: string)

  /** content_hash, taken as injective: a digest determines the bytes it was computed from. */
  datatype Hash = Hash(preimage: Payload)

  datatype Section =
    | RecordedOnThisDate
    | TypicalDayInThisYear
    | WiderHistoricalContext
    | CuratedClaims
    | DerivedComparisons
    | WonderAndProgress
    | EvidenceNotes
    | FeaturedEvent
    | OtherSection(name: string)

  /** What a statement rests on: exactly one resolved claim or one derived value. */
  datatype Root = Resolved(id: nat) | Derived(id: nat)

  /** One immutable statement-evidence row: `/sections/{section}/{index}` and its root. */
  datatype Evidence = Evidence(section: Section, index: nat, root: Root)

  datatype Tier = ContextOnly | PartiallyEnriched | Enriched
}
