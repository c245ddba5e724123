/** The Option datatype used for "no value yet" and for lookups that may fail. */
module Wrappers {
  datatype Option<T> = None | Some(value: T)
}

/** The records the optimizer works on: an artifact and its secondary stats. */
module Artifacts {
  /** One secondary stat of an artifact: a key such as "atk" and its numeric value. */
  datatype Substat = Substat(key: string, value: real)

  /** An artifact as loaded from one line of the catalogue. Only `substats`
      takes part in scoring; `slotKey` decides which pool it goes to. */
  datatype Artifact = Artifact(
    setKey: string,
    slotKey: string,
    rarity: int,
    level: int,
    mainStatKey: string,
    substats: seq<Substat>)

  /** One candidate pool per slot, in slot order. */
  type Pools = seq<seq<Artifact>>
}
