/** Review windows: the stretches of a match picked for review. */
module Windows {
  import opened Evidence

  datatype Kind = DeathReview | CombatSpike | LowActivity | RotationSpike

  /** A window ID is its kind and a running number. */
  datatype WindowId = WindowId(kind: Kind, number: nat)

  datatype Window = Window(id: WindowId, kind: Kind, start: real, end: real, peak: real, round: int, score: real,
                           evidence: seq<EvidenceRef>)
}
