/** The collapsed shape of an earned derivation edge, shared by the store and its readers. */
module EdgeTypes {
  import opened Base

  /** Independent votes counted per earning cycle are capped here. */
  const K_CAP: nat := 5

  datatype EdgeStatus = Candidate | TriggerBearing | Revoked

  datatype DirectionVerdict = Directed | Symmetric

  /** `fromPath` derives from `toPath`; instants are milliseconds. */
  datatype DerivesFromEdge = DerivesFromEdge(
    fromPath: Path,
    toPath: Path,
    strength: real,
    kSurvived: nat,
    firstObserved: int,
    lastRederived: int,
    status: EdgeStatus,
    directionVerdict: DirectionVerdict,
    observations: nat,
    contestedAt: Option<int>,
    contestReason: Option<string>)
}
