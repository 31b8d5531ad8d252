/** The ranked enumerations. */
module Lattices {

  datatype Confidence = UnknownConfidence | Low | Medium | High

  function ConfidenceRank(c: Confidence): nat {
    match c
    case UnknownConfidence => 0
    case Low => 1
    case Medium => 2
    case High => 3
  }

  function Weaker(x: Confidence, y: Confidence): Confidence {
    if ConfidenceRank(y) < ConfidenceRank(x) then y else x
  }

  datatype GateResult = Pass | Warn | RequireApproval | Block | Error

  function ResultRank(r: GateResult): nat {
    match r
    case Pass => 0
    case Warn => 1
    case RequireApproval => 2
    case Block => 3
    case Error => 4
  }

  datatype PolicyAction = WarnAction | RequireApprovalAction | BlockAction

  function ToResult(a: PolicyAction): GateResult {
    match a
    case WarnAction => Warn
    case RequireApprovalAction => RequireApproval
    case BlockAction => Block
  }

  datatype EstimateType =
    | Fixed | UsageBased | CommitmentBased | Tiered | FreeTierDependent | DataTransfer | UnknownEstimate

  datatype CostCategory = FixedCost | UsageCost | UnknownCost

  function Category(t: EstimateType): CostCategory {
    match t
    case Fixed => FixedCost
    case CommitmentBased => FixedCost
    case UsageBased => UsageCost
    case Tiered => UsageCost
    case FreeTierDependent => UsageCost
    case DataTransfer => UsageCost
    case UnknownEstimate => UnknownCost
  }
}
