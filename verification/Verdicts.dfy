/** Verdicts, and the diagnostics the invariants report (internal/ir/verdict.go). */
module Verdicts {
  datatype Verdict = VerdictUnknown | VerdictSafe | VerdictUnsafe

  datatype RollbackVerdict =
    | RollbackUnknown
    | RollbackSafe
    | RollbackConditionallySafe
    | RollbackUnsafe

  function Dominance(v: Verdict): nat {
    match v
    case VerdictUnsafe => 2
    case VerdictUnknown => 1
    case VerdictSafe => 0
  }

  function Combine(a: Verdict, b: Verdict): Verdict {
    if Dominance(a) >= Dominance(b) then a else b
  }

  function RollbackDominance(r: RollbackVerdict): nat {
    match r
    case RollbackUnsafe => 3
    case RollbackUnknown => 2
    case RollbackConditionallySafe => 1
    case RollbackSafe => 0
  }

  function CombineRollback(a: RollbackVerdict, b: RollbackVerdict): RollbackVerdict {
    if RollbackDominance(a) >= RollbackDominance(b) then a else b
  }

  /** The verdict of a set of findings, given which kinds of finding it holds. */
  function VerdictFor(violated: bool, gapped: bool): Verdict {
    if violated then VerdictUnsafe else if gapped then VerdictUnknown else VerdictSafe
  }
}
