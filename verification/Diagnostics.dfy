/** Stable diagnostic codes: quantize/validation/errors.py, components/resolve.py, evaluator/errors.py,
    engine/errors.py. A diagnostic is its code, the execution path it is located at, and its subject. */
module Diagnostics {
  datatype Code =
    // structural
    | UnsupportedSchemaVersion | DuplicateNodeId | EdgeEndpointUnknownNode | SelfEdge | GraphCycle
    | DuplicateRefId | UnknownComponentRef | ComponentDirectRecursion | ComponentCycle
    | DuplicateComponentDefinition
    // semantic
    | UnknownNodeType | NodeVersionUnavailable | UnknownOutputPort | UnknownInputPort
    | RequiredInputUnconnected | IncompatiblePortTypes | InvalidParameters
    // component resolution
    | ComponentDefinitionUnavailable | ComponentDefinitionInvalid | DuplicateExposedPort | DuplicateExposedParam
    | ExposedPortTargetMissing | ExposedPortTypeIncompatible | ExposedParamTargetMissing | ExposedParamSchemaInvalid
    | UnknownComponentParam | InvalidComponentParam | AmbiguousInput
    // evaluation
    | NoVisibleSession | MissingTerminalNode | MultipleTerminalNodes | InvalidTerminalNode
    | ImplementationUnavailable | MissingRuntimeInput | NodeExecutionFailed | WrongOutputPorts | WrongOutputType
    // engine
    | MissingReconciliationPrice | InvalidReconciliationPrice | MissingOpenPrice | InvalidOrder
    | InvalidTransactionCosts | EvaluationFailed | ReconciliationFailed | MissingValuationPrice

  datatype Diagnostic = Diagnostic(code: Code, path: seq<int>, subject: int)

  /** A run-level fault about one subject. */
  function Fault(code: Code, subject: int): Diagnostic {
    Diagnostic(code, [], subject)
  }

  /** Diagnostics are reported sorted on all their fields: the report is the multiset of findings. */
  type Report = multiset<Diagnostic>

  /** What a validation layer finds, whatever order its loops find it in. */
  type Findings = set<Diagnostic>

  function Union(rs: seq<Findings>): (r: Findings)
    ensures forall d :: d in r <==> exists i :: 0 <= i < |rs| && d in rs[i]
  {
    set i, d | 0 <= i < |rs| && d in rs[i] :: d
  }

  lemma UnionSnoc(rs: seq<Findings>, i: nat)
    requires i < |rs|
    ensures Union(rs[..i + 1]) == Union(rs[..i]) + rs[i]
    ensures Union(rs[..0]) == {} && Union(rs[..|rs|]) == Union(rs)
  {
    assert rs[..|rs|] == rs;
    forall d ensures d in Union(rs[..i + 1]) <==> d in Union(rs[..i]) + rs[i] {
      if d in Union(rs[..i]) {
        var k :| 0 <= k < i && d in rs[..i][k];
        assert d in rs[..i + 1][k];
      }
      if d in rs[i] {
        assert d in rs[..i + 1][i];
      }
      if d in Union(rs[..i + 1]) {
        var k :| 0 <= k < i + 1 && d in rs[..i + 1][k];
        if k < i { assert d in rs[..i][k]; }
      }
    }
  }

  /** Nothing is found exactly when no item is at fault. */
  lemma UnionEmpty(rs: seq<Findings>)
    ensures Union(rs) == {} <==> forall i :: 0 <= i < |rs| ==> rs[i] == {}
  {
    if Union(rs) == {} {
      forall i | 0 <= i < |rs| ensures rs[i] == {} {
        assert forall d :: d in rs[i] ==> d in Union(rs);
      }
    }
  }
}
