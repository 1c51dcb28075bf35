/** Which values a port takes, and what port compatibility means for them: quantize/compatibility.py and
    quantize/runtime/values.py. */
module PortValues {
  import opened Documents
  import opened Evaluator

  /** The values an output port of the type may hand over. */
  ghost predicate Made(v: Value, t: PortType) {
    match t
    case ScalarType(kind) => v.ScalarValue? && (v.scalar.NumberScalar? <==> kind == Number) && (v.scalar.IntegerScalar? <==> kind == Integer)
    case AssetSetType => v.AssetSetValue?
    case CrossSectionType(kind) => if kind == NumberSection then v.NumbersValue? else v.BooleansValue?
    case TimeSeriesType => v.TimeSeriesValue?
    case PortfolioTargetsType => v.PortfolioTargetsValue?
  }

  /** The values an input port of the type may be handed: an integer will do for a number. */
  ghost predicate Taken(v: Value, t: PortType) {
    Made(v, t) || (t == ScalarType(Number) && v.ScalarValue? && v.scalar.IntegerScalar?)
  }

  /** A node's output is stored exactly if it is a value of the declared type. */
  lemma StorableIff(produced: Produced, t: PortType)
    ensures Storable(produced, t) <==> produced.Runtime? && Made(produced.value, t)
  {
    if produced.Runtime? {
      match produced.value
      case ScalarValue(scalar) =>
      case _ =>
    }
  }

  /** Some value of every type. */
  function Sample(t: PortType): (v: Value)
    ensures Made(v, t)
  {
    match t
    case ScalarType(Number) => ScalarValue(NumberScalar(0.0))
    case ScalarType(Integer) => ScalarValue(IntegerScalar(0))
    case ScalarType(Boolean) => ScalarValue(BooleanScalar(false))
    case AssetSetType => AssetSetValue({})
    case CrossSectionType(NumberSection) => NumbersValue({}, map[])
    case CrossSectionType(BooleanSection) => BooleansValue({}, map[])
    case TimeSeriesType => TimeSeriesValue(map[])
    case PortfolioTargetsType => PortfolioTargetsValue(map[])
  }

  /** Two ports are compatible exactly if every value the source may hand over is one the destination takes. */
  lemma CompatibleIff(source: PortType, destination: PortType)
    ensures IsCompatible(source, destination) <==> forall v :: Made(v, source) ==> Taken(v, destination)
  {
    assert Made(Sample(source), source);
  }

  /** What a compatible edge delivers from a stored output is taken at its destination. */
  lemma DeliveredIsTaken(v: Value, source: PortType, destination: PortType)
    requires Storable(Runtime(v), source)
    ensures IsCompatible(source, destination) ==> Taken(v, destination)
    ensures IsCompatible(PortTypeOf(v), destination) <==> Taken(v, destination)
  {
    StorableIff(Runtime(v), source);
    StorableIff(Runtime(v), PortTypeOf(v));
    CompatibleIff(source, destination);
    CompatibleIff(PortTypeOf(v), destination);
  }
}
