/**
 * `ClearTKComponents`: the helpers behind its descriptor factories.  A
 * descriptor's configuration is a flat array of objects, parameter names
 * alternating with their values; `combineParams` joins two such arrays and
 * `getParameterValue` reads a system property with a fallback.
 */
module ClearTKComponents {
  import opened Wrappers

  /** The configuration parameters that the Viterbi data-writer descriptor sets. */
  datatype ParamName =
    | AnnotationHandler               // SequentialInstanceConsumer.PARAM_ANNOTATION_HANDLER
    | DataWriterFactoryClass          // SequentialDataWriterAnnotator.PARAM_DATAWRITER_FACTORY_CLASS
    | OutputDirectory                 // SequentialDataWriterAnnotator.PARAM_OUTPUT_DIRECTORY
    | DelegatedDataWriterFactoryClass // ViterbiDataWriter.PARAM_DELEGATED_DATAWRITER_FACTORY_CLASS
    | OutcomeFeatureExtractors        // ViterbiDataWriter.PARAM_OUTCOME_FEATURE_EXTRACTORS
    | Other(name: string)             // any other parameter a caller passes

  /** An entry of a configuration array: a parameter name or a value. */
  datatype Param = Name(n: ParamName) | Str(s: string) | Strs(ss: seq<string>) | Flag(b: bool)

  const ViterbiDataWriterFactoryClass := "org.cleartk.classifier.viterbi.ViterbiDataWriterFactory"
  const DefaultOutcomeFeatureExtractorClass := "org.cleartk.classifier.feature.extractor.outcome.DefaultOutcomeFeatureExtractor"

  /** `System.arraycopy(src, srcPos, dest, destPos, length)` for distinct arrays. */
  method ArrayCopy(src: array<Param>, srcPos: nat, dest: array<Param>, destPos: nat, length: nat)
    requires src != dest
    requires srcPos + length <= src.Length && destPos + length <= dest.Length
    modifies dest
    ensures dest[..] == old(dest[..destPos]) + src[srcPos..srcPos + length] + old(dest[destPos + length..])
  {
    for i := 0 to length
      invariant dest[..destPos] == old(dest[..destPos])
      invariant dest[destPos..destPos + i] == src[srcPos..srcPos + i]
      invariant dest[destPos + length..] == old(dest[destPos + length..])
    {
      dest[destPos + i] := src[srcPos + i];
      assert dest[destPos..destPos + i + 1] == dest[destPos..destPos + i] + [dest[destPos + i]];
      assert src[srcPos..srcPos + i + 1] == src[srcPos..srcPos + i] + [src[srcPos + i]];
    }
    assert dest[..] == dest[..destPos] + dest[destPos..destPos + length] + dest[destPos + length..];
  }

  /**
   * `combineParams`: a new array holding `oldParams` and then `newParams`.  It has
   * no `modifies` clause, so neither argument can change.
   */
  method CombineParams(oldParams: array<Param>, newParams: array<Param>) returns (combined: array<Param>)
    ensures fresh(combined)
    ensures combined.Length == oldParams.Length + newParams.Length
    ensures combined[..oldParams.Length] == oldParams[..]
    ensures combined[oldParams.Length..] == newParams[..]
  {
    combined := new Param[oldParams.Length + newParams.Length](_ => Flag(false));
    ArrayCopy(oldParams, 0, combined, 0, oldParams.Length);
    ArrayCopy(newParams, 0, combined, oldParams.Length, newParams.Length);
    assert combined[..] == oldParams[..] + newParams[..];
  }

  /**
   * `getParameterValue`: the system property `paramName` when it is set, and
   * `defaultValue` otherwise.  The system properties are passed in.
   */
  method GetParameterValue(systemProperties: map<string, string>, paramName: string, defaultValue: string)
    returns (value: string)
    ensures paramName in systemProperties ==> value == systemProperties[paramName]
    ensures paramName !in systemProperties ==> value == defaultValue
  {
    var property: Option<string> := if paramName in systemProperties then Some(systemProperties[paramName]) else None;
    if property.None? {
      value := defaultValue;
    } else {
      value := property.value;
    }
  }

  /** The parameters `createViterbiDataWriterAnnotator` sets itself, after the caller's. */
  function ViterbiParams(handlerClass: string, delegatedFactoryClass: string, outputDir: string): (r: seq<Param>)
    ensures |r| == 10
  {
    [ Name(AnnotationHandler), Str(handlerClass),
      Name(DataWriterFactoryClass), Str(ViterbiDataWriterFactoryClass),
      Name(OutputDirectory), Str(outputDir),
      Name(DelegatedDataWriterFactoryClass), Str(delegatedFactoryClass),
      Name(OutcomeFeatureExtractors), Strs([DefaultOutcomeFeatureExtractorClass]) ]
  }

  /** Names at even positions and values at odd ones, in pairs. */
  predicate Paired(ps: seq<Param>) {
    |ps| % 2 == 0 && forall i :: 0 <= i < |ps| ==> (i % 2 == 0 <==> ps[i].Name?)
  }

  /**
   * The configuration array of `createViterbiDataWriterAnnotator`: the caller's
   * parameters, then the handler, the Viterbi data-writer factory, the output
   * directory, the delegated factory and the outcome feature extractors.
   */
  method ViterbiDataWriterConfiguration(configurationParameters: array<Param>, handlerClass: string,
                                        delegatedFactoryClass: string, outputDir: string)
    returns (params: array<Param>)
    ensures fresh(params)
    ensures params[..] == configurationParameters[..] + ViterbiParams(handlerClass, delegatedFactoryClass, outputDir)
  {
    var fixed := ViterbiParams(handlerClass, delegatedFactoryClass, outputDir);
    var newParams := new Param[|fixed|](i requires 0 <= i < |fixed| => fixed[i]);
    assert newParams[..] == fixed;
    params := CombineParams(configurationParameters, newParams);
    assert params[..] == params[..configurationParameters.Length] + params[configurationParameters.Length..];
  }

  // ---------------------------------------------------------------------------
  // Properties of the Viterbi configuration

  /** The caller's parameters come first and unchanged, so the descriptor sees them before the fixed ones. */
  lemma CallerParamsFirst(config: seq<Param>, handlerClass: string, delegatedFactoryClass: string, outputDir: string)
    ensures var ps := config + ViterbiParams(handlerClass, delegatedFactoryClass, outputDir);
            |ps| == |config| + 10 && ps[..|config|] == config
  {
  }

  /**
   * The data-writer factory is always the Viterbi one, and the outcome feature
   * extractors are exactly the default one, whatever the caller passes.
   */
  lemma FixedViterbiSettings(config: seq<Param>, handlerClass: string, delegatedFactoryClass: string, outputDir: string)
    ensures var ps := config + ViterbiParams(handlerClass, delegatedFactoryClass, outputDir);
            && ps[|config| + 2] == Name(DataWriterFactoryClass)
            && ps[|config| + 3] == Str(ViterbiDataWriterFactoryClass)
            && ps[|ps| - 2] == Name(OutcomeFeatureExtractors)
            && ps[|ps| - 1] == Strs([DefaultOutcomeFeatureExtractorClass])
  {
  }

  /** Name/value pairs from the caller stay pairs after the fixed parameters are appended. */
  lemma PairsPreserved(config: seq<Param>, handlerClass: string, delegatedFactoryClass: string, outputDir: string)
    requires Paired(config)
    ensures Paired(config + ViterbiParams(handlerClass, delegatedFactoryClass, outputDir))
  {
    var fixed := ViterbiParams(handlerClass, delegatedFactoryClass, outputDir);
    assert Paired(fixed);
    var ps := config + fixed;
    forall i | 0 <= i < |ps| ensures i % 2 == 0 <==> ps[i].Name? {
      if i >= |config| {
        assert ps[i] == fixed[i - |config|];
        assert i % 2 == (i - |config|) % 2;
      }
    }
  }
}
