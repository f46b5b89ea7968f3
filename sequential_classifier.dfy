/**
 * `SequentialClassifierAnnotator`: load a sequential classifier from a jar named
 * by a configuration parameter, check that its label type suits the annotation
 * handler, and then pass the features of each instance sequence to it.
 *
 * Label types are opaque names; whether one type is assignable from another is
 * a relation given by the caller, as the Java code asks reflection for it.
 */
module SequentialClassifier {
  import opened Wrappers
  import opened Features

  /** A type argument, known only by its name. */
  datatype LabelType = LabelType(name: string)

  /** An instance of a sequence: its features and, when training, its outcome. */
  datatype Instance<O> = Instance(features: seq<Feature>, outcome: Option<O>)

  /** Why initialisation failed; each is a `ResourceInitializationException` in the source. */
  datatype InitError =
    | MissingParameter(name: string)
    | JarLoadFailure(message: string)
    | Incompatible(message: string)

  /**
   * A classifier as loaded from a jar: whether it is a Viterbi classifier, the
   * label type it declares, the label type a Viterbi classifier delegates to,
   * and its labelling of a sequence of feature lists.
   */
  class Classifier<O> {
    const isViterbi: bool
    const labelType: LabelType
    const outputLabelType: LabelType
    const classifySequence: seq<seq<Feature>> -> seq<O>

    constructor(isViterbi: bool, labelType: LabelType, outputLabelType: LabelType,
                classifySequence: seq<seq<Feature>> -> seq<O>)
      ensures this.isViterbi == isViterbi && this.labelType == labelType
      ensures this.outputLabelType == outputLabelType && this.classifySequence == classifySequence
    {
      this.isViterbi := isViterbi;
      this.labelType := labelType;
      this.outputLabelType := outputLabelType;
      this.classifySequence := classifySequence;
    }
  }

  /** The name of the parameter that gives the path of the classifier jar. */
  const ClassifierJarParam := "org.cleartk.classifier.SequentialClassifierAnnotator.PARAM_CLASSIFIER_JAR"

  function IncompatibleMessage(classifierType: LabelType, handlerType: LabelType): string {
    classifierType.name + " classifier is incompatible with " + handlerType.name + " annotation handler"
  }

  /**
   * The label-type check of `initialize`: a Viterbi classifier is always accepted;
   * any other is rejected when the handler's label type is not assignable from
   * the classifier's.
   */
  function CheckLabelTypes<O>(c: Classifier<O>, handlerType: LabelType,
                              assignable: (LabelType, LabelType) -> bool): (r: Outcome<InitError>)
    ensures r.Fail? <==> !c.isViterbi && !assignable(handlerType, c.labelType)
    ensures c.isViterbi ==> r.Pass?
    ensures r.Fail? ==> r.error == Incompatible(IncompatibleMessage(c.labelType, handlerType))
  {
    if c.isViterbi then Pass
    else if !assignable(handlerType, c.labelType) then
      Fail(Incompatible(IncompatibleMessage(c.labelType, handlerType)))
    else Pass
  }

  /** The feature lists of a sequence of instances, one per instance and in the same order. */
  function FeatureLists<O>(instances: seq<Instance<O>>): (r: seq<seq<Feature>>)
    ensures |r| == |instances|
    ensures forall i :: 0 <= i < |r| ==> r[i] == instances[i].features
  {
    if instances == [] then [] else [instances[0].features] + FeatureLists(instances[1..])
  }

  class Annotator<O> {
    /** The loaded classifier; `null` until initialisation succeeds. */
    var classifier: Classifier?<O>

    constructor()
      ensures classifier == null
    {
      classifier := null;
    }

    /**
     * `initialize`.  `config` holds the configuration parameters, `load` stands
     * for reading a classifier from a jar path (an `IOException` is a `Failure`),
     * `handlerType` is the label type of the annotation handler and `assignable`
     * the reflection check.  The classifier is stored only when it is accepted.
     */
    method Initialize(config: map<string, string>, load: string -> Result<Classifier<O>, string>,
                      handlerType: LabelType, assignable: (LabelType, LabelType) -> bool)
      returns (r: Outcome<InitError>)
      modifies this
      ensures ClassifierJarParam !in config ==> r == Fail(MissingParameter(ClassifierJarParam))
      ensures ClassifierJarParam in config && load(config[ClassifierJarParam]).Failure? ==>
                r == Fail(JarLoadFailure(load(config[ClassifierJarParam]).error))
      ensures ClassifierJarParam in config && load(config[ClassifierJarParam]).Success? ==>
                r == CheckLabelTypes(load(config[ClassifierJarParam]).value, handlerType, assignable)
      ensures r.Pass? ==> ClassifierJarParam in config && load(config[ClassifierJarParam]).Success?
                          && classifier == load(config[ClassifierJarParam]).value
      ensures r.Fail? ==> classifier == old(classifier)
    {
      if ClassifierJarParam !in config {
        return Fail(MissingParameter(ClassifierJarParam));
      }
      var jarPath := config[ClassifierJarParam];
      var loaded := load(jarPath);
      if loaded.Failure? {
        return Fail(JarLoadFailure(loaded.error));
      }
      var untypedClassifier := loaded.value;
      var classifierLabelType := untypedClassifier.labelType;
      if untypedClassifier.isViterbi {
        classifierLabelType := untypedClassifier.outputLabelType;
      } else if !assignable(handlerType, classifierLabelType) {
        return Fail(Incompatible(IncompatibleMessage(classifierLabelType, handlerType)));
      }
      classifier := untypedClassifier;
      r := Pass;
    }

    /**
     * `consumeSequence`: collect the feature list of each instance, in order, and
     * return the classifier's labels for them unchanged.
     */
    method ConsumeSequence(instances: seq<Instance<O>>) returns (labels: seq<O>)
      requires classifier != null
      ensures labels == classifier.classifySequence(FeatureLists(instances))
    {
      var instanceFeatures: seq<seq<Feature>> := [];
      for i := 0 to |instances|
        invariant |instanceFeatures| == i
        invariant forall k :: 0 <= k < i ==> instanceFeatures[k] == instances[k].features
      {
        instanceFeatures := instanceFeatures + [instances[i].features];
      }
      assert instanceFeatures == FeatureLists(instances);
      labels := classifier.classifySequence(instanceFeatures);
    }

    /** `expectsOutcomes`: this consumer labels instances and never reads their outcomes. */
    function ExpectsOutcomes(): (r: bool)
      ensures !r
    {
      false
    }
  }

  /** The check depends on the classifier only through its kind and declared label type. */
  lemma CheckIgnoresClassifierBehaviour<O>(c: Classifier<O>, d: Classifier<O>, handlerType: LabelType,
                                           assignable: (LabelType, LabelType) -> bool)
    requires c.isViterbi == d.isViterbi && c.labelType == d.labelType
    ensures CheckLabelTypes(c, handlerType, assignable) == CheckLabelTypes(d, handlerType, assignable)
  {
  }

  /** Two instance sequences with the same feature lists get the same labels, whatever their outcomes. */
  lemma OutcomesAreIgnored<O>(a: seq<Instance<O>>, b: seq<Instance<O>>)
    requires |a| == |b| && forall i :: 0 <= i < |a| ==> a[i].features == b[i].features
    ensures FeatureLists(a) == FeatureLists(b)
  {
  }
}
