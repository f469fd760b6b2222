/**
 * GrailsMicronautBeanProcessor: starts a Micronaut context that reads the Grails configuration
 * through the property translation, then registers in Spring one definition per named supplier,
 * backed by the Micronaut bean the supplier finds.
 */
module GrailsProcessor {
  import opened Wrappers
  import opened Micronaut
  import opened LinkedMaps
  import opened Suppliers
  import opened Registration
  import opened PropertyTranslation

  /**
   * One pass of the loop body for `name`: a class-loading error is recorded, any other
   * exception of the supplier aborts, an empty result aborts, and a found bean is registered
   * with its own type and singleton flag and no qualifier.
   */
  function SupplierStep(name: string, supplier: BeanSupplier, context: MicronautContext): (s: Step)
    ensures var found := Apply(supplier, context);
            && (s.Skip? <==> found.Err? && found.error.ClassNotFound?)
            && (s.Skip? ==> s.className == found.error.className)
            && (found.Err? && !found.error.ClassNotFound? ==> s == Abort(found.error))
            && (s == Abort(NoCandidate) <==> found == Ok(None) || found == Err(NoCandidate))
            && (s.Register? <==> found.Ok? && found.value.Some?)
            && (s.Register? ==> s.name == name && s.definition.beanType == found.value.value.beanType
                                && s.definition.qualifier.None? && s.definition.singleton == found.value.value.singleton)
  {
    match Apply(supplier, context)
    case Err(ClassNotFound(c)) => Skip(c)
    case Err(e) => Abort(e)
    case Ok(None) => Abort(NoCandidate)
    case Ok(Some(definition)) => Register(name, BeanRegistration(definition.beanType, None, definition.singleton))
  }

  /**
   * The cardinality rule seen through the processor: a supplier built by `addByName` or
   * `addByQualifiers` registers its bean iff exactly one bean matches its qualifier, and aborts
   * with too many candidates or no candidate otherwise.
   */
  lemma UntypedSupplierStep(name: string, qualifier: Qualifier, context: MicronautContext)
    requires context.getBeanDefinitions(WithQualifier(Some(qualifier))).Ok?
    ensures var candidates := context.getBeanDefinitions(WithQualifier(Some(qualifier))).value;
            var s := SupplierStep(name, UntypedBeanSupplier(qualifier), context);
            && (s.Register? <==> |candidates| == 1)
            && (s == Abort(TooManyCandidates) <==> |candidates| > 1)
            && (s == Abort(NoCandidate) <==> |candidates| == 0)
            && (s.Register? ==> s.name == name && s.definition.beanType == candidates[0].beanType
                                && s.definition.singleton == candidates[0].singleton)
  {
    var candidates := context.getBeanDefinitions(WithQualifier(Some(qualifier))).value;
    if |candidates| == 1 {
      assert candidates[0] in candidates;
    }
  }

  /**
   * The same rule for the suppliers built by `addByType`, `addByQualifiers` with one type and
   * `add`: the bean is registered iff Micronaut finds one, and a lookup that finds nothing
   * aborts with no candidate.
   */
  lemma SupplierStepCardinality(name: string, supplier: BeanSupplier, context: MicronautContext)
    requires supplier.TypedBeanSupplier? || supplier.BeanByTypeSupplier?
    ensures var query := if supplier.TypedBeanSupplier? then OfTypeWithQualifier(supplier.beanType, Some(supplier.qualifier))
                         else OfType(supplier.beanType);
            var s := SupplierStep(name, supplier, context);
            && (s.Register? <==> context.findBeanDefinition(query).Ok? && context.findBeanDefinition(query).value.Some?)
            && (context.findBeanDefinition(query) == Ok(None) ==> s == Abort(NoCandidate))
            && (s.Skip? <==> context.findBeanDefinition(query).Err? && context.findBeanDefinition(query).error.ClassNotFound?)
  {
  }

  /** The fate of every supplier, in the map's iteration order. */
  function SupplierSteps(suppliers: LinkedMap<string, BeanSupplier>, context: MicronautContext): seq<Step>
    requires forall k :: k in suppliers.keys ==> k in suppliers.values
  {
    LoopSteps(suppliers, (name, supplier) => SupplierStep(name, supplier, context))
  }

  /** The i-th step is the fate of the i-th supplier. */
  lemma SupplierStepsAt(suppliers: LinkedMap<string, BeanSupplier>, context: MicronautContext, i: nat)
    requires forall k :: k in suppliers.keys ==> k in suppliers.values
    requires i < |suppliers.keys|
    ensures |SupplierSteps(suppliers, context)| == |suppliers.keys|
    ensures SupplierSteps(suppliers, context)[i] == SupplierStep(suppliers.keys[i], suppliers.values[suppliers.keys[i]], context)
  {
    LoopStepsAt(suppliers, (name, supplier) => SupplierStep(name, supplier, context), i);
  }

  /**
   * The processor. The Micronaut context it creates is built by `newContext` from the Spring
   * environment and the customizers; `contextRunning` says whether it was started and not yet
   * closed.
   */
  class GrailsMicronautBeanProcessor<V> {
    const suppliers: LinkedMap<string, BeanSupplier>
    const customizers: seq<Customizer>
    var environment: Option<SpringEnvironment<V>>
    var micronautContext: Option<MicronautContext>
    var contextRunning: bool

    constructor (suppliers: LinkedMap<string, BeanSupplier>, customizers: seq<Customizer>)
      ensures this.suppliers == suppliers && this.customizers == customizers
      ensures environment.None? && micronautContext.None? && !contextRunning
    {
      this.suppliers := suppliers;
      this.customizers := customizers;
      environment := None;
      micronautContext := None;
      contextRunning := false;
    }

    /** setEnvironment. */
    method SetEnvironment(environment: SpringEnvironment<V>)
      modifies this`environment
      ensures this.environment == Some(environment)
    {
      this.environment := Some(environment);
    }

    /**
     * postProcessBeanFactory: refuses to run without an environment; otherwise creates and
     * starts the Micronaut context, registers the suppliers' beans in order, stops at the first
     * exception other than a class-loading error, and throws the last class-loading error at the end.
     */
    method PostProcessBeanFactory(factory: BeanFactory, newContext: (SpringEnvironment<V>, seq<Customizer>) -> MicronautContext)
      returns (outcome: Result<(), Failure>)
      requires forall k :: k in suppliers.keys ==> k in suppliers.values
      modifies this`micronautContext, this`contextRunning, factory
      ensures environment.None? ==>
                && outcome == Err(EnvironmentNotSet)
                && micronautContext == old(micronautContext) && contextRunning == old(contextRunning)
                && factory.definitions == old(factory.definitions)
      ensures environment.Some? ==>
                var context := newContext(environment.value, customizers);
                var steps := SupplierSteps(suppliers, context);
                && micronautContext == Some(context) && contextRunning
                && factory.definitions == Registered(old(factory.definitions), steps)
                && outcome == Outcome(steps)
    {
      if environment.None? {
        return Err(EnvironmentNotSet);
      }
      var context := newContext(environment.value, customizers);
      micronautContext := Some(context);
      contextRunning := true;
      ghost var steps := SupplierSteps(suppliers, context);
      ghost var before := factory.definitions;
      var keys := suppliers.keys;
      var noClassDefFoundError: Option<string> := None;
      var i := 0;
      while i < |keys|
        invariant 0 <= i <= |keys|
        invariant forall j :: 0 <= j < i ==> !steps[j].Abort?
        invariant factory.definitions == RegisterAll(before, steps[..i])
        invariant noClassDefFoundError == LastSkipped(steps[..i])
        modifies factory
      {
        var name := keys[i];
        var step := SupplierStep(name, suppliers.values[name], context);
        SupplierStepsAt(suppliers, context, i);
        PrefixStep(before, steps, i);
        match step {
          case Skip(className) =>
            noClassDefFoundError := Some(className);
          case Abort(failure) =>
            AbortAt(before, steps, i);
            return Err(failure);
          case Register(_, registration) =>
            factory.RegisterBeanDefinition(name, registration);
        }
        i := i + 1;
      }
      assert steps[..i] == steps;
      NoAbort(before, steps);
      if noClassDefFoundError.None? {
        return Ok(());
      }
      return Err(ClassNotFound(noClassDefFoundError.value));
    }

    /** destroy: closes the Micronaut context only if one was created. */
    method Destroy()
      modifies this`contextRunning
      ensures contextRunning == (old(contextRunning) && micronautContext.None?)
    {
      if micronautContext.Some? {
        contextRunning := false;
      }
    }
  }
}
