/**
 * DefaultGrailsMicronautBeanProcessor: registers in Spring one definition per named
 * type-and-qualifier pair, each backed by the single Micronaut bean that matches it.
 */
module DefaultProcessor {
  import opened Wrappers
  import opened Micronaut
  import opened LinkedMaps
  import opened Registration

  /** A Micronaut bean type and qualifier; either may be null. */
  datatype TypeAndQualifier = TypeAndQualifier(beanType: Option<JavaClass>, qualifier: Option<Qualifier>)

  /** The Spring application context, seen as the Micronaut context its holder bean keeps. */
  datatype SpringContext = SpringContext(micronautContext: MicronautContext)

  /** A null type looks the candidates up by qualifier only, otherwise by type and qualifier. */
  function CandidateQuery(entry: TypeAndQualifier): (q: Query)
    ensures entry.beanType.None? ==> q == WithQualifier(entry.qualifier)
    ensures entry.beanType.Some? ==> q == OfTypeWithQualifier(entry.beanType.value, entry.qualifier)
  {
    if entry.beanType.None? then WithQualifier(entry.qualifier)
    else OfTypeWithQualifier(entry.beanType.value, entry.qualifier)
  }

  /**
   * One pass of the loop body for `name`: a class-loading error is recorded, more than one
   * or no candidate aborts, and a single candidate is registered with the declared type (the
   * candidate's when none is declared), the entry's qualifier and the candidate's singleton flag.
   */
  function EntryStep(name: string, entry: TypeAndQualifier, context: MicronautContext): Step
  {
    match context.getBeanDefinitions(CandidateQuery(entry))
    case Err(ClassNotFound(c)) => Skip(c)
    case Err(e) => Abort(e)
    case Ok(candidates) =>
      if |candidates| > 1 then Abort(TooManyCandidates)
      else if candidates == [] then Abort(NoCandidate)
      else
        var definition := candidates[0];
        Register(name, BeanRegistration(entry.beanType.GetOr(definition.beanType), entry.qualifier, definition.singleton))
  }

  /**
   * The cardinality rule of the loop body: exactly one candidate registers a definition under
   * the entry's name, with the declared type (the candidate's when none is declared), the entry's
   * qualifier and the candidate's singleton flag; more than one or none aborts; a class-loading
   * error is recorded; any other exception aborts.
   */
  lemma EntryStepCardinality(name: string, entry: TypeAndQualifier, context: MicronautContext)
    ensures var found := context.getBeanDefinitions(CandidateQuery(entry));
            var s := EntryStep(name, entry, context);
            && (s.Skip? <==> found.Err? && found.error.ClassNotFound?)
            && (s.Register? <==> found.Ok? && |found.value| == 1)
            && (found.Ok? && |found.value| > 1 ==> s == Abort(TooManyCandidates))
            && (found.Ok? && |found.value| == 0 ==> s == Abort(NoCandidate))
            && (found.Err? && !found.error.ClassNotFound? ==> s == Abort(found.error))
            && (s.Register? ==>
                  && s.name == name
                  && s.definition.qualifier == entry.qualifier
                  && s.definition.singleton == found.value[0].singleton
                  && s.definition.beanType == entry.beanType.GetOr(found.value[0].beanType))
  {
  }

  /** The fate of every entry, in the map's iteration order. */
  function EntrySteps(qualifiers: LinkedMap<string, TypeAndQualifier>, context: MicronautContext): (steps: seq<Step>)
    requires forall k :: k in qualifiers.keys ==> k in qualifiers.values
  {
    LoopSteps(qualifiers, (name, entry) => EntryStep(name, entry, context))
  }

  /** The i-th step is the fate of the i-th key. */
  lemma EntryStepsAt(qualifiers: LinkedMap<string, TypeAndQualifier>, context: MicronautContext, i: nat)
    requires forall k :: k in qualifiers.keys ==> k in qualifiers.values
    requires i < |qualifiers.keys|
    ensures |EntrySteps(qualifiers, context)| == |qualifiers.keys|
    ensures EntrySteps(qualifiers, context)[i] == EntryStep(qualifiers.keys[i], qualifiers.values[qualifiers.keys[i]], context)
  {
    LoopStepsAt(qualifiers, (name, entry) => EntryStep(name, entry, context), i);
  }

  class DefaultGrailsMicronautBeanProcessor {
    const micronautBeanQualifiers: LinkedMap<string, TypeAndQualifier>
    var micronautContext: Option<MicronautContext>
    var springContext: Option<SpringContext>
    /** How many times close() was called on the Micronaut context. */
    var closeCalls: nat

    constructor (qualifiers: LinkedMap<string, TypeAndQualifier>)
      ensures micronautBeanQualifiers == qualifiers
      ensures micronautContext.None? && springContext.None? && closeCalls == 0
    {
      micronautBeanQualifiers := qualifiers;
      micronautContext := None;
      springContext := None;
      closeCalls := 0;
    }

    /** setApplicationContext. */
    method SetApplicationContext(context: SpringContext)
      modifies this`springContext
      ensures springContext == Some(context)
    {
      springContext := Some(context);
    }

    /**
     * postProcessBeanFactory: takes the Micronaut context from the Spring context, then
     * registers the entries in order, stopping at the first entry with too many or no
     * candidates and throwing the last class-loading error at the end.
     */
    method PostProcessBeanFactory(factory: BeanFactory) returns (outcome: Result<(), Failure>)
      requires forall k :: k in micronautBeanQualifiers.keys ==> k in micronautBeanQualifiers.values
      modifies this`micronautContext, factory
      ensures springContext.None? ==>
                && outcome == Err(SpringContextNotSet)
                && micronautContext == old(micronautContext)
                && factory.definitions == old(factory.definitions)
      ensures springContext.Some? ==>
                var steps := EntrySteps(micronautBeanQualifiers, springContext.value.micronautContext);
                && micronautContext == Some(springContext.value.micronautContext)
                && factory.definitions == Registered(old(factory.definitions), steps)
                && outcome == Outcome(steps)
    {
      if springContext.None? {
        return Err(SpringContextNotSet);
      }
      var context := springContext.value.micronautContext;
      micronautContext := Some(context);
      ghost var steps := EntrySteps(micronautBeanQualifiers, context);
      ghost var before := factory.definitions;
      var keys := micronautBeanQualifiers.keys;
      var noClassDefFoundError: Option<string> := None;
      var i := 0;
      while i < |keys|
        invariant 0 <= i <= |keys|
        invariant forall j :: 0 <= j < i ==> !steps[j].Abort?
        invariant factory.definitions == RegisterAll(before, steps[..i])
        invariant noClassDefFoundError == LastSkipped(steps[..i])
        modifies factory
      {
        var name := keys[i];
        var step := EntryStep(name, micronautBeanQualifiers.values[name], context);
        EntryStepsAt(micronautBeanQualifiers, context, i);
        PrefixStep(before, steps, i);
        match step {
          case Skip(className) =>
            noClassDefFoundError := Some(className);
          case Abort(failure) =>
            AbortAt(before, steps, i);
            return Err(failure);
          case Register(_, registration) =>
            factory.RegisterBeanDefinition(name, registration);
        }
        i := i + 1;
      }
      assert steps[..i] == steps;
      NoAbort(before, steps);
      if noClassDefFoundError.None? {
        return Ok(());
      }
      return Err(ClassNotFound(noClassDefFoundError.value));
    }

    /** destroy: closes the Micronaut context only if one was taken. */
    method Destroy()
      modifies this`closeCalls
      ensures closeCalls == old(closeCalls) + (if micronautContext.Some? then 1 else 0)
    {
      if micronautContext.Some? {
        closeCalls := closeCalls + 1;
      }
    }
  }

  /** With exactly one candidate per entry, every step registers the entry under its own name. */
  lemma EveryEntryRegisters(qualifiers: LinkedMap<string, TypeAndQualifier>, context: MicronautContext)
    requires forall k :: k in qualifiers.keys ==> k in qualifiers.values
    requires forall i :: 0 <= i < |qualifiers.keys| ==>
               var found := context.getBeanDefinitions(CandidateQuery(qualifiers.values[qualifiers.keys[i]]));
               found.Ok? && |found.value| == 1
    ensures var steps := EntrySteps(qualifiers, context);
            forall i :: 0 <= i < |steps| ==>
              && steps[i].Register? && steps[i].name == qualifiers.keys[i]
              && steps[i].definition.qualifier == qualifiers.values[qualifiers.keys[i]].qualifier
  {
    var steps := EntrySteps(qualifiers, context);
    forall i | 0 <= i < |steps|
      ensures steps[i].Register? && steps[i].name == qualifiers.keys[i]
      ensures steps[i].definition.qualifier == qualifiers.values[qualifiers.keys[i]].qualifier
    {
      EntryStepsAt(qualifiers, context, i);
    }
  }

  /**
   * A run of the loop with no class-loading error, no extra exception and exactly one
   * candidate per entry registers every entry under its own name and ends normally.
   */
  lemma AllEntriesRegistered(qualifiers: LinkedMap<string, TypeAndQualifier>, context: MicronautContext,
                             defs: map<string, BeanRegistration>)
    requires qualifiers.Valid()
    requires forall i :: 0 <= i < |qualifiers.keys| ==>
               var found := context.getBeanDefinitions(CandidateQuery(qualifiers.values[qualifiers.keys[i]]));
               found.Ok? && |found.value| == 1
    ensures var steps := EntrySteps(qualifiers, context);
            && Outcome(steps) == Ok(())
            && (forall k :: k in Registered(defs, steps) <==> k in defs || k in qualifiers.values)
            && forall k :: k in qualifiers.values ==>
                 Registered(defs, steps)[k].qualifier == qualifiers.values[k].qualifier
  {
    var steps := EntrySteps(qualifiers, context);
    EveryEntryRegisters(qualifiers, context);
    OutcomeOkIffAllRegistered(steps);
    AllRegistered(defs, steps);
    forall k | k in qualifiers.values
      ensures k in Registered(defs, steps) && Registered(defs, steps)[k].qualifier == qualifiers.values[k].qualifier
    {
      var i :| 0 <= i < |qualifiers.keys| && qualifiers.keys[i] == k;
      assert steps[i].name == k;
    }
  }
}
