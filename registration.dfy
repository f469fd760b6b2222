/**
 * What the two bean processors have in common: the Spring bean factory they register into and
 * the shape of their loop. Each entry either registers a definition, aborts the loop with an
 * exception, or is skipped because a class could not be loaded; after the loop the last such
 * class-loading error is thrown again.
 */
module Registration {
  import opened Wrappers
  import opened Micronaut
  import opened LinkedMaps

  /**
   * A GrailsMicronautBeanFactory definition as registered in Spring: the Micronaut bean type,
   * the qualifier (None when not set or null) and the singleton flag.
   */
  datatype BeanRegistration = BeanRegistration(beanType: JavaClass, qualifier: Option<Qualifier>, singleton: bool)

  /** The Spring bean factory, seen as the definitions registered in it by name. */
  class BeanFactory {
    var definitions: map<string, BeanRegistration>

    constructor ()
      ensures definitions == map[]
    {
      definitions := map[];
    }

    /** registerBeanDefinition, with overriding allowed (Spring's default). */
    method RegisterBeanDefinition(name: string, definition: BeanRegistration)
      modifies this
      ensures definitions == old(definitions)[name := definition]
    {
      definitions := definitions[name := definition];
    }
  }

  /** The fate of one entry of a registration loop. */
  datatype Step =
    | Register(name: string, definition: BeanRegistration)
    | Abort(failure: Failure)
    | Skip(className: string)

  /** The fate of every entry of `entries`, in the map's iteration order, as `step` decides it. */
  function LoopSteps<T>(entries: LinkedMap<string, T>, step: (string, T) -> Step): (steps: seq<Step>)
    requires forall k :: k in entries.keys ==> k in entries.values
    ensures |steps| == |entries.keys|
    decreases |entries.keys|
  {
    if entries.keys == [] then []
    else
      var n := |entries.keys| - 1;
      var name := entries.keys[n];
      LoopSteps(LinkedMap(entries.keys[..n], entries.values), step) + [step(name, entries.values[name])]
  }

  /** The i-th step is the fate of the i-th key. */
  lemma {:induction false} LoopStepsAt<T>(entries: LinkedMap<string, T>, step: (string, T) -> Step, i: nat)
    requires forall k :: k in entries.keys ==> k in entries.values
    requires i < |entries.keys|
    ensures LoopSteps(entries, step)[i] == step(entries.keys[i], entries.values[entries.keys[i]])
    decreases |entries.keys|
  {
    var n := |entries.keys| - 1;
    if i < n {
      LoopStepsAt(LinkedMap(entries.keys[..n], entries.values), step, i);
    }
  }

  /** The index of the first aborting entry, or |steps| when none aborts. */
  function FirstAbort(steps: seq<Step>): (n: nat)
    ensures n <= |steps|
    ensures n < |steps| ==> steps[n].Abort?
    ensures forall j :: 0 <= j < n ==> !steps[j].Abort?
    decreases |steps|
  {
    if steps == [] then 0
    else if steps[0].Abort? then 0
    else
      var n := FirstAbort(steps[1..]);
      assert forall j :: 1 <= j < n + 1 ==> steps[j] == steps[1..][j - 1];
      n + 1
  }

  /** The definitions after registering every Register step of `steps`, in order, into `defs`. */
  function RegisterAll(defs: map<string, BeanRegistration>, steps: seq<Step>): map<string, BeanRegistration>
    decreases |steps|
  {
    if steps == [] then defs
    else
      var before := RegisterAll(defs, steps[..|steps| - 1]);
      match steps[|steps| - 1]
      case Register(name, d) => before[name := d]
      case _ => before
  }

  /** The class name of the last skipped entry, if any. */
  function LastSkipped(steps: seq<Step>): Option<string>
    decreases |steps|
  {
    if steps == [] then None
    else if steps[|steps| - 1].Skip? then Some(steps[|steps| - 1].className)
    else LastSkipped(steps[..|steps| - 1])
  }

  /** LastSkipped is None iff nothing was skipped, and otherwise names a skip with none after it. */
  lemma {:induction false} LastSkippedIsLast(steps: seq<Step>)
    ensures LastSkipped(steps).None? <==> forall i :: 0 <= i < |steps| ==> !steps[i].Skip?
    ensures LastSkipped(steps).Some? ==>
              exists i :: 0 <= i < |steps| && steps[i] == Skip(LastSkipped(steps).value)
                          && forall j :: i < j < |steps| ==> !steps[j].Skip?
    decreases |steps|
  {
    if steps != [] && !steps[|steps| - 1].Skip? {
      var init := steps[..|steps| - 1];
      LastSkippedIsLast(init);
      assert forall j :: 0 <= j < |init| ==> init[j] == steps[j];
    }
  }

  /** The definitions after the loop: everything registered before the first abort. */
  function Registered(defs: map<string, BeanRegistration>, steps: seq<Step>): map<string, BeanRegistration>
  {
    RegisterAll(defs, steps[..FirstAbort(steps)])
  }

  /**
   * How the loop ends: the first abort's exception; otherwise the last class-loading error,
   * thrown again; otherwise normally.
   */
  function Outcome(steps: seq<Step>): Result<(), Failure>
  {
    if FirstAbort(steps) < |steps| then Err(steps[FirstAbort(steps)].failure)
    else match LastSkipped(steps)
      case Some(c) => Err(ClassNotFound(c))
      case None => Ok(())
  }

  /** A name is defined after registration iff it was before or some step registers it. */
  lemma {:induction false} RegisterAllNames(defs: map<string, BeanRegistration>, steps: seq<Step>, k: string)
    ensures k in RegisterAll(defs, steps) <==>
              k in defs || exists i :: 0 <= i < |steps| && steps[i].Register? && steps[i].name == k
    decreases |steps|
  {
    if steps != [] {
      var init := steps[..|steps| - 1];
      RegisterAllNames(defs, init, k);
      assert forall i :: 0 <= i < |init| ==> init[i] == steps[i];
    }
  }

  /** A registered name holds the definition of the last step that registers it. */
  lemma {:induction false} RegisterAllValue(defs: map<string, BeanRegistration>, steps: seq<Step>, i: nat)
    requires i < |steps| && steps[i].Register?
    requires forall j :: i < j < |steps| && steps[j].Register? ==> steps[j].name != steps[i].name
    ensures steps[i].name in RegisterAll(defs, steps)
    ensures RegisterAll(defs, steps)[steps[i].name] == steps[i].definition
    decreases |steps|
  {
    if i < |steps| - 1 {
      var init := steps[..|steps| - 1];
      assert init[i] == steps[i];
      RegisterAllValue(defs, init, i);
    }
  }

  /** Registration leaves alone every name no step registers. */
  lemma {:induction false} RegisterAllKeepsOthers(defs: map<string, BeanRegistration>, steps: seq<Step>, k: string)
    requires k in defs
    requires forall i :: 0 <= i < |steps| && steps[i].Register? ==> steps[i].name != k
    ensures k in RegisterAll(defs, steps) && RegisterAll(defs, steps)[k] == defs[k]
    decreases |steps|
  {
    if steps != [] {
      var init := steps[..|steps| - 1];
      assert forall i :: 0 <= i < |init| ==> init[i] == steps[i];
      RegisterAllKeepsOthers(defs, init, k);
    }
  }

  /** The loop ends normally iff every entry was registered. */
  lemma OutcomeOkIffAllRegistered(steps: seq<Step>)
    ensures Outcome(steps).Ok? <==> forall i :: 0 <= i < |steps| ==> steps[i].Register?
  {
    LastSkippedIsLast(steps);
    if Outcome(steps).Ok? {
      forall i | 0 <= i < |steps| ensures steps[i].Register? {
        assert !steps[i].Abort? && !steps[i].Skip?;
      }
    }
  }

  /**
   * When every entry was registered under distinct names, each name holds its own
   * definition and nothing else changed.
   */
  lemma AllRegistered(defs: map<string, BeanRegistration>, steps: seq<Step>)
    requires forall i :: 0 <= i < |steps| ==> steps[i].Register?
    requires forall i, j :: 0 <= i < j < |steps| ==> steps[i].name != steps[j].name
    ensures forall i :: 0 <= i < |steps| ==>
              steps[i].name in Registered(defs, steps) && Registered(defs, steps)[steps[i].name] == steps[i].definition
    ensures forall k :: k in Registered(defs, steps) <==>
              k in defs || exists i :: 0 <= i < |steps| && steps[i].name == k
  {
    assert steps[..FirstAbort(steps)] == steps;
    forall i | 0 <= i < |steps|
      ensures steps[i].name in Registered(defs, steps) && Registered(defs, steps)[steps[i].name] == steps[i].definition
    {
      RegisterAllValue(defs, steps, i);
    }
    forall k ensures k in Registered(defs, steps) <==> k in defs || exists i :: 0 <= i < |steps| && steps[i].name == k {
      RegisterAllNames(defs, steps, k);
    }
  }

  /** Extending the handled prefix by one step: how the definitions and the last skip change. */
  lemma PrefixStep(defs: map<string, BeanRegistration>, steps: seq<Step>, i: nat)
    requires i < |steps|
    ensures RegisterAll(defs, steps[..i + 1]) ==
              if steps[i].Register? then RegisterAll(defs, steps[..i])[steps[i].name := steps[i].definition]
              else RegisterAll(defs, steps[..i])
    ensures LastSkipped(steps[..i + 1]) ==
              if steps[i].Skip? then Some(steps[i].className) else LastSkipped(steps[..i])
  {
    assert steps[..i + 1][..i] == steps[..i];
  }

  /** A loop that reaches an abort after no earlier abort stops there with that abort's exception. */
  lemma AbortAt(defs: map<string, BeanRegistration>, steps: seq<Step>, i: nat)
    requires i < |steps| && steps[i].Abort?
    requires forall j :: 0 <= j < i ==> !steps[j].Abort?
    ensures Registered(defs, steps) == RegisterAll(defs, steps[..i])
    ensures Outcome(steps) == Err(steps[i].failure)
  {
    assert FirstAbort(steps) == i;
  }

  /** A loop without an abort registers every step and ends with the last skip, if any. */
  lemma NoAbort(defs: map<string, BeanRegistration>, steps: seq<Step>)
    requires forall j :: 0 <= j < |steps| ==> !steps[j].Abort?
    ensures Registered(defs, steps) == RegisterAll(defs, steps)
    ensures Outcome(steps) == if LastSkipped(steps).Some? then Err(ClassNotFound(LastSkipped(steps).value)) else Ok(())
  {
    assert steps[..FirstAbort(steps)] == steps;
  }

  /** Nothing at or after the first abort is registered. */
  lemma NothingAfterAbort(defs: map<string, BeanRegistration>, steps: seq<Step>, k: string)
    requires k !in defs
    requires forall i :: 0 <= i < FirstAbort(steps) && steps[i].Register? ==> steps[i].name != k
    ensures k !in Registered(defs, steps)
  {
    var done := steps[..FirstAbort(steps)];
    RegisterAllNames(defs, done, k);
    assert forall i :: 0 <= i < |done| ==> done[i] == steps[i];
  }
}
