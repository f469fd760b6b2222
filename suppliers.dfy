/** The bean suppliers an importer registers: each finds one Micronaut bean definition. */
module Suppliers {
  import opened Wrappers
  import opened Micronaut

  /** The kinds of supplier, or any function the application passes to `add`. */
  datatype BeanSupplier =
    | UntypedBeanSupplier(qualifier: Qualifier)
    | TypedBeanSupplier(beanType: JavaClass, qualifier: Qualifier)
    | BeanByTypeSupplier(beanType: JavaClass)
    | CustomSupplier(apply: MicronautContext -> Result<Option<MicronautBean>, Failure>)

  /**
   * UntypedBeanSupplier.apply: every bean the qualifier matches is a candidate; more than one
   * is an error, otherwise the single candidate or nothing.
   */
  function ApplyUntyped(qualifier: Qualifier, context: MicronautContext): (r: Result<Option<MicronautBean>, Failure>)
    ensures context.getBeanDefinitions(WithQualifier(Some(qualifier))).Err? ==>
              r == Err(context.getBeanDefinitions(WithQualifier(Some(qualifier))).error)
    ensures context.getBeanDefinitions(WithQualifier(Some(qualifier))).Ok? ==>
              var candidates := context.getBeanDefinitions(WithQualifier(Some(qualifier))).value;
              && (r.Ok? <==> |candidates| <= 1)
              && (r == Err(TooManyCandidates) <==> |candidates| > 1)
              && (r == Ok(None) <==> |candidates| == 0)
              && (|candidates| == 1 ==> r == Ok(Some(candidates[0])))
  {
    match context.getBeanDefinitions(WithQualifier(Some(qualifier)))
    case Err(e) => Err(e)
    case Ok(candidates) =>
      if |candidates| > 1 then Err(TooManyCandidates)
      else Ok(if candidates == [] then None else Some(candidates[0]))
  }

  /** Function.apply of a supplier against the Micronaut context. */
  function Apply(supplier: BeanSupplier, context: MicronautContext): (r: Result<Option<MicronautBean>, Failure>)
    ensures supplier.UntypedBeanSupplier? ==> r == ApplyUntyped(supplier.qualifier, context)
    ensures supplier.TypedBeanSupplier? ==>
              r == context.findBeanDefinition(OfTypeWithQualifier(supplier.beanType, Some(supplier.qualifier)))
    ensures supplier.BeanByTypeSupplier? ==> r == context.findBeanDefinition(OfType(supplier.beanType))
    ensures supplier.CustomSupplier? ==> r == supplier.apply(context)
  {
    match supplier
    case UntypedBeanSupplier(q) => ApplyUntyped(q, context)
    case TypedBeanSupplier(t, q) => context.findBeanDefinition(OfTypeWithQualifier(t, Some(q)))
    case BeanByTypeSupplier(t) => context.findBeanDefinition(OfType(t))
    case CustomSupplier(f) => f(context)
  }
}
