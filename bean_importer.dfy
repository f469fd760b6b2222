/**
 * MicronautBeanImporter: a builder collecting, in insertion order, the Micronaut beans to add to
 * the Spring context under Grails bean names, and the property-translating customizers.
 */
module BeanImporter {
  import opened Wrappers
  import opened Micronaut
  import opened LinkedMaps
  import opened Suppliers
  import opened GrailsProcessor

  class MicronautBeanImporter {
    /** The suppliers by Grails bean name, a LinkedHashMap. */
    var suppliers: LinkedMap<string, BeanSupplier>
    var customizers: seq<Customizer>

    ghost predicate Valid()
      reads this
    {
      suppliers.Valid()
    }

    /** create(): an importer with no supplier and no customizer. */
    constructor Create()
      ensures Valid()
      ensures suppliers == Empty() && customizers == []
    {
      suppliers := Empty();
      customizers := [];
    }

    /**
     * add: puts the supplier under `name`, replacing any earlier one but keeping its place in
     * the order; returns the importer itself.
     */
    method Add(name: string, supplier: BeanSupplier) returns (self: MicronautBeanImporter)
      requires Valid()
      modifies this
      ensures Valid() && self == this
      ensures suppliers == old(suppliers).Put(name, supplier)
      ensures customizers == old(customizers)
    {
      suppliers := suppliers.Put(name, supplier);
      return this;
    }

    /** addByType(type): the bean of that type, under its decapitalized simple name. */
    method AddByType(beanType: JavaClass) returns (self: MicronautBeanImporter)
      requires Valid()
      modifies this
      ensures Valid() && self == this
      ensures suppliers == old(suppliers).Put(Decapitalize(beanType.simpleName), BeanByTypeSupplier(beanType))
      ensures customizers == old(customizers)
    {
      self := Add(Decapitalize(beanType.simpleName), BeanByTypeSupplier(beanType));
    }

    /**
     * addByType(grailsBeanName, first, types...): under the decapitalized Grails name, the bean
     * of type `first`, narrowed by the other types when there are any.
     */
    method AddByTypeNamed(grailsBeanName: string, first: JavaClass, types: seq<JavaClass>) returns (self: MicronautBeanImporter)
      requires Valid()
      modifies this
      ensures Valid() && self == this
      ensures types == [] ==>
                suppliers == old(suppliers).Put(Decapitalize(grailsBeanName), BeanByTypeSupplier(first))
      ensures types != [] ==>
                suppliers == old(suppliers).Put(Decapitalize(grailsBeanName), TypedBeanSupplier(first, ByTypes(types)))
      ensures customizers == old(customizers)
    {
      if |types| == 0 {
        self := Add(Decapitalize(grailsBeanName), BeanByTypeSupplier(first));
      } else {
        self := Add(Decapitalize(grailsBeanName), TypedBeanSupplier(first, ByTypes(types)));
      }
    }

    /** addByStereotype(grailsBeanName, annotation): any bean carrying the stereotype. */
    method AddByStereotype(grailsBeanName: string, annotation: JavaClass) returns (self: MicronautBeanImporter)
      requires Valid()
      modifies this
      ensures Valid() && self == this
      ensures suppliers == old(suppliers).Put(grailsBeanName, UntypedBeanSupplier(ByQualifiers([ByStereotype(annotation)])))
      ensures customizers == old(customizers)
    {
      self := AddByQualifiers(grailsBeanName, [ByStereotype(annotation)]);
    }

    /** addByStereotype(grailsBeanName, beanType, annotation): the bean of that type carrying the stereotype. */
    method AddByStereotypeOfType(grailsBeanName: string, beanType: JavaClass, annotation: JavaClass) returns (self: MicronautBeanImporter)
      requires Valid()
      modifies this
      ensures Valid() && self == this
      ensures suppliers == old(suppliers).Put(grailsBeanName, TypedBeanSupplier(beanType, ByQualifiers([ByStereotype(annotation)])))
      ensures customizers == old(customizers)
    {
      self := AddByQualifiersOfType(grailsBeanName, beanType, [ByStereotype(annotation)]);
    }

    /** addByName(name): the bean of that Micronaut name, under the same Grails name. */
    method AddByName(name: string) returns (self: MicronautBeanImporter)
      requires Valid()
      modifies this
      ensures Valid() && self == this
      ensures suppliers == old(suppliers).Put(name, UntypedBeanSupplier(ByName(name)))
      ensures customizers == old(customizers)
    {
      self := AddByNameAs(name, name);
    }

    /** addByName(grailsBeanName, micronautName): the bean named `micronautName`, under the Grails name as given. */
    method AddByNameAs(grailsBeanName: string, micronautName: string) returns (self: MicronautBeanImporter)
      requires Valid()
      modifies this
      ensures Valid() && self == this
      ensures suppliers == old(suppliers).Put(grailsBeanName, UntypedBeanSupplier(ByName(micronautName)))
      ensures customizers == old(customizers)
    {
      self := Add(grailsBeanName, UntypedBeanSupplier(ByName(micronautName)));
    }

    /** addByQualifiers(grailsBeanName, type, qualifiers...): the bean of that type matching every qualifier. */
    method AddByQualifiersOfType(grailsBeanName: string, beanType: JavaClass, qualifiers: seq<Qualifier>) returns (self: MicronautBeanImporter)
      requires Valid()
      modifies this
      ensures Valid() && self == this
      ensures suppliers == old(suppliers).Put(grailsBeanName, TypedBeanSupplier(beanType, ByQualifiers(qualifiers)))
      ensures customizers == old(customizers)
    {
      self := Add(grailsBeanName, TypedBeanSupplier(beanType, ByQualifiers(qualifiers)));
    }

    /** addByQualifiers(grailsBeanName, qualifiers...): the single bean of any type matching every qualifier. */
    method AddByQualifiers(grailsBeanName: string, qualifiers: seq<Qualifier>) returns (self: MicronautBeanImporter)
      requires Valid()
      modifies this
      ensures Valid() && self == this
      ensures suppliers == old(suppliers).Put(grailsBeanName, UntypedBeanSupplier(ByQualifiers(qualifiers)))
      ensures customizers == old(customizers)
    {
      self := Add(grailsBeanName, UntypedBeanSupplier(ByQualifiers(qualifiers)));
    }

    /** customize: appends the customizer, keeping every earlier one. */
    method Customize(customizer: Customizer) returns (self: MicronautBeanImporter)
      modifies this`customizers
      ensures self == this
      ensures customizers == old(customizers) + [customizer]
    {
      customizers := customizers + [customizer];
      return this;
    }

    /** getSuppliers: the suppliers, in insertion order. */
    method GetSuppliers() returns (r: LinkedMap<string, BeanSupplier>)
      requires Valid()
      ensures r.Valid() && r == suppliers
    {
      return suppliers;
    }

    /** getCustomizers: the customizers, in the order they were added. */
    method GetCustomizers() returns (r: seq<Customizer>)
      ensures r == customizers
    {
      return customizers;
    }

    /** build: a new processor over the current suppliers and customizers, with no environment yet. */
    method Build<V>() returns (processor: GrailsMicronautBeanProcessor<V>)
      requires Valid()
      ensures fresh(processor)
      ensures processor.suppliers == suppliers && processor.customizers == customizers
      ensures processor.environment.None? && processor.micronautContext.None? && !processor.contextRunning
    {
      var s := GetSuppliers();
      var c := GetCustomizers();
      processor := new GrailsMicronautBeanProcessor(s, c);
    }
  }
}
