/**
 * What the bridge sees of Micronaut: classes, qualifiers, bean definitions, and the lookups of
 * a Micronaut application context, which are supplied from outside.
 */
module Micronaut {
  import opened Wrappers

  /** A Java class, known by its simple name. */
  datatype JavaClass = JavaClass(simpleName: string)

  /** A Micronaut qualifier, as built by the Qualifiers factory methods. */
  datatype Qualifier =
    | ByName(name: string)
    | ByTypes(types: seq<JavaClass>)
    | ByStereotype(annotation: JavaClass)
    | ByQualifiers(qualifiers: seq<Qualifier>)

  /** A Micronaut bean definition: the bean's type and whether it is a singleton. */
  datatype MicronautBean = MicronautBean(beanType: JavaClass, singleton: bool)

  /** A lookup against the Micronaut context; a null qualifier is None. */
  datatype Query =
    | WithQualifier(qualifier: Option<Qualifier>)
    | OfType(beanType: JavaClass)
    | OfTypeWithQualifier(beanType: JavaClass, qualifier: Option<Qualifier>)

  /**
   * A Micronaut application context: getBeanDefinitions answers with every matching bean,
   * findBeanDefinition with at most one. Either may throw, for instance NoClassDefFoundError
   * (ClassNotFound) when a bean's class cannot be loaded.
   */
  datatype MicronautContext = MicronautContext(
    getBeanDefinitions: Query -> Result<seq<MicronautBean>, Failure>,
    findBeanDefinition: Query -> Result<Option<MicronautBean>, Failure>)

  /** A property-translating customizer: the Grails one, or one declared by the application. */
  datatype Customizer = GrailsCustomizer | CustomCustomizer(id: string)

  function LowerCase(c: char): (r: char)
    ensures 'A' <= c <= 'Z' ==> 'a' <= r <= 'z' && r as int - 'a' as int == c as int - 'A' as int
    ensures !('A' <= c <= 'Z') ==> r == c
  {
    if 'A' <= c <= 'Z' then (c as int - 'A' as int + 'a' as int) as char else c
  }

  /** Character.isUpperCase, for the ASCII letters only. */
  predicate IsUpperCase(c: char) {
    'A' <= c <= 'Z'
  }

  /**
   * Stands for NameUtils.decapitalize: an upper-case first letter is lowered when the name has
   * no second letter, or when one of the two letters after it is not upper case ("ABc" becomes
   * "aBc", "XClient" becomes "xClient"); "URLService" and "AB" stay as they are.
   */
  function Decapitalize(name: string): (r: string)
    ensures |r| == |name|
    ensures r != name <==>
              && |name| >= 1 && IsUpperCase(name[0])
              && (|name| == 1 || exists i :: 1 <= i < |name| && i < 3 && !IsUpperCase(name[i]))
    ensures r != name ==> |r| == |name| && r[0] == LowerCase(name[0]) && r[1..] == name[1..]
  {
    if name == [] || !IsUpperCase(name[0]) then name
    else if |name| == 1 || !IsUpperCase(name[1]) || (|name| >= 3 && !IsUpperCase(name[2])) then
      [LowerCase(name[0])] + name[1..]
    else name
  }

  /** The cases NameUtils.decapitalize documents. */
  lemma DecapitalizeExamples()
    ensures Decapitalize("ABc") == "aBc" && Decapitalize("XClient") == "xClient"
    ensures Decapitalize("URLService") == "URLService"
  {
  }
}
