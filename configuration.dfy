/**
 * MicronautGrailsConfiguration: merges what every importer declares and defines the bean
 * processor that the active Spring profiles call for.
 */
module Configuration {
  import opened Wrappers
  import opened Micronaut
  import opened LinkedMaps
  import opened DefaultProcessor
  import opened BeanImporter

  /**
   * An importer as the configuration reads it: its bean qualifiers by Grails name, its
   * customizers and its expected map prefixes, each in the importer's own order.
   */
  datatype ImporterView = ImporterView(
    qualifiers: LinkedMap<string, TypeAndQualifier>,
    customizers: seq<Customizer>,
    expectedMapProperties: seq<string>)

  /** grailsTranslatorImporter: a fresh importer with the Grails customizer and nothing else. */
  method GrailsTranslatorImporter() returns (importer: MicronautBeanImporter)
    ensures fresh(importer) && importer.Valid()
    ensures importer.suppliers == Empty() && importer.customizers == [GrailsCustomizer]
    ensures importer.suppliers.keys == TranslatorImporterView().qualifiers.keys
    ensures importer.customizers == TranslatorImporterView().customizers
  {
    importer := new MicronautBeanImporter.Create();
    importer := importer.Customize(GrailsCustomizer);
  }

  /** What the configuration reads from the translator importer. */
  function TranslatorImporterView(): ImporterView
  {
    ImporterView(Empty(), [GrailsCustomizer], [])
  }

  /** Each importer's qualifier map is a well-formed LinkedHashMap. */
  ghost predicate AllValid(importers: seq<ImporterView>)
  {
    forall i :: 0 <= i < |importers| ==> importers[i].qualifiers.Valid()
  }

  /** No bean name is declared by two importers. */
  ghost predicate Disjoint(importers: seq<ImporterView>)
  {
    forall i, j, k :: 0 <= i < j < |importers| && k in importers[i].qualifiers.values ==> k !in importers[j].qualifiers.values
  }

  /** The entries of one qualifier map, in its order. */
  function EntriesOf(qualifiers: LinkedMap<string, TypeAndQualifier>): (entries: seq<(string, TypeAndQualifier)>)
    requires qualifiers.Valid()
    ensures |entries| == |qualifiers.keys|
    ensures forall i :: 0 <= i < |entries| ==> entries[i] == (qualifiers.keys[i], qualifiers.values[qualifiers.keys[i]])
  {
    seq(|qualifiers.keys|, i requires 0 <= i < |qualifiers.keys| => (qualifiers.keys[i], qualifiers.values[qualifiers.keys[i]]))
  }

  /** Every importer's entries, importer after importer, each in its own order. */
  function AllEntries(importers: seq<ImporterView>): (entries: seq<(string, TypeAndQualifier)>)
    requires AllValid(importers)
    decreases |importers|
  {
    if importers == [] then []
    else AllEntries(importers[..|importers| - 1]) + EntriesOf(importers[|importers| - 1].qualifiers)
  }

  /** Every merged entry comes from some importer that maps its name to its value. */
  lemma {:induction false} AllEntriesFrom(importers: seq<ImporterView>, p: nat) returns (i: nat)
    requires AllValid(importers) && p < |AllEntries(importers)|
    ensures i < |importers|
    ensures AllEntries(importers)[p].0 in importers[i].qualifiers.values
    ensures importers[i].qualifiers.values[AllEntries(importers)[p].0] == AllEntries(importers)[p].1
    decreases |importers|
  {
    var n := |importers| - 1;
    var init := importers[..n];
    var head := AllEntries(init);
    if p < |head| {
      i := AllEntriesFrom(init, p);
    } else {
      i := n;
      assert AllEntries(importers)[p] == EntriesOf(importers[n].qualifiers)[p - |head|];
    }
  }

  /** Every entry of every importer is among the merged entries. */
  lemma {:induction false} AllEntriesTo(importers: seq<ImporterView>, i: nat, k: string) returns (p: nat)
    requires AllValid(importers) && i < |importers| && k in importers[i].qualifiers.values
    ensures p < |AllEntries(importers)|
    ensures AllEntries(importers)[p] == (k, importers[i].qualifiers.values[k])
    decreases |importers|
  {
    var n := |importers| - 1;
    var init := importers[..n];
    var head := AllEntries(init);
    if i < n {
      assert init[i] == importers[i];
      p := AllEntriesTo(init, i, k);
    } else {
      var q := importers[n].qualifiers;
      var y :| 0 <= y < |q.keys| && q.keys[y] == k;
      p := |head| + y;
      assert AllEntries(importers)[p] == EntriesOf(q)[y];
    }
  }

  /** The names of a concatenation are distinct iff each part's are and no name is in both parts. */
  lemma DistinctAppend(a: seq<(string, TypeAndQualifier)>, b: seq<(string, TypeAndQualifier)>)
    ensures DistinctKeys(a + b) <==>
              && DistinctKeys(a) && DistinctKeys(b)
              && forall x, y :: 0 <= x < |a| && 0 <= y < |b| ==> a[x].0 != b[y].0
  {
    if DistinctKeys(a + b) {
      forall x, y | 0 <= x < y < |a| ensures a[x].0 != a[y].0 {
        assert (a + b)[x] == a[x] && (a + b)[y] == a[y];
      }
      forall x, y | 0 <= x < y < |b| ensures b[x].0 != b[y].0 {
        assert (a + b)[|a| + x] == b[x] && (a + b)[|a| + y] == b[y];
      }
      forall x, y | 0 <= x < |a| && 0 <= y < |b| ensures a[x].0 != b[y].0 {
        assert (a + b)[x] == a[x] && (a + b)[|a| + y] == b[y];
      }
    }
  }

  /** The merged entries have distinct names iff no two importers share a name. */
  lemma {:induction false} DistinctIffDisjoint(importers: seq<ImporterView>)
    requires AllValid(importers)
    ensures DistinctKeys(AllEntries(importers)) <==> Disjoint(importers)
    decreases |importers|
  {
    if importers != [] {
      var n := |importers| - 1;
      var init := importers[..n];
      var last := importers[n].qualifiers;
      var a, b := AllEntries(init), EntriesOf(last);
      DistinctIffDisjoint(init);
      DistinctAppend(a, b);
      assert forall i :: 0 <= i < n ==> init[i] == importers[i];
      if DistinctKeys(a + b) {
        forall i, k | 0 <= i < n && k in importers[i].qualifiers.values
          ensures k !in last.values
        {
          var x := AllEntriesTo(init, i, k);
          forall y | 0 <= y < |last.keys| ensures last.keys[y] != k {
            assert b[y].0 == last.keys[y];
          }
        }
      }
      if Disjoint(importers) {
        forall x, y | 0 <= x < |a| && 0 <= y < |b| ensures a[x].0 != b[y].0 {
          var i := AllEntriesFrom(init, x);
          assert b[y].0 in last.values;
        }
        forall x, y | 0 <= x < y < |b| ensures b[x].0 != b[y].0 {
          assert b[x].0 == last.keys[x] && b[y].0 == last.keys[y];
        }
      }
    }
  }

  /**
   * Collectors.toMap without a merge function: the entries in stream order, failing at the
   * first key that was already collected.
   */
  function ToMap(entries: seq<(string, TypeAndQualifier)>): (r: Result<LinkedMap<string, TypeAndQualifier>, Failure>)
    ensures r.Err? ==> r.error.DuplicateKey?
    decreases |entries|
  {
    if entries == [] then Ok(Empty())
    else
      var (key, value) := entries[|entries| - 1];
      match ToMap(entries[..|entries| - 1])
      case Err(e) => Err(e)
      case Ok(m) => if key in m.values then Err(DuplicateKey(key)) else Ok(LinkedMap(m.keys + [key], m.values[key := value]))
  }

  /** The names of the entries are pairwise distinct. */
  ghost predicate DistinctKeys(entries: seq<(string, TypeAndQualifier)>)
  {
    forall i, j :: 0 <= i < j < |entries| ==> entries[i].0 != entries[j].0
  }

  /** toMap succeeds iff no name repeats. */
  lemma {:induction false} ToMapSucceeds(entries: seq<(string, TypeAndQualifier)>)
    ensures ToMap(entries).Ok? <==> DistinctKeys(entries)
    decreases |entries|
  {
    if entries != [] {
      var n := |entries| - 1;
      var init := entries[..n];
      ToMapSucceeds(init);
      assert forall i :: 0 <= i < n ==> init[i] == entries[i];
      if ToMap(init).Ok? {
        var m := ToMap(init).value;
        ToMapKeeps(init);
        var key := entries[n].0;
        if key in m.values {
          var i :| 0 <= i < n && m.keys[i] == key;
          assert entries[i].0 == entries[n].0;
        } else {
          forall i | 0 <= i < n ensures entries[i].0 != key {
            assert m.keys[i] == entries[i].0;
          }
        }
      }
    }
  }

  /** When toMap fails, the name it reports is carried by two entries. */
  lemma {:induction false} ToMapReportsRepeat(entries: seq<(string, TypeAndQualifier)>)
    requires ToMap(entries).Err?
    ensures exists i, j :: 0 <= i < j < |entries| && entries[i].0 == entries[j].0 == ToMap(entries).error.key
    decreases |entries|
  {
    var n := |entries| - 1;
    var init := entries[..n];
    if ToMap(init).Err? {
      ToMapReportsRepeat(init);
      var i, j :| 0 <= i < j < |init| && init[i].0 == init[j].0 == ToMap(init).error.key;
      assert init[i] == entries[i] && init[j] == entries[j];
    } else {
      var m := ToMap(init).value;
      ToMapKeeps(init);
      var i :| 0 <= i < n && m.keys[i] == entries[n].0;
      assert init[i] == entries[i];
    }
  }

  /** A successful toMap lists the names in stream order and maps each to its own value. */
  lemma {:induction false} ToMapKeeps(entries: seq<(string, TypeAndQualifier)>)
    requires ToMap(entries).Ok?
    ensures ToMap(entries).value.Valid()
    ensures ToMap(entries).value.keys == Names(entries)
    ensures forall i :: 0 <= i < |entries| ==>
              entries[i].0 in ToMap(entries).value.values && ToMap(entries).value.values[entries[i].0] == entries[i].1
    decreases |entries|
  {
    if entries != [] {
      var n := |entries| - 1;
      var init := entries[..n];
      var m := ToMap(init).value;
      ToMapKeeps(init);
      var key := entries[n].0;
      assert ToMap(entries) == Ok(LinkedMap(m.keys + [key], m.values[key := entries[n].1]));
      assert Names(entries) == Names(init) + [key];
      forall i | 0 <= i < n
        ensures entries[i].0 in ToMap(entries).value.values && ToMap(entries).value.values[entries[i].0] == entries[i].1
      {
        assert init[i] == entries[i];
      }
    }
  }

  /** The names of the entries, in order. */
  function Names(entries: seq<(string, TypeAndQualifier)>): (names: seq<string>)
    ensures |names| == |entries| && forall i :: 0 <= i < |entries| ==> names[i] == entries[i].0
  {
    seq(|entries|, i requires 0 <= i < |entries| => entries[i].0)
  }

  /** The qualifier map of every importer together: an error when two importers use one name. */
  function MergeQualifiers(importers: seq<ImporterView>): Result<LinkedMap<string, TypeAndQualifier>, Failure>
    requires AllValid(importers)
  {
    ToMap(AllEntries(importers))
  }

  /** The lists of several importers joined end to end, in importer order. */
  function Concat<T>(lists: seq<seq<T>>): (r: seq<T>)
    decreases |lists|
  {
    if lists == [] then [] else Concat(lists[..|lists| - 1]) + lists[|lists| - 1]
  }

  /** Where the i-th list starts in the concatenation. */
  function Offset<T>(lists: seq<seq<T>>, i: nat): nat
    requires i <= |lists|
    decreases i
  {
    if i == 0 then 0 else Offset(lists, i - 1) + |lists[i - 1]|
  }

  /**
   * The j-th element of the i-th list sits at the i-th list's offset plus j: lists keep their
   * importer order, and each list its own order.
   */
  lemma {:induction false} ConcatAt<T>(lists: seq<seq<T>>, i: nat, j: nat)
    requires i < |lists| && j < |lists[i]|
    ensures Offset(lists, i) + j < |Concat(lists)|
    ensures Concat(lists)[Offset(lists, i) + j] == lists[i][j]
    decreases |lists|
  {
    var n := |lists| - 1;
    var init := lists[..n];
    OffsetOfPrefix(lists, n, n);
    ConcatLength(init);
    if i < n {
      ConcatAt(init, i, j);
      OffsetOfPrefix(lists, n, i);
    }
  }

  /** Offsets into a prefix of the lists are offsets into the lists. */
  lemma {:induction false} OffsetOfPrefix<T>(lists: seq<seq<T>>, n: nat, i: nat)
    requires i <= n <= |lists|
    ensures Offset(lists[..n], i) == Offset(lists, i)
    decreases i
  {
    if i > 0 {
      OffsetOfPrefix(lists, n, i - 1);
    }
  }

  /** The concatenation ends where the last list ends. */
  lemma {:induction false} ConcatLength<T>(lists: seq<seq<T>>)
    ensures |Concat(lists)| == Offset(lists, |lists|)
    decreases |lists|
  {
    if lists != [] {
      var n := |lists| - 1;
      ConcatLength(lists[..n]);
      OffsetOfPrefix(lists, n, n);
    }
  }

  /** An element is in the concatenation iff it is in one of the lists. */
  lemma {:induction false} InConcat<T>(lists: seq<seq<T>>, x: T)
    ensures x in Concat(lists) <==> exists i :: 0 <= i < |lists| && x in lists[i]
    decreases |lists|
  {
    if lists != [] {
      var init := lists[..|lists| - 1];
      InConcat(init, x);
      assert forall i :: 0 <= i < |init| ==> init[i] == lists[i];
    }
  }

  /** Every importer's customizers, in importer order. */
  function MergeCustomizers(importers: seq<ImporterView>): seq<Customizer>
  {
    Concat(seq(|importers|, i requires 0 <= i < |importers| => importers[i].customizers))
  }

  /** Every importer's expected map prefixes, in importer order. */
  function MergeExpectedMapProperties(importers: seq<ImporterView>): seq<string>
  {
    Concat(seq(|importers|, i requires 0 <= i < |importers| => importers[i].expectedMapProperties))
  }

  const StrictProfile: string := "micronaut-grails-strict"
  const BridgeProfile: string := "micronaut-grails-bridge"

  /**
   * A processor bean as the configuration defines it: the translating processor with the
   * merged qualifiers, customizers and prefixes, or the forwarding processor with the merged
   * qualifiers alone.
   */
  datatype ProcessorBean =
    | TranslatingProcessor(qualifiers: LinkedMap<string, TypeAndQualifier>, customizers: seq<Customizer>, expectedMapProperties: seq<string>)
    | ForwardingProcessor(qualifiers: LinkedMap<string, TypeAndQualifier>)

  /** defaultGrailsMicronautBeanProcessor. */
  function DefaultProcessorBean(importers: seq<ImporterView>): (r: Result<ProcessorBean, Failure>)
    requires AllValid(importers)
    ensures r.Ok? <==> MergeQualifiers(importers).Ok?
    ensures r.Ok? ==> r.value == TranslatingProcessor(MergeQualifiers(importers).value,
                                   MergeCustomizers(importers), MergeExpectedMapProperties(importers))
  {
    match MergeQualifiers(importers)
    case Err(e) => Err(e)
    case Ok(q) => Ok(TranslatingProcessor(q, MergeCustomizers(importers), MergeExpectedMapProperties(importers)))
  }

  /** The definition of forwardingGrailsMicronautBeanProcessor: the merged qualifiers. */
  function ForwardingProcessorDefinition(importers: seq<ImporterView>): (r: Result<ProcessorBean, Failure>)
    requires AllValid(importers)
    ensures r.Ok? <==> MergeQualifiers(importers).Ok?
    ensures r.Ok? ==> r.value == ForwardingProcessor(MergeQualifiers(importers).value)
  {
    match MergeQualifiers(importers)
    case Err(e) => Err(e)
    case Ok(q) => Ok(ForwardingProcessor(q))
  }

  /**
   * forwardingGrailsMicronautBeanProcessor: a new default processor over the merged
   * qualifiers, the object its definition describes.
   */
  method ForwardingProcessorBean(importers: seq<ImporterView>) returns (r: Result<DefaultGrailsMicronautBeanProcessor, Failure>)
    requires AllValid(importers)
    ensures r.Ok? <==> ForwardingProcessorDefinition(importers).Ok?
    ensures r.Ok? ==> fresh(r.value) && ForwardingProcessorDefinition(importers).value == ForwardingProcessor(r.value.micronautBeanQualifiers)
    ensures r.Ok? ==> r.value.micronautBeanQualifiers == MergeQualifiers(importers).value
    ensures r.Ok? ==> r.value.micronautContext.None? && r.value.springContext.None?
    ensures r.Err? ==> r.error == MergeQualifiers(importers).error
  {
    match MergeQualifiers(importers)
    case Err(e) =>
      r := Err(e);
    case Ok(q) =>
      var processor := new DefaultGrailsMicronautBeanProcessor(q);
      r := Ok(processor);
  }

  /**
   * The processor beans defined under the active profiles: the translating one when neither
   * the strict nor the bridge profile is active, the forwarding one when the bridge profile is.
   */
  function ProcessorBeans(activeProfiles: set<string>, importers: seq<ImporterView>): seq<Result<ProcessorBean, Failure>>
    requires AllValid(importers)
  {
    (if StrictProfile !in activeProfiles && BridgeProfile !in activeProfiles then [DefaultProcessorBean(importers)] else [])
    + (if BridgeProfile in activeProfiles
       then [ForwardingProcessorDefinition(importers)]
       else [])
  }

  /**
   * At most one processor is defined: the translating one without either profile, the
   * forwarding one under the bridge profile, none under the strict profile alone.
   */
  lemma AtMostOneProcessor(activeProfiles: set<string>, importers: seq<ImporterView>)
    requires AllValid(importers)
    ensures |ProcessorBeans(activeProfiles, importers)| <= 1
    ensures |ProcessorBeans(activeProfiles, importers)| == 0 <==>
              StrictProfile in activeProfiles && BridgeProfile !in activeProfiles
    ensures forall b :: b in ProcessorBeans(activeProfiles, importers) && b.Ok? ==>
              (b.value.TranslatingProcessor? <==> BridgeProfile !in activeProfiles)
  {
  }

  /**
   * The qualifiers merge iff no two importers declare the same name; the merged map then holds
   * exactly the names of all importers, each with the value its importer gives it.
   */
  lemma MergeQualifiersUnion(importers: seq<ImporterView>)
    requires AllValid(importers)
    ensures MergeQualifiers(importers).Ok? <==> Disjoint(importers)
    ensures MergeQualifiers(importers).Ok? ==>
              var merged := MergeQualifiers(importers).value;
              && merged.Valid()
              && (forall k :: k in merged.values <==> exists i :: 0 <= i < |importers| && k in importers[i].qualifiers.values)
              && forall i, k :: 0 <= i < |importers| && k in importers[i].qualifiers.values ==>
                   merged.values[k] == importers[i].qualifiers.values[k]
  {
    var entries := AllEntries(importers);
    ToMapSucceeds(entries);
    DistinctIffDisjoint(importers);
    if MergeQualifiers(importers).Ok? {
      var merged := MergeQualifiers(importers).value;
      ToMapKeeps(entries);
      forall k ensures k in merged.values <==> exists i :: 0 <= i < |importers| && k in importers[i].qualifiers.values {
        if k in merged.values {
          var p :| 0 <= p < |entries| && merged.keys[p] == k;
          var i := AllEntriesFrom(importers, p);
        }
        if exists i :: 0 <= i < |importers| && k in importers[i].qualifiers.values {
          var i :| 0 <= i < |importers| && k in importers[i].qualifiers.values;
          var p := AllEntriesTo(importers, i, k);
        }
      }
      forall i, k | 0 <= i < |importers| && k in importers[i].qualifiers.values
        ensures merged.values[k] == importers[i].qualifiers.values[k]
      {
        var p := AllEntriesTo(importers, i, k);
      }
    }
  }

  /** The Grails customizer reaches the translating processor whenever the translator importer is among the importers. */
  lemma TranslatorCustomizerReachesProcessor(importers: seq<ImporterView>)
    requires TranslatorImporterView() in importers
    ensures GrailsCustomizer in MergeCustomizers(importers)
  {
    var lists := seq(|importers|, i requires 0 <= i < |importers| => importers[i].customizers);
    var k :| 0 <= k < |importers| && importers[k] == TranslatorImporterView();
    assert GrailsCustomizer in lists[k];
    InConcat(lists, GrailsCustomizer);
  }
}
