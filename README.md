# micronaut-grails bridge, modelled in Dafny

This project models the core of micronaut-grails, the bridge that imports Micronaut beans into a Grails (Spring) application. The model covers five parts:

- **`GrailsPropertyTranslatingEnvironment`** (module `PropertyTranslation`) is the Micronaut environment handed to imported beans.
  - It reads properties from the Spring environment and falls back to the customizer's alternative names.
  - Its constructor turns flat dotted keys under the expected map prefixes into the nested `multilayer` maps.
  - Supporting modules: `DottedNames` (prefix tests, Java's `split`, joining) and `PropertyTree` (the nested maps).
- **`MicronautBeanImporter`** (module `BeanImporter`) is a builder class.
  - It keeps the bean suppliers in a LinkedHashMap (module `LinkedMaps`) and the customizers in a list.
  - The suppliers themselves are in module `Suppliers`, including the cardinality rule of `UntypedBeanSupplier.apply`.
- **`DefaultGrailsMicronautBeanProcessor`** (module `DefaultProcessor`) registers a Spring definition for each named type-and-qualifier pair. Each definition is backed by the single Micronaut bean that matches the pair.
- **`GrailsMicronautBeanProcessor`** (module `GrailsProcessor`) starts its own Micronaut context over the translated Grails configuration. It then registers a definition for each supplier.
- **`MicronautGrailsConfiguration`** (module `Configuration`) merges every importer and chooses the processor from the active Spring profiles.

Both processors run the same loop, and module `Registration` captures it.

- Each entry's fate is a `Step`:
  - `Register`: a definition is registered.
  - `Abort`: an exception ends the loop.
  - `Skip`: a `NoClassDefFoundError` is recorded.
- The loop registers everything before the first abort. At the end it throws the abort's exception, else the last recorded class-loading error.
- The processors' `PostProcessBeanFactory` methods are imperative loops. Their contracts tie them to this fold.
- Lemmas about the fold state the cardinality rule, the registration order and the outcome.

External collaborators are parameters or function-valued fields:

- Micronaut lookups (`getBeanDefinitions`, `findBeanDefinition`), which may fail with `NoClassDefFoundError` or any other exception.
- The conversion service.
- The customizer's alternative names.
- Micronaut's own resolution of entries under a key.
- The construction of the Micronaut context from the environment and customizers.

Java exceptions are `Err` values of `Result`, and Java `null` is `None`.

## Model

| member | source | states |
|---|---|---|
| PropertyTranslation.Create | subprojects/micronaut-grails/src/main/groovy/com/agorapulse/micronaut/grails/GrailsPropertyTranslatingEnvironment.java:52-109 | Without an enumerable (AbstractEnvironment) source list, `multilayer` is empty. Otherwise it is what handling every entry of every map property source, in source order, yields (`Multilayer`), or the first key that has no segment. With a source list, `multilayer` is then added as the last property source: the Spring environment also answers every top-level `multilayer` key that none of its own sources has, with the `multilayer` value (a map). The alternative names and the entry resolution are kept. |
| PropertyTranslation.FirstMatchingPrefix | subprojects/micronaut-grails/src/main/groovy/com/agorapulse/micronaut/grails/GrailsPropertyTranslatingEnvironment.java:69 | The first expected map prefix the key starts with. It is None exactly when the key starts with none of them. |
| PropertyTranslation.ComputeKeyPath | subprojects/micronaut-grails/src/main/groovy/com/agorapulse/micronaut/grails/GrailsPropertyTranslatingEnvironment.java:75-102 | The inner loop over the segments yields exactly `KeyPath`: segments are skipped until the partial key starts with the prefix; a partial key equal to the prefix goes whole at the top level, otherwise the segment is one more level; the last segment closes the path. |
| PropertyTranslation.WalkFromEndsAtKeyPath | subprojects/micronaut-grails/src/main/groovy/com/agorapulse/micronaut/grails/GrailsPropertyTranslatingEnvironment.java:78-102 | From any state the loop reaches (with its `prefix` and path so far), the rest of the loop ends at the reference path `KeyPath`. |
| PropertyTranslation.WalkFromStep | subprojects/micronaut-grails/src/main/groovy/com/agorapulse/micronaut/grails/GrailsPropertyTranslatingEnvironment.java:78-93 | One pass of the loop body moves `prefix` to the text before segment i + 1 and keeps the walk invariant, and the rest of the loop is unchanged by it. |
| PropertyTranslation.WalkStep | subprojects/micronaut-grails/src/main/groovy/com/agorapulse/micronaut/grails/GrailsPropertyTranslatingEnvironment.java:78-101 | One pass of the loop body keeps the walk invariant. Before the first match the remaining path is the reference walk from i. After it, the path so far followed by every later segment is the whole path. |
| PropertyTranslation.KeyPathFrom | subprojects/micronaut-grails/src/main/groovy/com/agorapulse/micronaut/grails/GrailsPropertyTranslatingEnvironment.java:78-102 | Every storage path is non-empty and ends with the key's last segment (the `parts[parts.length - 1]` put). |
| PropertyTranslation.PartialKeyIsJoin | subprojects/micronaut-grails/src/main/groovy/com/agorapulse/micronaut/grails/GrailsPropertyTranslatingEnvironment.java:80-81 | The `currentKey` built from `prefix + part` is the first i + 1 segments joined with dots. |
| PropertyTranslation.PartialKeyStaysMatched | subprojects/micronaut-grails/src/main/groovy/com/agorapulse/micronaut/grails/GrailsPropertyTranslatingEnvironment.java:80-93 | Once a partial key starts with the expected prefix, every longer one does too and differs from it. So after the first match the walk only descends one level per segment. |
| PropertyTranslation.InsertEntry | subprojects/micronaut-grails/src/main/groovy/com/agorapulse/micronaut/grails/GrailsPropertyTranslatingEnvironment.java:69-103 | A key under no expected prefix leaves `multilayer` unchanged. A key made only of dots fails (`parts[-1]`). A key blocked by a value that is not a map on its way is dropped. Otherwise the value, a map or not, is found at the key's path afterwards, and every path that parts from it is unchanged: a map already stored on the way is extended, not replaced. |
| PropertyTranslation.MapValueIsExtended | subprojects/micronaut-grails/src/main/groovy/com/agorapulse/micronaut/grails/GrailsPropertyTranslatingEnvironment.java:69-102 | Under the prefix "p", with {x: 1} stored at p, a, the key "p.a.b" with value 2 leaves exactly {p: {a: {x: 1, b: 2}}}. |
| PropertyTranslation.WholeSegmentKeyPath | subprojects/micronaut-grails/src/main/groovy/com/agorapulse/micronaut/grails/GrailsPropertyTranslatingEnvironment.java:75-101 | A key "P.s1...sn", with P the expected prefix made of whole segments, splits into the segments of P and s1, ..., sn, and its storage path is P, s1, ..., sn. |
| PropertyTranslation.WholeSegmentKeyStored | subprojects/micronaut-grails/src/main/groovy/com/agorapulse/micronaut/grails/GrailsPropertyTranslatingEnvironment.java:69-102 | For a key "P.s1...sn" whose first matching prefix is P, made of whole segments: the value lands under P at the top level and then under s1, ..., sn, unless a value that is not a map blocks the way. |
| PropertyTranslation.LaterEntryWins | subprojects/micronaut-grails/src/main/groovy/com/agorapulse/micronaut/grails/GrailsPropertyTranslatingEnvironment.java:89-102 | Of two keys stored at the same path, the value of the later one is found there (`put` replaces). |
| PropertyTree.PutThenGet | subprojects/micronaut-grails/src/main/groovy/com/agorapulse/micronaut/grails/GrailsPropertyTranslatingEnvironment.java:87-102 | After a successful store, the value is found at its path. |
| PropertyTree.PutFailsIffBlocked | subprojects/micronaut-grails/src/main/groovy/com/agorapulse/micronaut/grails/GrailsPropertyTranslatingEnvironment.java:95-100 | Storing fails (the "cannot convert key to map of maps" return) exactly when a proper prefix of the path already holds a plain value. |
| PropertyTree.PutKeepsOtherPaths | subprojects/micronaut-grails/src/main/groovy/com/agorapulse/micronaut/grails/GrailsPropertyTranslatingEnvironment.java:89-102 | A store leaves every path that parts from the written one unchanged. |
| DottedNames.JavaSplit | subprojects/micronaut-grails/src/main/groovy/com/agorapulse/micronaut/grails/GrailsPropertyTranslatingEnvironment.java:75 | `split("\\.")`: every piece is dot-free, and a name without a dot is returned whole. |
| DottedNames.DropTrailingEmpty | subprojects/micronaut-grails/src/main/groovy/com/agorapulse/micronaut/grails/GrailsPropertyTranslatingEnvironment.java:75 | The split drops exactly the trailing empty pieces and keeps the rest in order. |
| DottedNames.Segments | subprojects/micronaut-grails/src/main/groovy/com/agorapulse/micronaut/grails/GrailsPropertyTranslatingEnvironment.java:75 | Splitting on dots yields at least one piece, and no piece holds a dot. |
| DottedNames.SegmentsOfJoin | subprojects/micronaut-grails/src/main/groovy/com/agorapulse/micronaut/grails/GrailsPropertyTranslatingEnvironment.java:75 | Splitting dot-free segments that were joined with dots gives the segments back. |
| DottedNames.JavaSplitOfJoin | subprojects/micronaut-grails/src/main/groovy/com/agorapulse/micronaut/grails/GrailsPropertyTranslatingEnvironment.java:75 | `split` of a joined key with a non-empty last segment gives its segments back. |
| DottedNames.JoinSplitAt | subprojects/micronaut-grails/src/main/groovy/com/agorapulse/micronaut/grails/GrailsPropertyTranslatingEnvironment.java:80-81 | A joined key is the join of its first n segments, a dot, and the join of the rest. |
| PropertyTranslation.Start | subprojects/micronaut-grails/src/main/groovy/com/agorapulse/micronaut/grails/GrailsPropertyTranslatingEnvironment.java:112-114 | `start()` returns the environment itself, unchanged. |
| PropertyTranslation.Stop | subprojects/micronaut-grails/src/main/groovy/com/agorapulse/micronaut/grails/GrailsPropertyTranslatingEnvironment.java:117-119 | `stop()` returns the environment itself, unchanged. |
| PropertyTranslation.RawProperty | subprojects/micronaut-grails/src/main/groovy/com/agorapulse/micronaut/grails/GrailsPropertyTranslatingEnvironment.java:180 | `getProperty(name, Object.class)` gives the value exactly when the Spring environment holds the name, and null otherwise. |
| PropertyTranslation.FirstContained | subprojects/micronaut-grails/src/main/groovy/com/agorapulse/micronaut/grails/GrailsPropertyTranslatingEnvironment.java:132 | The first alternative name that the Spring environment contains. It is None exactly when it contains none of them. |
| PropertyTranslation.ContainsProperty | subprojects/micronaut-grails/src/main/groovy/com/agorapulse/micronaut/grails/GrailsPropertyTranslatingEnvironment.java:122-141 | True when the Spring environment, `multilayer` source included, has the name. Otherwise true iff it has one of the alternative names (an empty set of alternatives gives false). |
| PropertyTranslation.ContainsProperties | subprojects/micronaut-grails/src/main/groovy/com/agorapulse/micronaut/grails/GrailsPropertyTranslatingEnvironment.java:144-146 | Always answers as containsProperty. |
| PropertyTranslation.GetPropertyEntries | subprojects/micronaut-grails/src/main/groovy/com/agorapulse/micronaut/grails/GrailsPropertyTranslatingEnvironment.java:150-175 | A `multilayer` key holding a map gives that map's keys, and a value that is not a map there fails (the cast). An empty name or a null resolution gives the empty set. Otherwise the result is exactly the first segment after "name." of every resolved key that starts with "name.". |
| DottedNames.FirstSegment | subprojects/micronaut-grails/src/main/groovy/com/agorapulse/micronaut/grails/GrailsPropertyTranslatingEnvironment.java:164-169 | The text before the first dot: dot-free, a prefix of the input, followed by a dot when shorter. |
| PropertyTranslation.GetProperty | subprojects/micronaut-grails/src/main/groovy/com/agorapulse/micronaut/grails/GrailsPropertyTranslatingEnvironment.java:178-204 | The direct value, `multilayer` keys included, when it converts. Otherwise the converted value of the first alternative name that converts, with every earlier alternative failing. Empty only when the direct value and every alternative fail to convert. |
| Suppliers.ApplyUntyped | subprojects/micronaut-grails/src/main/groovy/com/agorapulse/micronaut/grails/MicronautBeanImporter.java:50-58 | The cardinality rule: more than one candidate fails with too many candidates, otherwise the result is Ok: empty with no candidate, the candidate itself with exactly one. A lookup failure propagates. |
| Suppliers.Apply | subprojects/micronaut-grails/src/main/groovy/com/agorapulse/micronaut/grails/MicronautBeanImporter.java:50-100 | Each supplier's `apply`: the untyped one by the cardinality rule, the typed one by `findBeanDefinition` of its type and qualifier, the by-type one by `findBeanDefinition` of its type, and a custom function by itself. |
| GrailsProcessor.UntypedSupplierStep | subprojects/micronaut-grails/src/main/groovy/com/agorapulse/micronaut/grails/MicronautBeanImporter.java:50-58 | Through the processor, an `addByName`/`addByQualifiers` supplier registers iff exactly one bean matches, with that bean's type and singleton flag. More than one aborts with too many candidates; none aborts with no candidate. |
| BeanImporter.MicronautBeanImporter.Create | subprojects/micronaut-grails/src/main/groovy/com/agorapulse/micronaut/grails/MicronautBeanImporter.java:109-116 | A new importer with no supplier and no customizer. |
| BeanImporter.MicronautBeanImporter.Add | subprojects/micronaut-grails/src/main/groovy/com/agorapulse/micronaut/grails/MicronautBeanImporter.java:118-121 | The supplier map becomes the LinkedHashMap `put` of the name. The customizers are unchanged, the map stays well formed, and the importer itself is returned. |
| BeanImporter.MicronautBeanImporter.AddByType | subprojects/micronaut-grails/src/main/groovy/com/agorapulse/micronaut/grails/MicronautBeanImporter.java:123-125 | Puts a by-type supplier under the decapitalized simple name of the type. |
| BeanImporter.MicronautBeanImporter.AddByTypeNamed | subprojects/micronaut-grails/src/main/groovy/com/agorapulse/micronaut/grails/MicronautBeanImporter.java:127-133 | Under the decapitalized Grails name: a by-type supplier when no extra type is given, otherwise a typed supplier qualified by the extra types. |
| BeanImporter.MicronautBeanImporter.AddByStereotype | subprojects/micronaut-grails/src/main/groovy/com/agorapulse/micronaut/grails/MicronautBeanImporter.java:135-137 | Puts an untyped supplier qualified by the stereotype (through addByQualifiers). |
| BeanImporter.MicronautBeanImporter.AddByStereotypeOfType | subprojects/micronaut-grails/src/main/groovy/com/agorapulse/micronaut/grails/MicronautBeanImporter.java:139-141 | Puts a typed supplier qualified by the stereotype (through addByQualifiers). |
| BeanImporter.MicronautBeanImporter.AddByName | subprojects/micronaut-grails/src/main/groovy/com/agorapulse/micronaut/grails/MicronautBeanImporter.java:143-145 | Puts an untyped by-name supplier under the same name. |
| BeanImporter.MicronautBeanImporter.AddByNameAs | subprojects/micronaut-grails/src/main/groovy/com/agorapulse/micronaut/grails/MicronautBeanImporter.java:147-149 | Puts an untyped supplier for the Micronaut name, under the Grails name as given. |
| BeanImporter.MicronautBeanImporter.AddByQualifiersOfType | subprojects/micronaut-grails/src/main/groovy/com/agorapulse/micronaut/grails/MicronautBeanImporter.java:151-155 | Puts a typed supplier with the combined qualifiers. |
| BeanImporter.MicronautBeanImporter.AddByQualifiers | subprojects/micronaut-grails/src/main/groovy/com/agorapulse/micronaut/grails/MicronautBeanImporter.java:160-164 | Puts an untyped supplier with the combined qualifiers. |
| BeanImporter.MicronautBeanImporter.Customize | subprojects/micronaut-grails/src/main/groovy/com/agorapulse/micronaut/grails/MicronautBeanImporter.java:166-169 | Appends the customizer and keeps every earlier one in order. Returns the importer itself. |
| BeanImporter.MicronautBeanImporter.GetSuppliers | subprojects/micronaut-grails/src/main/groovy/com/agorapulse/micronaut/grails/MicronautBeanImporter.java:175-177 | Returns the suppliers, a well-formed map in insertion order. |
| BeanImporter.MicronautBeanImporter.GetCustomizers | subprojects/micronaut-grails/src/main/groovy/com/agorapulse/micronaut/grails/MicronautBeanImporter.java:179-181 | Returns the customizers in the order they were added. |
| BeanImporter.MicronautBeanImporter.Build | subprojects/micronaut-grails/src/main/groovy/com/agorapulse/micronaut/grails/MicronautBeanImporter.java:188-195 | Returns a new processor over the current suppliers and customizers, with no environment and no Micronaut context yet. |
| LinkedMaps.LinkedMap.Put | subprojects/micronaut-grails/src/main/groovy/com/agorapulse/micronaut/grails/MicronautBeanImporter.java:118-121 | LinkedHashMap `put`: a new key goes last, an existing key keeps its place. The key maps to the new value, every other key is untouched, and the map stays well formed. |
| LinkedMaps.PutAllOrder | subprojects/micronaut-grails/src/main/groovy/com/agorapulse/micronaut/grails/MicronautBeanImporter.java:118-121 | After a series of `add` calls, the suppliers are listed once per name, in the order each name was first added. |
| LinkedMaps.PutAllDomain | subprojects/micronaut-grails/src/main/groovy/com/agorapulse/micronaut/grails/MicronautBeanImporter.java:118-121 | After a series of `add` calls, exactly the names added are mapped. |
| LinkedMaps.PutAllLastWins | subprojects/micronaut-grails/src/main/groovy/com/agorapulse/micronaut/grails/MicronautBeanImporter.java:118-121 | After a series of `add` calls, each name holds the supplier of its last `add`. |
| LinkedMaps.PutTwice | subprojects/micronaut-grails/src/main/groovy/com/agorapulse/micronaut/grails/MicronautBeanImporter.java:118-121 | Adding the same name twice equals adding only the second supplier: same order, second value. |
| Micronaut.Decapitalize | subprojects/micronaut-grails/src/main/groovy/com/agorapulse/micronaut/grails/MicronautBeanImporter.java:124 | The bean-name decapitalization: same length and same tail. The name changes iff its first letter is upper case and it is one letter long or one of the next two letters is not upper case; the first letter is then lowered. |
| DefaultProcessor.DefaultGrailsMicronautBeanProcessor.constructor | subprojects/micronaut-grails/src/main/java/com/agorapulse/micronaut/grails/DefaultGrailsMicronautBeanProcessor.java:67-69 | Keeps the qualifier map. No context is taken yet. |
| DefaultProcessor.DefaultGrailsMicronautBeanProcessor.SetApplicationContext | subprojects/micronaut-grails/src/main/java/com/agorapulse/micronaut/grails/DefaultGrailsMicronautBeanProcessor.java:150-152 | Records the Spring context. |
| DefaultProcessor.DefaultGrailsMicronautBeanProcessor.PostProcessBeanFactory | subprojects/micronaut-grails/src/main/java/com/agorapulse/micronaut/grails/DefaultGrailsMicronautBeanProcessor.java:72-126 | Without a Spring context nothing changes and it fails. Otherwise it keeps the Micronaut context, registers exactly the definitions of the entries before the first abort, in map order, and ends as `Outcome`: the abort's exception, else the last class-loading error, else normally. |
| DefaultProcessor.DefaultGrailsMicronautBeanProcessor.Destroy | subprojects/micronaut-grails/src/main/java/com/agorapulse/micronaut/grails/DefaultGrailsMicronautBeanProcessor.java:143-147 | Closes the Micronaut context (one more close) exactly when one was taken. |
| DefaultProcessor.CandidateQuery | subprojects/micronaut-grails/src/main/java/com/agorapulse/micronaut/grails/DefaultGrailsMicronautBeanProcessor.java:82-84 | A null type looks up by qualifier only, otherwise by type and qualifier. |
| DefaultProcessor.EntryStepCardinality | subprojects/micronaut-grails/src/main/java/com/agorapulse/micronaut/grails/DefaultGrailsMicronautBeanProcessor.java:82-112 | Per entry: a class-loading error is skipped and any other exception aborts. Exactly one candidate registers, under the entry's name, with the declared type (the candidate's when none is declared), the entry's qualifier and the candidate's singleton flag. More than one or none aborts. |
| DefaultProcessor.EntryStepsAt | subprojects/micronaut-grails/src/main/java/com/agorapulse/micronaut/grails/DefaultGrailsMicronautBeanProcessor.java:77-80 | The i-th step of the loop is the fate of the i-th entry of the map. |
| DefaultProcessor.EveryEntryRegisters | subprojects/micronaut-grails/src/main/java/com/agorapulse/micronaut/grails/DefaultGrailsMicronautBeanProcessor.java:77-105 | With exactly one candidate per entry, every step registers the entry under its own name with its own qualifier. |
| DefaultProcessor.AllEntriesRegistered | subprojects/micronaut-grails/src/main/java/com/agorapulse/micronaut/grails/DefaultGrailsMicronautBeanProcessor.java:77-123 | With exactly one candidate per entry, the loop ends normally and the factory then defines exactly the earlier names plus the entry names, each with its entry's qualifier. |
| Registration.BeanFactory.RegisterBeanDefinition | subprojects/micronaut-grails/src/main/java/com/agorapulse/micronaut/grails/DefaultGrailsMicronautBeanProcessor.java:105 | Registering maps the name to the definition and leaves the other names alone. |
| Registration.LoopStepsAt | subprojects/micronaut-grails/src/main/java/com/agorapulse/micronaut/grails/DefaultGrailsMicronautBeanProcessor.java:77-113 | The loop visits the entries in the map's order: the i-th step is the body applied to the i-th key and its value. |
| Registration.FirstAbort | subprojects/micronaut-grails/src/main/java/com/agorapulse/micronaut/grails/DefaultGrailsMicronautBeanProcessor.java:86-96 | Finds the first aborting entry: every earlier one does not abort. |
| Registration.LastSkippedIsLast | subprojects/micronaut-grails/src/main/java/com/agorapulse/micronaut/grails/DefaultGrailsMicronautBeanProcessor.java:106-125 | The rethrown class-loading error is None iff nothing was skipped. Otherwise it is the one of the last skipped entry. |
| Registration.OutcomeOkIffAllRegistered | subprojects/micronaut-grails/src/main/java/com/agorapulse/micronaut/grails/DefaultGrailsMicronautBeanProcessor.java:115-125 | The loop ends normally iff every entry was registered. |
| Registration.RegisterAllNames | subprojects/micronaut-grails/src/main/java/com/agorapulse/micronaut/grails/DefaultGrailsMicronautBeanProcessor.java:105 | A name is defined after the loop iff it was before or some step registered it. |
| Registration.RegisterAllValue | subprojects/micronaut-grails/src/main/java/com/agorapulse/micronaut/grails/DefaultGrailsMicronautBeanProcessor.java:105 | A name holds the definition of the last step that registered it. |
| Registration.RegisterAllKeepsOthers | subprojects/micronaut-grails/src/main/java/com/agorapulse/micronaut/grails/DefaultGrailsMicronautBeanProcessor.java:105 | A name no step registers keeps its earlier definition. |
| Registration.AllRegistered | subprojects/micronaut-grails/src/main/java/com/agorapulse/micronaut/grails/DefaultGrailsMicronautBeanProcessor.java:77-125 | When every entry registers under distinct names, each name holds its own definition, and exactly the old and the new names are defined. |
| Registration.NothingAfterAbort | subprojects/micronaut-grails/src/main/java/com/agorapulse/micronaut/grails/DefaultGrailsMicronautBeanProcessor.java:86-96 | A name registered by no step before the first abort is not defined afterwards. |
| Registration.PrefixStep | subprojects/micronaut-grails/src/main/java/com/agorapulse/micronaut/grails/DefaultGrailsMicronautBeanProcessor.java:77-113 | One more pass of the loop body: a registration updates the definitions, and a skip becomes the error to rethrow. |
| Registration.AbortAt | subprojects/micronaut-grails/src/main/java/com/agorapulse/micronaut/grails/DefaultGrailsMicronautBeanProcessor.java:86-96 | An abort after no earlier abort ends the loop with that exception and the registrations made so far. |
| Registration.NoAbort | subprojects/micronaut-grails/src/main/java/com/agorapulse/micronaut/grails/DefaultGrailsMicronautBeanProcessor.java:113-125 | A loop without an abort registers every entry and ends with the last class-loading error, if any. |
| GrailsProcessor.GrailsMicronautBeanProcessor.constructor | subprojects/micronaut-grails/src/main/groovy/com/agorapulse/micronaut/grails/GrailsMicronautBeanProcessor.java:115-118 | Keeps the suppliers and customizers. No environment and no context yet. |
| GrailsProcessor.GrailsMicronautBeanProcessor.SetEnvironment | subprojects/micronaut-grails/src/main/groovy/com/agorapulse/micronaut/grails/GrailsMicronautBeanProcessor.java:187-189 | Records the Spring environment. |
| GrailsProcessor.GrailsMicronautBeanProcessor.PostProcessBeanFactory | subprojects/micronaut-grails/src/main/groovy/com/agorapulse/micronaut/grails/GrailsMicronautBeanProcessor.java:121-167 | Without an environment it fails and nothing changes. Otherwise it creates and starts the context from the environment and customizers, registers exactly the suppliers' beans before the first abort, in map order, and ends as `Outcome`. |
| GrailsProcessor.GrailsMicronautBeanProcessor.Destroy | subprojects/micronaut-grails/src/main/groovy/com/agorapulse/micronaut/grails/GrailsMicronautBeanProcessor.java:180-184 | The context stops running exactly when one was created. |
| GrailsProcessor.SupplierStep | subprojects/micronaut-grails/src/main/groovy/com/agorapulse/micronaut/grails/GrailsMicronautBeanProcessor.java:136-152 | The fate of one supplier: a class-loading error is skipped and any other exception aborts with it; an empty result aborts with no candidate; a found bean is registered under the name with its own type and singleton flag and no qualifier. |
| GrailsProcessor.SupplierStepCardinality | subprojects/micronaut-grails/src/main/groovy/com/agorapulse/micronaut/grails/GrailsMicronautBeanProcessor.java:136-146 | For a typed or by-type supplier: registered iff Micronaut finds a bean, aborted with no candidate when it finds none, skipped iff the lookup hits a class-loading error. |
| GrailsProcessor.SupplierStepsAt | subprojects/micronaut-grails/src/main/groovy/com/agorapulse/micronaut/grails/GrailsMicronautBeanProcessor.java:132-138 | The i-th step of the loop is the fate of the i-th supplier of the map. |
| Configuration.GrailsTranslatorImporter | subprojects/micronaut-grails/src/main/groovy/com/agorapulse/micronaut/grails/MicronautGrailsConfiguration.java:37-40 | A new importer with no supplier and exactly the Grails customizer: the suppliers' names and the customizers the configuration reads from it (`TranslatorImporterView`). |
| Configuration.DefaultProcessorBean | subprojects/micronaut-grails/src/main/groovy/com/agorapulse/micronaut/grails/MicronautGrailsConfiguration.java:42-64 | Defined iff the qualifier maps merge. It then carries the merged qualifiers, every customizer and every expected map prefix. |
| Configuration.ForwardingProcessorDefinition | subprojects/micronaut-grails/src/main/groovy/com/agorapulse/micronaut/grails/MicronautGrailsConfiguration.java:66-77 | The forwarding processor bean is defined iff the qualifier maps merge, over the merged map; otherwise the merge error. |
| Configuration.ForwardingProcessorBean | subprojects/micronaut-grails/src/main/groovy/com/agorapulse/micronaut/grails/MicronautGrailsConfiguration.java:66-77 | Defined iff the qualifier maps merge, as its definition in `ProcessorBeans` is: a new default processor over the merged qualifiers, with no contexts yet. Otherwise the merge error. |
| Configuration.AtMostOneProcessor | subprojects/micronaut-grails/src/main/groovy/com/agorapulse/micronaut/grails/MicronautGrailsConfiguration.java:42-68 | The profile rule: at most one processor. None only under the strict profile without the bridge. The translating one iff the bridge profile is not active. |
| Configuration.MergeQualifiersUnion | subprojects/micronaut-grails/src/main/groovy/com/agorapulse/micronaut/grails/MicronautGrailsConfiguration.java:45-48 | The merge succeeds iff no two importers declare the same name. The merged map is then well formed, holds exactly the names of all importers, and gives each name its importer's value. |
| Configuration.ToMap | subprojects/micronaut-grails/src/main/groovy/com/agorapulse/micronaut/grails/MicronautGrailsConfiguration.java:48 | A failing `Collectors.toMap` reports a duplicate key. |
| Configuration.ToMapSucceeds | subprojects/micronaut-grails/src/main/groovy/com/agorapulse/micronaut/grails/MicronautGrailsConfiguration.java:48 | `toMap` succeeds iff no name repeats. |
| Configuration.ToMapReportsRepeat | subprojects/micronaut-grails/src/main/groovy/com/agorapulse/micronaut/grails/MicronautGrailsConfiguration.java:48 | The duplicate key reported is the name of two entries. |
| Configuration.ToMapKeeps | subprojects/micronaut-grails/src/main/groovy/com/agorapulse/micronaut/grails/MicronautGrailsConfiguration.java:45-48 | A successful `toMap` is well formed, lists the names in stream order and maps each name to its value. |
| Configuration.DistinctIffDisjoint | subprojects/micronaut-grails/src/main/groovy/com/agorapulse/micronaut/grails/MicronautGrailsConfiguration.java:45-48 | The streamed entries have distinct names iff no two importers share a name. |
| Configuration.DistinctAppend | subprojects/micronaut-grails/src/main/groovy/com/agorapulse/micronaut/grails/MicronautGrailsConfiguration.java:45-47 | A concatenation has distinct names iff both parts do and no name is in both. |
| Configuration.EntriesOf | subprojects/micronaut-grails/src/main/groovy/com/agorapulse/micronaut/grails/MicronautGrailsConfiguration.java:47 | The entries of one importer's map, in its order. |
| Configuration.AllEntriesFrom | subprojects/micronaut-grails/src/main/groovy/com/agorapulse/micronaut/grails/MicronautGrailsConfiguration.java:45-47 | Every streamed entry comes from an importer that maps its name to its value. |
| Configuration.AllEntriesTo | subprojects/micronaut-grails/src/main/groovy/com/agorapulse/micronaut/grails/MicronautGrailsConfiguration.java:45-47 | Every entry of every importer is among the streamed entries. |
| Configuration.ConcatAt | subprojects/micronaut-grails/src/main/groovy/com/agorapulse/micronaut/grails/MicronautGrailsConfiguration.java:50-58 | The flattened list keeps importer order and each importer's own order: element j of importer i sits at that importer's offset plus j. |
| Configuration.ConcatLength | subprojects/micronaut-grails/src/main/groovy/com/agorapulse/micronaut/grails/MicronautGrailsConfiguration.java:50-58 | The flattened list is as long as all the lists together. |
| Configuration.InConcat | subprojects/micronaut-grails/src/main/groovy/com/agorapulse/micronaut/grails/MicronautGrailsConfiguration.java:50-58 | An element is in the flattened list iff it is in some importer's list. |
| Configuration.TranslatorCustomizerReachesProcessor | subprojects/micronaut-grails/src/main/groovy/com/agorapulse/micronaut/grails/MicronautGrailsConfiguration.java:37-53 | Whenever the translator importer is among the importers, the Grails customizer is among the merged customizers. |

## Left out

- Logging, the class-loader printing, and the "Known beans" listing in the no-candidate message: they produce text only.
- Spring property-source precedence: the Spring environment is a single name-to-value map, plus the list of its property sources used by the constructor.
- PropertyTranslation.Create: adding `multilayer` as the last property source is modelled by its effect on lookups, its keys at lowest precedence. The source list itself does not record the new source, and later changes to `multilayer` do not reach the environment, since values are not shared.
- PropertyTranslation.InsertEntry: a property value that is itself a map is copied into `multilayer`. In the source it is shared, so a later key that descends into it also changes the Spring source's map.
- The constructor's walk in place over `currentLevelMap`, aliasing into `multilayer`: the walk computes the storage path (`ComputeKeyPath`, the same loop), and the store is then done on values (`PropertyTree.Put`). A conflicting key then leaves `multilayer` unchanged, as in the source, because every map the source creates on the way comes after the last existing slot.
- The Micronaut `DefaultEnvironment` the class extends (the active profiles passed to it, and everything it inherits): Micronaut itself is not part of this model.
- `ConversionService.SHARED` and the requested type are one function parameter, `convert`.
- The iteration order of the alternative-name set is the order of the sequence the customizer gives.
- `PropertyTranslatingCustomizer` is not part of this model. A customizer is a token, and its alternative names are a parameter.
- Micronaut.Decapitalize: stands for `NameUtils.decapitalize`, which is not part of this model. Its letter tests use `Character.isUpperCase` and `toLowerCase`, which cover all of Unicode; the model recognizes and lowers the ASCII letters A to Z only.
- `customize(PropertyTranslatingCustomizer.Builder)` (MicronautBeanImporter.java:171-173) builds a customizer, and builders are not part of this model.
- BeanImporter.MicronautBeanImporter.Build: returns snapshots of the suppliers and customizers, not the unmodifiable views that alias the importer. The deprecation error log is left out.
- BeanImporter.MicronautBeanImporter.GetSuppliers: returns the map value, not an unmodifiable view of it.
- The `micronautContext` property of each registered Spring definition, and the `GrailsMicronautBeanFactory` class that reads it, are left out. A registration records the bean type, qualifier and singleton flag.
- Spring's bean-overriding policy: registration always replaces an earlier definition of the same name, which is Spring's default.
- `initializeMicronautContext` with no Spring context throws a NullPointerException in the source. The model fails with `SpringContextNotSet` and changes nothing.
- The Micronaut context of `GrailsMicronautBeanProcessor` is produced by the `newContext` parameter. `GrailsPropertyTranslatingApplicationContext` and `collapse` are not part of this model.
- The configuration calls `getMicronautBeanQualifiers()` and `getExpectedMapProperties()` on each importer. `MicronautBeanImporter` has no `getMicronautBeanQualifiers()` or `getExpectedMapProperties()`, so the configuration reads each importer through `ImporterView`.
- Configuration.MergeQualifiersUnion: `Collectors.toMap` returns a HashMap, whose iteration order is unspecified. The merged map keeps the stream order instead, so the model fixes one possible order of the processor's loop.
- Spring's injection of the importer list and the evaluation of the `@Profile` expressions are left out. `ProcessorBeans` states which beans the two profile conditions define.
- The deprecated `GrailsMicronautBeanProcessor.builder(...)` factories and its `Builder` subclass are not modelled.
