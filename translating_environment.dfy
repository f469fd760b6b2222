/**
 * The Micronaut environment that Grails hands to imported beans: it reads properties from the
 * Spring environment, falls back to alternative (translated) names, and exposes flat dotted
 * keys under the expected map prefixes as nested maps (`multilayer`).
 */
module PropertyTranslation {
  import opened Wrappers
  import opened DottedNames
  import opened PropertyTree

  /** A Spring property source: a map source lists its entries in iteration order. */
  datatype PropertySource<V> = MapPropertySource(entries: seq<(string, Node<V>)>) | OtherPropertySource

  /**
   * The Spring environment. `propertySources` is None when it is not an AbstractEnvironment,
   * in which case its sources cannot be enumerated.
   */
  datatype SpringEnvironment<V> = SpringEnvironment(
    properties: map<string, Node<V>>,
    propertySources: Option<seq<PropertySource<V>>>)

  /**
   * The translating environment. `alternativeNames` is the customizer's translation (the
   * alternative names in iteration order) and `entriesForKey` the key set that Micronaut's own
   * resolver finds under a name (None for null); both are supplied from outside.
   */
  datatype TranslatingEnvironment<V> = TranslatingEnvironment(
    environment: SpringEnvironment<V>,
    alternativeNames: string -> seq<string>,
    entriesForKey: string -> Option<set<string>>,
    multilayer: map<string, Node<V>>)

  /** environment.getProperty(name, Object.class): the raw value, or null when absent. */
  function RawProperty<V>(env: SpringEnvironment<V>, name: string): (r: Option<Node<V>>)
    ensures r.Some? <==> name in env.properties
    ensures r.Some? ==> r.value == env.properties[name]
  {
    if name in env.properties then Some(env.properties[name]) else None
  }

  /** The first expected map prefix that `key` starts with (stream().filter().findFirst()). */
  function FirstMatchingPrefix(prefixes: seq<string>, key: string): (r: Option<string>)
    ensures r.None? <==> forall i :: 0 <= i < |prefixes| ==> !StartsWith(key, prefixes[i])
    ensures r.Some? ==> exists i :: 0 <= i < |prefixes| && r.value == prefixes[i] && StartsWith(key, r.value)
                          && forall j :: 0 <= j < i ==> !StartsWith(key, prefixes[j])
    decreases |prefixes|
  {
    if prefixes == [] then None
    else if StartsWith(key, prefixes[0]) then Some(prefixes[0])
    else
      var r := FirstMatchingPrefix(prefixes[1..], key);
      assert forall i :: 1 <= i < |prefixes| ==> prefixes[i] == prefixes[1..][i - 1];
      r
  }

  /** The constructor's `prefix` before segment i: the segments before it, each followed by a dot. */
  function PrefixBefore(parts: seq<string>, i: nat): string
    requires i <= |parts|
    decreases i
  {
    if i == 0 then "" else PrefixBefore(parts, i - 1) + parts[i - 1] + "."
  }

  /** The constructor's `currentKey` at segment i: the key up to and including segment i. */
  function PartialKey(parts: seq<string>, i: nat): string
    requires i < |parts|
  {
    PrefixBefore(parts, i) + parts[i]
  }

  /**
   * Where the value of a key split into `parts` is stored when `expected` is its prefix:
   * the segments before the first partial key that starts with `expected` are skipped; that
   * partial key is stored whole when it equals `expected`, else only its last segment; every
   * later segment is one more level. With no such partial key the value sits at the top level
   * under the last segment.
   */
  function KeyPathFrom(parts: seq<string>, expected: string, i: nat): (path: seq<string>)
    requires i < |parts|
    ensures |path| >= 1 && path[|path| - 1] == parts[|parts| - 1]
    decreases |parts| - i
  {
    if i == |parts| - 1 then [parts[i]]
    else
      var currentKey := PartialKey(parts, i);
      if !StartsWith(currentKey, expected) then KeyPathFrom(parts, expected, i + 1)
      else [if currentKey == expected then currentKey else parts[i]] + parts[i + 1..]
  }

  function KeyPath(parts: seq<string>, expected: string): (path: seq<string>)
    requires |parts| >= 1
    ensures |path| >= 1 && path[|path| - 1] == parts[|parts| - 1]
  {
    KeyPathFrom(parts, expected, 0)
  }

  lemma StartsWithTransitive(a: string, b: string, c: string)
    requires StartsWith(a, b) && StartsWith(b, c)
    ensures StartsWith(a, c)
  {
    assert a[..|c|] == a[..|b|][..|c|];
  }

  /** The partial key at segment i is the first i + 1 segments joined. */
  lemma {:induction false} PartialKeyIsJoin(parts: seq<string>, i: nat)
    requires i < |parts|
    ensures PartialKey(parts, i) == Join(parts[..i + 1])
    decreases i
  {
    if i == 0 {
      assert parts[..1] == [parts[0]];
    } else {
      PartialKeyIsJoin(parts, i - 1);
      JoinSplitAt(parts[..i + 1], i);
      assert parts[..i + 1][..i] == parts[..i];
      assert parts[..i + 1][i..] == [parts[i]];
    }
  }

  /** Once a partial key starts with the prefix, every longer one does and differs from it. */
  lemma PartialKeyStaysMatched(parts: seq<string>, expected: string, i: nat)
    requires i + 1 < |parts| && StartsWith(PartialKey(parts, i), expected)
    ensures StartsWith(PartialKey(parts, i + 1), expected) && PartialKey(parts, i + 1) != expected
  {
    var a, b := PartialKey(parts, i + 1), PartialKey(parts, i);
    assert a == b + "." + parts[i + 1];
    assert a[..|b|] == b;
    StartsWithTransitive(a, b, expected);
  }

  /** What the walk over the segments has established once it reaches segment i. */
  ghost predicate WalkedTo(parts: seq<string>, expected: string, i: nat, path: seq<string>)
    requires i < |parts|
  {
    && (path == [] ==> KeyPath(parts, expected) == KeyPathFrom(parts, expected, i))
    && (path != [] ==> i >= 1 && StartsWith(PartialKey(parts, i - 1), expected)
                       && KeyPath(parts, expected) == path + parts[i..])
  }

  /** One step of the walk keeps WalkedTo. */
  lemma WalkStep(parts: seq<string>, expected: string, i: nat, path: seq<string>)
    requires i + 1 < |parts| && WalkedTo(parts, expected, i, path)
    ensures var currentKey := PartialKey(parts, i);
            WalkedTo(parts, expected, i + 1,
              if !StartsWith(currentKey, expected) then path
              else if currentKey == expected then [currentKey]
              else path + [parts[i]])
  {
    var currentKey := PartialKey(parts, i);
    if path != [] {
      PartialKeyStaysMatched(parts, expected, i - 1);
      assert parts[i..] == [parts[i]] + parts[i + 1..];
      assert KeyPath(parts, expected) == (path + [parts[i]]) + parts[i + 1..];
    } else if StartsWith(currentKey, expected) {
      var head := if currentKey == expected then currentKey else parts[i];
      assert KeyPathFrom(parts, expected, i) == [head] + parts[i + 1..];
    } else {
      assert KeyPathFrom(parts, expected, i) == KeyPathFrom(parts, expected, i + 1);
    }
  }

  /**
   * The rest of the walk from segment i, with `prefix` and `path` as the loop has them there:
   * the loop below, step by step.
   */
  ghost function WalkFrom(parts: seq<string>, expected: string, i: nat, prefix: string, path: seq<string>): seq<string>
    requires i < |parts|
    decreases |parts| - i
  {
    if i == |parts| - 1 then path + [parts[i]]
    else
      var currentKey := prefix + parts[i];
      WalkFrom(parts, expected, i + 1,
               if |prefix| == 0 then parts[i] + "." else prefix + parts[i] + ".",
               if !StartsWith(currentKey, expected) then path
               else if expected == currentKey then [currentKey]
               else path + [parts[i]])
  }

  /** One step of the walk, from segment i to segment i + 1, keeps prefix and path in step. */
  lemma WalkFromStep(parts: seq<string>, expected: string, i: nat, prefix: string, path: seq<string>)
    returns (nextPrefix: string, nextPath: seq<string>)
    requires i + 1 < |parts| && prefix == PrefixBefore(parts, i) && WalkedTo(parts, expected, i, path)
    ensures nextPrefix == PrefixBefore(parts, i + 1) && WalkedTo(parts, expected, i + 1, nextPath)
    ensures WalkFrom(parts, expected, i, prefix, path) == WalkFrom(parts, expected, i + 1, nextPrefix, nextPath)
  {
    var currentKey := prefix + parts[i];
    nextPrefix := if |prefix| == 0 then parts[i] + "." else prefix + parts[i] + ".";
    nextPath := if !StartsWith(currentKey, expected) then path
                else if expected == currentKey then [currentKey]
                else path + [parts[i]];
    assert currentKey == PartialKey(parts, i);
    if |prefix| == 0 {
      assert prefix + parts[i] + "." == parts[i] + ".";
    }
    WalkStep(parts, expected, i, path);
  }

  /** From any point the walk has reached, the rest of it ends at the key's path. */
  lemma {:induction false} WalkFromEndsAtKeyPath(parts: seq<string>, expected: string, i: nat, prefix: string, path: seq<string>)
    requires i < |parts| && prefix == PrefixBefore(parts, i) && WalkedTo(parts, expected, i, path)
    ensures WalkFrom(parts, expected, i, prefix, path) == KeyPath(parts, expected)
    decreases |parts| - i
  {
    if i < |parts| - 1 {
      var nextPrefix, nextPath := WalkFromStep(parts, expected, i, prefix, path);
      WalkFromEndsAtKeyPath(parts, expected, i + 1, nextPrefix, nextPath);
    } else {
      assert parts[i..] == [parts[i]];
    }
  }

  /**
   * The constructor's walk over the segments of one key (its inner for-loop), recording the
   * map levels it descends through instead of descending at once.
   */
  method ComputeKeyPath(parts: seq<string>, expected: string) returns (path: seq<string>)
    requires |parts| >= 1
    ensures path == KeyPath(parts, expected)
  {
    path := [];
    var prefix := "";
    var i := 0;
    WalkFromEndsAtKeyPath(parts, expected, 0, prefix, path);
    while i < |parts| - 1
      invariant 0 <= i <= |parts| - 1
      invariant WalkFrom(parts, expected, i, prefix, path) == KeyPath(parts, expected)
    {
      var part := parts[i];
      var currentKey := prefix + part;
      prefix := if |prefix| == 0 then part + "." else prefix + part + ".";
      if StartsWith(currentKey, expected) {
        if expected == currentKey {
          path := [currentKey];
        } else {
          path := path + [part];
        }
      }
      i := i + 1;
    }
    path := path + [parts[i]];
  }

  /**
   * One entry of a map property source, as the constructor handles it: keys under no expected
   * prefix are ignored; a key of dots only has no segment to store under (the source indexes
   * parts[-1]); a key blocked by a value that is not a map on its way is dropped; otherwise the
   * value is stored at the key's path, replacing what was there and leaving every other path alone.
   */
  function InsertEntry<V>(m: map<string, Node<V>>, expectedMapProperties: seq<string>, key: string, v: Node<V>)
    : (r: Result<map<string, Node<V>>, Failure>)
    ensures FirstMatchingPrefix(expectedMapProperties, key).None? ==> r == Ok(m)
    ensures FirstMatchingPrefix(expectedMapProperties, key).Some? && JavaSplit(key) == [] ==> r == Err(EmptyKeyPath(key))
    ensures FirstMatchingPrefix(expectedMapProperties, key).Some? && JavaSplit(key) != [] ==>
              var path := KeyPath(JavaSplit(key), FirstMatchingPrefix(expectedMapProperties, key).value);
              && (Blocked(m, path) ==> r == Ok(m))
              && (!Blocked(m, path) ==> r.Ok? && Get(r.value, path) == Some(v))
              && (!Blocked(m, path) ==>
                    forall q, d :: 0 <= d < |path| && d < |q| && path[..d] == q[..d] && path[d] != q[d] ==>
                      Get(r.value, q) == Get(m, q))
  {
    match FirstMatchingPrefix(expectedMapProperties, key)
    case None => Ok(m)
    case Some(expected) =>
      var parts := JavaSplit(key);
      if |parts| == 0 then Err(EmptyKeyPath(key))
      else
        var path := KeyPath(parts, expected);
        PutFailsIffBlocked(m, path, v);
        match Put(m, path, v)
        case None => Ok(m)
        case Some(m') =>
          PutThenGet(m, path, v);
          assert forall q, d :: 0 <= d < |path| && d < |q| && path[..d] == q[..d] && path[d] != q[d] ==>
                   Get(m', q) == Get(m, q) by {
            forall q, d | 0 <= d < |path| && d < |q| && path[..d] == q[..d] && path[d] != q[d] {
              PutKeepsOtherPaths(m, path, v, q, d);
            }
          }
          Ok(m')
  }

  /** The entries of every map property source, source after source. */
  function MapEntries<V>(sources: seq<PropertySource<V>>): seq<(string, Node<V>)>
    decreases |sources|
  {
    if sources == [] then []
    else (if sources[0].MapPropertySource? then sources[0].entries else []) + MapEntries(sources[1..])
  }

  /** `multilayer` after handling `entries` in order, starting from `m`. */
  function Multilayer<V>(m: map<string, Node<V>>, expectedMapProperties: seq<string>, entries: seq<(string, Node<V>)>)
    : Result<map<string, Node<V>>, Failure>
    decreases |entries|
  {
    if entries == [] then Ok(m)
    else match InsertEntry(m, expectedMapProperties, entries[0].0, entries[0].1)
      case Err(e) => Err(e)
      case Ok(m') => Multilayer(m', expectedMapProperties, entries[1..])
  }

  lemma MultilayerStep<V>(m: map<string, Node<V>>, expected: seq<string>, entries: seq<(string, Node<V>)>, t: nat, rest: seq<(string, Node<V>)>)
    requires t < |entries|
    ensures Multilayer(m, expected, entries[t..] + rest) ==
      match InsertEntry(m, expected, entries[t].0, entries[t].1)
      case Err(e) => Err(e)
      case Ok(m') => Multilayer(m', expected, entries[t + 1..] + rest)
  {
    assert (entries[t..] + rest)[0] == entries[t];
    assert (entries[t..] + rest)[1..] == entries[t + 1..] + rest;
  }

  /**
   * The lookups of the Spring environment once `multilayer` is added as its last property
   * source: a name the environment already had keeps its value; every other top-level key of
   * `multilayer` is found with the nested map or value stored under it.
   */
  function WithMultilayer<V>(properties: map<string, Node<V>>, multilayer: map<string, Node<V>>)
    : (r: map<string, Node<V>>)
    ensures r.Keys == properties.Keys + multilayer.Keys
    ensures forall k :: k in properties ==> r[k] == properties[k]
    ensures forall k :: k in multilayer && k !in properties ==> r[k] == multilayer[k]
  {
    map k | k in properties.Keys + multilayer.Keys :: if k in properties then properties[k] else multilayer[k]
  }

  /**
   * The constructor: walks the map property sources of an AbstractEnvironment and builds
   * `multilayer` from the keys under the expected map prefixes.
   */
  method Create<V>(environment: SpringEnvironment<V>, alternativeNames: string -> seq<string>,
                   entriesForKey: string -> Option<set<string>>, expectedMapProperties: seq<string>)
    returns (r: Result<TranslatingEnvironment<V>, Failure>)
    ensures environment.propertySources.None? ==> r.Ok? && r.value.multilayer == map[]
    ensures environment.propertySources.Some? ==>
              match Multilayer(map[], expectedMapProperties, MapEntries(environment.propertySources.value))
              case Err(e) => r == Err(e)
              case Ok(m) => r.Ok? && r.value.multilayer == m
    ensures r.Ok? && environment.propertySources.None? ==> r.value.environment == environment
    ensures r.Ok? && environment.propertySources.Some? ==>
              r.value.environment == environment.(properties := WithMultilayer(environment.properties, r.value.multilayer))
    ensures r.Ok? ==> r.value.alternativeNames == alternativeNames && r.value.entriesForKey == entriesForKey
    ensures r.Ok? ==> forall p :: p in r.value.multilayer ==> ContainsProperty(r.value, p)
    ensures r.Ok? ==> forall p :: p in r.value.multilayer && p !in environment.properties ==>
                        RawProperty(r.value.environment, p) == Some(r.value.multilayer[p])
  {
    var multilayer: map<string, Node<V>> := map[];
    if environment.propertySources.Some? {
      var sources := environment.propertySources.value;
      ghost var goal := Multilayer(map[], expectedMapProperties, MapEntries(sources));
      var s := 0;
      while s < |sources|
        invariant 0 <= s <= |sources|
        invariant goal == Multilayer(multilayer, expectedMapProperties, MapEntries(sources[s..]))
      {
        assert sources[s..] == [sources[s]] + sources[s + 1..];
        assert MapEntries(sources[s..]) ==
          (if sources[s].MapPropertySource? then sources[s].entries else []) + MapEntries(sources[s + 1..]);
        if sources[s].MapPropertySource? {
          var entries := sources[s].entries;
          ghost var rest := MapEntries(sources[s + 1..]);
          assert entries[0..] == entries;
          var t := 0;
          while t < |entries|
            invariant 0 <= t <= |entries|
            invariant goal == Multilayer(multilayer, expectedMapProperties, entries[t..] + rest)
          {
            var (k, v) := entries[t];
            MultilayerStep(multilayer, expectedMapProperties, entries, t, rest);
            var expectedPrefix := FirstMatchingPrefix(expectedMapProperties, k);
            if expectedPrefix.Some? {
              var parts := JavaSplit(k);
              if |parts| == 0 {
                return Err(EmptyKeyPath(k));
              }
              var path := ComputeKeyPath(parts, expectedPrefix.value);
              var stored := Put(multilayer, path, v);
              if stored.Some? {
                multilayer := stored.value;
              }
            }
            t := t + 1;
          }
          assert entries[t..] + rest == rest;
        } else {
          assert MapEntries(sources[s..]) == MapEntries(sources[s + 1..]);
        }
        s := s + 1;
      }
      assert MapEntries(sources[s..]) == [];
    }
    var withMultilayer := environment;
    if environment.propertySources.Some? {
      withMultilayer := environment.(properties := WithMultilayer(environment.properties, multilayer));
    }
    r := Ok(TranslatingEnvironment(withMultilayer, alternativeNames, entriesForKey, multilayer));
  }

  /** start(): nothing to start; the same environment is returned. */
  function Start<V>(te: TranslatingEnvironment<V>): (r: TranslatingEnvironment<V>)
    ensures r == te
  {
    te
  }

  /** stop(): nothing to stop; the same environment is returned. */
  function Stop<V>(te: TranslatingEnvironment<V>): (r: TranslatingEnvironment<V>)
    ensures r == te
  {
    te
  }

  /** The first of `names` the Spring environment contains (stream().filter().findFirst()). */
  function FirstContained<V>(env: SpringEnvironment<V>, names: seq<string>): (r: Option<string>)
    ensures r.None? <==> forall i :: 0 <= i < |names| ==> names[i] !in env.properties
    ensures r.Some? ==> exists i :: 0 <= i < |names| && r.value == names[i] && names[i] in env.properties
                          && forall j :: 0 <= j < i ==> names[j] !in env.properties
    decreases |names|
  {
    if names == [] then None
    else if names[0] in env.properties then Some(names[0])
    else
      var r := FirstContained(env, names[1..]);
      assert forall i :: 1 <= i < |names| ==> names[i] == names[1..][i - 1];
      r
  }

  /** containsProperty: the name itself, else any of its alternative names. */
  function ContainsProperty<V>(te: TranslatingEnvironment<V>, name: string): (r: bool)
    ensures name in te.environment.properties ==> r
    ensures name !in te.environment.properties ==>
              (r <==> exists i :: 0 <= i < |te.alternativeNames(name)| && te.alternativeNames(name)[i] in te.environment.properties)
  {
    if name in te.environment.properties then true
    else
      var alternatives := te.alternativeNames(name);
      if |alternatives| == 0 then false
      else FirstContained(te.environment, alternatives).Some?
  }

  /** containsProperties answers exactly as containsProperty. */
  function ContainsProperties<V>(te: TranslatingEnvironment<V>, name: string): (r: bool)
    ensures r == ContainsProperty(te, name)
  {
    ContainsProperty(te, name)
  }

  /**
   * getProperty: the converted direct value when conversion succeeds, else the converted value
   * of the first alternative name whose conversion succeeds, else empty. `convert` stands for
   * the shared conversion service with the requested type.
   */
  method GetProperty<V, T>(te: TranslatingEnvironment<V>, name: string, convert: Option<Node<V>> -> Option<T>)
    returns (r: Option<T>)
    ensures convert(RawProperty(te.environment, name)).Some? ==> r == convert(RawProperty(te.environment, name))
    ensures convert(RawProperty(te.environment, name)).None? && r.Some? ==>
              exists i :: 0 <= i < |te.alternativeNames(name)|
                && r == convert(RawProperty(te.environment, te.alternativeNames(name)[i]))
                && forall j :: 0 <= j < i ==> convert(RawProperty(te.environment, te.alternativeNames(name)[j])).None?
    ensures convert(RawProperty(te.environment, name)).None? && r.None? ==>
              forall i :: 0 <= i < |te.alternativeNames(name)| ==>
                convert(RawProperty(te.environment, te.alternativeNames(name)[i])).None?
  {
    var property := RawProperty(te.environment, name);
    var value := convert(property);
    if value.Some? {
      return value;
    }
    var alternativeNames := te.alternativeNames(name);
    if |alternativeNames| == 0 {
      return None;
    }
    var i := 0;
    while i < |alternativeNames|
      invariant 0 <= i <= |alternativeNames|
      invariant forall j :: 0 <= j < i ==> convert(RawProperty(te.environment, alternativeNames[j])).None?
    {
      var alternativeValue := convert(RawProperty(te.environment, alternativeNames[i]));
      if alternativeValue.Some? {
        return alternativeValue;
      }
      i := i + 1;
    }
    return None;
  }

  /**
   * getPropertyEntries: the keys of the nested map `multilayer` holds under `name`; otherwise,
   * for a non-empty name, the first segment after "name." of every key Micronaut's resolver
   * knows under it.
   */
  function GetPropertyEntries<V>(te: TranslatingEnvironment<V>, name: string): (r: Result<set<string>, Failure>)
    ensures name in te.multilayer && te.multilayer[name].Branch? ==> r == Ok(te.multilayer[name].children.Keys)
    ensures name in te.multilayer && te.multilayer[name].Leaf? ==> r == Err(NotAMap(name))
    ensures name !in te.multilayer && (name == "" || te.entriesForKey(name).None?) ==> r == Ok({})
    ensures name !in te.multilayer && name != "" && te.entriesForKey(name).Some? ==>
              var prefix := name + ".";
              && r.Ok?
              && (forall e :: e in r.value ==> IsSegment(e))
              && (forall e :: e in r.value <==>
                    exists k :: k in te.entriesForKey(name).value && StartsWith(k, prefix) && e == FirstSegment(k[|prefix|..]))
  {
    if name in te.multilayer then
      match te.multilayer[name]
      case Branch(children) => Ok(children.Keys)
      case Leaf(_) => Err(NotAMap(name))
    else if name == "" then Ok({})
    else match te.entriesForKey(name)
      case None => Ok({})
      case Some(entries) =>
        var prefix := name + ".";
        Ok(set k | k in entries && StartsWith(k, prefix) :: FirstSegment(k[|prefix|..]))
  }

  /** A key "P.s1...sn", with P made of whole segments and the first expected prefix it
   *  starts with, is stored under P at the top level and under s1, ..., sn below it. */
  lemma {:induction false} WholeSegmentPrefixPath(es: seq<string>, ss: seq<string>, i: nat)
    requires |es| >= 1 && |ss| >= 1 && i < |es|
    requires forall j :: 0 <= j < |es| ==> IsSegment(es[j])
    ensures KeyPathFrom(es + ss, Join(es), i) == [Join(es)] + ss
    decreases |es| - i
  {
    var parts := es + ss;
    assert parts[..i + 1] == es[..i + 1];
    PartialKeyIsJoin(parts, i);
    if i == |es| - 1 {
      assert es[..i + 1] == es;
      assert parts[i + 1..] == ss;
    } else {
      JoinSplitAt(es, i + 1);
      assert !StartsWith(PartialKey(parts, i), Join(es));
      WholeSegmentPrefixPath(es, ss, i + 1);
    }
  }

  lemma ConcatSegments(es: seq<string>, ss: seq<string>)
    requires forall j :: 0 <= j < |es| ==> IsSegment(es[j])
    requires forall j :: 0 <= j < |ss| ==> IsSegment(ss[j])
    ensures forall j :: 0 <= j < |es + ss| ==> IsSegment((es + ss)[j])
  {
    forall j | 0 <= j < |es + ss| ensures IsSegment((es + ss)[j]) {
      if j < |es| { assert (es + ss)[j] == es[j]; } else { assert (es + ss)[j] == ss[j - |es|]; }
    }
  }

  lemma JoinOfConcat(es: seq<string>, ss: seq<string>)
    requires |es| >= 1 && |ss| >= 1
    ensures Join(es + ss) == Join(es) + "." + Join(ss)
  {
    var parts := es + ss;
    JoinSplitAt(parts, |es|);
    assert parts[..|es|] == es && parts[|es|..] == ss;
  }

  lemma JavaSplitOfConcat(es: seq<string>, ss: seq<string>)
    requires |es| >= 1 && |ss| >= 1 && ss[|ss| - 1] != ""
    requires forall j :: 0 <= j < |es| ==> IsSegment(es[j])
    requires forall j :: 0 <= j < |ss| ==> IsSegment(ss[j])
    ensures JavaSplit(Join(es + ss)) == es + ss
  {
    ConcatSegments(es, ss);
    assert (es + ss)[|es + ss| - 1] == ss[|ss| - 1];
    JavaSplitOfJoin(es + ss);
  }

  /** A key "P.s1...sn", P made of whole segments, splits into the segments of P and s1, ..., sn. */
  lemma SplitOfWholeSegments(es: seq<string>, ss: seq<string>)
    requires |es| >= 1 && |ss| >= 1 && ss[|ss| - 1] != ""
    requires forall j :: 0 <= j < |es| ==> IsSegment(es[j])
    requires forall j :: 0 <= j < |ss| ==> IsSegment(ss[j])
    ensures JavaSplit(Join(es) + "." + Join(ss)) == es + ss
  {
    JoinOfConcat(es, ss);
    JavaSplitOfConcat(es, ss);
  }

  /** Such a key goes to P, s1, ..., sn. */
  lemma WholeSegmentKeyPath(es: seq<string>, ss: seq<string>)
    requires |es| >= 1 && |ss| >= 1 && ss[|ss| - 1] != ""
    requires forall j :: 0 <= j < |es| ==> IsSegment(es[j])
    requires forall j :: 0 <= j < |ss| ==> IsSegment(ss[j])
    ensures JavaSplit(Join(es) + "." + Join(ss)) == es + ss
    ensures KeyPath(es + ss, Join(es)) == [Join(es)] + ss
  {
    SplitOfWholeSegments(es, ss);
    WholeSegmentPrefixPath(es, ss, 0);
  }

  /** Where the value of a key "P.s1...sn" goes, P being its first matching expected prefix. */
  lemma WholeSegmentKeyStored<V>(m: map<string, Node<V>>, expectedMapProperties: seq<string>,
                                  es: seq<string>, ss: seq<string>, v: Node<V>)
    requires |es| >= 1 && |ss| >= 1 && ss[|ss| - 1] != ""
    requires forall j :: 0 <= j < |es| ==> IsSegment(es[j])
    requires forall j :: 0 <= j < |ss| ==> IsSegment(ss[j])
    requires FirstMatchingPrefix(expectedMapProperties, Join(es) + "." + Join(ss)) == Some(Join(es))
    ensures var r := InsertEntry(m, expectedMapProperties, Join(es) + "." + Join(ss), v);
            && (Blocked(m, [Join(es)] + ss) ==> r == Ok(m))
            && (!Blocked(m, [Join(es)] + ss) ==> r.Ok? && Get(r.value, [Join(es)] + ss) == Some(v))
  {
    WholeSegmentKeyPath(es, ss);
  }

  /** Of two keys stored at the same path, the later one's value is the one found there. */
  lemma LaterEntryWins<V>(m: map<string, Node<V>>, expectedMapProperties: seq<string>,
                          k1: string, v1: Node<V>, k2: string, v2: Node<V>)
    requires FirstMatchingPrefix(expectedMapProperties, k2).Some? && JavaSplit(k2) != []
    requires InsertEntry(m, expectedMapProperties, k1, v1).Ok?
    requires var path := KeyPath(JavaSplit(k2), FirstMatchingPrefix(expectedMapProperties, k2).value);
             !Blocked(InsertEntry(m, expectedMapProperties, k1, v1).value, path)
    ensures var path := KeyPath(JavaSplit(k2), FirstMatchingPrefix(expectedMapProperties, k2).value);
            var r := InsertEntry(InsertEntry(m, expectedMapProperties, k1, v1).value, expectedMapProperties, k2, v2);
            r.Ok? && Get(r.value, path) == Some(v2)
  {
  }

  /** "p.a.b" splits at its dots. */
  lemma ExampleSplit()
    ensures JavaSplit("p.a.b") == ["p", "a", "b"]
  {
    var parts := ["p", "a", "b"];
    assert parts[1..] == ["a", "b"] && parts[1..][1..] == ["b"];
    assert Join(parts) == "p.a.b";
    JavaSplitOfJoin(parts);
  }

  /** The key "p.a.b" under the prefix "p" is stored at the path p, a, b. */
  lemma ExampleKeyPath()
    ensures FirstMatchingPrefix(["p"], "p.a.b") == Some("p")
    ensures JavaSplit("p.a.b") == ["p", "a", "b"]
    ensures KeyPath(["p", "a", "b"], "p") == ["p", "a", "b"]
  {
    ExampleSplit();
    assert StartsWith("p.a.b", "p");
    WholeSegmentPrefixPath(["p"], ["a", "b"], 0);
    assert ["p"] + ["a", "b"] == ["p", "a", "b"];
  }

  /** Storing 2 at a, b below the map {a: {x: 1}} keeps x. */
  lemma ExamplePutBelowMap()
    ensures Put(map["a" := Branch(map["x" := Leaf(1)])], ["a", "b"], Leaf(2))
              == Some(map["a" := Branch(map["x" := Leaf(1), "b" := Leaf(2)])])
  {
    var inner: map<string, Node<int>> := map["x" := Leaf(1)];
    var middle: map<string, Node<int>> := map["a" := Branch(inner)];
    var path: seq<string> := ["a", "b"];
    assert path[0] == "a" && path[1..] == ["b"];
    assert Put(inner, ["b"], Leaf(2)) == Some(map["x" := Leaf(1), "b" := Leaf(2)]);
    assert middle["a" := Branch(map["x" := Leaf(1), "b" := Leaf(2)])]
      == map["a" := Branch(map["x" := Leaf(1), "b" := Leaf(2)])];
  }

  /** Storing 2 at p, a, b below the map {p: {a: {x: 1}}} keeps x. */
  lemma ExamplePut()
    ensures Put(map["p" := Branch(map["a" := Branch(map["x" := Leaf(1)])])], ["p", "a", "b"], Leaf(2))
              == Some(map["p" := Branch(map["a" := Branch(map["x" := Leaf(1), "b" := Leaf(2)])])])
  {
    var before := map["p" := Branch(map["a" := Branch(map["x" := Leaf(1)])])];
    var parts: seq<string> := ["p", "a", "b"];
    ExamplePutBelowMap();
    assert parts[0] == "p" && parts[1..] == ["a", "b"];
    assert before["p" := Branch(map["a" := Branch(map["x" := Leaf(1), "b" := Leaf(2)])])]
      == map["p" := Branch(map["a" := Branch(map["x" := Leaf(1), "b" := Leaf(2)])])];
  }

  /**
   * A property whose value is a map is descended into by a later key: with the prefix "p",
   * after "p.a" stored the map {x: 1}, the key "p.a.b" with value 2 leaves {p: {a: {x: 1, b: 2}}}.
   */
  lemma MapValueIsExtended()
    ensures var before := map["p" := Branch(map["a" := Branch(map["x" := Leaf(1)])])];
            InsertEntry(before, ["p"], "p.a.b", Leaf(2))
              == Ok(map["p" := Branch(map["a" := Branch(map["x" := Leaf(1), "b" := Leaf(2)])])])
  {
    ExampleKeyPath();
    ExamplePut();
  }
}
