/**
 * Property values and the nested maps of the translating environment's `multilayer`: a value
 * is either a java.util.Map, whose entries are again values, or any other object.
 */
module PropertyTree {
  import opened Wrappers

  /** A property value: `Branch` is a java.util.Map (the `instanceof Map` test), `Leaf` anything else. */
  datatype Node<V> = Leaf(value: V) | Branch(children: map<string, Node<V>>)

  /** The slot reached by following `path` from `m`, if every step before the last is a map. */
  function Get<V>(m: map<string, Node<V>>, path: seq<string>): Option<Node<V>>
    requires |path| >= 1
    decreases |path|
  {
    if path[0] !in m then None
    else if |path| == 1 then Some(m[path[0]])
    else match m[path[0]]
      case Leaf(_) => None
      case Branch(c) => Get(c, path[1..])
  }

  /** Some proper prefix of `path` already holds a plain value in `m`. */
  ghost predicate Blocked<V>(m: map<string, Node<V>>, path: seq<string>)
    requires |path| >= 1
  {
    exists n :: 1 <= n < |path| && Get(m, path[..n]).Some? && Get(m, path[..n]).value.Leaf?
  }

  /**
   * Stores `v` at `path`, creating empty maps for missing intermediate slots
   * (computeIfAbsent) and replacing whatever the last slot held (put). None when an
   * intermediate slot holds a plain value: the key cannot become a map of maps.
   */
  function Put<V>(m: map<string, Node<V>>, path: seq<string>, v: Node<V>): Option<map<string, Node<V>>>
    requires |path| >= 1
    decreases |path|
  {
    if |path| == 1 then Some(m[path[0] := v])
    else
      var child: map<string, Node<V>> :=
        if path[0] !in m then map[] else if m[path[0]].Branch? then m[path[0]].children else map[];
      if path[0] in m && m[path[0]].Leaf? then None
      else match Put(child, path[1..], v)
        case None => None
        case Some(c) => Some(m[path[0] := Branch(c)])
  }

  /** After a successful Put the value is found at its path. */
  lemma {:induction false} PutThenGet<V>(m: map<string, Node<V>>, path: seq<string>, v: Node<V>)
    requires |path| >= 1 && Put(m, path, v).Some?
    ensures Get(Put(m, path, v).value, path) == Some(v)
    decreases |path|
  {
    if |path| > 1 {
      var child := if path[0] !in m then map[] else m[path[0]].children;
      PutThenGet(child, path[1..], v);
    }
  }

  /** Put fails exactly when a proper prefix of the path already holds a plain value. */
  lemma {:induction false} PutFailsIffBlocked<V>(m: map<string, Node<V>>, path: seq<string>, v: Node<V>)
    requires |path| >= 1
    ensures Put(m, path, v).None? <==> Blocked(m, path)
    decreases |path|
  {
    if |path| > 1 {
      var k := path[0];
      if k in m && m[k].Leaf? {
        assert path[..1] == [k];
        assert Get(m, path[..1]) == Some(m[k]);
      } else {
        var child: map<string, Node<V>> := if k !in m then map[] else m[k].children;
        PutFailsIffBlocked(child, path[1..], v);
        if Blocked(child, path[1..]) {
          var n :| 1 <= n < |path[1..]| && Get(child, path[1..][..n]).Some? && Get(child, path[1..][..n]).value.Leaf?;
          assert path[..n + 1][1..] == path[1..][..n];
          assert Get(m, path[..n + 1]) == Get(child, path[1..][..n]);
        }
        if Blocked(m, path) {
          var n :| 1 <= n < |path| && Get(m, path[..n]).Some? && Get(m, path[..n]).value.Leaf?;
          assert n > 1 by {
            if n == 1 {
              assert path[..1] == [k];
            }
          }
          assert path[..n][1..] == path[1..][..n - 1];
          assert Get(child, path[1..][..n - 1]) == Get(m, path[..n]);
        }
      }
    }
  }

  /** Put leaves alone every path that parts from the written one before either ends. */
  lemma {:induction false} PutKeepsOtherPaths<V>(m: map<string, Node<V>>, path: seq<string>, v: Node<V>, q: seq<string>, d: nat)
    requires |path| >= 1 && Put(m, path, v).Some?
    requires d < |path| && d < |q| && path[..d] == q[..d] && path[d] != q[d]
    ensures Get(Put(m, path, v).value, q) == Get(m, q)
    decreases d
  {
    if d > 0 {
      assert path[0] == q[0] by { assert path[..d][0] == q[..d][0]; }
      assert path[1..][..d - 1] == path[..d][1..];
      assert q[1..][..d - 1] == q[..d][1..];
      var child: map<string, Node<V>> := if path[0] !in m then map[] else m[path[0]].children;
      PutKeepsOtherPaths(child, path[1..], v, q[1..], d - 1);
    }
  }
}
