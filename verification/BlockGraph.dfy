/**
 startup/environment_check.py: is a swap device, or any block device beneath
 it, a dm-crypt target?
 */
module BlockGraph {
  import Text
  import Wrappers

  /** What reading one entry of /sys/class/block gives. */
  datatype Probe<T> = Missing | Unreadable | Found(value: T)

  /** A device's dm/uuid file and its slaves directory. */
  datatype Device = Device(uuid: Probe<string>, slaves: Probe<seq<string>>)

  /** Slave links may be dangling, shared or cyclic. */
  type Graph = map<string, Device>

  function Lookup(g: Graph, name: string): Device { if name in g then g[name] else Device(Missing, Missing) }

  predicate IsCrypt(d: Device) { d.uuid.Found? && "CRYPT-" <= Text.Strip(d.uuid.value) }

  /** Devices looked at below this one; an error while reading hides them all. */
  function Below(d: Device): seq<string> { if d.uuid.Unreadable? || !d.slaves.Found? then [] else d.slaves.value }

  predicate Edge(g: Graph, a: string, b: string) { b in Below(Lookup(g, a)) }

  ghost predicate IsPath(g: Graph, p: seq<string>, start: string) {
    p != [] && p[0] == start && forall i | 0 < i < |p| :: Edge(g, p[i - 1], p[i])
  }

  /** A dm-crypt device can be reached over slave links. */
  ghost predicate ReachesCrypt(g: Graph, start: string) {
    exists p :: IsPath(g, p, start) && IsCrypt(Lookup(g, p[|p| - 1]))
  }

  lemma ReachesThrough(g: Graph, a: string, b: string)
    requires Edge(g, a, b) && ReachesCrypt(g, b)
    ensures ReachesCrypt(g, a)
  {
    var p :| IsPath(g, p, b) && IsCrypt(Lookup(g, p[|p| - 1]));
    var q := [a] + p;
    forall i | 0 < i < |q|
      ensures Edge(g, q[i - 1], q[i])
    {
      assert i > 1 ==> Edge(g, p[i - 2], p[i - 1]);
    }
    assert IsPath(g, q, a);
  }

  /** This node was visited to the end: it is no dm-crypt device, and all below it are visited too. */
  ghost predicate Explored(g: Graph, n: string, visited: set<string>) {
    !IsCrypt(Lookup(g, n)) && forall m | Edge(g, n, m) :: m in visited
  }

  /** A set closed under slave links and free of dm-crypt devices hides none. */
  lemma ClosedSetReachesNone(g: Graph, visited: set<string>, start: string)
    requires start in visited && forall n | n in visited :: Explored(g, n, visited)
    ensures !ReachesCrypt(g, start)
  {
    forall p | IsPath(g, p, start)
      ensures !IsCrypt(Lookup(g, p[|p| - 1]))
    {
      StaysInside(g, visited, p, start);
      assert Explored(g, p[|p| - 1], visited);
    }
  }

  lemma {:induction false} StaysInside(g: Graph, visited: set<string>, p: seq<string>, start: string)
    requires start in visited && forall n | n in visited :: Explored(g, n, visited)
    requires IsPath(g, p, start)
    ensures p[|p| - 1] in visited
  {
    if |p| > 1 {
      StaysInside(g, visited, p[..|p| - 1], start);
      assert Explored(g, p[|p| - 2], visited) && Edge(g, p[|p| - 2], p[|p| - 1]);
    }
  }

  /** The set object that every call of one search shares. */
  class Seen {
    var names: set<string>

    constructor ()
      ensures names == {}
    {
      names := {};
    }
  }

  /** All names that can come up. */
  ghost predicate Covers(g: Graph, nodes: set<string>) {
    forall a, b | Edge(g, a, b) :: b in nodes
  }

  lemma Shrinks(nodes: set<string>, before: set<string>, after: set<string>, name: string)
    requires name in nodes && name !in before && before + {name} <= after
    ensures |nodes - after| < |nodes - before|
  {
    Wrappers.SubsetSize(nodes - after, nodes - before - {name});
  }

  /**
   `_block_chain_has_dm_crypt`.  Nodes that were on the caller's stack count as
   visited although they are not explored yet; a search that finds nothing
   explores whatever it adds to the set.
   */
  method ChainHasDmCrypt(g: Graph, name: string, seen: Seen, ghost nodes: set<string>) returns (found: bool)
    requires Covers(g, nodes) && name in nodes
    modifies seen
    ensures old(seen.names) + {name} <= seen.names
    ensures found ==> ReachesCrypt(g, name)
    ensures !found ==> forall n | n in seen.names - old(seen.names) :: Explored(g, n, seen.names)
    decreases |nodes - seen.names|
  {
    if name in seen.names {
      return false;
    }
    ghost var before := seen.names;
    seen.names := seen.names + {name};
    var device := Lookup(g, name);
    if IsCrypt(device) {
      assert IsPath(g, [name], name);
      return true;
    }
    var below := Below(device);
    for i := 0 to |below|
      invariant before + {name} <= seen.names
      invariant forall k | 0 <= k < i :: below[k] in seen.names
      invariant forall n | n in seen.names - before - {name} :: Explored(g, n, seen.names)
    {
      Shrinks(nodes, before, seen.names, name);
      assert Edge(g, name, below[i]);
      ghost var earlier := seen.names;
      found := ChainHasDmCrypt(g, below[i], seen, nodes);
      if found {
        ReachesThrough(g, name, below[i]);
        return;
      }
      forall n | n in seen.names - before - {name}
        ensures Explored(g, n, seen.names)
      {
        assert n in earlier ==> n in earlier - before - {name};
        assert n !in earlier ==> n in seen.names - earlier;
      }
    }
    assert Explored(g, name, seen.names);
    found := false;
  }

  /** `_is_dm_crypt_device`, once the device's name is resolved. */
  method IsDmCryptDevice(g: Graph, name: string) returns (found: bool)
    ensures found <==> ReachesCrypt(g, name)
  {
    ghost var slaves := set a, b | a in g && b in Below(g[a]) :: b;
    assert forall a, b | Edge(g, a, b) :: a in g;
    var seen := new Seen();
    found := ChainHasDmCrypt(g, name, seen, slaves + {name});
    if !found {
      ClosedSetReachesNone(g, seen.names, name);
    }
  }
}
