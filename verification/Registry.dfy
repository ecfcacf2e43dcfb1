/** Discovery of feature computers (app/features/registry.py): a worklist over the subclass graph that
    yields the concrete classes, and the dictionary that registers them by key. */
module Registry {
  import opened Sequences
  import opened Wrappers

  type ClassId = nat

  /** Direct subclasses, abstractness and feature key of every class. */
  datatype Graph = Graph(
    subclasses: map<ClassId, seq<ClassId>>, abstractClasses: set<ClassId>, keys: map<ClassId, string>)

  ghost predicate Closed(g: Graph) {
    && g.subclasses.Keys == g.keys.Keys
    && forall c, i :: c in g.subclasses && 0 <= i < |g.subclasses[c]| ==> g.subclasses[c][i] in g.subclasses
  }

  ghost predicate Edge(g: Graph, a: ClassId, b: ClassId) {
    a in g.subclasses && b in g.subclasses[a]
  }

  /** A chain of at least one subclass step from `a` to `b`. */
  ghost predicate IsChain(g: Graph, path: seq<ClassId>, a: ClassId, b: ClassId) {
    && |path| >= 2 && path[0] == a && path[|path| - 1] == b
    && forall i :: 0 <= i < |path| - 1 ==> Edge(g, path[i], path[i + 1])
  }

  ghost predicate Descends(g: Graph, a: ClassId, b: ClassId) {
    exists path :: IsChain(g, path, a, b)
  }

  lemma DirectDescends(g: Graph, a: ClassId, b: ClassId)
    requires Edge(g, a, b)
    ensures Descends(g, a, b)
  {
    assert IsChain(g, [a, b], a, b);
  }

  lemma DescendsFurther(g: Graph, a: ClassId, b: ClassId, c: ClassId)
    requires Descends(g, a, b) && Edge(g, b, c)
    ensures Descends(g, a, c)
  {
    var path :| IsChain(g, path, a, b);
    assert IsChain(g, path + [c], a, c);
  }

  /** Everything a class reaches lies in a set that holds its subclasses and those of its members. */
  lemma {:induction false} ChainStaysInside(g: Graph, path: seq<ClassId>, a: ClassId, b: ClassId, seen: set<ClassId>)
    requires IsChain(g, path, a, b)
    requires forall x, y :: (x == a || x in seen) && Edge(g, x, y) ==> y in seen
    ensures b in seen
    decreases |path|
  {
    assert Edge(g, path[0], path[1]);
    if |path| > 2 {
      forall i | 0 <= i < |path[1..]| - 1 ensures Edge(g, path[1..][i], path[1..][i + 1]) {
        assert Edge(g, path[i + 1], path[i + 1 + 1]);
      }
      ChainStaysInside(g, path[1..], path[1], b, seen);
    }
  }

  /** The traversal's bookkeeping: what is seen descends from the root, what is found are the concrete
      classes seen, and only classes on the stack (or `open`) may have unseen subclasses. */
  ghost predicate Progress(
    g: Graph, root: ClassId, stack: seq<ClassId>, seen: set<ClassId>, found: seq<ClassId>, open: set<ClassId>)
  {
    && seen <= g.subclasses.Keys
    && (forall x :: x in stack ==> x == root || x in seen)
    && (forall x :: x in seen ==> Descends(g, root, x))
    && (forall x, y :: (x == root || x in seen) && x !in stack && x !in open && Edge(g, x, y) ==> y in seen)
    && NoDuplicates(found)
    && (forall x :: x in found <==> x in seen && x !in g.abstractClasses)
  }

  lemma SeeOne(g: Graph, root: ClassId, stack: seq<ClassId>, seen: set<ClassId>, found: seq<ClassId>,
               open: set<ClassId>, cls: ClassId, sub: ClassId)
    requires Closed(g) && Progress(g, root, stack, seen, found, open)
    requires (cls == root || cls in seen) && Edge(g, cls, sub) && sub !in seen
    ensures var more := if sub in g.abstractClasses then found else found + [sub];
      Progress(g, root, stack + [sub], seen + {sub}, more, open)
  {
    if cls == root { DirectDescends(g, root, sub); } else { DescendsFurther(g, root, cls, sub); }
    assert forall x :: x in stack + [sub] <==> x in stack || x == sub;
    assert forall x :: x in found + [sub] <==> x in found || x == sub;
  }

  lemma PopOne(g: Graph, root: ClassId, stack: seq<ClassId>, seen: set<ClassId>, found: seq<ClassId>)
    requires Progress(g, root, stack, seen, found, {}) && stack != []
    ensures var cls := stack[|stack| - 1];
      && (cls == root || cls in seen)
      && Progress(g, root, stack[..|stack| - 1], seen, found, {cls})
  {
    var cls := stack[|stack| - 1];
    assert cls in stack;
    assert forall x :: x in stack ==> x in stack[..|stack| - 1] || x == cls;
  }

  lemma CloseOne(g: Graph, root: ClassId, stack: seq<ClassId>, seen: set<ClassId>, found: seq<ClassId>, cls: ClassId)
    requires Progress(g, root, stack, seen, found, {cls}) && forall y :: Edge(g, cls, y) ==> y in seen
    ensures Progress(g, root, stack, seen, found, {})
  {
  }

  lemma AllSeen(g: Graph, root: ClassId, seen: set<ClassId>, found: seq<ClassId>)
    requires Progress(g, root, [], seen, found, {})
    ensures NoDuplicates(found)
    ensures forall c :: c in found <==> Descends(g, root, c) && c !in g.abstractClasses
  {
    forall c | Descends(g, root, c) ensures c in seen {
      var path :| IsChain(g, path, root, c);
      ChainStaysInside(g, path, root, c, seen);
    }
  }

  lemma StartOne(g: Graph, root: ClassId)
    ensures Progress(g, root, [root], {}, [], {})
  {
  }

  lemma SeenIsKnown(
    g: Graph, root: ClassId, stack: seq<ClassId>, seen: set<ClassId>, found: seq<ClassId>, open: set<ClassId>)
    requires Closed(g) && Progress(g, root, stack, seen, found, open)
    ensures seen <= g.subclasses.Keys
  {
  }

  /** Yields every concrete class that descends from the root, exactly once, on any finite graph. */
  method IterComputers(g: Graph, root: ClassId) returns (found: seq<ClassId>)
    requires Closed(g) && root in g.subclasses
    ensures NoDuplicates(found)
    ensures forall c :: c in found <==> Descends(g, root, c) && c !in g.abstractClasses
  {
    hide Progress, NoDuplicates, Descends, Closed;
    var seen: set<ClassId> := {};
    var stack := [root];
    found := [];
    StartOne(g, root);
    while stack != []
      invariant Progress(g, root, stack, seen, found, {})
      decreases |g.subclasses.Keys - seen|, |stack|
    {
      var cls := stack[|stack| - 1];
      ghost var seenBefore, depth := seen, |stack|;
      PopOne(g, root, stack, seen, found);
      SeenIsKnown(g, root, stack, seen, found, {});
      stack := stack[..|stack| - 1];
      var subs := g.subclasses[cls];
      for i := 0 to |subs|
        invariant Progress(g, root, stack, seen, found, {cls}) && (cls == root || cls in seen)
        invariant forall j :: 0 <= j < i ==> subs[j] in seen
        invariant seenBefore <= seen && (seen == seenBefore ==> |stack| < depth)
      {
        var sub := subs[i];
        if sub !in seen {
          SeeOne(g, root, stack, seen, found, {cls}, cls, sub);
          seen := seen + {sub};
          stack := stack + [sub];
          if sub !in g.abstractClasses {
            found := found + [sub];
          }
        }
      }
      SeenIsKnown(g, root, stack, seen, found, {cls});
      Shrinks(g.subclasses.Keys, seenBefore, seen);
      CloseOne(g, root, stack, seen, found, cls);
    }
    AllSeen(g, root, seen, found);
  }

  lemma Shrinks(all: set<ClassId>, before: set<ClassId>, after: set<ClassId>)
    requires before <= after <= all
    ensures before != after ==> |all - after| < |all - before|
  {
    if before != after {
      assert all - after < all - before;
      ProperSubsetIsSmaller(all - after, all - before);
    }
  }

  lemma ProperSubsetIsSmaller(a: set<ClassId>, b: set<ClassId>)
    requires a < b
    ensures |a| < |b|
  {
    assert b == a + (b - a);
    var x :| x in b - a;
    assert b - a != {};
  }

  // ---------------------------------------------------------------- the registry

  /** The dictionary over the classes found: a later class replaces an earlier one with its key. */
  ghost function ByKey(g: Graph, found: seq<ClassId>): map<string, ClassId>
    requires forall c :: c in found ==> c in g.keys
  {
    if found == [] then map[]
    else
      var init, last := ByKey(g, found[..|found| - 1]), found[|found| - 1];
      if g.keys[last] != "" then init[g.keys[last] := last] else init
  }

  ghost predicate IsLastWith(g: Graph, found: seq<ClassId>, key: string, c: ClassId)
    requires forall c :: c in found ==> c in g.keys
  {
    exists i ::
      && 0 <= i < |found| && found[i] == c && g.keys[c] == key
      && (forall j :: i < j < |found| ==> g.keys[found[j]] != key)
  }

  /** A key is registered exactly when some class found carries it, with the last class that does. */
  lemma {:induction false} ByKeyIsLast(g: Graph, found: seq<ClassId>, key: string)
    requires forall c :: c in found ==> c in g.keys
    ensures key in ByKey(g, found) <==> key != "" && exists c :: c in found && g.keys[c] == key
    ensures key in ByKey(g, found) ==> IsLastWith(g, found, key, ByKey(g, found)[key])
  {
    if found != [] {
      var init, last := found[..|found| - 1], found[|found| - 1];
      ByKeyIsLast(g, init, key);
      if key == g.keys[last] {
        assert found[|found| - 1] == last;
      } else if key in ByKey(g, init) {
        LastStaysLast(g, found, key, ByKey(g, init)[key]);
      }
    }
  }

  lemma LastStaysLast(g: Graph, found: seq<ClassId>, key: string, c: ClassId)
    requires found != [] && forall c :: c in found ==> c in g.keys
    requires g.keys[found[|found| - 1]] != key && IsLastWith(g, found[..|found| - 1], key, c)
    ensures IsLastWith(g, found, key, c)
  {
    var init := found[..|found| - 1];
    var i :|
      && 0 <= i < |init| && init[i] == c && g.keys[c] == key
      && (forall j :: i < j < |init| ==> g.keys[init[j]] != key);
    assert found[i] == c;
    forall j | i < j < |found| ensures g.keys[found[j]] != key {
      if j < |init| { assert init[j] == found[j]; }
    }
  }

  /** A concrete descendant of the root with a key. */
  ghost predicate Carries(g: Graph, root: ClassId, c: ClassId) {
    Descends(g, root, c) && c !in g.abstractClasses && c in g.keys && g.keys[c] != ""
  }

  ghost predicate KeysDiffer(g: Graph, root: ClassId)
    requires Closed(g)
  {
    forall a, b :: Carries(g, root, a) && Carries(g, root, b) && g.keys[a] == g.keys[b] ==> a == b
  }

  /** What the registry promises: it knows exactly the keys of the concrete descendants. */
  ghost predicate Registers(g: Graph, root: ClassId, registry: map<string, ClassId>)
    requires Closed(g)
  {
    && (forall key :: key in registry ==> Carries(g, root, registry[key]) && g.keys[registry[key]] == key)
    && (forall c :: Carries(g, root, c) ==> g.keys[c] in registry)
  }

  lemma DescendantIsKnown(g: Graph, root: ClassId, c: ClassId)
    requires Closed(g) && Descends(g, root, c)
    ensures c in g.keys
  {
    var path :| IsChain(g, path, root, c);
    assert Edge(g, path[|path| - 2], path[|path| - 2 + 1]);
  }

  lemma SameRegistry(g: Graph, root: ClassId, a: map<string, ClassId>, b: map<string, ClassId>)
    requires Closed(g) && KeysDiffer(g, root) && Registers(g, root, a) && Registers(g, root, b)
    ensures a == b
  {
    hide Descends;
    assert forall key :: key in a <==> key in b;
  }

  /** An order in which the concrete descendants may be found. */
  ghost predicate IsListing(g: Graph, root: ClassId, found: seq<ClassId>) {
    NoDuplicates(found) && forall c :: c in found <==> Descends(g, root, c) && c !in g.abstractClasses
  }

  lemma ListingIsKnown(g: Graph, root: ClassId, found: seq<ClassId>)
    requires Closed(g) && IsListing(g, root, found)
    ensures forall c :: c in found ==> c in g.keys
  {
    forall c | c in found ensures c in g.keys { DescendantIsKnown(g, root, c); }
  }

  lemma ListingRegisters(g: Graph, root: ClassId, found: seq<ClassId>)
    requires Closed(g) && IsListing(g, root, found) && forall c :: c in found ==> c in g.keys
    ensures Registers(g, root, ByKey(g, found))
  {
    hide Descends, ByKey;
    var registry := ByKey(g, found);
    forall key | key in registry ensures Carries(g, root, registry[key]) && g.keys[registry[key]] == key {
      ByKeyIsLast(g, found, key);
    }
    forall c | Carries(g, root, c) ensures g.keys[c] in registry { ByKeyIsLast(g, found, g.keys[c]); }
  }

  /** `found` with `c` found last. */
  ghost function MovedLast(found: seq<ClassId>, c: ClassId): seq<ClassId> {
    (if c in found then var i :| 0 <= i < |found| && found[i] == c; found[..i] + found[i + 1..] else found) + [c]
  }

  lemma MovedLastIsListing(g: Graph, root: ClassId, found: seq<ClassId>, c: ClassId)
    requires IsListing(g, root, found) && c in found
    ensures IsListing(g, root, MovedLast(found, c))
  {
    hide Descends;
    var moved := MovedLast(found, c);
    var i :| 0 <= i < |found| && found[i] == c && moved == found[..i] + found[i + 1..] + [c];
    forall x ensures x in moved <==> x in found {
      if x in found && x != c {
        var k :| 0 <= k < |found| && found[k] == x;
        assert moved[if k < i then k else k - 1] == x;
      }
    }
  }

  lemma LastIsRegistered(g: Graph, found: seq<ClassId>, c: ClassId)
    requires forall x :: x in MovedLast(found, c) ==> x in g.keys
    requires c in g.keys && g.keys[c] != ""
    ensures g.keys[c] in ByKey(g, MovedLast(found, c)) && ByKey(g, MovedLast(found, c))[g.keys[c]] == c
  {
    var moved := MovedLast(found, c);
    assert moved[|moved| - 1] == c;
  }

  ghost predicate SameDictionary(g: Graph, a: seq<ClassId>, b: seq<ClassId>) {
    && (forall c :: c in a ==> c in g.keys)
    && (forall c :: c in b ==> c in g.keys)
    && ByKey(g, a) == ByKey(g, b)
  }

  /** The order of discovery does not matter exactly when no two concrete descendants share a key. */
  lemma RegistryIsUniqueIff(g: Graph, root: ClassId, found: seq<ClassId>)
    requires Closed(g) && IsListing(g, root, found)
    ensures KeysDiffer(g, root) <==> forall other :: IsListing(g, root, other) ==> SameDictionary(g, other, found)
  {
    hide Descends, ByKey, NoDuplicates, MovedLast, Registers;
    ListingIsKnown(g, root, found);
    if KeysDiffer(g, root) {
      forall other | IsListing(g, root, other) ensures SameDictionary(g, other, found) {
        ListingIsKnown(g, root, other);
        ListingRegisters(g, root, other);
        ListingRegisters(g, root, found);
        SameRegistry(g, root, ByKey(g, other), ByKey(g, found));
      }
    }
    if forall other :: IsListing(g, root, other) ==> SameDictionary(g, other, found) {
      forall a, b | Carries(g, root, a) && Carries(g, root, b) && g.keys[a] == g.keys[b] ensures a == b {
        FoundLast(g, root, found, a);
        FoundLast(g, root, found, b);
      }
    }
  }

  lemma FoundLast(g: Graph, root: ClassId, found: seq<ClassId>, c: ClassId)
    requires Closed(g) && IsListing(g, root, found) && Carries(g, root, c)
    ensures var moved := MovedLast(found, c);
      && IsListing(g, root, moved)
      && (SameDictionary(g, moved, found) ==> g.keys[c] in ByKey(g, found) && ByKey(g, found)[g.keys[c]] == c)
  {
    hide Descends, ByKey;
    MovedLastIsListing(g, root, found, c);
    ListingIsKnown(g, root, MovedLast(found, c));
    LastIsRegistered(g, found, c);
  }

  /** `registry` is the dictionary over some listing of the concrete descendants: of the classes that
      share a key it holds the one found last. */
  ghost predicate BuiltFrom(g: Graph, root: ClassId, found: seq<ClassId>, registry: map<string, ClassId>) {
    IsListing(g, root, found) && (forall c :: c in found ==> c in g.keys) && registry == ByKey(g, found)
  }

  class FeatureRegistry {
    var cache: Option<map<string, ClassId>>

    constructor ()
      ensures cache == None
    {
      cache := None;
    }

    /** Built on the first call; later calls return the same dictionary, whatever classes exist by then. */
    method Get(g: Graph, root: ClassId) returns (registry: map<string, ClassId>)
      requires Closed(g) && root in g.subclasses
      modifies this
      ensures cache == Some(registry)
      ensures old(cache).Some? ==> cache == old(cache)
      ensures old(cache).None? ==> Registers(g, root, registry) && exists found :: BuiltFrom(g, root, found, registry)
    {
      hide Descends, NoDuplicates, Registers;
      if cache.None? {
        var found := IterComputers(g, root);
        assert IsListing(g, root, found);
        ListingIsKnown(g, root, found);
        var byKey: map<string, ClassId> := map[];
        for i := 0 to |found|
          invariant byKey == ByKey(g, found[..i])
        {
          assert found[..i + 1][..i] == found[..i];
          if g.keys[found[i]] != "" {
            byKey := byKey[g.keys[found[i]] := found[i]];
          }
        }
        assert found[..|found|] == found;
        ListingRegisters(g, root, found);
        assert BuiltFrom(g, root, found, byKey);
        cache := Some(byKey);
      }
      registry := cache.value;
    }

    method GetFeatureComputer(g: Graph, root: ClassId, key: string) returns (c: Option<ClassId>)
      requires Closed(g) && root in g.subclasses
      modifies this
      ensures cache.Some? && (old(cache).Some? ==> cache == old(cache))
      ensures old(cache).None? ==> Registers(g, root, cache.value)
      ensures old(cache).None? ==> exists found :: BuiltFrom(g, root, found, cache.value)
      ensures c == if key in cache.value then Some(cache.value[key]) else None
    {
      var registry := Get(g, root);
      c := if key in registry then Some(registry[key]) else None;
    }
  }
}
