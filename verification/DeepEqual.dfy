/** `deepDirectionalEqual` on object graphs: does the right object contain every key of the left, recursively?
    Each left object is compared once; meeting it again counts as equal. */
module DeepEqual {

  /** A primitive (null, undefined and functions included), known by an identity, or a reference to an object. */
  datatype Value = Prim(id: int) | Ref(target: nat)

  /** `keys` lists the own enumerable keys in order. */
  datatype Object = Object(keys: seq<string>, fields: map<string, Value>)

  type Heap = map<nat, Object>

  predicate Known(h: Heap, v: Value) {
    v.Ref? ==> v.target in h
  }

  /** The keys of an object are listed once and lead to known values. */
  predicate Closed(h: Heap) {
    forall o :: o in h ==>
      && (forall i :: 0 <= i < |h[o].keys| ==>
            h[o].keys[i] in h[o].fields && Known(h, h[o].fields[h[o].keys[i]]))
      && (forall i, j :: 0 <= i < j < |h[o].keys| ==> h[o].keys[i] != h[o].keys[j])
  }

  // The answer, and the left objects seen when it is given.

  function Compare(h: Heap, a: Value, b: Value, seen: set<nat>): (r: (bool, set<nat>))
    requires Closed(h) && Known(h, a) && Known(h, b)
    ensures seen <= r.1
    decreases h.Keys - seen, 0, 0
  {
    if a == b then (true, seen)
    else if !a.Ref? || !b.Ref? then (false, seen)
    else if a.target in seen then (true, seen)
    else
      assert a.target in h.Keys - seen && a.target !in h.Keys - (seen + {a.target});
      CompareKeys(h, a.target, b.target, seen + {a.target}, 0)
  }

  /** The comparison of the keys of `o` from position `i` on. */
  function CompareKeys(h: Heap, o: nat, p: nat, seen: set<nat>, i: nat): (r: (bool, set<nat>))
    requires Closed(h) && o in h && p in h && i <= |h[o].keys|
    ensures seen <= r.1
    decreases h.Keys - seen, 1, |h[o].keys| - i
  {
    if i == |h[o].keys| then (true, seen)
    else
      var key := h[o].keys[i];
      if key !in h[p].keys then (false, seen)
      else
        var first := Compare(h, h[o].fields[key], h[p].fields[key], seen);
        if !first.0 then first else CompareKeys(h, o, p, first.1, i + 1)
  }

  class SeenSet {
    var objects: set<nat>

    constructor ()
      ensures objects == {}
    {
      objects := {};
    }
  }

  method DeepDirectionalEqual(h: Heap, obj1: Value, obj2: Value, seenObjects: SeenSet) returns (equal: bool)
    requires Closed(h) && Known(h, obj1) && Known(h, obj2)
    modifies seenObjects
    ensures (equal, seenObjects.objects) == Compare(h, obj1, obj2, old(seenObjects.objects))
    decreases h.Keys - seenObjects.objects
  {
    if obj1 == obj2 {
      return true;
    }
    if !obj1.Ref? || !obj2.Ref? {
      return false;
    }
    if obj1.target in seenObjects.objects {
      return true;
    }
    ghost var before := seenObjects.objects;
    seenObjects.objects := seenObjects.objects + {obj1.target};
    ghost var result := CompareKeys(h, obj1.target, obj2.target, seenObjects.objects, 0);
    var keys1, keys2 := h[obj1.target].keys, h[obj2.target].keys;
    for i := 0 to |keys1|
      invariant before + {obj1.target} <= seenObjects.objects
      invariant result == CompareKeys(h, obj1.target, obj2.target, seenObjects.objects, i)
    {
      assert obj1.target in h.Keys - before && obj1.target !in h.Keys - seenObjects.objects;
      if keys1[i] !in keys2 {
        return false;
      }
      var same := DeepDirectionalEqual(h, h[obj1.target].fields[keys1[i]], h[obj2.target].fields[keys1[i]],
                                       seenObjects);
      if !same {
        return false;
      }
    }
    return true;
  }

  // Simulations.

  predicate Related(related: set<(nat, nat)>, a: Value, b: Value) {
    a == b || (a.Ref? && b.Ref? && (a.target, b.target) in related)
  }

  /** Related objects are known, and the right one has every key of the left one with related values. */
  predicate Simulation(h: Heap, related: set<(nat, nat)>) {
    forall pair :: pair in related ==>
      && pair.0 in h && pair.1 in h
      && forall i :: 0 <= i < |h[pair.0].keys| ==>
           && h[pair.0].keys[i] in h[pair.1].keys
           && h[pair.0].keys[i] in h[pair.0].fields && h[pair.0].keys[i] in h[pair.1].fields
           && Related(related, h[pair.0].fields[h[pair.0].keys[i]], h[pair.1].fields[h[pair.0].keys[i]])
  }

  /** The comparison answers true whenever a simulation relates the two, on cyclic graphs too. */
  lemma {:induction false} SimulationImpliesEqual(h: Heap, related: set<(nat, nat)>, a: Value, b: Value, seen: set<nat>)
    requires Closed(h) && Known(h, a) && Known(h, b)
    requires Simulation(h, related) && Related(related, a, b)
    ensures Compare(h, a, b, seen).0
    decreases h.Keys - seen, 0, 0
  {
    if a != b && a.target !in seen {
      assert a.target in h.Keys - seen && a.target !in h.Keys - (seen + {a.target});
      SimulationImpliesEqualKeys(h, related, a.target, b.target, seen + {a.target}, 0);
    }
  }

  lemma {:induction false} SimulationImpliesEqualKeys(h: Heap, related: set<(nat, nat)>, o: nat, p: nat, seen: set<nat>,
                                                      i: nat)
    requires Closed(h) && o in h && p in h && i <= |h[o].keys|
    requires Simulation(h, related) && (o, p) in related
    ensures CompareKeys(h, o, p, seen, i).0
    decreases h.Keys - seen, 1, |h[o].keys| - i
  {
    if i < |h[o].keys| {
      var key := h[o].keys[i];
      var pair := (o, p);
      assert pair in related;
      assert h[pair.0].keys[i] in h[pair.1].keys;
      SimulationImpliesEqual(h, related, h[o].fields[key], h[p].fields[key], seen);
      var next := Compare(h, h[o].fields[key], h[p].fields[key], seen).1;
      SimulationImpliesEqualKeys(h, related, o, p, next, i + 1);
    }
  }

  // What an answer of true means on any graph.

  /** Object `p` has every key of `o`, with values that are identical, or are both objects, the left one among
      `seen`. */
  predicate Matches(h: Heap, o: nat, p: nat, seen: set<nat>, from: nat)
    requires Closed(h)
  {
    && o in h && p in h
    && forall i :: from <= i < |h[o].keys| ==>
         && h[o].keys[i] in h[p].keys && h[o].keys[i] in h[p].fields
         && Paired(h[o].fields[h[o].keys[i]], h[p].fields[h[o].keys[i]], seen)
  }

  predicate Paired(a: Value, b: Value, seen: set<nat>) {
    a == b || (a.Ref? && b.Ref? && a.target in seen)
  }

  /** Every left object met on the way has a partner that matches it. */
  lemma {:induction false} EqualMeansMatched(h: Heap, a: Value, b: Value, seen: set<nat>)
    returns (partner: map<nat, nat>)
    requires Closed(h) && Known(h, a) && Known(h, b) && Compare(h, a, b, seen).0
    ensures partner.Keys == Compare(h, a, b, seen).1 - seen
    ensures Paired(a, b, Compare(h, a, b, seen).1)
    ensures forall o :: o in partner ==> Matches(h, o, partner[o], Compare(h, a, b, seen).1, 0)
    decreases h.Keys - seen, 0, 0
  {
    if a == b || a.target in seen {
      return map[];
    }
    assert a.target in h.Keys - seen && a.target !in h.Keys - (seen + {a.target});
    partner := EqualKeysMeanMatched(h, a.target, b.target, seen + {a.target}, 0);
    partner := partner[a.target := b.target];
  }

  lemma {:induction false} EqualKeysMeanMatched(h: Heap, o: nat, p: nat, seen: set<nat>, i: nat)
    returns (partner: map<nat, nat>)
    requires Closed(h) && o in h && p in h && i <= |h[o].keys| && CompareKeys(h, o, p, seen, i).0
    ensures partner.Keys == CompareKeys(h, o, p, seen, i).1 - seen
    ensures Matches(h, o, p, CompareKeys(h, o, p, seen, i).1, i)
    ensures forall q :: q in partner ==> Matches(h, q, partner[q], CompareKeys(h, o, p, seen, i).1, 0)
    decreases h.Keys - seen, 1, |h[o].keys| - i
  {
    if i == |h[o].keys| {
      return map[];
    }
    var key := h[o].keys[i];
    var first := EqualMeansMatched(h, h[o].fields[key], h[p].fields[key], seen);
    var next := Compare(h, h[o].fields[key], h[p].fields[key], seen).1;
    var rest := EqualKeysMeanMatched(h, o, p, next, i + 1);
    partner := first + rest;
  }

  // Tree-shaped left objects.

  datatype Tree = Leaf(id: int) | Node(target: nat, children: Forest)
  datatype Forest = Nil | Cons(head: Tree, tail: Forest)

  function Nodes(t: Tree): set<nat> {
    match t
    case Leaf(_) => {}
    case Node(o, children) => {o} + NodesOf(children)
  }

  function NodesOf(f: Forest): set<nat> {
    match f
    case Nil => {}
    case Cons(head, tail) => Nodes(head) + NodesOf(tail)
  }

  function Occurrences(t: Tree, o: nat): nat {
    match t
    case Leaf(_) => 0
    case Node(target, children) => (if target == o then 1 else 0) + OccurrencesOf(children, o)
  }

  function OccurrencesOf(f: Forest, o: nat): nat {
    match f
    case Nil => 0
    case Cons(head, tail) => Occurrences(head, o) + OccurrencesOf(tail, o)
  }

  lemma {:induction false} NodesOccur(t: Tree, o: nat)
    ensures o in Nodes(t) <==> Occurrences(t, o) > 0
    decreases t
  {
    if t.Node? {
      NodesOfOccur(t.children, o);
    }
  }

  lemma {:induction false} NodesOfOccur(f: Forest, o: nat)
    ensures o in NodesOf(f) <==> OccurrencesOf(f, o) > 0
    decreases f
  {
    if f.Cons? {
      NodesOccur(f.head, o);
      NodesOfOccur(f.tail, o);
    }
  }

  /** The value `v` unfolds to the tree `t`. */
  predicate Unfolds(h: Heap, v: Value, t: Tree)
    requires Closed(h)
    decreases t
  {
    match t
    case Leaf(id) => v == Prim(id)
    case Node(o, children) => v == Ref(o) && o in h && UnfoldsFrom(h, o, 0, children)
  }

  predicate UnfoldsFrom(h: Heap, o: nat, i: nat, f: Forest)
    requires Closed(h) && o in h && i <= |h[o].keys|
    decreases f
  {
    match f
    case Nil => i == |h[o].keys|
    case Cons(head, tail) =>
      i < |h[o].keys| && Unfolds(h, h[o].fields[h[o].keys[i]], head) && UnfoldsFrom(h, o, i + 1, tail)
  }

  /** Recursive containment, with no memory of objects seen. */
  predicate Contains(h: Heap, t: Tree, b: Value)
    requires Closed(h) && Known(h, b)
    decreases t
  {
    match t
    case Leaf(id) => b == Prim(id)
    case Node(o, children) => b.Ref? && o in h && ContainsFrom(h, o, b.target, 0, children)
  }

  predicate ContainsFrom(h: Heap, o: nat, p: nat, i: nat, f: Forest)
    requires Closed(h) && o in h && p in h && i <= |h[o].keys|
    decreases f
  {
    match f
    case Nil => true
    case Cons(head, tail) =>
      && i < |h[o].keys|
      && h[o].keys[i] in h[p].keys
      && Contains(h, head, h[p].fields[h[o].keys[i]])
      && ContainsFrom(h, o, p, i + 1, tail)
  }

  lemma {:induction false} TreeContainsItself(h: Heap, v: Value, t: Tree)
    requires Closed(h) && Known(h, v) && Unfolds(h, v, t)
    ensures Contains(h, t, v)
    decreases t
  {
    if t.Node? {
      ForestContainsItself(h, t.target, 0, t.children);
    }
  }

  lemma {:induction false} ForestContainsItself(h: Heap, o: nat, i: nat, f: Forest)
    requires Closed(h) && o in h && i <= |h[o].keys| && UnfoldsFrom(h, o, i, f)
    ensures ContainsFrom(h, o, o, i, f)
    decreases f
  {
    if f.Cons? {
      TreeContainsItself(h, h[o].fields[h[o].keys[i]], f.head);
      ForestContainsItself(h, o, i + 1, f.tail);
    }
  }

  // Sharing.

  predicate Keyless(h: Heap, o: nat) {
    o in h && h[o].keys == []
  }

  /** Whatever occurs twice has no keys. */
  predicate Harmless(h: Heap, t: Tree) {
    forall o :: o in Nodes(t) && Occurrences(t, o) >= 2 ==> Keyless(h, o)
  }

  predicate HarmlessForest(h: Heap, f: Forest) {
    forall o :: o in NodesOf(f) && OccurrencesOf(f, o) >= 2 ==> Keyless(h, o)
  }

  /** Of the tree only objects without keys have been seen. */
  predicate Unseen(h: Heap, nodes: set<nat>, seen: set<nat>) {
    forall o :: o in nodes && o in seen ==> Keyless(h, o)
  }

  /** When sharing is harmless, the answer is recursive containment. */
  lemma {:induction false} HarmlessComparison(h: Heap, a: Value, b: Value, seen: set<nat>, t: Tree)
    requires Closed(h) && Known(h, a) && Known(h, b)
    requires Unfolds(h, a, t) && Harmless(h, t) && Unseen(h, Nodes(t), seen)
    ensures Compare(h, a, b, seen).0 <==> Contains(h, t, b)
    ensures Compare(h, a, b, seen).1 <= seen + Nodes(t)
    decreases t
  {
    if a == b {
      TreeContainsItself(h, a, t);
    } else if a.Ref? && b.Ref? {
      if a.target in seen {
        assert t.children == Nil;
      } else {
        forall o | o in NodesOf(t.children)
          ensures OccurrencesOf(t.children, o) > 0 && (OccurrencesOf(t.children, o) >= 2 || o == a.target ==>
              Keyless(h, o))
        {
          NodesOfOccur(t.children, o);
        }
        HarmlessForestComparison(h, a.target, b.target, seen + {a.target}, 0, t.children);
      }
    }
  }

  lemma {:induction false} HarmlessForestComparison(h: Heap, o: nat, p: nat, seen: set<nat>, i: nat, f: Forest)
    requires Closed(h) && o in h && p in h && i <= |h[o].keys|
    requires UnfoldsFrom(h, o, i, f) && HarmlessForest(h, f) && Unseen(h, NodesOf(f), seen)
    ensures CompareKeys(h, o, p, seen, i).0 <==> ContainsFrom(h, o, p, i, f)
    ensures CompareKeys(h, o, p, seen, i).1 <= seen + NodesOf(f)
    decreases f
  {
    if f.Cons? {
      var key := h[o].keys[i];
      if key in h[p].keys {
        HarmlessParts(h, f);
        HarmlessComparison(h, h[o].fields[key], h[p].fields[key], seen, f.head);
        var next := Compare(h, h[o].fields[key], h[p].fields[key], seen);
        if next.0 {
          HarmlessForestComparison(h, o, p, next.1, i + 1, f.tail);
        }
      }
    }
  }

  lemma HarmlessParts(h: Heap, f: Forest)
    requires f.Cons? && HarmlessForest(h, f)
    ensures Harmless(h, f.head) && HarmlessForest(h, f.tail)
    ensures forall o :: o in Nodes(f.head) && o in NodesOf(f.tail) ==> Keyless(h, o)
  {
    forall o | o in NodesOf(f)
      ensures o in Nodes(f.head) <==> Occurrences(f.head, o) > 0
      ensures o in NodesOf(f.tail) <==> OccurrencesOf(f.tail, o) > 0
    {
      NodesOccur(f.head, o);
      NodesOfOccur(f.tail, o);
    }
  }

  /** On a tree-shaped left object, none of it seen before, the answer is recursive containment. */
  lemma TreeComparisonIsContainment(h: Heap, a: Value, b: Value, seen: set<nat>, t: Tree)
    requires Closed(h) && Known(h, a) && Known(h, b)
    requires Unfolds(h, a, t) && (forall o :: o in Nodes(t) ==> Occurrences(t, o) == 1) && Nodes(t) !! seen
    ensures Compare(h, a, b, seen).0 <==> Contains(h, t, b)
  {
    HarmlessComparison(h, a, b, seen, t);
  }

  // When sharing does harm: more objects, in memory that holds the old ones.

  predicate Extends(h': Heap, h: Heap) {
    forall o :: o in h ==> o in h' && h'[o] == h[o]
  }

  lemma {:induction false} CompareFrame(h: Heap, h': Heap, a: Value, b: Value, seen: set<nat>)
    requires Closed(h) && Closed(h') && Extends(h', h) && Known(h, a) && Known(h, b)
    ensures Compare(h', a, b, seen) == Compare(h, a, b, seen)
    decreases h.Keys - seen, 0, 0
  {
    if a != b && a.Ref? && b.Ref? && a.target !in seen {
      assert a.target in h.Keys - seen && a.target !in h.Keys - (seen + {a.target});
      CompareKeysFrame(h, h', a.target, b.target, seen + {a.target}, 0);
    }
  }

  lemma {:induction false} CompareKeysFrame(h: Heap, h': Heap, o: nat, p: nat, seen: set<nat>, i: nat)
    requires Closed(h) && Closed(h') && Extends(h', h) && o in h && p in h && i <= |h[o].keys|
    ensures CompareKeys(h', o, p, seen, i) == CompareKeys(h, o, p, seen, i)
    decreases h.Keys - seen, 1, |h[o].keys| - i
  {
    if i < |h[o].keys| && h[o].keys[i] in h[p].keys {
      var key := h[o].keys[i];
      assert exists k :: 0 <= k < |h[p].keys| && h[p].keys[k] == key;
      CompareFrame(h, h', h[o].fields[key], h[p].fields[key], seen);
      CompareKeysFrame(h, h', o, p, Compare(h, h[o].fields[key], h[p].fields[key], seen).1, i + 1);
    }
  }

  lemma {:induction false} UnfoldsFrame(h: Heap, h': Heap, v: Value, t: Tree)
    requires Closed(h) && Closed(h') && Extends(h', h) && Unfolds(h, v, t)
    ensures Unfolds(h', v, t)
    decreases t
  {
    if t.Node? {
      UnfoldsFromFrame(h, h', t.target, 0, t.children);
    }
  }

  lemma {:induction false} UnfoldsFromFrame(h: Heap, h': Heap, o: nat, i: nat, f: Forest)
    requires Closed(h) && Closed(h') && Extends(h', h) && o in h && i <= |h[o].keys| && UnfoldsFrom(h, o, i, f)
    ensures UnfoldsFrom(h', o, i, f)
    decreases f
  {
    if f.Cons? {
      UnfoldsFrame(h, h', h[o].fields[h[o].keys[i]], f.head);
      UnfoldsFromFrame(h, h', o, i + 1, f.tail);
    }
  }

  lemma {:induction false} ContainsFrame(h: Heap, h': Heap, v: Value, t: Tree, b: Value)
    requires Closed(h) && Closed(h') && Extends(h', h) && Unfolds(h, v, t) && Known(h, b)
    ensures Contains(h', t, b) <==> Contains(h, t, b)
    decreases t
  {
    if t.Node? && b.Ref? {
      ContainsFromFrame(h, h', t.target, b.target, 0, t.children);
    }
  }

  lemma {:induction false} ContainsFromFrame(h: Heap, h': Heap, o: nat, p: nat, i: nat, f: Forest)
    requires Closed(h) && Closed(h') && Extends(h', h) && o in h && p in h && i <= |h[o].keys|
        && UnfoldsFrom(h, o, i, f)
    ensures ContainsFrom(h', o, p, i, f) <==> ContainsFrom(h, o, p, i, f)
    decreases f
  {
    if f.Cons? && h[o].keys[i] in h[p].keys {
      ContainsFrame(h, h', h[o].fields[h[o].keys[i]], f.head, h[p].fields[h[o].keys[i]]);
      ContainsFromFrame(h, h', o, p, i + 1, f.tail);
    }
  }

  // Children.

  function Length(f: Forest): nat {
    if f.Nil? then 0 else 1 + Length(f.tail)
  }

  function ChildAt(f: Forest, k: nat): Tree
    requires k < Length(f)
  {
    if k == 0 then f.head else ChildAt(f.tail, k - 1)
  }

  lemma {:induction false} ChildUnfolds(h: Heap, o: nat, i: nat, f: Forest, k: nat)
    requires Closed(h) && o in h && i <= |h[o].keys| && UnfoldsFrom(h, o, i, f) && k < Length(f)
    ensures i + k < |h[o].keys| && Unfolds(h, h[o].fields[h[o].keys[i + k]], ChildAt(f, k))
    ensures ChildAt(f, k) < f && Nodes(ChildAt(f, k)) <= NodesOf(f)
    decreases f
  {
    if k > 0 {
      ChildUnfolds(h, o, i + 1, f.tail, k - 1);
    }
  }

  lemma {:induction false} ChildIsContained(h: Heap, o: nat, p: nat, i: nat, f: Forest, k: nat)
    requires Closed(h) && o in h && p in h && i <= |h[o].keys| && UnfoldsFrom(h, o, i, f) && k < Length(f)
    requires ContainsFrom(h, o, p, i, f)
    ensures i + k < |h[o].keys| && h[o].keys[i + k] in h[p].keys && h[o].keys[i + k] in h[p].fields
    ensures Contains(h, ChildAt(f, k), h[p].fields[h[o].keys[i + k]])
    decreases f
  {
    if k > 0 {
      ChildIsContained(h, o, p, i + 1, f.tail, k - 1);
    }
  }

  lemma {:induction false} ChildWith(f: Forest, o: nat) returns (k: nat)
    requires OccurrencesOf(f, o) > 0
    ensures k < Length(f) && o in Nodes(ChildAt(f, k))
    decreases f
  {
    NodesOccur(f.head, o);
    if Occurrences(f.head, o) > 0 {
      k := 0;
    } else {
      k := ChildWith(f.tail, o);
      k := k + 1;
    }
  }

  /** Two occurrences are below one child or below two. */
  lemma {:induction false} ChildrenWith(f: Forest, o: nat) returns (k: nat, l: nat)
    requires OccurrencesOf(f, o) >= 2
    ensures k <= l < Length(f)
    ensures k == l ==> Occurrences(ChildAt(f, k), o) >= 2
    ensures k < l ==> o in Nodes(ChildAt(f, k)) && o in Nodes(ChildAt(f, l))
    decreases f
  {
    NodesOccur(f.head, o);
    if Occurrences(f.head, o) >= 2 {
      k, l := 0, 0;
    } else if Occurrences(f.head, o) == 1 {
      l := ChildWith(f.tail, o);
      k, l := 0, l + 1;
    } else {
      k, l := ChildrenWith(f.tail, o);
      k, l := k + 1, l + 1;
    }
  }

  // No object is below itself.

  lemma {:induction false} UnfoldsOnce(h: Heap, v: Value, t: Tree, u: Tree)
    requires Closed(h) && Unfolds(h, v, t) && Unfolds(h, v, u)
    ensures t == u
    decreases t
  {
    if t.Node? {
      UnfoldsFromOnce(h, t.target, 0, t.children, u.children);
    }
  }

  lemma {:induction false} UnfoldsFromOnce(h: Heap, o: nat, i: nat, f: Forest, g: Forest)
    requires Closed(h) && o in h && i <= |h[o].keys| && UnfoldsFrom(h, o, i, f) && UnfoldsFrom(h, o, i, g)
    ensures f == g
    decreases f
  {
    if f.Cons? {
      UnfoldsOnce(h, h[o].fields[h[o].keys[i]], f.head, g.head);
      UnfoldsFromOnce(h, o, i + 1, f.tail, g.tail);
    }
  }

  function Size(t: Tree): nat {
    match t
    case Leaf(_) => 1
    case Node(_, children) => 1 + SizeOf(children)
  }

  function SizeOf(f: Forest): nat {
    match f
    case Nil => 0
    case Cons(head, tail) => Size(head) + SizeOf(tail)
  }

  lemma {:induction false} BelowIsNotLarger(h: Heap, v: Value, t: Tree, o: nat, u: Tree)
    requires Closed(h) && Unfolds(h, v, t) && o in Nodes(t) && Unfolds(h, Ref(o), u)
    ensures Size(u) <= Size(t)
    decreases t
  {
    if t.target == o {
      UnfoldsOnce(h, v, t, u);
    } else {
      BelowForestIsNotLarger(h, t.target, 0, t.children, o, u);
    }
  }

  lemma {:induction false} BelowForestIsNotLarger(h: Heap, r: nat, i: nat, f: Forest, o: nat, u: Tree)
    requires Closed(h) && r in h && i <= |h[r].keys| && UnfoldsFrom(h, r, i, f)
    requires o in NodesOf(f) && Unfolds(h, Ref(o), u)
    ensures Size(u) <= SizeOf(f)
    decreases f
  {
    if o in Nodes(f.head) {
      BelowIsNotLarger(h, h[r].fields[h[r].keys[i]], f.head, o, u);
    } else {
      BelowForestIsNotLarger(h, r, i + 1, f.tail, o, u);
    }
  }

  lemma NotBelowItself(h: Heap, t: Tree)
    requires Closed(h) && t.Node? && Unfolds(h, Ref(t.target), t)
    ensures t.target !in NodesOf(t.children)
  {
    if t.target in NodesOf(t.children) {
      BelowForestIsNotLarger(h, t.target, 0, t.children, t.target, t);
    }
  }

  lemma {:induction false} NodesAreKnown(h: Heap, v: Value, t: Tree, o: nat)
    requires Closed(h) && Unfolds(h, v, t) && o in Nodes(t)
    ensures o in h
    decreases t
  {
    if t.target != o {
      NodesOfOccur(t.children, o);
      var k := ChildWith(t.children, o);
      ChildUnfolds(h, t.target, 0, t.children, k);
      NodesAreKnown(h, h[t.target].fields[h[t.target].keys[k]], ChildAt(t.children, k), o);
    }
  }

  // Copies.

  lemma {:induction false} Bound(s: set<nat>) returns (n: nat)
    ensures forall x :: x in s ==> x < n
    decreases |s|
  {
    if x :| x in s {
      n := Bound(s - {x});
      n := if n <= x then x + 1 else n;
      assert forall y :: y in s ==> y == x || y in s - {x};
    } else {
      n := 0;
    }
  }

  lemma FreshAddress(h: Heap) returns (q: nat)
    ensures q !in h
  {
    q := Bound(h.Keys);
    assert q in h.Keys ==> q < q;
  }

  /** `q` is a copy of `o` but for the field at position `k`. */
  predicate CopyBut(h: Heap, o: nat, q: nat, k: nat, w: Value) {
    && o in h && q in h && o != q && k < |h[o].keys|
    && h[q] == Object(h[o].keys, h[o].fields[h[o].keys[k] := w])
  }

  lemma AddCopy(h: Heap, o: nat, k: nat, w: Value) returns (h': Heap, q: nat)
    requires Closed(h) && o in h && k < |h[o].keys| && Known(h, w)
    ensures Closed(h') && Extends(h', h) && q !in h && CopyBut(h', o, q, k, w)
  {
    q := FreshAddress(h);
    h' := h[q := Object(h[o].keys, h[o].fields[h[o].keys[k] := w])];
  }

  /** From position `i` up to `j` the values are identical. */
  predicate SameBetween(h: Heap, o: nat, p: nat, i: nat, j: nat)
    requires Closed(h) && o in h && p in h && j <= |h[o].keys|
  {
    forall k :: i <= k < j ==>
      && h[o].keys[k] in h[p].keys && h[o].keys[k] in h[p].fields
      && h[o].fields[h[o].keys[k]] == h[p].fields[h[o].keys[k]]
  }

  /** Positions with identical values add nothing. */
  lemma {:induction false} SkipSame(h: Heap, o: nat, p: nat, seen: set<nat>, i: nat, j: nat)
    requires Closed(h) && o in h && p in h && i <= j <= |h[o].keys| && SameBetween(h, o, p, i, j)
    ensures CompareKeys(h, o, p, seen, i) == CompareKeys(h, o, p, seen, j)
    decreases j - i
  {
    if i < j {
      SkipSame(h, o, p, seen, i + 1, j);
    }
  }

  /** The comparison of what stands at position `k`. */
  function CompareAt(h: Heap, o: nat, p: nat, seen: set<nat>, k: nat): (bool, set<nat>)
    requires Closed(h) && o in h && p in h && k < |h[o].keys| && h[o].keys[k] in h[p].keys
  {
    Compare(h, h[o].fields[h[o].keys[k]], h[p].fields[h[o].keys[k]], seen)
  }

  lemma StepOver(h: Heap, o: nat, p: nat, seen: set<nat>, k: nat)
    requires Closed(h) && o in h && p in h && k < |h[o].keys| && h[o].keys[k] in h[p].keys
    requires CompareAt(h, o, p, seen, k).0
    ensures CompareKeys(h, o, p, seen, k) == CompareKeys(h, o, p, CompareAt(h, o, p, seen, k).1, k + 1)
  {
  }

  lemma CopyButFields(h: Heap, o: nat, q: nat, k: nat, w: Value)
    requires Closed(h) && CopyBut(h, o, q, k, w)
    ensures SameBetween(h, o, q, 0, k) && SameBetween(h, o, q, k + 1, |h[o].keys|)
    ensures h[q].keys == h[o].keys && h[q].fields[h[o].keys[k]] == w
  {
  }

  lemma OneFieldCompares(h: Heap, o: nat, q: nat, k: nat, seen: set<nat>)
    requires Closed(h) && o in h && q in h && o != q && k < |h[o].keys| && h[q].keys == h[o].keys && o !in seen
    requires SameBetween(h, o, q, 0, k) && SameBetween(h, o, q, k + 1, |h[o].keys|)
    requires CompareAt(h, o, q, seen + {o}, k).0
    ensures Compare(h, Ref(o), Ref(q), seen) == CompareAt(h, o, q, seen + {o}, k)
  {
    SkipSame(h, o, q, seen + {o}, 0, k);
    StepOver(h, o, q, seen + {o}, k);
    SkipSame(h, o, q, CompareAt(h, o, q, seen + {o}, k).1, k + 1, |h[o].keys|);
  }

  lemma ChildNotContained(h: Heap, t: Tree, q: nat, k: nat)
    requires Closed(h) && t.Node? && Unfolds(h, Ref(t.target), t) && q in h && k < Length(t.children)
    requires k < |h[t.target].keys| && h[t.target].keys[k] in h[q].fields && Known(h, h[q].fields[h[t.target].keys[k]])
    requires !Contains(h, ChildAt(t.children, k), h[q].fields[h[t.target].keys[k]])
    ensures !Contains(h, t, Ref(q))
  {
    if ContainsFrom(h, t.target, q, 0, t.children) {
      ChildIsContained(h, t.target, q, 0, t.children, k);
    }
  }

  /** The comparison of the child at position `k` of `r` with `w`, once `r` is seen. */
  function CompareChild(h: Heap, r: nat, k: nat, w: Value, seen: set<nat>): (bool, set<nat>)
    requires Closed(h) && r in h && k < |h[r].keys| && Known(h, w)
  {
    Compare(h, h[r].fields[h[r].keys[k]], w, seen + {r})
  }

  /** Equal whenever `o` has been seen. */
  ghost predicate EqualOnceSeen(h: Heap, v: Value, w: Value, o: nat)
    requires Closed(h) && Known(h, v) && Known(h, w)
  {
    forall seen {:trigger Compare(h, v, w, seen)} :: o in seen ==> Compare(h, v, w, seen).0
  }

  /** Equal as long as none of the nodes has been seen. */
  ghost predicate EqualAtFirst(h: Heap, v: Value, w: Value, nodes: set<nat>)
    requires Closed(h) && Known(h, v) && Known(h, w)
  {
    forall seen {:trigger Compare(h, v, w, seen)} :: seen !! nodes ==> Compare(h, v, w, seen).0
  }

  /** Then the comparison sees `o`. */
  ghost predicate Sees(h: Heap, v: Value, w: Value, nodes: set<nat>, o: nat)
    requires Closed(h) && Known(h, v) && Known(h, w)
  {
    forall seen {:trigger Compare(h, v, w, seen)} :: seen !! nodes ==> o in Compare(h, v, w, seen).1
  }

  /** Comparing `r` with `q` is comparing the child at position `k` with `w`. */
  ghost predicate Wraps(h: Heap, h': Heap, r: nat, q: nat, k: nat, w: Value)
    requires Closed(h) && Closed(h') && Extends(h', h) && r in h && q in h' && k < |h[r].keys| && Known(h, w)
  {
    && (forall seen {:trigger Compare(h', Ref(r), Ref(q), seen)} :: r in seen ==> Compare(h', Ref(r), Ref(q), seen).0)
    && (forall seen {:trigger Compare(h', Ref(r), Ref(q), seen)} :: r !in seen && CompareChild(h, r, k, w, seen).0 ==>
          Compare(h', Ref(r), Ref(q), seen) == CompareChild(h, r, k, w, seen))
  }

  lemma WrapEqualOnceSeen(h: Heap, h': Heap, r: nat, q: nat, k: nat, w: Value, o: nat)
    requires Closed(h) && Closed(h') && Extends(h', h) && r in h && q in h' && k < |h[r].keys| && Known(h, w)
    requires Wraps(h, h', r, q, k, w) && EqualOnceSeen(h, h[r].fields[h[r].keys[k]], w, o)
    ensures EqualOnceSeen(h', Ref(r), Ref(q), o)
  {
    forall seen | o in seen ensures Compare(h', Ref(r), Ref(q), seen).0 {
      assert r in seen || CompareChild(h, r, k, w, seen).0;
    }
  }

  lemma WrapEqualAtFirst(h: Heap, h': Heap, r: nat, q: nat, k: nat, w: Value, below: set<nat>, nodes: set<nat>)
    requires Closed(h) && Closed(h') && Extends(h', h) && r in h && q in h' && k < |h[r].keys| && Known(h, w)
    requires Wraps(h, h', r, q, k, w) && EqualAtFirst(h, h[r].fields[h[r].keys[k]], w, below)
    requires r in nodes && below <= nodes && r !in below
    ensures EqualAtFirst(h', Ref(r), Ref(q), nodes)
    ensures forall o :: Sees(h, h[r].fields[h[r].keys[k]], w, below, o) ==> Sees(h', Ref(r), Ref(q), nodes, o)
  {
    forall seen | seen !! nodes
      ensures r !in seen && seen + {r} !! below && CompareChild(h, r, k, w, seen).0
    {
    }
  }

  /** Around a right value for one child, one for the whole object that differs in nothing else. */
  lemma WrapChild(h: Heap, t: Tree, k: nat, h1: Heap, w1: Value) returns (h': Heap, q: nat)
    requires Closed(h) && t.Node? && Unfolds(h, Ref(t.target), t) && k < Length(t.children) && k < |h[t.target].keys|
    requires Closed(h1) && Extends(h1, h) && Known(h1, w1)
    ensures Closed(h') && Extends(h', h1) && q in h' && q !in h
    ensures Wraps(h1, h', t.target, q, k, w1)
    ensures !Contains(h1, ChildAt(t.children, k), w1) ==> !Contains(h', t, Ref(q))
  {
    var r := t.target;
    h', q := AddCopy(h1, r, k, w1);
    CopyButFields(h', r, q, k, w1);
    forall seen | r !in seen && CompareChild(h1, r, k, w1, seen).0
      ensures Compare(h', Ref(r), Ref(q), seen) == CompareChild(h1, r, k, w1, seen)
    {
      CompareFrame(h1, h', h1[r].fields[h1[r].keys[k]], w1, seen + {r});
      OneFieldCompares(h', r, q, k, seen);
    }
    CopyNotContained(h, t, h1, k, w1, h', q);
  }

  lemma CopyNotContained(h: Heap, t: Tree, h1: Heap, k: nat, w: Value, h': Heap, q: nat)
    requires Closed(h) && t.Node? && Unfolds(h, Ref(t.target), t) && k < Length(t.children) && k < |h[t.target].keys|
    requires Closed(h1) && Extends(h1, h) && Known(h1, w) && Closed(h') && Extends(h', h1)
    requires q in h' && h[t.target].keys[k] in h'[q].fields && h'[q].fields[h[t.target].keys[k]] == w
    ensures !Contains(h1, ChildAt(t.children, k), w) ==> !Contains(h', t, Ref(q))
  {
    ChildFrame(h, t, h1, k, w, h');
    UnfoldsFrame(h, h', Ref(t.target), t);
    if !Contains(h1, ChildAt(t.children, k), w) {
      ChildNotContained(h', t, q, k);
    }
  }

  lemma ChildFrame(h: Heap, t: Tree, h1: Heap, k: nat, w: Value, h': Heap)
    requires Closed(h) && t.Node? && Unfolds(h, Ref(t.target), t) && k < Length(t.children)
    requires Closed(h1) && Extends(h1, h) && Known(h1, w) && Closed(h') && Extends(h', h1)
    ensures Contains(h', ChildAt(t.children, k), w) <==> Contains(h1, ChildAt(t.children, k), w)
  {
    var r := t.target;
    ChildUnfolds(h, r, 0, t.children, k);
    UnfoldsFrame(h, h1, h[r].fields[h[r].keys[k]], ChildAt(t.children, k));
    ContainsFrame(h1, h', h[r].fields[h[r].keys[k]], ChildAt(t.children, k), w);
  }

  lemma EmptyPartner(h: Heap, t: Tree) returns (h': Heap, w: Value)
    requires Closed(h) && t.Node? && Unfolds(h, Ref(t.target), t) && h[t.target].keys != []
    ensures Closed(h') && Extends(h', h) && w.Ref? && w.target in h' && w.target !in h
    ensures EqualOnceSeen(h', Ref(t.target), w, t.target)
    ensures !Contains(h', t, w)
  {
    var q := FreshAddress(h);
    h', w := h[q := Object([], map[])], Ref(q);
    UnfoldsFrame(h, h', Ref(t.target), t);
  }

  /** A right value in which `o`, seen before, has an empty partner: the comparison does not look there. */
  lemma {:induction false} PathToEmpty(h: Heap, v: Value, t: Tree, o: nat) returns (h': Heap, w: Value)
    requires Closed(h) && Known(h, v) && Unfolds(h, v, t) && o in Nodes(t) && o in h && h[o].keys != []
    ensures Closed(h') && Extends(h', h) && w.Ref? && w.target in h' && w.target !in h
    ensures EqualOnceSeen(h', v, w, o)
    ensures !Contains(h', t, w)
    decreases t
  {
    var r := t.target;
    if r == o {
      h', w := EmptyPartner(h, t);
    } else {
      NodesOfOccur(t.children, o);
      var k := ChildWith(t.children, o);
      ChildUnfolds(h, r, 0, t.children, k);
      var h1, w1 := PathToEmpty(h, h[r].fields[h[r].keys[k]], ChildAt(t.children, k), o);
      var q;
      h', q := WrapChild(h, t, k, h1, w1);
      w := Ref(q);
      WrapEqualOnceSeen(h1, h', r, q, k, w1, o);
    }
  }

  lemma EqualPartner(h: Heap, t: Tree) returns (h': Heap, w: Value)
    requires Closed(h) && t.Node? && t.target in h
    ensures Closed(h') && Extends(h', h) && w.Ref? && w.target in h' && w.target !in h
    ensures EqualAtFirst(h', Ref(t.target), w, Nodes(t)) && Sees(h', Ref(t.target), w, Nodes(t), t.target)
  {
    var r := t.target;
    var q := FreshAddress(h);
    h', w := h[q := h[r]], Ref(q);
    forall seen | seen !! Nodes(t) ensures Compare(h', Ref(r), w, seen).0 && r in Compare(h', Ref(r), w, seen).1 {
      assert r in Nodes(t);
      SkipSame(h', r, q, seen + {r}, 0, |h'[r].keys|);
    }
  }

  /** A right value, equal to the left one, that makes the comparison see `o`. */
  lemma {:induction false} PathToCopy(h: Heap, v: Value, t: Tree, o: nat) returns (h': Heap, w: Value)
    requires Closed(h) && Known(h, v) && Unfolds(h, v, t) && o in Nodes(t)
    ensures Closed(h') && Extends(h', h) && w.Ref? && w.target in h' && w.target !in h
    ensures EqualAtFirst(h', v, w, Nodes(t)) && Sees(h', v, w, Nodes(t), o)
    decreases t
  {
    var r := t.target;
    if r == o {
      h', w := EqualPartner(h, t);
    } else {
      NodesOfOccur(t.children, o);
      var k := ChildWith(t.children, o);
      ChildUnfolds(h, r, 0, t.children, k);
      NotBelowItself(h, t);
      var child := ChildAt(t.children, k);
      var h1, w1 := PathToCopy(h, h[r].fields[h[r].keys[k]], child, o);
      var q;
      h', q := WrapChild(h, t, k, h1, w1);
      w := Ref(q);
      WrapEqualAtFirst(h1, h', r, q, k, w1, Nodes(child), Nodes(t));
    }
  }

  /** An object with keys that occurs twice: some right value is taken for equal although it does not contain the
      left. */
  lemma {:induction false} SpoilSecond(h: Heap, v: Value, t: Tree, o: nat) returns (h': Heap, w: Value)
    requires Closed(h) && Known(h, v) && Unfolds(h, v, t) && Occurrences(t, o) >= 2 && o in h && h[o].keys != []
    ensures Closed(h') && Extends(h', h) && w.Ref? && w.target in h' && w.target !in h
    ensures EqualAtFirst(h', v, w, Nodes(t)) && !Contains(h', t, w)
    decreases t
  {
    var r := t.target;
    NotBelowItself(h, t);
    NodesOfOccur(t.children, o);
    var k, l := ChildrenWith(t.children, o);
    if k == l {
      var child := ChildAt(t.children, k);
      ChildUnfolds(h, r, 0, t.children, k);
      var h1, w1 := SpoilSecond(h, h[r].fields[h[r].keys[k]], child, o);
      var q;
      h', q := WrapChild(h, t, k, h1, w1);
      w := Ref(q);
      WrapEqualAtFirst(h1, h', r, q, k, w1, Nodes(child), Nodes(t));
    } else {
      h', w := SpoilOther(h, v, t, o, k, l);
    }
  }

  /** `q` is a copy of `o` but for the fields at positions `k` and `l`. */
  predicate CopyButTwo(h: Heap, o: nat, q: nat, k: nat, w1: Value, l: nat, w2: Value) {
    && o in h && q in h && o != q && k < l < |h[o].keys| && h[q].keys == h[o].keys
    && forall i :: 0 <= i < |h[o].keys| ==>
         && h[o].keys[i] in h[o].fields && h[o].keys[i] in h[q].fields
         && h[q].fields[h[o].keys[i]] == if i == k then w1 else if i == l then w2 else h[o].fields[h[o].keys[i]]
  }

  lemma AddCopyButTwo(h: Heap, o: nat, k: nat, w1: Value, l: nat, w2: Value) returns (h': Heap, q: nat)
    requires Closed(h) && o in h && k < l < |h[o].keys| && Known(h, w1) && Known(h, w2)
    ensures Closed(h') && Extends(h', h) && q !in h && CopyButTwo(h', o, q, k, w1, l, w2)
  {
    q := FreshAddress(h);
    var keys := h[o].keys;
    var fields := h[o].fields[keys[k] := w1][keys[l] := w2];
    assert forall i :: 0 <= i < |keys| ==>
      fields[keys[i]] == if i == k then w1 else if i == l then w2 else h[o].fields[keys[i]];
    h' := h[q := Object(keys, fields)];
  }

  lemma CopyButTwoFields(h: Heap, o: nat, q: nat, k: nat, w1: Value, l: nat, w2: Value)
    requires Closed(h) && CopyButTwo(h, o, q, k, w1, l, w2)
    ensures SameBetween(h, o, q, 0, k) && SameBetween(h, o, q, k + 1, l) && SameBetween(h, o, q, l + 1, |h[o].keys|)
    ensures h[q].fields[h[o].keys[k]] == w1 && h[q].fields[h[o].keys[l]] == w2
  {
  }

  lemma TwoFieldsCompare(h: Heap, o: nat, q: nat, k: nat, l: nat, seen: set<nat>)
    requires Closed(h) && o in h && q in h && o != q && k < l < |h[o].keys| && h[q].keys == h[o].keys && o !in seen
    requires SameBetween(h, o, q, 0, k) && SameBetween(h, o, q, k + 1, l) && SameBetween(h, o, q, l + 1, |h[o].keys|)
    requires var first := CompareAt(h, o, q, seen + {o}, k);
             first.0 && CompareAt(h, o, q, first.1, l).0
    ensures Compare(h, Ref(o), Ref(q), seen).0
  {
    var first := CompareAt(h, o, q, seen + {o}, k);
    SkipSame(h, o, q, seen + {o}, 0, k);
    StepOver(h, o, q, seen + {o}, k);
    SkipSame(h, o, q, first.1, k + 1, l);
    StepOver(h, o, q, first.1, l);
    SkipSame(h, o, q, CompareAt(h, o, q, first.1, l).1, l + 1, |h[o].keys|);
  }

  /** Comparing `r` with `q` is comparing two children, one after the other. */
  ghost predicate WrapsTwo(h1: Heap, h2: Heap, h': Heap, r: nat, q: nat, k: nat, w1: Value, l: nat, w2: Value)
    requires Closed(h1) && Closed(h2) && Closed(h') && Extends(h2, h1) && Extends(h', h2) && r in h1 && q in h'
    requires k < l < |h1[r].keys| && Known(h1, w1) && Known(h2, w2)
  {
    forall seen {:trigger Compare(h', Ref(r), Ref(q), seen)} ::
      && r !in seen && CompareChild(h1, r, k, w1, seen).0
      && Compare(h2, h1[r].fields[h1[r].keys[l]], w2, CompareChild(h1, r, k, w1, seen).1).0
      ==> Compare(h', Ref(r), Ref(q), seen).0
  }

  lemma WrapTwoEqualAtFirst(h1: Heap, h2: Heap, h': Heap, r: nat, q: nat, k: nat, w1: Value, l: nat, w2: Value,
                            below: set<nat>, nodes: set<nat>, o: nat)
    requires Closed(h1) && Closed(h2) && Closed(h') && Extends(h2, h1) && Extends(h', h2) && r in h1 && q in h'
    requires k < l < |h1[r].keys| && Known(h1, w1) && Known(h2, w2)
    requires WrapsTwo(h1, h2, h', r, q, k, w1, l, w2)
    requires EqualAtFirst(h1, h1[r].fields[h1[r].keys[k]], w1, below)
    requires Sees(h1, h1[r].fields[h1[r].keys[k]], w1, below, o)
    requires EqualOnceSeen(h2, h1[r].fields[h1[r].keys[l]], w2, o)
    requires r in nodes && below <= nodes && r !in below
    ensures EqualAtFirst(h', Ref(r), Ref(q), nodes)
  {
    forall seen | seen !! nodes ensures Compare(h', Ref(r), Ref(q), seen).0 {
      assert r !in seen && seen + {r} !! below;
      assert CompareChild(h1, r, k, w1, seen).0 && o in CompareChild(h1, r, k, w1, seen).1;
    }
  }

  /** Around right values for two children, one for the whole object that differs in nothing else. */
  lemma WrapTwo(h: Heap, t: Tree, k: nat, h1: Heap, w1: Value, l: nat, h2: Heap, w2: Value) returns (h': Heap, q: nat)
    requires Closed(h) && t.Node? && Unfolds(h, Ref(t.target), t)
    requires k < l < Length(t.children) && l < |h[t.target].keys|
    requires Closed(h1) && Extends(h1, h) && Known(h1, w1) && Closed(h2) && Extends(h2, h1) && Known(h2, w2)
    ensures Closed(h') && Extends(h', h2) && q in h' && q !in h
    ensures WrapsTwo(h1, h2, h', t.target, q, k, w1, l, w2)
    ensures !Contains(h2, ChildAt(t.children, l), w2) ==> !Contains(h', t, Ref(q))
  {
    var r := t.target;
    var first, second := h1[r].fields[h1[r].keys[k]], h1[r].fields[h1[r].keys[l]];
    h', q := AddCopyButTwo(h2, r, k, w1, l, w2);
    CopyButTwoFields(h', r, q, k, w1, l, w2);
    forall seen | r !in seen && CompareChild(h1, r, k, w1, seen).0
                  && Compare(h2, second, w2, CompareChild(h1, r, k, w1, seen).1).0
      ensures Compare(h', Ref(r), Ref(q), seen).0
    {
      CompareFrame(h1, h', first, w1, seen + {r});
      CompareFrame(h2, h', second, w2, CompareChild(h1, r, k, w1, seen).1);
      TwoFieldsCompare(h', r, q, k, l, seen);
    }
    CopyNotContained(h, t, h2, l, w2, h', q);
  }

  /** The object occurs below two children: the first is copied, the second spoilt. */
  lemma SpoilOther(h: Heap, v: Value, t: Tree, o: nat, k: nat, l: nat) returns (h': Heap, w: Value)
    requires Closed(h) && Known(h, v) && Unfolds(h, v, t) && t.Node? && t.target !in NodesOf(t.children)
    requires o in h && h[o].keys != []
    requires k < l < Length(t.children) && o in Nodes(ChildAt(t.children, k)) && o in Nodes(ChildAt(t.children, l))
    ensures Closed(h') && Extends(h', h) && w.Ref? && w.target in h' && w.target !in h
    ensures EqualAtFirst(h', v, w, Nodes(t)) && !Contains(h', t, w)
  {
    var r := t.target;
    var child, other := ChildAt(t.children, k), ChildAt(t.children, l);
    ChildUnfolds(h, r, 0, t.children, k);
    ChildUnfolds(h, r, 0, t.children, l);
    var first, second := h[r].fields[h[r].keys[k]], h[r].fields[h[r].keys[l]];
    var h1, w1 := PathToCopy(h, first, child, o);
    UnfoldsFrame(h, h1, second, other);
    var h2, w2 := PathToEmpty(h1, second, other, o);
    var q;
    h', q := WrapTwo(h, t, k, h1, w1, l, h2, w2);
    w := Ref(q);
    WrapTwoEqualAtFirst(h1, h2, h', r, q, k, w1, l, w2, Nodes(child), Nodes(t), o);
  }

  /** Against every right value, in memory with any further objects, the answer is recursive containment. */
  ghost predicate Exact(h: Heap, a: Value, t: Tree)
    requires Closed(h) && Known(h, a)
  {
    forall h': Heap, b: Value :: Closed(h') && Extends(h', h) && Known(h', b) ==>
      (Compare(h', a, b, {}).0 <==> Contains(h', t, b))
  }

  /** Comparing a shared left object only once is harmless exactly if every object that occurs twice has no keys. */
  lemma SharingIsHarmlessIff(h: Heap, a: Value, t: Tree)
    requires Closed(h) && Known(h, a) && Unfolds(h, a, t)
    ensures Exact(h, a, t) <==> forall o :: o in Nodes(t) && Occurrences(t, o) >= 2 ==> Keyless(h, o)
  {
    if Harmless(h, t) {
      forall h': Heap, b: Value | Closed(h') && Extends(h', h) && Known(h', b)
        ensures Compare(h', a, b, {}).0 <==> Contains(h', t, b)
      {
        UnfoldsFrame(h, h', a, t);
        HarmlessComparison(h', a, b, {}, t);
      }
    } else {
      var o :| o in Nodes(t) && Occurrences(t, o) >= 2 && !Keyless(h, o);
      NodesAreKnown(h, a, t, o);
      var h', w := SpoilSecond(h, a, t, o);
      assert {} !! Nodes(t);
      assert Compare(h', a, w, {}).0 && !Contains(h', t, w);
    }
  }
}
