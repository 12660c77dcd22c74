/** `removeUnknownKeys`: a JSON schema is copied, and the copy is cleaned in place. */
module SchemaCleaning {
  import opened Options

  datatype Field<T> = Field(key: string, value: T)

  /** A schema. Objects and arrays have an identity `at`, their place in memory; the keys of an array are its
      indices. */
  datatype Json =
    | Str(text: string)
    | Other(id: int)
    | Node(at: nat, isArray: bool, entries: seq<Field<Json>>)

  predicate IsArray(j: Json) {
    j.Node? && j.isArray
  }

  // Entries by key.

  function Find<T>(entries: seq<Field<T>>, key: string): Option<T>
    decreases |entries|
  {
    if entries == [] then None
    else if entries[0].key == key then Some(entries[0].value)
    else Find(entries[1..], key)
  }

  /** The first entry of a key is found, and none only if there is none. */
  lemma {:induction false} FindIsFirst<T>(entries: seq<Field<T>>, key: string)
    ensures Find(entries, key).None? <==> forall i :: 0 <= i < |entries| ==> entries[i].key != key
    ensures forall i ::
      0 <= i < |entries| && entries[i].key == key && (forall j :: 0 <= j < i ==> entries[j].key != key) ==>
        Find(entries, key) == Some(entries[i].value)
    decreases |entries|
  {
    if entries != [] {
      FindIsFirst(entries[1..], key);
      forall i | 0 < i < |entries| ensures entries[i] == entries[1..][i - 1] {
      }
    }
  }

  function Without<T>(entries: seq<Field<T>>, keys: set<string>): seq<Field<T>>
    decreases |entries|
  {
    if entries == [] then []
    else if entries[0].key in keys then Without(entries[1..], keys)
    else [entries[0]] + Without(entries[1..], keys)
  }

  lemma {:induction false} FindWithout<T>(entries: seq<Field<T>>, keys: set<string>, key: string)
    ensures Find(Without(entries, keys), key) == if key in keys then None else Find(entries, key)
    decreases |entries|
  {
    if entries != [] {
      FindWithout(entries[1..], keys, key);
    }
  }

  lemma {:induction false} WithoutTwice<T>(entries: seq<Field<T>>, a: set<string>, b: set<string>)
    ensures Without(Without(entries, a), b) == Without(entries, a + b)
    decreases |entries|
  {
    if entries != [] {
      WithoutTwice(entries[1..], a, b);
    }
  }

  // What cleaning means.

  const FORBIDDEN := {"comment", "javaType", "tsEnumNames"}

  /** additionalItems goes when it stands beside items that are not an array. */
  predicate StrayItems(entries: seq<Field<Json>>) {
    Find(entries, "items").Some? && !IsArray(Find(entries, "items").value)
  }

  /** additionalProperties goes unless the type is "object". */
  predicate StrayProperties(entries: seq<Field<Json>>) {
    Find(entries, "type") != Some(Str("object"))
  }

  function Dropped(entries: seq<Field<Json>>): set<string> {
    FORBIDDEN + (if StrayItems(entries) then {"additionalItems"} else {})
              + (if StrayProperties(entries) then {"additionalProperties"} else {})
  }

  function Clean(j: Json): Json {
    match j
    case Node(at, isArray, entries) => Node(at, isArray, CleanEntries(entries, Dropped(entries)))
    case _ => j
  }

  function CleanEntries(entries: seq<Field<Json>>, dropped: set<string>): seq<Field<Json>> {
    if entries == [] then []
    else if entries[0].key in dropped then CleanEntries(entries[1..], dropped)
    else [Field(entries[0].key, Clean(entries[0].value))] + CleanEntries(entries[1..], dropped)
  }

  lemma {:induction false} FindCleaned(entries: seq<Field<Json>>, dropped: set<string>, key: string)
    ensures Find(CleanEntries(entries, dropped), key) ==
            if key in dropped || Find(entries, key).None? then None else Some(Clean(Find(entries, key).value))
    decreases |entries|
  {
    if entries != [] {
      FindCleaned(entries[1..], dropped, key);
    }
  }

  // Nothing unwanted is left.

  /** At every depth no forbidden key, no stray additionalItems, no stray additionalProperties. */
  predicate Tidy(j: Json) {
    j.Node? ==> TidyEntries(j.entries, Dropped(j.entries))
  }

  predicate TidyEntries(entries: seq<Field<Json>>, dropped: set<string>) {
    entries != [] ==> entries[0].key !in dropped && Tidy(entries[0].value) && TidyEntries(entries[1..], dropped)
  }

  /** Cleaning the children does not change what has to go. */
  lemma DroppedAfterCleaning(entries: seq<Field<Json>>)
    ensures Dropped(CleanEntries(entries, Dropped(entries))) == Dropped(entries)
  {
    FindCleaned(entries, Dropped(entries), "items");
    FindCleaned(entries, Dropped(entries), "type");
  }

  lemma {:induction false} CleanIsTidy(j: Json)
    ensures Tidy(Clean(j))
    decreases j
  {
    if j.Node? {
      DroppedAfterCleaning(j.entries);
      CleanEntriesAreTidy(j.entries, Dropped(j.entries));
    }
  }

  lemma {:induction false} CleanEntriesAreTidy(entries: seq<Field<Json>>, dropped: set<string>)
    ensures TidyEntries(CleanEntries(entries, dropped), dropped)
    decreases entries
  {
    if entries != [] {
      CleanIsTidy(entries[0].value);
      CleanEntriesAreTidy(entries[1..], dropped);
    }
  }

  lemma {:induction false} TidyIsUnchanged(j: Json)
    requires Tidy(j)
    ensures Clean(j) == j
    decreases j
  {
    if j.Node? {
      TidyEntriesAreUnchanged(j.entries, Dropped(j.entries));
    }
  }

  lemma {:induction false} TidyEntriesAreUnchanged(entries: seq<Field<Json>>, dropped: set<string>)
    requires TidyEntries(entries, dropped)
    ensures CleanEntries(entries, dropped) == entries
    decreases entries
  {
    if entries != [] {
      TidyIsUnchanged(entries[0].value);
      TidyEntriesAreUnchanged(entries[1..], dropped);
    }
  }

  lemma CleaningIsIdempotent(j: Json)
    ensures Clean(Clean(j)) == Clean(j)
  {
    CleanIsTidy(j);
    TidyIsUnchanged(Clean(j));
  }

  // Everything else is kept.

  function At(j: Json, path: seq<string>): Option<Json>
    decreases |path|
  {
    if path == [] then Some(j)
    else if !j.Node? || Find(j.entries, path[0]).None? then None
    else At(Find(j.entries, path[0]).value, path[1..])
  }

  /** No key on the path is one that has to go from its object. */
  predicate Survives(j: Json, path: seq<string>)
    decreases |path|
  {
    path != [] && j.Node? && Find(j.entries, path[0]).Some? ==>
      path[0] !in Dropped(j.entries) && Survives(Find(j.entries, path[0]).value, path[1..])
  }

  /** A path leads somewhere in the cleaned schema exactly if it did before and survives, and then to the cleaned
      value. */
  lemma {:induction false} CleanKeepsSurvivors(j: Json, path: seq<string>)
    ensures At(Clean(j), path) ==
            if Survives(j, path) && At(j, path).Some? then Some(Clean(At(j, path).value)) else None
    decreases |path|
  {
    if path != [] && j.Node? {
      FindCleaned(j.entries, Dropped(j.entries), path[0]);
      if Find(j.entries, path[0]).Some? {
        CleanKeepsSurvivors(Find(j.entries, path[0]).value, path[1..]);
      }
    }
  }

  lemma {:induction false} AtAppended(j: Json, path: seq<string>, key: string)
    ensures At(j, path + [key]) == if At(j, path).Some? then At(At(j, path).value, [key]) else None
    decreases |path|
  {
    if path == [] {
      assert path + [key] == [key];
    } else {
      assert (path + [key])[1..] == path[1..] + [key];
      if j.Node? && Find(j.entries, path[0]).Some? {
        AtAppended(Find(j.entries, path[0]).value, path[1..], key);
      }
    }
  }

  /** A key of an object that is still there is gone exactly if it is one of the three unknown ones, additionalItems
      beside items that are not an array, or additionalProperties of an object whose type is not "object". */
  lemma KeyIsGoneIff(j: Json, path: seq<string>, key: string)
    requires At(Clean(j), path).Some? && At(j, path + [key]).Some?
    ensures At(Clean(j), path + [key]).None? <==>
            || key == "comment" || key == "javaType" || key == "tsEnumNames"
            || (key == "additionalItems"
                && At(j, path + ["items"]).Some? && !IsArray(At(j, path + ["items"]).value))
            || (key == "additionalProperties" && At(j, path + ["type"]) != Some(Str("object")))
  {
    CleanKeepsSurvivors(j, path);
    AtAppended(j, path, key);
    AtAppended(j, path, "items");
    AtAppended(j, path, "type");
    AtAppended(Clean(j), path, key);
    AtStep(At(j, path).value, key);
    AtStep(At(j, path).value, "items");
    AtStep(At(j, path).value, "type");
    CleanKeepsSurvivors(At(j, path).value, [key]);
    AtStep(Clean(At(j, path).value), key);
  }

  lemma AtStep(j: Json, key: string)
    ensures At(j, [key]) == if j.Node? then Find(j.entries, key) else None
  {
    assert [key][1..] == [];
  }

  // Schemas in memory.

  datatype Value = Text(text: string) | Atom(id: int) | Ref(at: nat)

  datatype Cell = Cell(isArray: bool, slots: seq<Field<Value>>)

  type Cells = map<nat, Cell>

  function Head(j: Json): Value {
    match j
    case Str(text) => Text(text)
    case Other(id) => Atom(id)
    case Node(at, _, _) => Ref(at)
  }

  function Heads(entries: seq<Field<Json>>): (slots: seq<Field<Value>>)
    ensures |slots| == |entries|
    ensures forall i :: 0 <= i < |slots| ==> slots[i] == Field(entries[i].key, Head(entries[i].value))
  {
    if entries == [] then [] else [Field(entries[0].key, Head(entries[0].value))] + Heads(entries[1..])
  }

  /** The memory holds the schema. */
  predicate Reads(cells: Cells, j: Json) {
    j.Node? ==> j.at in cells && cells[j.at] == Cell(j.isArray, Heads(j.entries)) && ReadsAll(cells, j.entries)
  }

  predicate ReadsAll(cells: Cells, entries: seq<Field<Json>>) {
    entries != [] ==> Reads(cells, entries[0].value) && ReadsAll(cells, entries[1..])
  }

  function Addresses(j: Json): set<nat> {
    if j.Node? then {j.at} + AddressesOf(j.entries) else {}
  }

  function AddressesOf(entries: seq<Field<Json>>): set<nat> {
    if entries == [] then {} else Addresses(entries[0].value) + AddressesOf(entries[1..])
  }

  /** A tree: no object or array occurs twice. */
  predicate Unshared(j: Json) {
    j.Node? ==> j.at !in AddressesOf(j.entries) && UnsharedAll(j.entries)
  }

  predicate UnsharedAll(entries: seq<Field<Json>>) {
    entries != [] ==>
      Unshared(entries[0].value) && UnsharedAll(entries[1..])
          && Addresses(entries[0].value) !! AddressesOf(entries[1..])
  }

  predicate SameOn(a: Cells, b: Cells, addresses: set<nat>) {
    forall at :: at in addresses ==> (at in a <==> at in b) && (at in a ==> a[at] == b[at])
  }

  ghost predicate SameElsewhere(a: Cells, b: Cells, addresses: set<nat>) {
    forall at :: at !in addresses ==> (at in a <==> at in b) && (at in a ==> a[at] == b[at])
  }

  lemma {:induction false} ReadsFrame(a: Cells, b: Cells, j: Json)
    requires Reads(a, j) && SameOn(a, b, Addresses(j))
    ensures Reads(b, j)
    decreases j
  {
    if j.Node? {
      assert j.at in Addresses(j);
      ReadsAllFrame(a, b, j.entries);
    }
  }

  lemma {:induction false} ReadsAllFrame(a: Cells, b: Cells, entries: seq<Field<Json>>)
    requires ReadsAll(a, entries) && SameOn(a, b, AddressesOf(entries))
    ensures ReadsAll(b, entries)
    decreases entries
  {
    if entries != [] {
      ReadsFrame(a, b, entries[0].value);
      ReadsAllFrame(a, b, entries[1..]);
    }
  }

  lemma {:induction false} FindHeads(entries: seq<Field<Json>>, key: string)
    ensures Find(Heads(entries), key) == (if Find(entries, key).None?
        then None else Some(Head(Find(entries, key).value)))
    decreases |entries|
  {
    if entries != [] {
      FindHeads(entries[1..], key);
    }
  }

  lemma {:induction false} HeadsWithout(entries: seq<Field<Json>>, keys: set<string>)
    ensures Without(Heads(entries), keys) == Heads(Without(entries, keys))
    decreases |entries|
  {
    if entries != [] {
      HeadsWithout(entries[1..], keys);
      assert Heads(entries)[1..] == Heads(entries[1..]);
    }
  }

  lemma {:induction false} FindReads(cells: Cells, entries: seq<Field<Json>>, key: string)
    requires ReadsAll(cells, entries) && Find(entries, key).Some?
    ensures Reads(cells, Find(entries, key).value)
    decreases |entries|
  {
    if entries[0].key != key {
      FindReads(cells, entries[1..], key);
    }
  }

  // The code.

  class Memory {
    var cells: Cells

    constructor (cells: Cells)
      ensures this.cells == cells
    {
      this.cells := cells;
    }

    /** `delete obj[key]` */
    method Delete(at: nat, key: string)
      requires at in cells
      modifies this
      ensures cells == old(cells)[at := Cell(old(cells)[at].isArray, Without(old(cells)[at].slots, {key}))]
    {
      cells := cells[at := Cell(cells[at].isArray, Without(cells[at].slots, {key}))];
    }
  }

  /** `Array.isArray(value)` */
  predicate ArrayIn(cells: Cells, v: Value) {
    v.Ref? && v.at in cells && cells[v.at].isArray
  }

  /** The deletions at one object: first the keys that are unknown anywhere. */
  method DeleteUnknownKeys(mem: Memory, at: nat)
    requires at in mem.cells
    modifies mem
    ensures mem.cells ==
            old(mem.cells)[at := Cell(old(mem.cells)[at].isArray, Without(old(mem.cells)[at].slots, FORBIDDEN))]
  {
    ghost var was := mem.cells[at];
    var unknownKeys := ["comment", "javaType", "tsEnumNames"];
    ghost var gone: set<string> := {};
    WithoutNothing(was.slots);
    for i := 0 to |unknownKeys|
      invariant gone == set k | 0 <= k < i :: unknownKeys[k]
      invariant mem.cells == old(mem.cells)[at := Cell(was.isArray, Without(was.slots, gone))]
    {
      WithoutTwice(was.slots, gone, {unknownKeys[i]});
      gone := gone + {unknownKeys[i]};
      mem.Delete(at, unknownKeys[i]);
    }
    assert gone == {unknownKeys[0], unknownKeys[1], unknownKeys[2]} == FORBIDDEN;
  }

  /** Items in memory that are not an array. */
  predicate StrayItemsIn(cells: Cells, slots: seq<Field<Value>>) {
    Find(slots, "items").Some? && !ArrayIn(cells, Find(slots, "items").value)
  }

  predicate StrayPropertiesIn(slots: seq<Field<Value>>) {
    Find(slots, "type") != Some(Text("object"))
  }

  function WithoutStray(slots: seq<Field<Value>>, strayItems: bool, strayProperties: bool): seq<Field<Value>> {
    var rest := if strayItems then Without(slots, {"additionalItems"}) else slots;
    if strayProperties then Without(rest, {"additionalProperties"}) else rest
  }

  /** Then the two that depend on their neighbours. */
  method DeleteStrayKeys(mem: Memory, at: nat)
    requires at in mem.cells
    modifies mem
    ensures var was := old(mem.cells)[at];
            mem.cells == old(mem.cells)[at := Cell(was.isArray, WithoutStray(was.slots,
              StrayItemsIn(old(mem.cells), was.slots), StrayPropertiesIn(was.slots)))]
  {
    ghost var slots := mem.cells[at].slots;
    if StrayItemsIn(mem.cells, mem.cells[at].slots) {
      FindWithout(slots, {"additionalItems"}, "type");
      mem.Delete(at, "additionalItems");
    }
    if StrayPropertiesIn(mem.cells[at].slots) {
      mem.Delete(at, "additionalProperties");
    }
  }

  method DeleteKeys(mem: Memory, at: nat, ghost entries: seq<Field<Json>>)
    requires at in mem.cells && mem.cells[at].slots == Heads(entries)
    requires ReadsAll(mem.cells, entries) && at !in AddressesOf(entries)
    modifies mem
    ensures mem.cells == old(mem.cells)[at := Cell(old(mem.cells)[at].isArray,
                                                   Heads(Without(entries, Dropped(entries))))]
  {
    DeleteUnknownKeys(mem, at);
    assert mem.cells[at].slots == Without(Heads(entries), FORBIDDEN);
    assert SameOn(old(mem.cells), mem.cells, AddressesOf(entries));
    NeighboursInMemory(old(mem.cells), mem.cells, entries);
    DeletionsAddUp(entries);
    ghost var middle := mem.cells;
    DeleteStrayKeys(mem, at);
    assert mem.cells[at].slots == Heads(Without(entries, Dropped(entries)));
    OverwrittenTwice(old(mem.cells), middle, mem.cells, at);
  }

  lemma OverwrittenTwice(a: Cells, b: Cells, c: Cells, at: nat)
    requires at in b && b == a[at := b[at]]
    requires at in c && c == b[at := c[at]]
    ensures c == a[at := c[at]]
  {
  }

  lemma DeletionsAddUp(entries: seq<Field<Json>>)
    ensures WithoutStray(Without(Heads(entries), FORBIDDEN), StrayItems(entries), StrayProperties(entries))
            == Heads(Without(entries, Dropped(entries)))
  {
    var gone := if StrayItems(entries) then FORBIDDEN + {"additionalItems"} else FORBIDDEN;
    WithoutTwice(Heads(entries), FORBIDDEN, {"additionalItems"});
    WithoutTwice(Heads(entries), gone, {"additionalProperties"});
    assert Dropped(entries) == if StrayProperties(entries) then gone + {"additionalProperties"} else gone;
    HeadsWithout(entries, Dropped(entries));
  }

  /** What the two conditions see in memory is what they mean for the schema. */
  lemma NeighboursInMemory(a: Cells, b: Cells, entries: seq<Field<Json>>)
    requires ReadsAll(a, entries) && SameOn(a, b, AddressesOf(entries))
    ensures StrayItemsIn(b, Without(Heads(entries), FORBIDDEN)) <==> StrayItems(entries)
    ensures StrayPropertiesIn(Without(Heads(entries), FORBIDDEN)) <==> StrayProperties(entries)
  {
    FindWithout(Heads(entries), FORBIDDEN, "items");
    FindWithout(Heads(entries), FORBIDDEN, "type");
    FindHeads(entries, "items");
    FindHeads(entries, "type");
    ReadsAllFrame(a, b, entries);
    if Find(entries, "items").Some? {
      FindReads(b, entries, "items");
    }
  }

  /** `cleanSchema`: the tree below `v` is cleaned where it stands and nothing else in memory changes. */
  method CleanSchema(mem: Memory, v: Value, ghost j: Json)
    requires v == Head(j) && Reads(mem.cells, j) && Unshared(j)
    modifies mem
    ensures Reads(mem.cells, Clean(j))
    ensures SameElsewhere(old(mem.cells), mem.cells, Addresses(j))
    decreases j
  {
    if !v.Ref? {
      return;
    }
    ghost var kept := Without(j.entries, Dropped(j.entries));
    KeptEntries(j.entries, Dropped(j.entries));
    DeleteKeys(mem, v.at, j.entries);
    var slots := mem.cells[v.at].slots;
    KeptAreRead(old(mem.cells), mem.cells, j, kept);
    ghost var start := mem.cells;
    for i := 0 to |slots|
      invariant v.at in mem.cells && mem.cells[v.at] == start[v.at]
      invariant SameElsewhere(start, mem.cells, AddressesOf(kept))
      invariant ReadsAll(mem.cells, CleanEntries(kept[..i], {}))
      invariant ReadsAll(mem.cells, kept[i..])
    {
      ghost var before := mem.cells;
      Split(kept, i);
      assert kept[i] in kept;
      CleanSchema(mem, slots[i].value, kept[i].value);
      OneMoreCleaned(before, mem.cells, kept, i);
    }
    assert kept[..|slots|] == kept;
    CleaningKeepsHeads(kept);
  }

  lemma {:induction false} WithoutNothing<T>(entries: seq<Field<T>>)
    ensures Without(entries, {}) == entries
    decreases |entries|
  {
    if entries != [] {
      WithoutNothing(entries[1..]);
    }
  }

  /** The kept entries are entries of the object, still a forest, and cleaning them is all that is left to do. */
  lemma {:induction false} KeptEntries(entries: seq<Field<Json>>, dropped: set<string>)
    requires UnsharedAll(entries)
    ensures forall e :: e in Without(entries, dropped) ==> e in entries
    ensures UnsharedAll(Without(entries, dropped))
    ensures AddressesOf(Without(entries, dropped)) <= AddressesOf(entries)
    ensures CleanEntries(entries, dropped) == CleanEntries(Without(entries, dropped), {})
    decreases |entries|
  {
    if entries != [] {
      KeptEntries(entries[1..], dropped);
    }
  }

  lemma {:induction false} KeptAreRead(a: Cells, b: Cells, j: Json, kept: seq<Field<Json>>)
    requires j.Node? && Reads(a, j) && Unshared(j)
    requires kept == Without(j.entries, Dropped(j.entries))
    requires j.at in b && SameElsewhere(a, b, {j.at})
    ensures ReadsAll(b, kept)
  {
    ReadsAllFrame(a, b, j.entries);
    WithoutReads(b, j.entries, Dropped(j.entries));
  }

  lemma {:induction false} WithoutReads(cells: Cells, entries: seq<Field<Json>>, keys: set<string>)
    requires ReadsAll(cells, entries)
    ensures ReadsAll(cells, Without(entries, keys))
    decreases |entries|
  {
    if entries != [] {
      WithoutReads(cells, entries[1..], keys);
    }
  }

  /** Everything about a list of entries is about its two parts. */
  lemma {:induction false} Parts(cells: Cells, a: seq<Field<Json>>, b: seq<Field<Json>>)
    ensures AddressesOf(a + b) == AddressesOf(a) + AddressesOf(b)
    ensures UnsharedAll(a + b) <==> UnsharedAll(a) && UnsharedAll(b) && AddressesOf(a) !! AddressesOf(b)
    ensures ReadsAll(cells, a + b) <==> ReadsAll(cells, a) && ReadsAll(cells, b)
    ensures CleanEntries(a + b, {}) == CleanEntries(a, {}) + CleanEntries(b, {})
    decreases |a|
  {
    if a == [] {
      assert a + b == b;
    } else {
      assert (a + b)[1..] == a[1..] + b;
      Parts(cells, a[1..], b);
    }
  }

  /** The entry at `i` shares nothing with those before it and those after it. */
  lemma Split(kept: seq<Field<Json>>, i: nat)
    requires i < |kept| && UnsharedAll(kept)
    ensures Unshared(kept[i].value)
    ensures Addresses(kept[i].value) <= AddressesOf(kept)
    ensures Addresses(kept[i].value) !! AddressesOf(kept[..i])
    ensures Addresses(kept[i].value) !! AddressesOf(kept[i + 1..])
  {
    assert kept == kept[..i] + kept[i..];
    assert kept[i..][1..] == kept[i + 1..];
    Parts(map[], kept[..i], kept[i..]);
  }

  lemma OneMoreCleaned(a: Cells, b: Cells, kept: seq<Field<Json>>, i: nat)
    requires i < |kept| && UnsharedAll(kept)
    requires ReadsAll(a, CleanEntries(kept[..i], {})) && ReadsAll(a, kept[i..])
    requires Reads(b, Clean(kept[i].value)) && SameElsewhere(a, b, Addresses(kept[i].value))
    ensures ReadsAll(b, CleanEntries(kept[..i + 1], {})) && ReadsAll(b, kept[i + 1..])
  {
    Split(kept, i);
    var done, last := kept[..i], [kept[i]];
    assert kept[..i + 1] == done + last;
    assert kept[i..][1..] == kept[i + 1..];
    CleaningKeepsAddresses(done);
    ReadsAllFrame(a, b, CleanEntries(done, {}));
    ReadsAllFrame(a, b, kept[i + 1..]);
    Parts(b, done, last);
    Parts(b, CleanEntries(done, {}), CleanEntries(last, {}));
  }

  lemma {:induction false} CleaningKeepsHeads(entries: seq<Field<Json>>)
    ensures Heads(CleanEntries(entries, {})) == Heads(entries)
    decreases |entries|
  {
    if entries != [] {
      CleaningKeepsHeads(entries[1..]);
    }
  }

  lemma {:induction false} CleaningKeepsAddresses(entries: seq<Field<Json>>, dropped: set<string> := {})
    ensures AddressesOf(CleanEntries(entries, dropped)) <= AddressesOf(entries)
    decreases entries
  {
    if entries != [] {
      CleaningKeepsAddresses(entries[1..], dropped);
      var child := entries[0].value;
      if child.Node? {
        CleaningKeepsAddresses(child.entries, Dropped(child.entries));
      }
    }
  }

  // The copy.

  /** The schema without the identities of its objects. */
  function Plain(j: Json): Json {
    match j
    case Node(_, isArray, entries) => Node(0, isArray, PlainEntries(entries))
    case _ => j
  }

  function PlainEntries(entries: seq<Field<Json>>): seq<Field<Json>> {
    if entries == [] then [] else [Field(entries[0].key, Plain(entries[0].value))] + PlainEntries(entries[1..])
  }

  lemma {:induction false} FindPlain(entries: seq<Field<Json>>, key: string)
    ensures Find(PlainEntries(entries), key) ==
            if Find(entries, key).None? then None else Some(Plain(Find(entries, key).value))
    decreases |entries|
  {
    if entries != [] {
      FindPlain(entries[1..], key);
    }
  }

  lemma {:induction false} CleaningIgnoresIdentity(j: Json)
    ensures Plain(Clean(j)) == Clean(Plain(j))
    decreases j
  {
    if j.Node? {
      FindPlain(j.entries, "items");
      FindPlain(j.entries, "type");
      assert Dropped(PlainEntries(j.entries)) == Dropped(j.entries);
      CleaningEntriesIgnoresIdentity(j.entries, Dropped(j.entries));
    }
  }

  lemma {:induction false} CleaningEntriesIgnoresIdentity(entries: seq<Field<Json>>, dropped: set<string>)
    ensures PlainEntries(CleanEntries(entries, dropped)) == CleanEntries(PlainEntries(entries), dropped)
    decreases entries
  {
    if entries != [] {
      CleaningIgnoresIdentity(entries[0].value);
      CleaningEntriesIgnoresIdentity(entries[1..], dropped);
    }
  }

  /**
    * `removeUnknownKeys`. `copied` and `copy` stand for what structuredClone allocates: `k`, equal to the schema `j`
    * but for the identities of its objects. The schema passed in is not changed; the result is `j` cleaned.
    */
  method RemoveUnknownKeys(mem: Memory, copied: Cells, copy: Value, ghost j: Json, ghost k: Json)
    requires Reads(mem.cells, j) && Addresses(j) <= mem.cells.Keys
    requires copy == Head(k) && Reads(copied, k) && Unshared(k) && Plain(k) == Plain(j)
    requires Addresses(k) <= copied.Keys && mem.cells.Keys !! copied.Keys
    modifies mem
    ensures forall at :: at in old(mem.cells) ==> at in mem.cells && mem.cells[at] == old(mem.cells)[at]
    ensures Reads(mem.cells, j)
    ensures Reads(mem.cells, Clean(k)) && Plain(Clean(k)) == Clean(Plain(j))
  {
    mem.cells := mem.cells + copied;
    ReadsFrame(copied, mem.cells, k);
    CleanSchema(mem, copy, k);
    ReadsFrame(old(mem.cells), mem.cells, j);
    CleaningIgnoresIdentity(k);
  }
}
