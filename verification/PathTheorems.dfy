/** When the enumerated names are all the names.

    The enumeration stops where a message would be entered inside itself; a sweep does not.
    So a schema with a recursive message can hold strings under names nobody can list, and
    this says exactly which schemas do. */
module PathTheorems {
  import opened Wrappers
  import opened Trees
  import opened FieldPaths

  predicate Holds(schema: Schema, a: string, b: string) {
    a in schema.fields && exists i :: 0 <= i < |schema.fields[a]| && HoldsAt(schema, a, b, i)
  }

  predicate HoldsAt(schema: Schema, a: string, b: string, i: nat)
    requires a in schema.fields && i < |schema.fields[a]|
  {
    Descends(schema.fields[a][i]) && schema.fields[a][i].kind.message == b
  }

  // A way down from the root, message by message.
  predicate Trail(schema: Schema, root: string, names: seq<string>) {
    names != [] && names[0] == root && forall i :: 0 <= i < |names| - 1 ==> Holds(schema, names[i], names[i + 1])
  }

  predicate Repeats(names: seq<string>) {
    exists i, j :: 0 <= i < j < |names| && names[i] == names[j]
  }

  predicate HasString(schema: Schema, name: string) {
    name in schema.fields && exists i :: 0 <= i < |schema.fields[name]| && schema.fields[name][i].kind.Text?
  }

  /** No string field lies at or below a message that is held inside itself. */
  ghost predicate NoStringUnderRecursion(schema: Schema, root: string) {
    forall names :: Trail(schema, root, names) && Repeats(names) ==> !HasString(schema, names[|names| - 1])
  }

  function PathOf(schema: Schema, leaf: Leaf): FieldPath
    requires leaf.Value?
  {
    FieldPath(leaf.path, leaf.message, leaf.field, Classify(schema, leaf.message, leaf.field))
  }

  /** Every string of every well-typed result is enumerated, under the name the sweep forms
      for it and as the field it is. */
  ghost predicate Complete(schema: Schema, root: string) {
    forall tree, leaf :: Conforms(schema, tree) && tree.name == root && leaf in Leaves(tree, "") && leaf.Value? ==>
      PathOf(schema, leaf) in PathsOf(schema, root, "", {})
  }

  // ---------------------------------------------------------------- where a leaf stands

  lemma {:induction false} ElementOfLeaf(list: seq<Tree>, path: string, leaf: Leaf) returns (j: nat)
    requires leaf in ListLeaves(list, path)
    ensures j < |list| && leaf in Leaves(list[j], path)
    decreases |list|
  {
    var n := |list| - 1;
    if leaf in Leaves(list[n], path) {
      j := n;
    } else {
      j := ElementOfLeaf(list[..n], path, leaf);
    }
  }

  lemma {:induction false} EntryOfLeaf(tree: Tree, path: string, n: nat, leaf: Leaf) returns (i: nat)
    requires n <= |tree.entries| && leaf in LeavesTo(tree, path, n)
    ensures i < n && leaf in EntryLeaves(tree.name, tree.entries[i], path)
    decreases n
  {
    if leaf in EntryLeaves(tree.name, tree.entries[n - 1], path) {
      i := n - 1;
    } else {
      i := EntryOfLeaf(tree, path, n - 1, leaf);
    }
  }

  // The messages from the root down to the one that holds this leaf.
  lemma {:induction false} LeafTrail(schema: Schema, root: string, trail: seq<string>, tree: Tree, path: string,
                                     leaf: Leaf)
    returns (full: seq<string>)
    requires Conforms(schema, tree) && Trail(schema, root, trail) && trail[|trail| - 1] == tree.name
    requires leaf in Leaves(tree, path) && leaf.Value?
    ensures Trail(schema, root, full) && |trail| <= |full| && full[..|trail|] == trail
    ensures full[|full| - 1] == leaf.message && HasString(schema, leaf.message)
    decreases tree
  {
    var i := EntryOfLeaf(tree, path, |tree.entries|, leaf);
    var entry, here := tree.entries[i], Join(path, tree.entries[i].field.name);
    assert EntryConforms(schema, entry) && entry.field == schema.fields[tree.name][i];
    if entry.field.kind.Text? {
      TextLeavesAt(tree.name, entry.field.name, entry.texts, here);
      full := trail;
    } else {
      var j := ElementOfLeaf(entry.messages, here, leaf);
      var sub := entry.messages[j];
      assert HoldsAt(schema, tree.name, sub.name, i);
      full := LeafTrail(schema, root, trail + [sub.name], sub, here, leaf);
      assert full[..|trail|] == full[..|trail| + 1][..|trail|] == trail;
    }
  }

  // ---------------------------------------------------------------- enumerated

  lemma PathsToGrows(schema: Schema, name: string, prefix: string, visiting: set<string>, i: nat, n: nat)
    requires name in schema.fields && i < n <= |schema.fields[name]|
    ensures forall f :: f in PathsAt(schema, name, prefix, visiting, i) ==>
                f in PathsTo(schema, name, prefix, visiting, n)
    decreases n
  {
    if i < n - 1 { PathsToGrows(schema, name, prefix, visiting, i, n - 1); }
  }

  function Names(trail: seq<string>): set<string> {
    set name | name in trail
  }

  lemma LongerRepeats(trail: seq<string>, full: seq<string>)
    requires |trail| <= |full| && full[..|trail|] == trail
    ensures Repeats(trail) ==> Repeats(full)
  {
    if i, j :| 0 <= i < j < |trail| && trail[i] == trail[j] { assert full[i] == full[j]; }
  }

  lemma RecursionHasNoLeaf(schema: Schema, root: string, trail: seq<string>, tree: Tree, path: string, leaf: Leaf)
    requires NoStringUnderRecursion(schema, root) && Conforms(schema, tree)
    requires Trail(schema, root, trail) && trail[|trail| - 1] == tree.name
    requires leaf in Leaves(tree, path) && leaf.Value?
    ensures !Repeats(trail)
  {
    var full := LeafTrail(schema, root, trail, tree, path, leaf);
    LongerRepeats(trail, full);
  }

  lemma {:induction false} LeafIsEnumerated(schema: Schema, root: string, trail: seq<string>, tree: Tree, path: string,
                                            leaf: Leaf)
    requires NoStringUnderRecursion(schema, root) && Conforms(schema, tree)
    requires Trail(schema, root, trail + [tree.name])
    requires leaf in Leaves(tree, path) && leaf.Value?
    ensures PathOf(schema, leaf) in PathsOf(schema, tree.name, path, Names(trail))
    decreases tree
  {
    var down, visiting := trail + [tree.name], Names(trail) + {tree.name};
    RecursionHasNoLeaf(schema, root, down, tree, path, leaf);
    VisitedRepeats(trail, tree.name);
    var i := EntryOfLeaf(tree, path, |tree.entries|, leaf);
    var entry, here := tree.entries[i], Join(path, tree.entries[i].field.name);
    assert EntryConforms(schema, entry) && entry.field == schema.fields[tree.name][i];
    PathsToGrows(schema, tree.name, path, visiting, i, |schema.fields[tree.name]|);
    if entry.field.kind.Text? {
      TextLeavesAt(tree.name, entry.field.name, entry.texts, here);
    } else {
      var j := ElementOfLeaf(entry.messages, here, leaf);
      assert HoldsAt(schema, tree.name, entry.messages[j].name, i);
      LeafIsEnumerated(schema, root, down, entry.messages[j], here, leaf);
      assert Names(down) == visiting;
    }
  }

  lemma VisitedRepeats(trail: seq<string>, name: string)
    ensures name in Names(trail) ==> Repeats(trail + [name])
  {
    if i :| 0 <= i < |trail| && trail[i] == name { assert (trail + [name])[i] == (trail + [name])[|trail|]; }
  }

  // ---------------------------------------------------------------- not enumerated

  // Descriptors name their fields.
  ghost predicate Named(schema: Schema) {
    forall name, i :: name in schema.fields && 0 <= i < |schema.fields[name]| ==> schema.fields[name][i].name != ""
  }

  // A result that goes all the way down a trail, to a string under a name at least as long.
  lemma {:induction false} TrailIsWalked(schema: Schema, names: seq<string>, prefix: string)
    returns (tree: Tree, leaf: Leaf)
    requires Named(schema) && names != [] && Trail(schema, names[0], names) && HasString(schema, names[|names| - 1])
    ensures Conforms(schema, tree) && tree.name == names[0]
    ensures leaf in Leaves(tree, prefix) && leaf.Value? && |leaf.path| >= |prefix| + |names|
    decreases |names|
  {
    var name := names[0];
    if |names| == 1 {
      var i :| 0 <= i < |schema.fields[name]| && schema.fields[name][i].kind.Text?;
      tree, leaf := StringHere(schema, name, i, prefix);
    } else {
      assert Holds(schema, names[0], names[1]);
      var i :| 0 <= i < |schema.fields[name]| && HoldsAt(schema, name, names[1], i);
      var here := Join(prefix, schema.fields[name][i].name);
      assert forall k :: 0 <= k < |names[1..]| - 1 ==> Holds(schema, names[1..][k], names[1..][k + 1]);
      var sub, below := TrailIsWalked(schema, names[1..], here);
      tree := StringBelow(schema, name, i, prefix, sub, below);
      leaf := below;
    }
  }

  lemma StringHere(schema: Schema, name: string, i: nat, prefix: string) returns (tree: Tree, leaf: Leaf)
    requires Named(schema) && name in schema.fields && i < |schema.fields[name]| && schema.fields[name][i].kind.Text?
    ensures Conforms(schema, tree) && tree.name == name
    ensures leaf in Leaves(tree, prefix) && leaf.Value? && |leaf.path| >= |prefix| + 1
  {
    var field := schema.fields[name][i].name;
    RealisedHere(schema, name, prefix, i, "x");
    var f := FieldPath(Join(prefix, field), name, field, Classify(schema, name, field));
    tree :| Realises(schema, name, prefix, f, "x", tree);
    leaf := Value(f.path, name, field, "x");
  }

  lemma StringBelow(schema: Schema, name: string, i: nat, prefix: string, sub: Tree, leaf: Leaf) returns (tree: Tree)
    requires name in schema.fields && i < |schema.fields[name]| && HoldsAt(schema, name, sub.name, i)
             && Conforms(schema, sub)
    requires leaf in Leaves(sub, Join(prefix, schema.fields[name][i].name))
    ensures Conforms(schema, tree) && tree.name == name && leaf in Leaves(tree, prefix)
  {
    var field := schema.fields[name][i];
    var here := Join(prefix, field.name);
    tree := Only(schema, name, i, [], [sub]);
    OnlyLeaves(schema, name, i, [], [sub], prefix);
    LeavesOfElement([sub], here, 0);
    assert [sub][0] == sub && EntryLeaves(name, Entry(field, [], [sub]), prefix) == ListLeaves([sub], here);
    assert EntryConforms(schema, tree.entries[i]);
  }

  // Going round once more.
  lemma RoundAgain(schema: Schema, root: string, names: seq<string>) returns (longer: seq<string>)
    requires Trail(schema, root, names) && Repeats(names)
    ensures Trail(schema, root, longer) && Repeats(longer) && |longer| > |names|
            && longer[|longer| - 1] == names[|names| - 1]
  {
    var i, j :| 0 <= i < j < |names| && names[i] == names[j];
    longer := names[..j] + names[i..];
    assert longer[i] == longer[j] == names[i];
    forall k | 0 <= k < |longer| - 1 ensures Holds(schema, longer[k], longer[k + 1]) {
      var at := if k < j then k else k - j + i;
      assert longer[k] == names[at] && longer[k + 1] == if k < j - 1 then names[k + 1] else names[k + 1 - j + i];
      assert Holds(schema, names[at], names[at + 1]);
    }
  }

  lemma {:induction false} RoundAndRound(schema: Schema, root: string, names: seq<string>, n: nat)
    returns (longer: seq<string>)
    requires Trail(schema, root, names) && Repeats(names)
    ensures Trail(schema, root, longer) && |longer| > n && longer[|longer| - 1] == names[|names| - 1]
    decreases n - |names|
  {
    if |names| > n {
      longer := names;
    } else {
      var more := RoundAgain(schema, root, names);
      longer := RoundAndRound(schema, root, more, n);
    }
  }

  lemma {:induction false} LongestPath(paths: seq<FieldPath>) returns (n: nat)
    ensures forall f :: f in paths ==> |f.path| <= n
  {
    if paths == [] {
      n := 0;
    } else {
      var k := |paths| - 1;
      n := LongestPath(paths[..k]);
      if n < |paths[k].path| { n := |paths[k].path|; }
      assert paths == paths[..k] + [paths[k]];
    }
  }

  lemma RecursionIsMissed(schema: Schema, root: string, names: seq<string>)
    requires Named(schema) && Trail(schema, root, names) && Repeats(names) && HasString(schema, names[|names| - 1])
    ensures !Complete(schema, root)
  {
    var n := LongestPath(PathsOf(schema, root, "", {}));
    var longer := RoundAndRound(schema, root, names, n);
    var tree, leaf := TrailIsWalked(schema, longer, "");
    assert PathOf(schema, leaf) !in PathsOf(schema, root, "", {});
  }

  /** The enumeration is complete exactly when no string lies under a recursive message. */
  lemma CompleteIff(schema: Schema, root: string)
    requires Named(schema)
    ensures Complete(schema, root) <==> NoStringUnderRecursion(schema, root)
  {
    if NoStringUnderRecursion(schema, root) {
      forall tree, leaf | Conforms(schema, tree) && tree.name == root && leaf in Leaves(tree, "") && leaf.Value?
        ensures PathOf(schema, leaf) in PathsOf(schema, root, "", {})
      {
        assert Trail(schema, root, [] + [root]) && Names([]) == {};
        LeafIsEnumerated(schema, root, [], tree, "", leaf);
      }
    } else {
      var names :| Trail(schema, root, names) && Repeats(names) && HasString(schema, names[|names| - 1]);
      RecursionIsMissed(schema, root, names);
    }
  }

  // A message that can hold itself, with one string.
  const Recursive := Schema(map["a" := [Field("s", Text, Single), Field("next", Nested("a"), Single)]],
                            map["a" := map["s" := Structural]])

  /** The guard against cycles does not make the enumeration cover a recursive message. */
  lemma RecursiveMessageIsMissed()
    ensures Named(Recursive) && Closed(Recursive) && !Complete(Recursive, "a")
  {
    var names := ["a", "a"];
    assert HoldsAt(Recursive, "a", "a", 1);
    assert Trail(Recursive, "a", names) && names[0] == names[1] && Repeats(names);
    assert Recursive.fields["a"][0].kind.Text? && HasString(Recursive, "a");
    RecursionIsMissed(Recursive, "a", names);
  }

  // Each message ranks below any that holds it.
  ghost predicate Ranked(schema: Schema, rank: string -> nat) {
    forall a, b :: Holds(schema, a, b) ==> rank(b) < rank(a)
  }

  lemma {:induction false} RanksFall(schema: Schema, rank: string -> nat, root: string, names: seq<string>, i: nat,
                                     j: nat)
    requires Ranked(schema, rank) && Trail(schema, root, names) && i < j < |names|
    ensures rank(names[j]) < rank(names[i])
    decreases j
  {
    assert Holds(schema, names[j - 1], names[j]);
    if i < j - 1 { RanksFall(schema, rank, root, names, i, j - 1); }
  }

  /** In particular it is complete whenever no message is recursive, as in the contract. */
  lemma AcyclicIsComplete(schema: Schema, root: string, rank: string -> nat)
    requires Named(schema) && Ranked(schema, rank)
    ensures Complete(schema, root)
  {
    forall names | Trail(schema, root, names) ensures !Repeats(names) {
      forall i, j | 0 <= i < j < |names| ensures names[i] != names[j] { RanksFall(schema, rank, root, names, i, j); }
    }
    CompleteIff(schema, root);
  }

  // ---------------------------------------------------------------- no name is dead

  lemma {:induction false} PathsAreClassified(schema: Schema, name: string, prefix: string, visiting: set<string>,
                                              f: FieldPath)
    requires Closed(schema) && f in PathsOf(schema, name, prefix, visiting)
    ensures f.classification == Classify(schema, f.message, f.field)
    decreases schema.fields.Keys - visiting, 0, 0
  {
    PathsToAreClassified(schema, name, prefix, visiting + {name}, |schema.fields[name]|, f);
  }

  lemma {:induction false} PathsToAreClassified(schema: Schema, name: string, prefix: string, visiting: set<string>,
                                                n: nat, f: FieldPath)
    requires Closed(schema) && name in schema.fields && n <= |schema.fields[name]|
             && f in PathsTo(schema, name, prefix, visiting, n)
    ensures f.classification == Classify(schema, f.message, f.field)
    decreases schema.fields.Keys - visiting, 1, n
  {
    var field := schema.fields[name][n - 1];
    if f in PathsTo(schema, name, prefix, visiting, n - 1) {
      PathsToAreClassified(schema, name, prefix, visiting, n - 1, f);
    } else if !field.kind.Text? {
      PathsAreClassified(schema, field.kind.message, Join(prefix, field.name), visiting, f);
    }
  }

  /** A name a policy may exclude is one the sweep forms, for a declared string, whatever it
      says, that some well-typed result holds and no other. */
  lemma NamesAreLive(schema: Schema, root: string, f: FieldPath, text: string) returns (tree: Tree, leaf: Leaf)
    requires Closed(schema) && f in PathsOf(schema, root, "", {}) && f.classification.Some?
    ensures Conforms(schema, tree) && tree.name == root && Leaves(tree, "") == [leaf]
    ensures leaf.Value? && leaf.path == f.path && leaf.text == text
    ensures Classify(schema, leaf.message, leaf.field) == f.classification
  {
    EveryPathIsLive(schema, root, "", {}, f, text);
    PathsAreClassified(schema, root, "", {}, f);
    tree :| Realises(schema, root, "", f, text, tree);
    leaf := Value(f.path, f.message, f.field, text);
  }
}
