/** What a result holds, said of its messages and not of the walk over them. */
module Occurrences {
  import opened Trees
  import opened Redaction
  import opened PathTheorems

  // A message of the result, at any depth, reached through fields that are not maps.
  ghost predicate Within(part: Tree, whole: Tree)
    decreases whole
  {
    part == whole || exists i, j :: 0 <= i < |whole.entries| && 0 <= j < |whole.entries[i].messages|
                                    && whole.entries[i].field.kind.Nested? && !whole.entries[i].field.shape.Mapped?
                                    && Within(part, whole.entries[i].messages[j])
  }

  // This field of the message holds a map with something in it.
  predicate HoldsMap(part: Tree, i: int) {
    && 0 <= i < |part.entries| && part.entries[i].field.kind.Nested? && part.entries[i].field.shape.Mapped?
    && part.entries[i].messages != []
  }

  // This field of the message holds this string.
  predicate HoldsText(part: Tree, i: int, text: string) {
    0 <= i < |part.entries| && part.entries[i].field.kind.Text? && text in part.entries[i].texts
  }

  // The leaf stands for a populated map, or a string, of this message.
  predicate StandsFor(leaf: Leaf, part: Tree, i: int) {
    if leaf.MapField? then HoldsMap(part, i)
    else HoldsText(part, i, leaf.text) && leaf.message == part.name && leaf.field == part.entries[i].field.name
  }

  ghost predicate Stands(leaf: Leaf, whole: Tree) {
    exists part, i :: Within(part, whole) && StandsFor(leaf, part, i)
  }

  lemma StandsHigher(leaf: Leaf, whole: Tree, i: nat, j: nat)
    requires i < |whole.entries| && j < |whole.entries[i].messages|
    requires whole.entries[i].field.kind.Nested? && !whole.entries[i].field.shape.Mapped?
    requires Stands(leaf, whole.entries[i].messages[j])
    ensures Stands(leaf, whole)
  {
    var part, k :| Within(part, whole.entries[i].messages[j]) && StandsFor(leaf, part, k);
    assert Within(part, whole);
  }

  // Every leaf the walk comes to stands for something in the result.
  lemma {:induction false} LeafStands(tree: Tree, path: string, leaf: Leaf)
    requires leaf in Leaves(tree, path)
    ensures Stands(leaf, tree)
    decreases tree
  {
    var i := EntryOfLeaf(tree, path, |tree.entries|, leaf);
    var entry, here := tree.entries[i], Join(path, tree.entries[i].field.name);
    if entry.field.kind.Text? {
      TextLeavesAt(tree.name, entry.field.name, entry.texts, here);
      assert Within(tree, tree) && StandsFor(leaf, tree, i);
    } else if entry.field.shape.Mapped? {
      assert Within(tree, tree) && StandsFor(leaf, tree, i);
    } else {
      var j := ElementOfLeaf(entry.messages, here, leaf);
      LeafStands(entry.messages[j], here, leaf);
      StandsHigher(leaf, tree, i, j);
    }
  }

  // And the walk comes to everything in the result.
  lemma {:induction false} PartIsWalked(part: Tree, whole: Tree, path: string) returns (below: string)
    requires Within(part, whole)
    ensures forall leaf :: leaf in Leaves(part, below) ==> leaf in Leaves(whole, path)
    decreases whole
  {
    if part == whole {
      below := path;
    } else {
      var i, j :| 0 <= i < |whole.entries| && 0 <= j < |whole.entries[i].messages|
                  && whole.entries[i].field.kind.Nested? && !whole.entries[i].field.shape.Mapped?
                  && Within(part, whole.entries[i].messages[j]);
      var here := Join(path, whole.entries[i].field.name);
      below := PartIsWalked(part, whole.entries[i].messages[j], here);
      LeavesOfElement(whole.entries[i].messages, here, j);
      LeavesOfEntry(whole, path, i, |whole.entries|);
    }
  }

  lemma MapIsWalked(whole: Tree, part: Tree, i: int)
    requires Within(part, whole) && HoldsMap(part, i)
    ensures exists leaf :: leaf in Leaves(whole, "") && leaf.MapField?
  {
    var below := PartIsWalked(part, whole, "");
    LeavesOfEntry(part, below, i, |part.entries|);
    var leaf := MapField(Join(below, part.entries[i].field.name));
    assert leaf in EntryLeaves(part.name, part.entries[i], below);
    assert leaf in Leaves(part, below);
  }

  lemma TextIsWalked(whole: Tree, part: Tree, i: int, text: string)
    requires Within(part, whole) && HoldsText(part, i, text)
    ensures exists leaf :: leaf in Leaves(whole, "") && leaf.Value? && leaf.text == text && leaf.message == part.name
                           && leaf.field == part.entries[i].field.name
  {
    var below := PartIsWalked(part, whole, "");
    var entry := part.entries[i];
    var here := Join(below, entry.field.name);
    LeavesOfEntry(part, below, i, |part.entries|);
    TextLeavesAt(part.name, entry.field.name, entry.texts, here);
    var k :| 0 <= k < |entry.texts| && entry.texts[k] == text;
    var leaf := Value(here, part.name, entry.field.name, text);
    assert TextLeaves(part.name, entry.field.name, entry.texts, here)[k] == leaf;
    assert leaf in EntryLeaves(part.name, entry, below);
  }

  /** A result is refused exactly when some message in it, at any depth, holds a populated map or a
      string in a field the table does not have, or it presents more bytes to read than the policy
      allows. */
  lemma RefusedIff(schema: Schema, policy: Policy, tree: Tree)
    requires Enforceable(policy)
    ensures SweepOf(schema, policy, tree).faulted <==>
            || (exists part, i :: Within(part, tree) && HoldsMap(part, i))
            || (exists part, i, text :: Within(part, tree) && HoldsText(part, i, text)
                  && (part.name !in schema.declared || part.entries[i].field.name !in schema.declared[part.name]))
            || BytesRead(schema, policy, Leaves(tree, "")) > policy.maxInput
  {
    SweepFaultsIff(schema, policy, tree);
    if part, i :| Within(part, tree) && HoldsMap(part, i) { MapIsWalked(tree, part, i); }
    forall part, i, text | Within(part, tree) && HoldsText(part, i, text)
      ensures exists leaf :: leaf in Leaves(tree, "") && leaf.Value? && leaf.message == part.name
                             && leaf.field == part.entries[i].field.name
    {
      TextIsWalked(tree, part, i, text);
    }
    if leaf :| leaf in Leaves(tree, "") && Unaccounted(schema, leaf) {
      LeafStands(tree, "", leaf);
      var part, i :| Within(part, tree) && StandsFor(leaf, part, i);
      assert leaf.MapField? ==> HoldsMap(part, i);
      assert leaf.Value? ==> HoldsText(part, i, leaf.text);
    }
  }
}
