/** What the search for free text means for results: it answers whether some well-typed result
    could say anything that nobody declared structural. */
module FreeText {
  import opened Trees
  import opened FieldPaths
  import opened Reachability

  // A message of the result, at any depth, those in maps included.
  ghost predicate Below(part: Tree, whole: Tree)
    decreases whole
  {
    part == whole || exists i, j :: 0 <= i < |whole.entries| && 0 <= j < |whole.entries[i].messages|
                                    && Below(part, whole.entries[i].messages[j])
  }

  // This field of the message holds a string that the table does not call structural.
  predicate SaysAt(schema: Schema, part: Tree, i: int) {
    && 0 <= i < |part.entries| && part.entries[i].field.kind.Text? && part.entries[i].texts != []
    && !(part.name in schema.declared && part.entries[i].field.name in schema.declared[part.name]
         && schema.declared[part.name][part.entries[i].field.name] == Structural)
  }

  ghost predicate Says(schema: Schema, name: string, tree: Tree) {
    && Conforms(schema, tree) && tree.name == name
    && exists part, i :: Below(part, tree) && SaysAt(schema, part, i)
  }

  lemma {:induction false} SaidIsReached(schema: Schema, tree: Tree, part: Tree, i: int)
    requires Conforms(schema, tree) && Below(part, tree) && SaysAt(schema, part, i)
    ensures MayCarryText(schema, tree.name)
    decreases tree
  {
    if part == tree {
      assert TextField(schema, tree.name, i);
      ReachesSelf(schema, tree.name);
      assert CarriesText(schema, tree.name);
    } else {
      var p, q :| 0 <= p < |tree.entries| && 0 <= q < |tree.entries[p].messages|
                  && Below(part, tree.entries[p].messages[q]);
      var child := tree.entries[p].messages[q];
      assert EntryConforms(schema, tree.entries[p]);
      SaidIsReached(schema, child, part, i);
      var n :| Reaches(schema, child.name, n) && CarriesText(schema, n);
      assert Edge(schema, tree.name, child.name);
      ReachesOn(schema, tree.name, child.name, n);
    }
  }

  lemma SaidHere(schema: Schema, name: string) returns (tree: Tree)
    requires CarriesText(schema, name)
    ensures Says(schema, name, tree)
  {
    var i :| 0 <= i < |schema.fields[name]| && TextField(schema, name, i);
    tree := Only(schema, name, i, [""], []);
    assert Below(tree, tree) && SaysAt(schema, tree, i);
  }

  lemma SaidBelow(schema: Schema, name: string, child: string, sub: Tree) returns (tree: Tree)
    requires Edge(schema, name, child) && Says(schema, child, sub)
    ensures Says(schema, name, tree)
  {
    var i :| 0 <= i < |schema.fields[name]| && schema.fields[name][i].kind == Nested(child);
    tree := Only(schema, name, i, [], [sub]);
    assert EntryConforms(schema, tree.entries[i]);
    var part, k :| Below(part, sub) && SaysAt(schema, part, k);
    assert tree.entries[i].messages[0] == sub;
    assert Below(part, tree);
  }

  lemma {:induction false} ReachedIsSaid(schema: Schema, names: seq<string>, a: string, b: string) returns (tree: Tree)
    requires ChainFrom(schema, names, a, b) && CarriesText(schema, b)
    ensures Says(schema, a, tree)
    decreases |names|
  {
    if |names| == 1 {
      tree := SaidHere(schema, a);
    } else {
      assert Edge(schema, names[0], names[1]);
      assert forall i :: 0 <= i < |names[1..]| - 1 ==> Edge(schema, names[1..][i], names[1..][i + 1]);
      var sub := ReachedIsSaid(schema, names[1..], names[1], b);
      tree := SaidBelow(schema, a, names[1], sub);
    }
  }

  /** The search answers yes for exactly the messages some well-typed instance of which holds,
      anywhere in it, a string that is free text or that nobody classified. */
  lemma CarriesTextIff(schema: Schema, name: string)
    ensures MayCarryText(schema, name) <==> exists tree :: Says(schema, name, tree)
  {
    if MayCarryText(schema, name) {
      var n :| Reaches(schema, name, n) && CarriesText(schema, n);
      var names :| ChainFrom(schema, names, name, n);
      var tree := ReachedIsSaid(schema, names, name, n);
      assert Says(schema, name, tree);
    }
    if tree :| Says(schema, name, tree) {
      var part, i :| Below(part, tree) && SaysAt(schema, part, i);
      SaidIsReached(schema, tree, part, i);
    }
  }
}
