/** The names a policy may use.  They are enumerated from the schema alone, and must be the
    names the sweep forms when it walks an actual result. */
module FieldPaths {
  import opened Wrappers
  import opened Trees

  datatype FieldPath = FieldPath(path: string, message: string, field: string, classification: Option<Classification>)

  // A field the walk descends into.
  predicate Descends(field: Field) {
    field.kind.Nested? && !field.shape.Mapped?
  }

  function PathsOf(schema: Schema, name: string, prefix: string, visiting: set<string>): seq<FieldPath>
    decreases schema.fields.Keys - visiting, 0, 0
  {
    if name in visiting || name !in schema.fields then []
    else PathsTo(schema, name, prefix, visiting + {name}, |schema.fields[name]|)
  }

  function PathsTo(schema: Schema, name: string, prefix: string, visiting: set<string>, n: nat): seq<FieldPath>
    requires name in schema.fields && n <= |schema.fields[name]|
    decreases schema.fields.Keys - visiting, 1, n
  {
    if n == 0 then []
    else PathsTo(schema, name, prefix, visiting, n - 1) + PathsAt(schema, name, prefix, visiting, n - 1)
  }

  function PathsAt(schema: Schema, name: string, prefix: string, visiting: set<string>, i: nat): seq<FieldPath>
    requires name in schema.fields && i < |schema.fields[name]|
    decreases schema.fields.Keys - visiting, 1, i
  {
    var field := schema.fields[name][i];
    var path := Join(prefix, field.name);
    if field.kind.Text? then [FieldPath(path, name, field.name, Classify(schema, name, field.name))]
    else if Descends(field) then PathsOf(schema, field.kind.message, path, visiting)
    else []
  }

  class PathWalk {
    const schema: Schema
    var visiting: set<string>
    var found: seq<FieldPath>

    constructor (schema: Schema)
      ensures this.schema == schema && visiting == {} && found == []
    {
      this.schema, visiting, found := schema, {}, [];
    }

    /** Visits every string field reachable from a message without passing through the same
        message twice, and leaves the guard as it found it. */
    method WalkStrings(name: string, prefix: string)
      requires Closed(schema) && name in schema.fields
      modifies this
      ensures visiting == old(visiting) && found == old(found) + PathsOf(schema, name, prefix, old(visiting))
      decreases schema.fields.Keys - visiting
    {
      if name in visiting {
        return;
      }
      visiting := visiting + {name};
      ghost var inside := visiting;
      var fields := schema.fields[name];
      var i := 0;
      while i < |fields|
        invariant i <= |fields| && visiting == inside
        invariant found == old(found) + PathsTo(schema, name, prefix, inside, i)
      {
        var path := Join(prefix, fields[i].name);
        match fields[i].kind {
          case Text =>
            found := found + [FieldPath(path, name, fields[i].name, Classify(schema, name, fields[i].name))];
          case Nested(message) =>
            if !fields[i].shape.Mapped? {
              WalkStrings(message, path);
            }
          case Scalar =>
        }
        i := i + 1;
      }
      visiting := visiting - {name};
    }
  }

  /** The names a policy may use: every declared field the enumeration reaches. */
  method DeclaredPaths(schema: Schema, root: string) returns (paths: set<string>)
    requires Closed(schema) && root in schema.fields
    ensures forall path :: path in paths <==>
                exists f :: f in PathsOf(schema, root, "", {}) && f.classification.Some? && f.path == path
  {
    var walk := new PathWalk(schema);
    walk.WalkStrings(root, "");
    var all := walk.found;
    assert all == PathsOf(schema, root, "", {});
    paths := {};
    var i := 0;
    while i < |all|
      invariant i <= |all|
      invariant forall path :: path in paths <==>
                    exists k :: 0 <= k < i && all[k].classification.Some? && all[k].path == path
    {
      if all[i].classification.Some? {
        paths := paths + {all[i].path};
      }
      i := i + 1;
    }
  }

  // ---------------------------------------------------------------- every name is live

  // A tree with this one entry populated.
  function Only(schema: Schema, name: string, i: nat, texts: seq<string>, messages: seq<Tree>): Tree
    requires name in schema.fields && i < |schema.fields[name]|
  {
    var fields := schema.fields[name];
    Tree(name, seq(|fields|, k requires 0 <= k < |fields| =>
      if k == i then Entry(fields[k], texts, messages) else Entry(fields[k], [], [])))
  }

  lemma OnlyLeaves(schema: Schema, name: string, i: nat, texts: seq<string>, messages: seq<Tree>, path: string)
    requires name in schema.fields && i < |schema.fields[name]|
    ensures var tree := Only(schema, name, i, texts, messages);
            Leaves(tree, path) == EntryLeaves(name, Entry(schema.fields[name][i], texts, messages), path)
  {
    OnlyLeavesTo(schema, name, i, texts, messages, path, |schema.fields[name]|);
  }

  lemma EmptyHasNoLeaves(name: string, entry: Entry, path: string)
    requires entry.texts == [] && entry.messages == []
    ensures EntryLeaves(name, entry, path) == []
  {
  }

  lemma {:induction false} OnlyLeavesTo(schema: Schema, name: string, i: nat, texts: seq<string>, messages: seq<Tree>,
                                        path: string, n: nat)
    requires name in schema.fields && i < |schema.fields[name]| && n <= |schema.fields[name]|
    ensures var tree := Only(schema, name, i, texts, messages);
            LeavesTo(tree, path, n)
            == if n <= i then [] else EntryLeaves(name, Entry(schema.fields[name][i], texts, messages), path)
    decreases n
  {
    if n > 0 {
      OnlyLeavesTo(schema, name, i, texts, messages, path, n - 1);
      var entry := Only(schema, name, i, texts, messages).entries[n - 1];
      if n - 1 != i { EmptyHasNoLeaves(name, entry, path); }
    }
  }

  ghost predicate Realised(schema: Schema, name: string, prefix: string, f: FieldPath, text: string) {
    exists tree :: Realises(schema, name, prefix, f, text, tree)
  }

  // The result is well typed and holds this string under this path, and no other.
  ghost predicate Realises(schema: Schema, name: string, prefix: string, f: FieldPath, text: string, tree: Tree) {
    Conforms(schema, tree) && tree.name == name && Leaves(tree, prefix) == [Value(f.path, f.message, f.field, text)]
  }

  lemma RealisedHere(schema: Schema, name: string, prefix: string, i: nat, text: string)
    requires name in schema.fields && i < |schema.fields[name]| && schema.fields[name][i].kind.Text?
    ensures var field := schema.fields[name][i].name;
            Realised(schema, name, prefix, FieldPath(Join(prefix, field), name, field, Classify(schema, name, field)),
                     text)
  {
    var field := schema.fields[name][i];
    var path := Join(prefix, field.name);
    var tree := Only(schema, name, i, [text], []);
    OnlyLeaves(schema, name, i, [text], [], prefix);
    TextLeavesAt(name, field.name, [text], path);
    assert TextLeaves(name, field.name, [text], path) == [Value(path, name, field.name, text)];
    assert Realises(schema, name, prefix, FieldPath(path, name, field.name, Classify(schema, name, field.name)), text,
                    tree);
  }

  lemma RealisedBelow(schema: Schema, name: string, prefix: string, i: nat, f: FieldPath, text: string)
    requires name in schema.fields && i < |schema.fields[name]| && Descends(schema.fields[name][i])
    requires Realised(schema, schema.fields[name][i].kind.message, Join(prefix, schema.fields[name][i].name), f, text)
    ensures Realised(schema, name, prefix, f, text)
  {
    var field := schema.fields[name][i];
    var path := Join(prefix, field.name);
    var sub :| Realises(schema, field.kind.message, path, f, text, sub);
    var tree := Only(schema, name, i, [], [sub]);
    OnlyLeaves(schema, name, i, [], [sub], prefix);
    assert [sub][..0] == [] && [sub][0] == sub && ListLeaves([sub], path) == [] + Leaves(sub, path);
    assert EntryLeaves(name, Entry(field, [], [sub]), prefix) == ListLeaves([sub], path);
    assert EntryConforms(schema, tree.entries[i]);
    assert Realises(schema, name, prefix, f, text, tree);
  }

  /** Every enumerated path is the path of the one string, whatever it says, of some
      well-typed result. */
  lemma {:induction false} EveryPathIsLive(schema: Schema, name: string, prefix: string, visiting: set<string>,
                                           f: FieldPath, text: string)
    requires Closed(schema) && f in PathsOf(schema, name, prefix, visiting)
    ensures Realised(schema, name, prefix, f, text)
    decreases schema.fields.Keys - visiting, 0, 0
  {
    EveryPathToIsLive(schema, name, prefix, visiting + {name}, |schema.fields[name]|, f, text);
  }

  lemma {:induction false} EveryPathToIsLive(schema: Schema, name: string, prefix: string, visiting: set<string>,
                                             n: nat, f: FieldPath, text: string)
    requires Closed(schema) && name in schema.fields && n <= |schema.fields[name]|
             && f in PathsTo(schema, name, prefix, visiting, n)
    ensures Realised(schema, name, prefix, f, text)
    decreases schema.fields.Keys - visiting, 1, n
  {
    var field := schema.fields[name][n - 1];
    if f in PathsTo(schema, name, prefix, visiting, n - 1) {
      EveryPathToIsLive(schema, name, prefix, visiting, n - 1, f, text);
    } else if field.kind.Text? {
      RealisedHere(schema, name, prefix, n - 1, text);
    } else {
      EveryPathIsLive(schema, field.kind.message, Join(prefix, field.name), visiting, f, text);
      RealisedBelow(schema, name, prefix, n - 1, f, text);
    }
  }
}
