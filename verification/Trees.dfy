/** Contract messages as trees, what the declaration table says of their string fields, and
    the dotted names under which a walk reaches them. */
module Trees {
  import opened Wrappers

  datatype Classification = Structural | FreeText

  datatype Kind = Text | Nested(message: string) | Scalar

  datatype Shape = Single | Repeated | Mapped

  datatype Field = Field(name: string, kind: Kind, shape: Shape)

  // `fields` lists each message's fields in descriptor order; `declared` is the table.
  datatype Schema = Schema(fields: map<string, seq<Field>>, declared: map<string, map<string, Classification>>)

  // What the table says of a field, and whether it says anything.
  function Classify(schema: Schema, message: string, field: string): (c: Option<Classification>)
    ensures c.Some? <==> message in schema.declared && field in schema.declared[message]
    ensures c.Some? ==> c.value == schema.declared[message][field]
  {
    if message in schema.declared && field in schema.declared[message] then Some(schema.declared[message][field])
    else None
  }

  // One message: an entry per field of its descriptor, populated or not.  A single field
  // holds one value or none.
  datatype Tree = Tree(name: string, entries: seq<Entry>)

  datatype Entry = Entry(field: Field, texts: seq<string>, messages: seq<Tree>)

  function Join(path: string, name: string): string {
    if path == "" then name else path + "." + name
  }

  // What the walk comes to: a string value, or a populated map field.
  datatype Leaf = Value(path: string, message: string, field: string, text: string) | MapField(path: string)

  /** The leaves under a message, in the order the walk reaches them. */
  function Leaves(tree: Tree, path: string): seq<Leaf>
    decreases tree, |tree.entries| + 1
  {
    LeavesTo(tree, path, |tree.entries|)
  }

  function LeavesTo(tree: Tree, path: string, n: nat): seq<Leaf>
    requires n <= |tree.entries|
    decreases tree, n
  {
    if n == 0 then [] else LeavesTo(tree, path, n - 1) + EntryLeaves(tree.name, tree.entries[n - 1], path)
  }

  function EntryLeaves(message: string, entry: Entry, path: string): seq<Leaf>
    decreases entry, 0
  {
    var here := Join(path, entry.field.name);
    match entry.field.kind
    case Text => TextLeaves(message, entry.field.name, entry.texts, here)
    case Nested(_) =>
      if entry.field.shape.Mapped? then (if entry.messages == [] then [] else [MapField(here)])
      else ListLeaves(entry.messages, here)
    case Scalar => []
  }

  function TextLeaves(message: string, field: string, texts: seq<string>, path: string): seq<Leaf> {
    if texts == [] then []
    else TextLeaves(message, field, texts[..|texts| - 1], path) + [Value(path, message, field, texts[|texts| - 1])]
  }

  lemma {:induction false} TextLeavesAt(message: string, field: string, texts: seq<string>, path: string)
    ensures |TextLeaves(message, field, texts, path)| == |texts|
    ensures forall k :: 0 <= k < |texts| ==>
                TextLeaves(message, field, texts, path)[k] == Value(path, message, field, texts[k])
  {
    if texts != [] { TextLeavesAt(message, field, texts[..|texts| - 1], path); }
  }

  function ListLeaves(list: seq<Tree>, path: string): seq<Leaf>
    decreases list
  {
    if list == [] then [] else ListLeaves(list[..|list| - 1], path) + Leaves(list[|list| - 1], path)
  }

  lemma {:induction false} ListLeavesSplit(list: seq<Tree>, path: string, k: nat)
    requires k <= |list|
    ensures ListLeaves(list, path) == ListLeaves(list[..k], path) + ListLeaves(list[k..], path)
    decreases |list|
  {
    var n := |list| - 1;
    if k == |list| {
      assert list[..k] == list;
    } else {
      assert list[..n][..k] == list[..k] && list[..n][k..] == list[k..][..n - k] && list[k..][n - k] == list[n];
      ListLeavesSplit(list[..n], path, k);
    }
  }

  // The leaves of the entries from k on.
  function LeavesFrom(tree: Tree, path: string, k: nat): seq<Leaf>
    requires k <= |tree.entries|
    decreases |tree.entries| - k
  {
    if k == |tree.entries| then [] else EntryLeaves(tree.name, tree.entries[k], path) + LeavesFrom(tree, path, k + 1)
  }

  lemma {:induction false} LeavesSplit(tree: Tree, path: string, k: nat)
    requires k <= |tree.entries|
    ensures Leaves(tree, path) == LeavesTo(tree, path, k) + LeavesFrom(tree, path, k)
    decreases |tree.entries| - k
  {
    if k < |tree.entries| { LeavesSplit(tree, path, k + 1); }
  }

  // ---------------------------------------------------------------- well-typed trees

  predicate Closed(schema: Schema) {
    forall name, i :: name in schema.fields && 0 <= i < |schema.fields[name]| && schema.fields[name][i].kind.Nested? ==>
      schema.fields[name][i].kind.message in schema.fields
  }

  /** The tree is an instance of its descriptor. */
  predicate Conforms(schema: Schema, tree: Tree)
    decreases tree
  {
    && tree.name in schema.fields
    && |tree.entries| == |schema.fields[tree.name]|
    && (forall i :: 0 <= i < |tree.entries| ==>
        tree.entries[i].field == schema.fields[tree.name][i] && EntryConforms(schema, tree.entries[i]))
  }

  predicate EntryConforms(schema: Schema, entry: Entry)
    decreases entry
  {
    && (!entry.field.kind.Text? ==> entry.texts == [])
    && (!entry.field.kind.Nested? ==> entry.messages == [])
    && (entry.field.shape.Single? ==> |entry.texts| <= 1 && |entry.messages| <= 1)
    && (entry.field.kind.Nested? ==>
          forall j :: 0 <= j < |entry.messages| ==>
              entry.messages[j].name == entry.field.kind.message && Conforms(schema, entry.messages[j]))
  }

  // ---------------------------------------------------------------- rewriting the strings

  /** The tree with each string replaced by what `mask` makes of it where it stands. */
  function MapTree(mask: Leaf -> string, tree: Tree, path: string): Tree
    decreases tree, 1
  {
    Tree(tree.name, seq(|tree.entries|,
                        i requires 0 <= i < |tree.entries| => MapEntry(mask, tree.name, tree.entries[i], path)))
  }

  function MapEntry(mask: Leaf -> string, message: string, entry: Entry, path: string): Entry
    decreases entry, 0
  {
    var here := Join(path, entry.field.name);
    match entry.field.kind
    case Text => entry.(texts := MapTexts(mask, message, entry.field.name, entry.texts, here))
    case Nested(_) => if entry.field.shape.Mapped? then entry
                      else entry.(messages := MapList(mask, entry.messages, here))
    case Scalar => entry
  }

  function MapTexts(mask: Leaf -> string, message: string, field: string, texts: seq<string>, path: string): seq<string>
  {
    seq(|texts|, k requires 0 <= k < |texts| => mask(Value(path, message, field, texts[k])))
  }

  function MapList(mask: Leaf -> string, list: seq<Tree>, path: string): seq<Tree>
    decreases list
  {
    seq(|list|, j requires 0 <= j < |list| => MapTree(mask, list[j], path))
  }

  // The tree with its first n entries rewritten.
  function MapTo(mask: Leaf -> string, tree: Tree, path: string, n: nat): Tree
    requires n <= |tree.entries|
  {
    Tree(tree.name, seq(|tree.entries|, i requires 0 <= i < |tree.entries| =>
      if i < n then MapEntry(mask, tree.name, tree.entries[i], path) else tree.entries[i]))
  }

  lemma MapToNext(mask: Leaf -> string, tree: Tree, path: string, n: nat)
    requires n < |tree.entries|
    ensures MapTo(mask, tree, path, n).entries[n] == tree.entries[n]
    ensures MapTo(mask, tree, path, n + 1)
         == Tree(tree.name, MapTo(mask, tree, path, n).entries[n := MapEntry(mask, tree.name, tree.entries[n], path)])
  {
  }

  lemma MapToEnds(mask: Leaf -> string, tree: Tree, path: string)
    ensures MapTo(mask, tree, path, 0) == tree
    ensures MapTo(mask, tree, path, |tree.entries|) == MapTree(mask, tree, path)
  {
  }

  // The leaf with its own text masked.
  function MapLeaf(mask: Leaf -> string, leaf: Leaf): Leaf {
    match leaf
    case Value(path, message, field, text) => Value(path, message, field, mask(leaf))
    case MapField(_) => leaf
  }

  function MapLeaves(mask: Leaf -> string, leaves: seq<Leaf>): seq<Leaf> {
    seq(|leaves|, i requires 0 <= i < |leaves| => MapLeaf(mask, leaves[i]))
  }

  lemma MapLeavesConcat(mask: Leaf -> string, a: seq<Leaf>, b: seq<Leaf>)
    ensures MapLeaves(mask, a + b) == MapLeaves(mask, a) + MapLeaves(mask, b)
  {
  }

  /** The walk sees the rewritten tree as the leaves it saw before, each in its place, at its
      path, with its own text rewritten and nothing else moved. */
  lemma {:induction false} MapTreeLeaves(mask: Leaf -> string, tree: Tree, path: string)
    ensures Leaves(MapTree(mask, tree, path), path) == MapLeaves(mask, Leaves(tree, path))
    decreases tree, |tree.entries| + 1
  {
    MapLeavesTo(mask, tree, path, |tree.entries|);
  }

  lemma {:induction false} MapLeavesTo(mask: Leaf -> string, tree: Tree, path: string, n: nat)
    requires n <= |tree.entries|
    ensures LeavesTo(MapTree(mask, tree, path), path, n) == MapLeaves(mask, LeavesTo(tree, path, n))
    decreases tree, n
  {
    if n > 0 {
      MapLeavesTo(mask, tree, path, n - 1);
      MapEntryLeaves(mask, tree.name, tree.entries[n - 1], path);
      MapLeavesConcat(mask, LeavesTo(tree, path, n - 1), EntryLeaves(tree.name, tree.entries[n - 1], path));
    }
  }

  lemma {:induction false} MapEntryLeaves(mask: Leaf -> string, message: string, entry: Entry, path: string)
    ensures EntryLeaves(message, MapEntry(mask, message, entry, path), path)
                == MapLeaves(mask, EntryLeaves(message, entry, path))
    decreases entry, 0
  {
    var here := Join(path, entry.field.name);
    match entry.field.kind
    case Text => MapTextLeaves(mask, message, entry.field.name, entry.texts, here);
    case Nested(_) => if !entry.field.shape.Mapped? { MapListLeaves(mask, entry.messages, here); }
    case Scalar =>
  }

  lemma {:induction false} MapTextLeaves(mask: Leaf -> string, message: string, field: string, texts: seq<string>,
                                         path: string)
    ensures TextLeaves(message, field, MapTexts(mask, message, field, texts, path), path)
         == MapLeaves(mask, TextLeaves(message, field, texts, path))
  {
    if texts != [] {
      var n := |texts| - 1;
      assert MapTexts(mask, message, field, texts, path)[..n] == MapTexts(mask, message, field, texts[..n], path);
      MapTextLeaves(mask, message, field, texts[..n], path);
      MapLeavesConcat(mask, TextLeaves(message, field, texts[..n], path), [Value(path, message, field, texts[n])]);
    }
  }

  lemma {:induction false} MapListLeaves(mask: Leaf -> string, list: seq<Tree>, path: string)
    ensures ListLeaves(MapList(mask, list, path), path) == MapLeaves(mask, ListLeaves(list, path))
    decreases list
  {
    if list != [] {
      var n := |list| - 1;
      assert MapList(mask, list, path)[..n] == MapList(mask, list[..n], path);
      MapListLeaves(mask, list[..n], path);
      MapTreeLeaves(mask, list[n], path);
      MapLeavesConcat(mask, ListLeaves(list[..n], path), Leaves(list[n], path));
    }
  }

  // ---------------------------------------------------------------- nothing to rewrite

  ghost predicate Keeps(mask: Leaf -> string, leaves: seq<Leaf>) {
    forall leaf :: leaf in leaves && leaf.Value? ==> mask(leaf) == leaf.text
  }

  lemma LeavesOfEntry(tree: Tree, path: string, i: nat, n: nat)
    requires i < n <= |tree.entries|
    ensures forall leaf :: leaf in EntryLeaves(tree.name, tree.entries[i], path) ==> leaf in LeavesTo(tree, path, n)
    decreases n
  {
    if i < n - 1 { LeavesOfEntry(tree, path, i, n - 1); }
  }

  lemma LeavesOfElement(list: seq<Tree>, path: string, j: nat)
    requires j < |list|
    ensures forall leaf :: leaf in Leaves(list[j], path) ==> leaf in ListLeaves(list, path)
    decreases |list|
  {
    if j < |list| - 1 { LeavesOfElement(list[..|list| - 1], path, j); }
  }

  /** A rewriting that keeps every string where it stands keeps the tree. */
  lemma {:induction false} KeptTree(mask: Leaf -> string, tree: Tree, path: string)
    requires Keeps(mask, Leaves(tree, path))
    ensures MapTree(mask, tree, path) == tree
    decreases tree, 1
  {
    forall i | 0 <= i < |tree.entries| ensures MapEntry(mask, tree.name, tree.entries[i], path) == tree.entries[i] {
      LeavesOfEntry(tree, path, i, |tree.entries|);
      KeptEntry(mask, tree.name, tree.entries[i], path);
    }
  }

  lemma {:induction false} KeptEntry(mask: Leaf -> string, message: string, entry: Entry, path: string)
    requires Keeps(mask, EntryLeaves(message, entry, path))
    ensures MapEntry(mask, message, entry, path) == entry
    decreases entry, 0
  {
    var here := Join(path, entry.field.name);
    match entry.field.kind
    case Text =>
      TextLeavesAt(message, entry.field.name, entry.texts, here);
      assert MapTexts(mask, message, entry.field.name, entry.texts, here) == entry.texts;
    case Nested(_) =>
      if !entry.field.shape.Mapped? {
        forall j | 0 <= j < |entry.messages| ensures MapTree(mask, entry.messages[j], here) == entry.messages[j] {
          LeavesOfElement(entry.messages, here, j);
          KeptTree(mask, entry.messages[j], here);
        }
        assert MapList(mask, entry.messages, here) == entry.messages;
      }
    case Scalar =>
  }

  // ---------------------------------------------------------------- two rewritings that agree

  ghost predicate Agree(a: Leaf -> string, b: Leaf -> string, leaves: seq<Leaf>) {
    forall leaf :: leaf in leaves && leaf.Value? ==> a(leaf) == b(leaf)
  }

  lemma {:induction false} SameTree(a: Leaf -> string, b: Leaf -> string, tree: Tree, path: string)
    requires Agree(a, b, Leaves(tree, path))
    ensures MapTree(a, tree, path) == MapTree(b, tree, path)
    decreases tree, 1
  {
    forall i | 0 <= i < |tree.entries|
      ensures MapEntry(a, tree.name, tree.entries[i], path) == MapEntry(b, tree.name, tree.entries[i], path)
    {
      LeavesOfEntry(tree, path, i, |tree.entries|);
      SameEntry(a, b, tree.name, tree.entries[i], path);
    }
  }

  /** What a rewriting makes of a field is settled by what it makes of the strings there. */
  lemma {:induction false} SameEntry(a: Leaf -> string, b: Leaf -> string, message: string, entry: Entry, path: string)
    requires Agree(a, b, EntryLeaves(message, entry, path))
    ensures MapEntry(a, message, entry, path) == MapEntry(b, message, entry, path)
    decreases entry, 0
  {
    var here := Join(path, entry.field.name);
    match entry.field.kind
    case Text => SameTexts(a, b, message, entry.field.name, entry.texts, here);
    case Nested(_) =>
      if !entry.field.shape.Mapped? {
        forall j | 0 <= j < |entry.messages|
          ensures MapTree(a, entry.messages[j], here) == MapTree(b, entry.messages[j], here)
        {
          LeavesOfElement(entry.messages, here, j);
          SameTree(a, b, entry.messages[j], here);
        }
      }
    case Scalar =>
  }

  lemma SameTexts(a: Leaf -> string, b: Leaf -> string, message: string, field: string, texts: seq<string>,
                  path: string)
    requires Agree(a, b, TextLeaves(message, field, texts, path))
    ensures MapTexts(a, message, field, texts, path) == MapTexts(b, message, field, texts, path)
  {
    TextLeavesAt(message, field, texts, path);
    forall k | 0 <= k < |texts|
      ensures a(Value(path, message, field, texts[k])) == b(Value(path, message, field, texts[k]))
    {
      assert TextLeaves(message, field, texts, path)[k] in TextLeaves(message, field, texts, path);
    }
  }

  // ---------------------------------------------------------------- emptying a field

  /** The message with its fields of this name emptied. */
  function Cleared(tree: Tree, field: string): Tree {
    Tree(tree.name, seq(|tree.entries|, i requires 0 <= i < |tree.entries| =>
      if tree.entries[i].field.name == field then Entry(tree.entries[i].field, [], []) else tree.entries[i]))
  }
}
