/** Which messages a message can hold, and the search that asks whether any of them carries
    free text.  A schema may be cyclic. */
module Reachability {
  import opened Wrappers
  import opened Trees

  // A string field of this message that is free text, or that nobody classified.
  predicate CarriesText(schema: Schema, name: string) {
    name in schema.fields && exists i :: 0 <= i < |schema.fields[name]| && TextField(schema, name, i)
  }

  predicate TextField(schema: Schema, name: string, i: nat)
    requires name in schema.fields && i < |schema.fields[name]|
  {
    var field := schema.fields[name][i];
    && field.kind.Text?
    && !(name in schema.declared && field.name in schema.declared[name]
         && schema.declared[name][field.name] == Structural)
  }

  predicate Edge(schema: Schema, a: string, b: string) {
    a in schema.fields && exists i :: 0 <= i < |schema.fields[a]| && schema.fields[a][i].kind == Nested(b)
  }

  // A chain of messages, each held by the one before.
  predicate Chain(schema: Schema, names: seq<string>) {
    forall i :: 0 <= i < |names| - 1 ==> Edge(schema, names[i], names[i + 1])
  }

  ghost predicate Reaches(schema: Schema, a: string, b: string) {
    exists names :: ChainFrom(schema, names, a, b)
  }

  predicate ChainFrom(schema: Schema, names: seq<string>, a: string, b: string) {
    names != [] && names[0] == a && names[|names| - 1] == b && Chain(schema, names)
  }

  lemma ReachesSelf(schema: Schema, a: string)
    ensures Reaches(schema, a, a)
  {
    assert ChainFrom(schema, [a], a, a);
  }

  lemma ReachesOn(schema: Schema, a: string, b: string, c: string)
    requires Edge(schema, a, b) && Reaches(schema, b, c)
    ensures Reaches(schema, a, c)
  {
    var names :| ChainFrom(schema, names, b, c);
    assert ChainFrom(schema, [a] + names, a, c);
  }

  // Some message that can be held here carries text.
  ghost predicate MayCarryText(schema: Schema, name: string) {
    exists n :: Reaches(schema, name, n) && CarriesText(schema, n)
  }

  // Nothing in the set carries text, and no edge leaves it.
  ghost predicate Quiet(schema: Schema, names: set<string>, within: set<string>) {
    forall n :: n in names ==> !CarriesText(schema, n) && forall m :: Edge(schema, n, m) ==> m in within
  }

  lemma {:induction false} QuietChain(schema: Schema, quiet: set<string>, names: seq<string>, a: string, b: string)
    requires Quiet(schema, quiet, quiet) && a in quiet && ChainFrom(schema, names, a, b)
    ensures b in quiet
    decreases |names|
  {
    if |names| > 1 {
      assert Edge(schema, names[0], names[1]);
      assert forall i :: 0 <= i < |names[1..]| - 1 ==> Edge(schema, names[1..][i], names[1..][i + 1]);
      QuietChain(schema, quiet, names[1..], names[1], b);
    }
  }

  lemma QuietMeansNoText(schema: Schema, quiet: set<string>, name: string)
    requires Quiet(schema, quiet, quiet) && name in quiet
    ensures !MayCarryText(schema, name)
  {
    forall n | Reaches(schema, name, n) ensures !CarriesText(schema, n) {
      var names :| ChainFrom(schema, names, name, n);
      QuietChain(schema, quiet, names, name, n);
    }
  }

  class FreeTextSearch {
    const schema: Schema
    var visited: set<string>

    constructor (schema: Schema)
      ensures this.schema == schema && visited == {}
    {
      this.schema, visited := schema, {};
    }

    // The fields below i of this message hold nothing that carries text, and what they hold
    // has been visited.
    ghost predicate Cleared(name: string, i: nat)
      requires name in schema.fields && i <= |schema.fields[name]|
      reads this
    {
      forall k :: 0 <= k < i ==>
        && !TextField(schema, name, k)
        && (schema.fields[name][k].kind.Nested? ==> schema.fields[name][k].kind.message in visited)
    }

    /** On a message not visited yet: true only if something reachable carries text; false
        only if everything newly visited is quiet, and leads nowhere unvisited. */
    method Search(name: string) returns (found: bool)
      requires Closed(schema) && name in schema.fields && visited <= schema.fields.Keys
      modifies this
      ensures old(visited) <= visited <= schema.fields.Keys
      ensures found ==> MayCarryText(schema, name)
      ensures !found ==> name in visited && Quiet(schema, visited - old(visited), visited)
      decreases schema.fields.Keys - visited
    {
      if name in visited {
        return false;
      }
      visited := visited + {name};
      var fields := schema.fields[name];
      var i := 0;
      while i < |fields|
        invariant i <= |fields| && Cleared(name, i)
        invariant old(visited) + {name} <= visited <= schema.fields.Keys
        invariant Quiet(schema, visited - old(visited) - {name}, visited)
      {
        if fields[i].kind.Text? {
          if Classify(schema, name, fields[i].name) != Some(Structural) {
            TextHere(name, i);
            return true;
          }
        } else if fields[i].kind.Nested? {
          var message := fields[i].kind.message;
          ghost var before := visited;
          found := Search(message);
          if found {
            TextBelow(name, i);
            return;
          }
          QuietGrows(schema, before - old(visited) - {name}, before, visited - before, visited,
                     visited - old(visited) - {name});
        }
        i := i + 1;
      }
      QuietHere(name);
      QuietGrows(schema, visited - old(visited) - {name}, visited, {name}, visited, visited - old(visited));
      return false;
    }

    lemma TextHere(name: string, i: nat)
      requires name in schema.fields && i < |schema.fields[name]| && TextField(schema, name, i)
      ensures MayCarryText(schema, name)
    {
      ReachesSelf(schema, name);
      assert CarriesText(schema, name);
    }

    lemma TextBelow(name: string, i: nat)
      requires name in schema.fields && i < |schema.fields[name]| && schema.fields[name][i].kind.Nested?
      requires MayCarryText(schema, schema.fields[name][i].kind.message)
      ensures MayCarryText(schema, name)
    {
      var message := schema.fields[name][i].kind.message;
      var n :| Reaches(schema, message, n) && CarriesText(schema, n);
      assert Edge(schema, name, message);
      ReachesOn(schema, name, message, n);
    }

    lemma QuietHere(name: string)
      requires name in schema.fields && Cleared(name, |schema.fields[name]|)
      ensures Quiet(schema, {name}, visited)
    {
    }
  }

  lemma QuietGrows(schema: Schema, names: set<string>, within: set<string>, added: set<string>, more: set<string>,
                   all: set<string>)
    requires Quiet(schema, names, within) && Quiet(schema, added, more) && within <= more && all <= names + added
    ensures Quiet(schema, all, more)
  {
    forall n | n in all ensures !CarriesText(schema, n) && forall m :: Edge(schema, n, m) ==> m in more {
      assert n in names || n in added;
    }
  }

  /** The search answers whether a message that carries text can be reached. */
  method MessageCarriesText(schema: Schema, name: string) returns (found: bool)
    requires Closed(schema) && name in schema.fields
    ensures found <==> MayCarryText(schema, name)
  {
    var search := new FreeTextSearch(schema);
    found := search.Search(name);
    if !found {
      assert search.visited - {} == search.visited;
      QuietMeansNoText(schema, search.visited, name);
    }
  }
}
