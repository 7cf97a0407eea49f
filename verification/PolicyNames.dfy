/** Policy files against the contract: the names a file may exclude are the names the sweep
    forms. */
module PolicyNames {
  import opened Wrappers
  import opened Masking
  import opened Trees
  import opened Redaction
  import opened FieldPaths
  import opened PathTheorems
  import opened PolicyFile

  // The sweep forms this name, for a declared string of some well-typed result.
  ghost predicate Formed(schema: Schema, root: string, path: string) {
    exists tree, leaf :: && Conforms(schema, tree) && tree.name == root && leaf in Leaves(tree, "")
                         && leaf.Value? && leaf.path == path && Classify(schema, leaf.message, leaf.field).Some?
  }

  lemma EnumeratedIsFormed(schema: Schema, root: string, f: FieldPath)
    requires Closed(schema) && f in PathsOf(schema, root, "", {}) && f.classification.Some?
    ensures Formed(schema, root, f.path)
  {
    var tree, leaf := NamesAreLive(schema, root, f, "x");
    assert leaf in Leaves(tree, "");
  }

  lemma FormedIsEnumerated(schema: Schema, root: string, path: string)
    requires Complete(schema, root) && Formed(schema, root, path)
    ensures exists f :: f in PathsOf(schema, root, "", {}) && f.classification.Some? && f.path == path
  {
    var tree, leaf :| && Conforms(schema, tree) && tree.name == root && leaf in Leaves(tree, "")
                      && leaf.Value? && leaf.path == path && Classify(schema, leaf.message, leaf.field).Some?;
    assert PathOf(schema, leaf) in PathsOf(schema, root, "", {});
  }

  /** Whatever a file's own pattern matches is masked, in every text. */
  lemma FilePatternsMask(lib: Library, builtIn: seq<Rule>, document: Document, policy: Policy, i: nat, value: string,
                         m: nat, p: int)
    requires Applies(lib, builtIn, document, policy) && i < |document.patterns|
    requires lib.compile(document.patterns[i].pattern).Some?
    requires var found := lib.compile(document.patterns[i].pattern).value(value);
             m < |found| && found[m].start <= p < found[m].end
    ensures CoveredAt(Claims(policy.rules, value), p)
  {
    var rule := policy.rules[|builtIn| + i];
    ClaimsAreExact(policy.rules, value);
    assert rule in policy.rules && ClaimsOf(rule, value)[m] in ClaimsOf(rule, value);
    assert ClaimsOf(rule, value)[m] in Claims(policy.rules, value) && Covers(ClaimsOf(rule, value)[m], p);
  }

  /** Whatever stands under a name a file excludes leaves as the marker, unless it is empty. */
  lemma FileExclusionsMask(lib: Library, builtIn: seq<Rule>, document: Document, policy: Policy, i: nat,
                           schema: Schema, tree: Tree, k: nat)
    requires Applies(lib, builtIn, document, policy) && AllInBounds(policy.rules) && i < |document.maskedFields|
    requires k < |Leaves(tree, "")| && !Unaccounted(schema, Leaves(tree, "")[k])
    requires Leaves(tree, "")[k].path == lib.trim(document.maskedFields[i]) && Leaves(tree, "")[k].text != ""
    ensures var after := Leaves(MapTree(MaskText(schema, policy), tree, ""), "");
            k < |after| && after[k] == Leaves(tree, "")[k].(text := "[redacted:policy.masked_field]")
  {
    SweepMapsTheTree(schema, policy, tree, k);
  }

  /** Loads a decoded file against the contract.  Every exclusion it accepts is a name the
      sweep forms for a declared string; and where no string lies under a recursive message,
      every such name can be excluded. */
  method Load(schema: Schema, root: string, lib: Library, builtIn: seq<Rule>, document: Document)
    returns (policy: Option<Policy>, ghost known: set<string>)
    requires Closed(schema) && root in schema.fields
    requires Sound(lib) && AllInBounds(builtIn) && DistinctRules(builtIn)
    ensures policy.Some? <==> InOrder(lib, builtIn, known, document)
    ensures policy.Some? ==> Applies(lib, builtIn, document, policy.value)
    ensures policy.Some? ==>
                Enforceable(policy.value) && DistinctRules(policy.value.rules) && NoWeaker(policy.value, builtIn, known)
    ensures policy.Some? ==> forall path :: path in policy.value.alwaysMasked ==> Formed(schema, root, path)
    ensures forall path :: path in known ==> Formed(schema, root, path)
    ensures Named(schema) && NoStringUnderRecursion(schema, root) ==>
              forall path :: Formed(schema, root, path) ==> path in known
  {
    var paths := DeclaredPaths(schema, root);
    known := paths;
    forall path | path in paths ensures Formed(schema, root, path) {
      var f :| f in PathsOf(schema, root, "", {}) && f.classification.Some? && f.path == path;
      EnumeratedIsFormed(schema, root, f);
    }
    if Named(schema) && NoStringUnderRecursion(schema, root) {
      CompleteIff(schema, root);
      forall path | Formed(schema, root, path) ensures path in paths { FormedIsEnumerated(schema, root, path); }
    }
    policy := Parse(lib, builtIn, paths, document);
  }
}
