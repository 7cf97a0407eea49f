/** A customer's policy file, decoded: it may add rules, exclude declared fields and lower
    bounds, and nothing else. */
module PolicyFile {
  import opened Wrappers
  import opened Masking
  import opened Redaction

  const VERSION := 1
  const BUILTIN_PREFIX := "builtin."

  datatype Pattern = Pattern(id: string, pattern: string)

  datatype Limits = Limits(sweepBudget: string, maxInputBytes: int)

  datatype Document = Document(version: int, patterns: seq<Pattern>, maskedFields: seq<string>, limits: Option<Limits>)

  // What the parser takes from its libraries: trimming space, compiling a pattern to its
  // matcher, and reading a duration in nanoseconds.
  datatype Library = Library(trim: string -> string, compile: string -> Option<string -> seq<Match>>,
                             duration: string -> Option<int>)

  ghost predicate Sound(lib: Library) {
    forall id: string, pattern: string :: lib.compile(pattern).Some? ==> InBounds(Rule(id, lib.compile(pattern).value))
  }

  function NewRule(lib: Library, id: string, pattern: string): Option<Rule> {
    if lib.trim(id) == "" then None
    else if lib.compile(pattern).None? then None
    else if lib.compile(pattern).value("") != [] then None
    else Some(Rule(id, lib.compile(pattern).value))
  }

  predicate HasPrefix(s: string, prefix: string) {
    |prefix| <= |s| && s[..|prefix|] == prefix
  }

  // An entry that can stand on its own: it has a name that is not reserved, and a pattern
  // that compiles and does not match the empty text.
  predicate Usable(lib: Library, entry: Pattern) {
    var id := lib.trim(entry.id);
    id != "" && !HasPrefix(id, BUILTIN_PREFIX) && NewRule(lib, id, entry.pattern).Some?
  }

  function RuleIdsOf(rules: seq<Rule>): set<string> {
    set i | 0 <= i < |rules| :: rules[i].id
  }

  // No entry takes the name of a rule there already, or of an earlier entry.
  predicate NamesAreNew(lib: Library, rules: seq<Rule>, entries: seq<Pattern>) {
    && (forall i :: 0 <= i < |entries| ==> lib.trim(entries[i].id) !in RuleIdsOf(rules))
    && (forall i, j :: 0 <= i < j < |entries| ==> lib.trim(entries[i].id) != lib.trim(entries[j].id))
  }

  predicate AllUsable(lib: Library, entries: seq<Pattern>) {
    forall i :: 0 <= i < |entries| ==> Usable(lib, entries[i])
  }

  function RulesFrom(lib: Library, entries: seq<Pattern>): seq<Rule>
    requires AllUsable(lib, entries)
  {
    seq(|entries|, i requires 0 <= i < |entries| => NewRule(lib, lib.trim(entries[i].id), entries[i].pattern).value)
  }

  // The names taken before the i-th entry is read.
  function Taken(lib: Library, rules: seq<Rule>, entries: seq<Pattern>, i: nat): set<string>
    requires i <= |entries|
  {
    RuleIdsOf(rules) + set k | 0 <= k < i :: lib.trim(entries[k].id)
  }

  lemma NextName(lib: Library, rules: seq<Rule>, entries: seq<Pattern>, i: nat)
    requires i < |entries| && NamesAreNew(lib, rules, entries[..i])
    ensures Taken(lib, rules, entries, i + 1) == Taken(lib, rules, entries, i) + {lib.trim(entries[i].id)}
    ensures lib.trim(entries[i].id) !in Taken(lib, rules, entries, i) ==> NamesAreNew(lib, rules, entries[..i + 1])
    ensures lib.trim(entries[i].id) in Taken(lib, rules, entries, i) ==> !NamesAreNew(lib, rules, entries)
  {
    var all := entries[..i + 1];
    assert all == entries[..i] + [entries[i]];
    if lib.trim(entries[i].id) !in Taken(lib, rules, entries, i) {
      forall k | 0 <= k < i ensures lib.trim(all[k].id) != lib.trim(entries[i].id) { assert all[k] == entries[k]; }
      forall k | 0 <= k <= i
        ensures lib.trim(all[k].id) !in RuleIdsOf(rules)
      {
        assert k < i ==> all[k] == entries[..i][k];
      }
      forall j, k | 0 <= j < k <= i ensures lib.trim(all[j].id) != lib.trim(all[k].id) {
        assert k < i ==> all[k] == entries[..i][k] && all[j] == entries[..i][j];
      }
    }
  }

  lemma NextUsable(lib: Library, entries: seq<Pattern>, i: nat)
    requires i < |entries| && AllUsable(lib, entries[..i])
    ensures Usable(lib, entries[i]) ==>
              && AllUsable(lib, entries[..i + 1])
              && RulesFrom(lib, entries[..i + 1])
                 == RulesFrom(lib, entries[..i]) + [NewRule(lib, lib.trim(entries[i].id), entries[i].pattern).value]
    ensures !Usable(lib, entries[i]) ==> !AllUsable(lib, entries)
  {
    assert entries[..i + 1] == entries[..i] + [entries[i]];
    assert forall k :: 0 <= k < i ==> entries[..i + 1][k] == entries[..i][k];
  }

  // What the limits ask for is positive where it asks for anything, and raises nothing.
  predicate OnlyLowers(lib: Library, limits: Limits) {
    && (limits.sweepBudget == "" ||
          (lib.duration(limits.sweepBudget).Some? && 0 < lib.duration(limits.sweepBudget).value <= DEFAULT_BUDGET))
    && 0 <= limits.maxInputBytes <= DEFAULT_MAX_INPUT_BYTES
  }

  class PolicyBuilder {
    var rules: seq<Rule>
    var alwaysMasked: set<string>
    var budget: int
    var maxInput: int

    ghost function View(): Policy
      reads this
    {
      Policy(rules, alwaysMasked, budget, maxInput)
    }

    constructor (builtIn: seq<Rule>)
      ensures View() == Policy(builtIn, {}, DEFAULT_BUDGET, DEFAULT_MAX_INPUT_BYTES)
    {
      rules, alwaysMasked, budget, maxInput := builtIn, {}, DEFAULT_BUDGET, DEFAULT_MAX_INPUT_BYTES;
    }

    // Appends the customer's own rules; a fault abandons the policy.
    method AddPatterns(lib: Library, entries: seq<Pattern>) returns (ok: bool)
      modifies this
      ensures ok <==> AllUsable(lib, entries) && NamesAreNew(lib, old(rules), entries)
      ensures ok ==> View() == old(View()).(rules := old(rules) + RulesFrom(lib, entries))
    {
      var seen := RuleIdsOf(rules);
      var i := 0;
      while i < |entries|
        invariant i <= |entries| && seen == Taken(lib, old(rules), entries, i)
        invariant AllUsable(lib, entries[..i]) && NamesAreNew(lib, old(rules), entries[..i])
        invariant View() == old(View()).(rules := old(rules) + RulesFrom(lib, entries[..i]))
      {
        NextUsable(lib, entries, i);
        NextName(lib, old(rules), entries, i);
        var id := lib.trim(entries[i].id);
        if id == "" || HasPrefix(id, BUILTIN_PREFIX) {
          return false;
        }
        if id in seen {
          return false;
        }
        var rule := NewRule(lib, id, entries[i].pattern);
        if rule.None? {
          return false;
        }
        seen := seen + {id};
        rules := rules + [rule.value];
        i := i + 1;
      }
      assert entries[..i] == entries;
      return true;
    }

    // Excludes named fields; an unknown name is a fault.
    method AddMaskedFields(lib: Library, fields: seq<string>, known: set<string>) returns (ok: bool)
      modifies this
      ensures ok <==> forall i :: 0 <= i < |fields| ==> lib.trim(fields[i]) in known
      ensures ok ==>
                View() == old(View()).(
                  alwaysMasked := old(alwaysMasked) + set i | 0 <= i < |fields| :: lib.trim(fields[i]))
    {
      var i := 0;
      while i < |fields|
        invariant i <= |fields| && forall k :: 0 <= k < i ==> lib.trim(fields[k]) in known
        invariant View() == old(View()).(alwaysMasked := old(alwaysMasked) + set k | 0 <= k < i :: lib.trim(fields[k]))
      {
        var name := lib.trim(fields[i]);
        if name !in known {
          return false;
        }
        alwaysMasked := alwaysMasked + {name};
        i := i + 1;
      }
      return true;
    }

    // Applies the customer's bounds, which may only be lowered.
    method LowerLimits(lib: Library, limits: Option<Limits>) returns (ok: bool)
      modifies this
      ensures ok <==> limits.None? || OnlyLowers(lib, limits.value)
      ensures ok ==> View() == old(View()).(
                budget := if limits.None? || limits.value.sweepBudget == "" then old(budget)
                          else lib.duration(limits.value.sweepBudget).value,
                maxInput := if limits.None? || limits.value.maxInputBytes == 0 then old(maxInput)
                            else limits.value.maxInputBytes)
    {
      if limits.None? {
        return true;
      }
      if limits.value.sweepBudget != "" {
        var parsed := lib.duration(limits.value.sweepBudget);
        if parsed.None? || parsed.value <= 0 {
          return false;
        }
        if parsed.value > DEFAULT_BUDGET {
          return false;
        }
        budget := parsed.value;
      }
      if limits.value.maxInputBytes != 0 {
        if limits.value.maxInputBytes < 0 {
          return false;
        }
        if limits.value.maxInputBytes > DEFAULT_MAX_INPUT_BYTES {
          return false;
        }
        maxInput := limits.value.maxInputBytes;
      }
      return true;
    }
  }

  ghost predicate Acceptable(lib: Library, builtIn: seq<Rule>, known: set<string>, document: Document) {
    && document.version == VERSION
    && AllUsable(lib, document.patterns) && NamesAreNew(lib, builtIn, document.patterns)
    && (forall i :: 0 <= i < |document.maskedFields| ==> lib.trim(document.maskedFields[i]) in known)
    && (document.limits.Some? ==> OnlyLowers(lib, document.limits.value))
  }

  /** A policy that does no less than the defaults: every built-in rule in its place and its
      own name, nothing excluded that is not declared, and no bound raised. */
  ghost predicate NoWeaker(policy: Policy, builtIn: seq<Rule>, known: set<string>) {
    && |builtIn| <= |policy.rules| && policy.rules[..|builtIn|] == builtIn
    && policy.alwaysMasked <= known
    && 0 < policy.budget <= DEFAULT_BUDGET && 0 < policy.maxInput <= DEFAULT_MAX_INPUT_BYTES
  }

  lemma AddedRules(lib: Library, rules: seq<Rule>, entries: seq<Pattern>)
    requires Sound(lib) && AllUsable(lib, entries) && NamesAreNew(lib, rules, entries) && AllInBounds(rules)
             && DistinctRules(rules)
    ensures AllInBounds(rules + RulesFrom(lib, entries)) && DistinctRules(rules + RulesFrom(lib, entries))
    ensures forall rule :: rule in RulesFrom(lib, entries) ==>
                !HasPrefix(rule.id, BUILTIN_PREFIX) && rule.find("") == []
  {
    var added := RulesFrom(lib, entries);
    var all := rules + added;
    forall i | 0 <= i < |added|
      ensures InBounds(added[i]) && added[i].id == lib.trim(entries[i].id) && !HasPrefix(added[i].id, BUILTIN_PREFIX)
              && added[i].find("") == []
    {
      assert Usable(lib, entries[i]);
    }
    forall i, j | 0 <= i < j < |all| ensures all[i].id != all[j].id {
      if j >= |rules| && i < |rules| {
        assert all[i] in rules && all[i].id in RuleIdsOf(rules);
      }
    }
  }

  // What a file asks for is in the policy, in full: its rules behind the built-in ones and in its
  // order, exactly its exclusions, and its bounds where it gives any.
  ghost predicate Applies(lib: Library, builtIn: seq<Rule>, document: Document, policy: Policy) {
    && |policy.rules| == |builtIn| + |document.patterns| && policy.rules[..|builtIn|] == builtIn
    && (forall i :: 0 <= i < |document.patterns| ==>
          && policy.rules[|builtIn| + i].id == lib.trim(document.patterns[i].id)
          && lib.compile(document.patterns[i].pattern) == Some(policy.rules[|builtIn| + i].find))
    && (forall name :: name in policy.alwaysMasked <==>
          exists i :: 0 <= i < |document.maskedFields| && lib.trim(document.maskedFields[i]) == name)
    && (if document.limits.Some? && document.limits.value.sweepBudget != ""
        then lib.duration(document.limits.value.sweepBudget) == Some(policy.budget)
        else policy.budget == 2000000000)
    && policy.maxInput == if document.limits.Some? && document.limits.value.maxInputBytes != 0
                          then document.limits.value.maxInputBytes else 4194304
  }

  // Every entry has a name of its own, not reserved, and a pattern that compiles and does not
  // match the empty text; every excluded name is known; and no bound is raised or not positive.
  ghost predicate InOrder(lib: Library, builtIn: seq<Rule>, known: set<string>, document: Document) {
    && document.version == 1
    && (forall i :: 0 <= i < |document.patterns| ==>
          var id, compiled := lib.trim(document.patterns[i].id), lib.compile(document.patterns[i].pattern);
          && id != "" && lib.trim(id) != "" && !("builtin." <= id) && compiled.Some? && compiled.value("") == []
          && (forall rule :: rule in builtIn ==> rule.id != id)
          && forall j :: 0 <= j < i ==> lib.trim(document.patterns[j].id) != id)
    && (forall i :: 0 <= i < |document.maskedFields| ==> lib.trim(document.maskedFields[i]) in known)
    && (document.limits.Some? ==>
          && (document.limits.value.sweepBudget != "" ==>
                var budget := lib.duration(document.limits.value.sweepBudget);
                budget.Some? && 0 < budget.value <= 2000000000)
          && 0 <= document.limits.value.maxInputBytes <= 4194304)
  }

  lemma InOrderIsAcceptable(lib: Library, builtIn: seq<Rule>, known: set<string>, document: Document)
    ensures InOrder(lib, builtIn, known, document) <==> Acceptable(lib, builtIn, known, document)
  {
    forall id ensures id in RuleIdsOf(builtIn) <==> exists rule :: rule in builtIn && rule.id == id {
      if rule :| rule in builtIn && rule.id == id { var i :| 0 <= i < |builtIn| && builtIn[i] == rule; }
      if id in RuleIdsOf(builtIn) { var i :| 0 <= i < |builtIn| && builtIn[i].id == id; assert builtIn[i] in builtIn; }
    }
    forall id: string ensures HasPrefix(id, BUILTIN_PREFIX) <==> "builtin." <= id {}
  }

  /** The policy in force is the defaults with all that the file asks for, or the file is refused
      whole; and it is refused exactly when something in it is not in order. */
  method Parse(lib: Library, builtIn: seq<Rule>, known: set<string>, document: Document)
    returns (policy: Option<Policy>)
    requires Sound(lib) && AllInBounds(builtIn) && DistinctRules(builtIn)
    ensures policy.Some? <==> InOrder(lib, builtIn, known, document)
    ensures policy.Some? ==> Applies(lib, builtIn, document, policy.value)
    ensures policy.Some? ==>
                Enforceable(policy.value) && DistinctRules(policy.value.rules) && NoWeaker(policy.value, builtIn, known)
    ensures policy.Some? ==> forall rule :: rule in policy.value.rules[|builtIn|..] ==>
                !("builtin." <= rule.id) && rule.find("") == []
  {
    InOrderIsAcceptable(lib, builtIn, known, document);
    if document.version != VERSION {
      return None;
    }
    var builder := new PolicyBuilder(builtIn);
    var ok := builder.AddPatterns(lib, document.patterns);
    if !ok {
      return None;
    }
    AddedRules(lib, builtIn, document.patterns);
    ok := builder.AddMaskedFields(lib, document.maskedFields, known);
    if !ok {
      return None;
    }
    ok := builder.LowerLimits(lib, document.limits);
    if !ok {
      return None;
    }
    return Some(Policy(builder.rules, builder.alwaysMasked, builder.budget, builder.maxInput));
  }

  /** Whatever a file adds, a text keeps every position masked that the built-in rules mask. */
  lemma PoliciesOnlyMaskMore(policy: Policy, builtIn: seq<Rule>, known: set<string>, value: string)
    requires NoWeaker(policy, builtIn, known) && AllInBounds(policy.rules)
    ensures forall p :: CoveredAt(Claims(builtIn, value), p) ==> CoveredAt(Claims(policy.rules, value), p)
  {
    var more := policy.rules[|builtIn|..];
    assert policy.rules == builtIn + more;
    AppendedRulesOnlyMaskMore(builtIn, more, value);
  }
}
