/** The point every result passes through.  Under a policy that could not be loaded, a
    capability that might emit free text is refused before it reads anything. */
module Enforcement {
  import opened Wrappers
  import opened Trees
  import opened Redaction
  import opened SweepObjects
  import opened Reachability

  datatype Capability = Capability(id: string, version: nat, field: string)

  // The schema, the message results arrive in, which of its fields holds the report, and
  // which each capability fills.
  datatype Contract = Contract(schema: Schema, result: string, report: string, capabilities: seq<Capability>)

  ghost predicate WellFormed(contract: Contract) {
    Closed(contract.schema) && contract.result in contract.schema.fields
  }

  function FieldNamed(fields: seq<Field>, name: string): (r: Option<Field>)
    ensures r.None? <==> forall i :: 0 <= i < |fields| ==> fields[i].name != name
    ensures r.Some? ==> r.value in fields && r.value.name == name
  {
    if fields == [] then None
    else
      var before := FieldNamed(fields[..|fields| - 1], name);
      if before.Some? then before
      else if fields[|fields| - 1].name == name then Some(fields[|fields| - 1]) else None
  }

  // The first entry for this capability is the k-th.
  predicate FirstEntry(capabilities: seq<Capability>, id: string, version: nat, k: int) {
    && 0 <= k < |capabilities| && capabilities[k].id == id && capabilities[k].version == version
    && forall j :: 0 <= j < k ==> capabilities[j].id != id || capabilities[j].version != version
  }

  // The result of this entry can hold no text that is not structural.
  ghost predicate EntryIsQuiet(contract: Contract, capability: Capability)
    requires contract.result in contract.schema.fields
  {
    var field := FieldNamed(contract.schema.fields[contract.result], capability.field);
    field.Some? && field.value.kind.Nested? && !MayCarryText(contract.schema, field.value.kind.message)
  }

  /** A capability is taken to carry free text unless the table knows it and its result
      variant can reach none. */
  method CarriesFreeText(contract: Contract, id: string, version: nat) returns (carries: bool)
    requires WellFormed(contract)
    ensures !carries <==>
                exists k :: FirstEntry(contract.capabilities, id, version, k)
                    && EntryIsQuiet(contract, contract.capabilities[k])
  {
    var k := 0;
    while k < |contract.capabilities|
      invariant k <= |contract.capabilities|
      invariant forall j :: 0 <= j < k ==>
                  contract.capabilities[j].id != id || contract.capabilities[j].version != version
    {
      var capability := contract.capabilities[k];
      if capability.id == id && capability.version == version {
        assert FirstEntry(contract.capabilities, id, version, k);
        var field := FieldNamed(contract.schema.fields[contract.result], capability.field);
        if field.None? || !field.value.kind.Nested? {
          return true;
        }
        carries := MessageCarriesText(contract.schema, field.value.kind.message);
        return;
      }
      k := k + 1;
    }
    return true;
  }

  // ---------------------------------------------------------------- what a quiet result holds

  // The leaf stands in a message that can be reached from this one.
  ghost predicate LeafWithin(schema: Schema, name: string, leaf: Leaf) {
    leaf.Value? ==>
      && Reaches(schema, name, leaf.message) && leaf.message in schema.fields
      && exists i :: 0 <= i < |schema.fields[leaf.message]| && schema.fields[leaf.message][i].kind.Text?
                     && schema.fields[leaf.message][i].name == leaf.field
  }

  lemma {:induction false} LeavesWithin(schema: Schema, tree: Tree, path: string, n: nat)
    requires Conforms(schema, tree) && n <= |tree.entries|
    ensures forall leaf :: leaf in LeavesTo(tree, path, n) ==> LeafWithin(schema, tree.name, leaf)
    decreases tree, n
  {
    if n > 0 {
      LeavesWithin(schema, tree, path, n - 1);
      var entry := tree.entries[n - 1];
      var here := Join(path, entry.field.name);
      match entry.field.kind
      case Text =>
        TextLeavesAt(tree.name, entry.field.name, entry.texts, here);
        ReachesSelf(schema, tree.name);
      case Nested(message) =>
        if !entry.field.shape.Mapped? {
          ListWithin(schema, entry.messages, message, here);
          assert Edge(schema, tree.name, message);
          forall leaf | leaf in ListLeaves(entry.messages, here) && leaf.Value?
            ensures LeafWithin(schema, tree.name, leaf)
          {
            ReachesOn(schema, tree.name, message, leaf.message);
          }
        }
      case Scalar =>
    }
  }

  lemma {:induction false} ListWithin(schema: Schema, list: seq<Tree>, name: string, path: string)
    requires forall j :: 0 <= j < |list| ==> list[j].name == name && Conforms(schema, list[j])
    ensures forall leaf :: leaf in ListLeaves(list, path) ==> LeafWithin(schema, name, leaf)
    decreases list
  {
    if list != [] {
      var n := |list| - 1;
      ListWithin(schema, list[..n], name, path);
      LeavesWithin(schema, list[n], path, |list[n].entries|);
    }
  }

  lemma QuietLeafIsStructural(schema: Schema, name: string, leaf: Leaf)
    requires !MayCarryText(schema, name) && LeafWithin(schema, name, leaf) && leaf.Value?
    ensures Classify(schema, leaf.message, leaf.field) == Some(Structural)
  {
    var i :| 0 <= i < |schema.fields[leaf.message]| && schema.fields[leaf.message][i].kind.Text?
             && schema.fields[leaf.message][i].name == leaf.field;
    assert !CarriesText(schema, leaf.message);
    assert !TextField(schema, leaf.message, i);
  }

  // The result is one of this capability: nothing outside its variant is populated.
  ghost predicate VariantOf(contract: Contract, capability: Capability, tree: Tree) {
    && tree.name == contract.result && Conforms(contract.schema, tree)
    && (forall i :: 0 <= i < |tree.entries| && tree.entries[i].field.name != capability.field ==>
          tree.entries[i].texts == [] && tree.entries[i].messages == [])
    && (forall i, j :: 0 <= i < j < |tree.entries| ==> tree.entries[i].field.name != tree.entries[j].field.name)
  }

  lemma VariantEntry(contract: Contract, capability: Capability, tree: Tree, i: nat, leaf: Leaf)
    requires WellFormed(contract) && VariantOf(contract, capability, tree) && EntryIsQuiet(contract, capability)
    requires i < |tree.entries| && leaf in EntryLeaves(tree.name, tree.entries[i], "") && leaf.Value?
    ensures Classify(contract.schema, leaf.message, leaf.field) == Some(Structural)
  {
    var entry, fields := tree.entries[i], contract.schema.fields[contract.result];
    assert EntryConforms(contract.schema, entry) && entry.field == fields[i];
    assert entry.field.name == capability.field;
    var field := FieldNamed(fields, capability.field).value;
    var k :| 0 <= k < |fields| && fields[k] == field;
    assert tree.entries[k].field == field && k == i;
    ListWithin(contract.schema, entry.messages, field.kind.message, Join("", entry.field.name));
    QuietLeafIsStructural(contract.schema, field.kind.message, leaf);
  }

  lemma {:induction false} VariantLeavesWithin(contract: Contract, capability: Capability, tree: Tree, n: nat)
    requires WellFormed(contract) && VariantOf(contract, capability, tree) && n <= |tree.entries|
    requires EntryIsQuiet(contract, capability)
    ensures forall leaf :: leaf in LeavesTo(tree, "", n) && leaf.Value? ==>
              Classify(contract.schema, leaf.message, leaf.field) == Some(Structural)
    decreases n
  {
    if n > 0 {
      VariantLeavesWithin(contract, capability, tree, n - 1);
      forall leaf | leaf in EntryLeaves(tree.name, tree.entries[n - 1], "") && leaf.Value?
        ensures Classify(contract.schema, leaf.message, leaf.field) == Some(Structural)
      {
        VariantEntry(contract, capability, tree, n - 1, leaf);
      }
    }
  }

  /** A quiet capability's result passes the default sweep unread: not a byte is swept, not a
      string is changed, nothing is reported, and the one fault left is a map field. */
  lemma QuietResultsPassUntouched(contract: Contract, capability: Capability, tree: Tree, policy: Policy)
    requires WellFormed(contract) && VariantOf(contract, capability, tree) && EntryIsQuiet(contract, capability)
    requires Enforceable(policy) && policy.alwaysMasked == {}
    ensures MapTree(MaskText(contract.schema, policy), tree, "") == tree
    ensures BytesRead(contract.schema, policy, Leaves(tree, "")) == 0
    ensures SweepOf(contract.schema, policy, tree).faulted <==>
                exists leaf :: leaf in Leaves(tree, "") && leaf.MapField?
  {
    var leaves := Leaves(tree, "");
    VariantLeavesWithin(contract, capability, tree, |tree.entries|);
    KeptTree(MaskText(contract.schema, policy), tree, "");
    NothingRead(contract.schema, policy, leaves);
    SweepFaultsIff(contract.schema, policy, tree);
  }

  lemma {:induction false} NothingRead(schema: Schema, policy: Policy, leaves: seq<Leaf>)
    requires policy.alwaysMasked == {}
    requires forall leaf :: leaf in leaves && leaf.Value? ==>
                 Classify(schema, leaf.message, leaf.field) == Some(Structural)
    ensures BytesRead(schema, policy, leaves) == 0
  {
    if leaves != [] {
      assert leaves[|leaves| - 1] in leaves;
      NothingRead(schema, policy, leaves[..|leaves| - 1]);
    }
  }

  // ---------------------------------------------------------------- the enforcer

  datatype Job = Job(jobId: string, leaseEpoch: nat, capabilityId: string, capabilityVersion: nat)

  datatype Answer = Failure(kind: string) | Success(payload: Payload)

  datatype JobResult = JobResult(jobId: string, leaseEpoch: nat, answer: Answer)

  // Either a policy to enforce, or the knowledge that there is none.
  datatype Guard = Loaded(policy: Policy) | Faulted

  function Refusal(job: Job): JobResult {
    JobResult(job.jobId, job.leaseEpoch, Failure("LOCAL_POLICY_REFUSED"))
  }

  // Under a faulted policy the sweep falls back to the defaults.
  function InForce(guard: Guard, defaults: Policy): Policy {
    if guard.Loaded? then guard.policy else defaults
  }

  class Enforcer {
    const contract: Contract
    const guard: Guard
    const defaults: Policy

    ghost predicate Valid() {
      WellFormed(contract) && Enforceable(defaults) && (guard.Loaded? ==> Enforceable(guard.policy))
    }

    // The policy could not be loaded and this capability might emit free text.
    ghost predicate RefusesToRun(job: Job)
      requires WellFormed(contract)
    {
      guard.Faulted? && !exists k :: FirstEntry(contract.capabilities, job.capabilityId, job.capabilityVersion, k)
                                      && EntryIsQuiet(contract, contract.capabilities[k])
    }

    constructor (contract: Contract, guard: Guard, defaults: Policy)
      ensures this.contract == contract && this.guard == guard && this.defaults == defaults
    {
      this.contract, this.guard, this.defaults := contract, guard, defaults;
    }

    /** `inner` is what the capability answers if it is run, and `ran` whether it was. */
    method Execute(job: Job, inner: Option<JobResult>) returns (out: Option<JobResult>, ran: bool)
      requires Valid()
      requires inner.Some? && inner.value.answer.Success? ==> inner.value.answer.payload.root.Shaped()
      modifies if inner.Some? && inner.value.answer.Success?
               then {inner.value.answer.payload as object} + inner.value.answer.payload.root.repr else {}
      ensures ran <==> !RefusesToRun(job)
      ensures !ran ==> out == Some(JobResult(job.jobId, job.leaseEpoch, Failure("LOCAL_POLICY_REFUSED")))
      ensures ran && (inner.None? || inner.value.answer.Failure?) ==> out == inner
      ensures ran && inner.Some? && inner.value.answer.Success? ==>
                var policy := if guard.Loaded? then guard.policy else defaults;
                var payload := inner.value.answer.payload;
                var tree := old(payload.root.View());
                match SentOf(contract.schema, policy, contract.report, tree)
                case None => out == Some(JobResult(job.jobId, job.leaseEpoch, Failure("LOCAL_POLICY_REFUSED")))
                case Some(sent) =>
                  out == inner && payload.attached.Outgoing? && payload.Leaving(contract.report) == sent
    {
      if guard.Faulted? {
        var carries := CarriesFreeText(contract, job.capabilityId, job.capabilityVersion);
        if carries {
          return Some(Refusal(job)), false;
        }
      }
      ran := true;
      if inner.None? || inner.value.answer.Failure? {
        return inner, true;
      }
      var policy := InForce(guard, defaults);
      var report, fault := SweepResult(contract.schema, policy, contract.report, inner.value.answer.payload);
      if fault {
        return Some(Refusal(job)), true;
      }
      return inner, true;
    }
  }
}
