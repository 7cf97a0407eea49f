/** The sweep as it runs: a walk over message objects that rewrites their strings in place
    and keeps its own running state. */
module SweepObjects {
  import opened Wrappers
  import opened Ordering
  import opened Masking
  import opened MaskedText
  import opened Trees
  import opened Sweeping
  import opened Redaction

  // A message of a result.  `texts[i]` are the values of its i-th field when that holds
  // strings; its sub-messages never change.
  class Message {
    const name: string
    const fields: seq<Field>
    const children: seq<seq<Message>>
    var texts: seq<seq<string>>
    ghost const repr: set<Message>
    ghost const height: nat

    // No object is reached twice: the result is a tree.
    ghost predicate Shaped()
      decreases height, 1
    {
      && this in repr && |children| == |fields|
      && (forall i :: 0 <= i < |children| ==> Forest(children[i], height) && ForestRepr(children[i]) <= repr - {this})
      && (forall i, k :: 0 <= i < k < |children| ==> ForestRepr(children[i]) !! ForestRepr(children[k]))
    }

    constructor (name: string, fields: seq<Field>, children: seq<seq<Message>>, texts: seq<seq<string>>,
                 ghost height: nat)
      requires |children| == |fields|
      requires forall i :: 0 <= i < |children| ==> Forest(children[i], height)
      requires forall i, k :: 0 <= i < k < |children| ==> ForestRepr(children[i]) !! ForestRepr(children[k])
      ensures Shaped() && this.name == name && this.fields == fields && this.children == children && this.texts == texts
    {
      this.name, this.fields, this.children, this.texts, this.height := name, fields, children, texts, height;
      repr := {this} + set i, m | 0 <= i < |children| && m in ForestRepr(children[i]) :: m;
    }

    function TextsAt(i: nat): seq<string>
      reads this
    {
      if i < |texts| then texts[i] else []
    }

    ghost function EntryView(i: nat): Entry
      requires Shaped() && i < |fields|
      reads this, ForestRepr(children[i])
      decreases height, 1
    {
      Entry(fields[i], TextsAt(i), ListView(children[i], height))
    }

    ghost function View(): Tree
      requires Shaped()
      reads repr
      decreases height, 2
    {
      Tree(name, seq(|fields|, i requires 0 <= i < |fields| reads repr => EntryView(i)))
    }
  }

  ghost predicate Forest(list: seq<Message>, height: nat)
    decreases height, 0
  {
    && (forall j :: 0 <= j < |list| ==> list[j].height < height && list[j].Shaped())
    && (forall j, k :: 0 <= j < k < |list| ==> list[j].repr !! list[k].repr)
  }

  ghost function ForestRepr(list: seq<Message>): set<Message> {
    set j, m | 0 <= j < |list| && m in list[j].repr :: m
  }

  ghost function ListView(list: seq<Message>, height: nat): seq<Tree>
    requires Forest(list, height)
    reads ForestRepr(list)
    decreases height, 0
  {
    seq(|list|, j requires 0 <= j < |list| reads ForestRepr(list) => list[j].View())
  }

  lemma UndeclaredTexts(schema: Schema, policy: Policy, before: State, message: string, field: string,
                        texts: seq<string>, path: string)
    requires AllInBounds(policy.rules) && Classify(schema, message, field).None? && texts != [] && !before.faulted
    ensures Fold(LeafStep(schema, policy), before, TextLeaves(message, field, texts, path)) == before.(faulted := true)
  {
    TextLeavesAt(message, field, texts, path);
    LeafStepHalts(schema, policy);
    LeafStepIs(schema, policy, before, Value(path, message, field, texts[0]));
    PastBad(LeafStep(schema, policy), before, TextLeaves(message, field, texts, path));
  }

  lemma StructuralTexts(schema: Schema, policy: Policy, before: State, message: string, field: string,
                        texts: seq<string>, path: string)
    requires AllInBounds(policy.rules) && Classify(schema, message, field) == Some(Structural)
             && path !in policy.alwaysMasked
    ensures Fold(LeafStep(schema, policy), before, TextLeaves(message, field, texts, path)) == before
    ensures MapTexts(MaskText(schema, policy), message, field, texts, path) == texts
  {
    TextLeavesAt(message, field, texts, path);
    forall k | 0 <= k < |texts|
      ensures LeafStep(schema, policy)(before, Value(path, message, field, texts[k])) == before
    {
      LeafStepIs(schema, policy, before, Value(path, message, field, texts[k]));
    }
    PastLeft(LeafStep(schema, policy), before, TextLeaves(message, field, texts, path));
  }

  class Sweep {
    const schema: Schema
    const policy: Policy
    var swept: nat
    var counts: map<string, Tally>
    var next: nat
    ghost const step: (State, Leaf) -> State
    ghost const mask: Leaf -> string

    // What the walk does at a leaf is what the policy says.
    ghost predicate Ready() {
      AllInBounds(policy.rules) && Halts(step) && step == LeafStep(schema, policy) && mask == MaskText(schema, policy)
    }

    ghost function State(faulted: bool): Sweeping.State
      reads this
    {
      Sweeping.State(swept, counts, next, faulted)
    }

    constructor (schema: Schema, policy: Policy)
      requires AllInBounds(policy.rules)
      ensures Ready() && this.schema == schema && this.policy == policy && State(false) == START
    {
      LeafStepHalts(schema, policy);
      this.schema, this.policy := schema, policy;
      step, mask := LeafStep(schema, policy), MaskText(schema, policy);
      swept, counts, next := 0, map[], 0;
    }

    method Record(path: string, occurrences: nat, rules: seq<string>)
      modifies this
      ensures State(false) == Sweeping.Record(old(State(false)), path, occurrences, rules)
    {
      var entry;
      if path in counts {
        entry := counts[path];
      } else {
        entry := Tally(next, 0, {});
        next := next + 1;
      }
      entry := entry.(occurrences := Add32(entry.occurrences, occurrences));
      entry := entry.(rules := entry.rules + set id | id in rules);
      counts := counts[path := entry];
    }

    // What one string becomes; None is a fault.
    method MaskValue(text: string, path: string) returns (masked: Option<string>)
      requires AllInBounds(policy.rules)
      modifies this
      ensures State(masked.None?) == ReadStep(policy, old(State(false)), path, text)
      ensures masked.Some? ==> masked.value == MaskedValue(policy, path, text).text
    {
      swept := swept + |text|;
      if swept > policy.maxInput {
        return None;
      }
      if path in policy.alwaysMasked {
        if text == "" {
          return Some(text);
        }
        Record(path, 1, [MASKED_FIELD_RULE]);
        return Some(Marker(MASKED_FIELD_RULE));
      }
      var text', occurrences, matched := Mask(policy.rules, text);
      if occurrences > 0 {
        Record(path, occurrences, matched);
      }
      return Some(text');
    }

    method MaskEach(m: Message, i: nat, path: string)
      returns (fault: bool)
      requires i < |m.fields| && i < |m.texts| && Halts(step)
      requires ReadsAt(policy, path, m.name, m.fields[i].name, step, mask)
      modifies this, m
      ensures var field := m.fields[i].name;
              && State(fault) == Fold(step, old(State(false)), TextLeaves(m.name, field, old(m.texts[i]), path))
              && (!fault ==> m.texts == old(m.texts)[i := MapTexts(mask, m.name, field, old(m.texts[i]), path)])
    {
      var texts := m.texts[i];
      ghost var field, before, row := m.fields[i].name, State(false), texts;
      var k := 0;
      while k < |texts|
        invariant k <= |texts| == |row| && m.texts == old(m.texts)[i := row]
        invariant State(false) == Fold(step, before, TextLeaves(m.name, field, texts[..k], path))
        invariant forall q :: 0 <= q < k ==> row[q] == mask(Value(path, m.name, field, texts[q]))
        invariant forall q :: k <= q < |texts| ==> row[q] == texts[q]
      {
        NextText(step, before, m.name, field, texts, path, k);
        var masked := MaskValue(m.texts[i][k], path);
        if masked.None? {
          return true;
        }
        m.texts := m.texts[i := m.texts[i][k := masked.value]];
        row := row[k := masked.value];
        k := k + 1;
      }
      assert texts[..k] == texts;
      assert row == MapTexts(mask, m.name, field, texts, path);
      return false;
    }

    // Rewrites the values of one string field where they stand.
    method Strings(m: Message, i: nat, path: string) returns (fault: bool)
      requires Ready() && i < |m.fields| && i < |m.texts| && m.texts[i] != []
      modifies this, m
      ensures var field := m.fields[i].name;
              && State(fault) == Fold(step, old(State(false)), TextLeaves(m.name, field, old(m.texts[i]), path))
              && (!fault ==> m.texts == old(m.texts)[i := MapTexts(mask, m.name, field, old(m.texts[i]), path)])
    {
      var field := m.fields[i].name;
      var classification := Classify(schema, m.name, field);
      if classification.None? {
        UndeclaredTexts(schema, policy, State(false), m.name, field, m.texts[i], path);
        return true;
      }
      if !classification.value.FreeText? && path !in policy.alwaysMasked {
        StructuralTexts(schema, policy, State(false), m.name, field, m.texts[i], path);
        return false;
      }
      LeafStepReads(schema, policy, path, m.name, field);
      fault := MaskEach(m, i, path);
    }

    // Sweeps the messages of one field, one after the other.
    method Messages(list: seq<Message>, ghost height: nat, path: string) returns (fault: bool)
      requires Ready() && Forest(list, height)
      modifies this, ForestRepr(list)
      ensures State(fault) == Fold(step, old(State(false)), ListLeaves(old(ListView(list, height)), path))
      ensures !fault ==> ListView(list, height) == MapList(mask, old(ListView(list, height)), path)
      decreases height, 0
    {
      ghost var trees, before := ListView(list, height), State(false);
      ghost var views := trees;
      var j := 0;
      while j < |list|
        invariant j <= |list| == |views| && ListView(list, height) == views
        invariant State(false) == Fold(step, before, ListLeaves(trees[..j], path))
        invariant forall q :: 0 <= q < |list| ==> views[q] == if q < j then MapTree(mask, trees[q], path) else trees[q]
      {
        NextMessage(step, before, trees, path, j);
        fault := WalkOne(list, height, j, path);
        if fault {
          return;
        }
        views := views[j := list[j].View()];
        j := j + 1;
      }
      assert trees[..j] == trees;
      return false;
    }

    method WalkOne(list: seq<Message>, ghost height: nat, j: nat, path: string) returns (fault: bool)
      requires Ready() && Forest(list, height) && j < |list|
      modifies this, list[j].repr
      ensures State(fault) == Fold(step, old(State(false)), Leaves(old(list[j].View()), path))
      ensures !fault ==> list[j].View() == MapTree(mask, old(list[j].View()), path)
      ensures ListView(list, height) == old(ListView(list, height))[j := list[j].View()]
      decreases list[j].height, 4
    {
      fault := Walk(list[j], path);
      forall q | 0 <= q < |list| && q != j ensures list[q].View() == old(list[q].View()) {
        assert list[q].repr !! list[j].repr;
      }
    }

    // Sweeps a message and everything below it, field by field.
    method Walk(m: Message, path: string) returns (fault: bool)
      requires Ready() && m.Shaped()
      modifies this, m.repr
      ensures State(fault) == Fold(step, old(State(false)), Leaves(old(m.View()), path))
      ensures !fault ==> m.View() == MapTree(mask, old(m.View()), path)
      decreases m.height, 3
    {
      ghost var tree, before := m.View(), State(false);
      MapToEnds(mask, tree, path);
      var i := 0;
      while i < |m.fields|
        invariant i <= |m.fields| == |tree.entries| && m.View() == MapTo(mask, tree, path, i)
        invariant State(false) == Fold(step, before, LeavesTo(tree, path, i))
      {
        NextField(step, before, tree, path, i);
        MapToNext(mask, tree, path, i);
        fault := WalkEntry(m, i, path);
        if fault {
          return;
        }
        i := i + 1;
      }
      return false;
    }

    method WalkEntry(m: Message, i: nat, path: string) returns (fault: bool)
      requires Ready() && m.Shaped() && i < |m.fields|
      modifies this, m, ForestRepr(m.children[i])
      ensures State(fault) == Fold(step, old(State(false)), EntryLeaves(m.name, old(m.EntryView(i)), path))
      ensures !fault ==> m.EntryView(i) == MapEntry(mask, m.name, old(m.EntryView(i)), path)
      ensures !fault ==> m.View() == old(m.View()).(entries := old(m.View()).entries[i := m.EntryView(i)])
      decreases m.height, 2
    {
      fault := WalkField(m, i, path);
      forall q | 0 <= q < |m.fields| && q != i && !fault ensures m.EntryView(q) == old(m.EntryView(q)) {
        assert ForestRepr(m.children[q]) <= m.repr - {m} && ForestRepr(m.children[q]) !! ForestRepr(m.children[i]);
      }
    }

    method WalkField(m: Message, i: nat, path: string) returns (fault: bool)
      requires Ready() && m.Shaped() && i < |m.fields|
      modifies this, m, ForestRepr(m.children[i])
      ensures State(fault) == Fold(step, old(State(false)), EntryLeaves(m.name, old(m.EntryView(i)), path))
      ensures !fault ==> m.EntryView(i) == MapEntry(mask, m.name, old(m.EntryView(i)), path)
      ensures !fault ==> forall q :: 0 <= q < |m.fields| && q != i ==> m.TextsAt(q) == old(m.TextsAt(q))
      decreases m.height, 1
    {
      var field := m.fields[i];
      var here := Join(path, field.name);
      match field.kind {
        case Text =>
          if m.TextsAt(i) != [] {
            fault := Strings(m, i, here);
          } else {
            fault := false;
          }
        case Nested(_) =>
          if m.children[i] == [] {
            fault := false;
          } else if field.shape.Mapped? {
            MapFieldFaults(schema, policy, State(false), here);
            fault := true;
          } else {
            fault := Messages(m.children[i], m.height, here);
          }
        case Scalar =>
          fault := false;
      }
    }
  }

  // What stands in the report's field of a result: what it came in with, until the sweep
  // puts its own report there.
  datatype Attached = Incoming | Outgoing(report: Option<seq<ReportLine>>)

  // A result on its way out.
  class Payload {
    const root: Message
    var attached: Attached

    constructor (root: Message)
      ensures this.root == root && attached == Incoming
    {
      this.root, attached := root, Incoming;
    }

    // What leaves, where `field` is the report's.
    ghost function Leaving(field: string): Sent
      requires root.Shaped() && attached.Outgoing?
      reads this, root.repr
    {
      Sent(Cleared(root.View(), field), attached.report)
    }
  }

  lemma RenderedIsReportOf(schema: Schema, policy: Policy, tree: Tree, report: Option<seq<ReportLine>>)
    requires Enforceable(policy) && !SweepOf(schema, policy, tree).faulted
    requires report.None? <==> SweepOf(schema, policy, tree).counts == map[]
    requires report.Some? ==> Rendered(report.value, SweepOf(schema, policy, tree).counts)
    ensures report == ReportOf(SweptOutcomes(schema, policy, tree))
  {
    var outcomes := SweptOutcomes(schema, policy, tree);
    SilenceMeansNothingMasked(schema, policy, tree);
    if report.Some? {
      ReportIsExact(schema, policy, tree, report.value);
      var o :| o in outcomes && Counts(o);
      ReportsAreUnique(report.value, outcomes, o);
    }
  }

  /** Masks a result in place and overwrites its report, or faults and says nothing of what is
      left of it.  A result that is not there has nothing to mask. */
  method SweepResult(schema: Schema, policy: Policy, field: string, result: Payload?)
    returns (report: Option<seq<ReportLine>>, fault: bool)
    requires Enforceable(policy) && (result != null ==> result.root.Shaped())
    modifies if result == null then {} else {result as object} + result.root.repr
    ensures result == null ==> !fault && report.None?
    ensures result != null ==> (fault <==> SentOf(schema, policy, field, old(result.root.View())).None?)
    ensures fault ==> report.None?
    ensures result != null && !fault ==>
              && result.attached == Outgoing(report)
              && SentOf(schema, policy, field, old(result.root.View())) == Some(result.Leaving(field))
  {
    if result == null {
      return None, false;
    }
    ghost var tree := result.root.View();
    var run := new Sweep(schema, policy);
    fault := run.Walk(result.root, "");
    WalkIsRun(schema, policy, START, Leaves(tree, ""));
    if fault {
      return None, true;
    }
    report := Render(run.counts);
    RenderedIsReportOf(schema, policy, tree, report);
    result.attached := Outgoing(report);
  }
}
