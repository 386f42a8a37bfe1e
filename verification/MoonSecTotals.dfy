/** The totals kept while reading are those of the tree that is read. */
module MoonSecTotals {
  import opened Bytes
  import opened MoonSecFormat

  function Add(x: Metrics, y: Metrics): Metrics {
    Metrics(x.functions + y.functions, x.instructions + y.instructions, x.constants + y.constants,
            x.strings + y.strings, x.nonNilConstants + y.nonNilConstants)
  }

  function Front<T>(s: seq<T>): (r: seq<T>)
    requires s != []
    ensures |r| == |s| - 1 && r == s[..|s| - 1]
  {
    s[..|s| - 1]
  }

  /** Where the constants are that are strings, or that are not nil, and where the live instructions are. */
  ghost function StringsAt(cs: seq<Constant>): set<int> {
    set k | 0 <= k < |cs| && cs[k].kind.String?
  }

  ghost function NonNilAt(cs: seq<Constant>): set<int> {
    set k | 0 <= k < |cs| && !cs[k].kind.Unknown?
  }

  ghost function LiveAt(xs: seq<Instruction>): set<int> {
    set k | 0 <= k < |xs| && xs[k].Live?
  }

  ghost function Strings(cs: seq<Constant>): nat {
    |StringsAt(cs)|
  }

  ghost function NonNil(cs: seq<Constant>): nat {
    |NonNilAt(cs)|
  }

  ghost function LiveCount(xs: seq<Instruction>): nat {
    |LiveAt(xs)|
  }

  ghost function Own(t: Tree): Metrics {
    Metrics(1, LiveCount(t.instructions), |t.constants|, Strings(t.constants), NonNil(t.constants))
  }

  /** The totals of a list of trees. */
  ghost function Sum(ts: seq<Tree>): Metrics
    decreases ts
  {
    if ts == [] then ZERO else Add(Sum(Front(ts)), Add(Own(ts[|ts| - 1]), Sum(ts[|ts| - 1].children)))
  }

  /** Nodes, live instructions, constants, strings and non-nil constants of a whole tree. */
  ghost function Totals(t: Tree): Metrics {
    Add(Own(t), Sum(t.children))
  }

  lemma SumAppends(ts: seq<Tree>, t: Tree)
    ensures Sum(ts + [t]) == Add(Sum(ts), Totals(t))
  {
    assert (ts + [t])[..|ts|] == ts;
  }

  lemma StringsAppend(cs: seq<Constant>, c: Constant)
    ensures Strings(cs + [c]) == Strings(cs) + if c.kind.String? then 1 else 0
  {
    assert StringsAt(cs + [c]) == if c.kind.String? then StringsAt(cs) + {|cs|} else StringsAt(cs);
  }

  lemma NonNilAppends(cs: seq<Constant>, c: Constant)
    ensures NonNil(cs + [c]) == NonNil(cs) + if c.kind.Unknown? then 0 else 1
  {
    assert NonNilAt(cs + [c]) == if c.kind.Unknown? then NonNilAt(cs) else NonNilAt(cs) + {|cs|};
  }

  lemma LiveAppends(xs: seq<Instruction>, i: Instruction)
    ensures LiveCount(xs + [i]) == LiveCount(xs) + if i.Live? then 1 else 0
  {
    assert LiveAt(xs + [i]) == if i.Live? then LiveAt(xs) + {|xs|} else LiveAt(xs);
  }

  lemma NothingCounted()
    ensures Strings([]) == 0 && NonNil([]) == 0 && LiveCount([]) == 0
  {
    assert StringsAt([]) == {} && NonNilAt([]) == {} && LiveAt([]) == {};
  }

  /** Only the string and non-nil totals move while a list of constants is read. */
  lemma {:induction false} ConstantListTotals(data: seq<Byte>, tags: seq<Kind>, p: nat, m: Metrics, n: nat, before: seq<Constant>)
    requires Within(data, p, m)
    ensures var r := ParseConstantList(data, tags, p, m, n, before);
      r.Some? ==>
        && |r.value| == |before| + n
        && Add(r.metrics, Metrics(0, 0, 0, Strings(before), NonNil(before))) == Add(m, Metrics(0, 0, 0, Strings(r.value), NonNil(r.value)))
    decreases n
  {
    if n > 0 {
      var next := ParseConstant(data, tags, p, m);
      if next.Some? {
        StringsAppend(before, next.value);
        NonNilAppends(before, next.value);
        ConstantListTotals(data, tags, next.position, next.metrics, n - 1, before + [next.value]);
      }
    }
  }

  lemma {:induction false} InstructionListTotals(data: seq<Byte>, p: nat, m: Metrics, n: nat, before: seq<Instruction>)
    requires Within(data, p, m) && m.instructions + n <= MAX_INSTRUCTIONS
    ensures var r := ParseInstructionList(data, p, m, n, before);
      r.Some? ==>
        && |r.value| == |before| + n
        && Add(r.metrics, Metrics(0, LiveCount(before), 0, 0, 0)) == Add(m, Metrics(0, LiveCount(r.value), 0, 0, 0))
    decreases n
  {
    if n > 0 {
      var next := ParseInstruction(data, p, m, |before|);
      if next.Some? {
        LiveAppends(before, next.value);
        InstructionListTotals(data, next.position, next.metrics, n - 1, before + [next.value]);
      }
    }
  }

  /** A step order in which no step comes twice. */
  predicate IsLayout(order: seq<Step>) {
    |order| == 4 && forall i, j :: 0 <= i < j < |order| ==> order[i] != order[j]
  }

  /** The part of a node that a step fills in. */
  predicate Unfilled(node: Tree, step: Step) {
    match step {
      case Constants => node.constants == []
      case Instructions => node.instructions == []
      case Functions => node.children == []
      case Parameters => true
    }
  }

  ghost predicate Counted(before: Metrics, node: Tree, after: Metrics, node': Tree) {
    Add(after, Totals(node)) == Add(before, Totals(node'))
  }

  lemma Chain(m: Metrics, next: Metrics, after: Metrics, before: Metrics, one: Metrics, mid: Metrics, all: Metrics)
    requires next == Add(m, one) && mid == Add(before, one) && Add(after, mid) == Add(next, all)
    ensures Add(after, before) == Add(m, all)
  {
  }

  lemma {:induction false} ChildrenTotals(data: seq<Byte>, order: seq<Step>, tags: seq<Kind>, p: nat, m: Metrics, depth: nat, n: nat, before: seq<Tree>)
    requires Within(data, p, m) && depth <= MAX_PROTOTYPE_DEPTH && IsLayout(order)
    ensures var r := ParseChildren(data, order, tags, p, m, depth, n, before);
      r.Some? ==> |r.value| == |before| + n && Add(r.metrics, Sum(before)) == Add(m, Sum(r.value))
    decreases MAX_PROTOTYPE_DEPTH + 1 - depth, 0, n
  {
    if n > 0 {
      var next := ParseFunction(data, order, tags, p, m, depth + 1);
      if next.Some? {
        FunctionTotals(data, order, tags, p, m, depth + 1);
        SumAppends(before, next.value);
        ChildrenTotals(data, order, tags, next.position, next.metrics, depth, n - 1, before + [next.value]);
        var r := ParseChildren(data, order, tags, next.position, next.metrics, depth, n - 1, before + [next.value]);
        if r.Some? {
          Chain(m, next.metrics, r.metrics, Sum(before), Totals(next.value), Sum(before + [next.value]), Sum(r.value));
        }
      }
    }
  }

  /** How a node's totals change when one part of it is filled in. */
  lemma PartTotals(node: Tree, node': Tree)
    ensures node' == node.(parameters := node'.parameters) ==> Totals(node') == Totals(node)
    ensures node' == node.(constants := node'.constants) && node.constants == [] ==>
      Totals(node') == Add(Totals(node), Metrics(0, 0, |node'.constants|, Strings(node'.constants), NonNil(node'.constants)))
    ensures node' == node.(instructions := node'.instructions) && node.instructions == [] ==>
      Totals(node') == Add(Totals(node), Metrics(0, LiveCount(node'.instructions), 0, 0, 0))
    ensures node' == node.(children := node'.children) && node.children == [] ==>
      Totals(node') == Add(Totals(node), Sum(node'.children))
  {
    NothingCounted();
  }

  lemma ConstantsTotals(data: seq<Byte>, tags: seq<Kind>, p: nat, m: Metrics)
    requires Within(data, p, m)
    ensures var r := ParseConstants(data, tags, p, m);
      r.Some? ==> r.metrics == Add(m, Metrics(0, 0, |r.value|, Strings(r.value), NonNil(r.value)))
  {
    if ParseConstants(data, tags, p, m).Some? {
      NothingCounted();
      var count := U32(data, p);
      ConstantListTotals(data, tags, p + 4, m.(constants := m.constants + count), count, []);
    }
  }

  lemma InstructionsTotals(data: seq<Byte>, p: nat, m: Metrics)
    requires Within(data, p, m)
    ensures var r := ParseInstructions(data, p, m); r.Some? ==> r.metrics == Add(m, Metrics(0, LiveCount(r.value), 0, 0, 0))
  {
    if ParseInstructions(data, p, m).Some? {
      NothingCounted();
      InstructionListTotals(data, p + 4, m, U32(data, p), []);
    }
  }

  lemma {:induction false} FunctionsTotals(data: seq<Byte>, order: seq<Step>, tags: seq<Kind>, p: nat, m: Metrics, depth: nat)
    requires Within(data, p, m) && depth <= MAX_PROTOTYPE_DEPTH && IsLayout(order)
    ensures var r := ParseFunctions(data, order, tags, p, m, depth); r.Some? ==> r.metrics == Add(m, Sum(r.value))
    decreases MAX_PROTOTYPE_DEPTH + 1 - depth, 1
  {
    if ParseFunctions(data, order, tags, p, m, depth).Some? {
      ChildrenTotals(data, order, tags, p + 4, m, depth, U32(data, p), []);
    }
  }

  lemma {:induction false} StepTotals(data: seq<Byte>, order: seq<Step>, tags: seq<Kind>, p: nat, m: Metrics, depth: nat, step: Step, node: Tree)
    requires Within(data, p, m) && depth <= MAX_PROTOTYPE_DEPTH && IsLayout(order) && Unfilled(node, step)
    ensures var r := ParseStep(data, order, tags, p, m, depth, step, node); r.Some? ==> Counted(m, node, r.metrics, r.value)
    decreases MAX_PROTOTYPE_DEPTH + 1 - depth, 2
  {
    var r := ParseStep(data, order, tags, p, m, depth, step, node);
    if r.Some? {
      PartTotals(node, r.value);
      match step {
        case Constants => ConstantsTotals(data, tags, p, m);
        case Instructions => InstructionsTotals(data, p, m);
        case Functions => FunctionsTotals(data, order, tags, p, m, depth);
        case Parameters =>
      }
    }
  }

  lemma StepFillsOne(data: seq<Byte>, order: seq<Step>, tags: seq<Kind>, p: nat, m: Metrics, depth: nat, step: Step, node: Tree, other: Step)
    requires Within(data, p, m) && depth <= MAX_PROTOTYPE_DEPTH && other != step && Unfilled(node, other)
    ensures var r := ParseStep(data, order, tags, p, m, depth, step, node); r.Some? ==> Unfilled(r.value, other)
  {
  }

  lemma {:induction false} StepsTotals(data: seq<Byte>, order: seq<Step>, tags: seq<Kind>, p: nat, m: Metrics, depth: nat, k: nat, node: Tree)
    requires Within(data, p, m) && depth <= MAX_PROTOTYPE_DEPTH && IsLayout(order) && k <= |order|
    requires forall j :: k <= j < |order| ==> Unfilled(node, order[j])
    ensures var r := ParseSteps(data, order, tags, p, m, depth, k, node); r.Some? ==> Counted(m, node, r.metrics, r.value)
    decreases MAX_PROTOTYPE_DEPTH + 1 - depth, 3, |order| - k
  {
    if k < |order| {
      var next := ParseStep(data, order, tags, p, m, depth, order[k], node);
      if next.Some? {
        StepTotals(data, order, tags, p, m, depth, order[k], node);
        forall j | k + 1 <= j < |order|
          ensures Unfilled(next.value, order[j])
        {
          StepFillsOne(data, order, tags, p, m, depth, order[k], node, order[j]);
        }
        StepsTotals(data, order, tags, next.position, next.metrics, depth, k + 1, next.value);
      }
    }
  }

  lemma EmptyTotals(t: Tree)
    requires t.instructions == [] && t.constants == [] && t.children == []
    ensures Totals(t) == Metrics(1, 0, 0, 0, 0)
  {
    NothingCounted();
  }

  lemma CancelOne(m: Metrics, after: Metrics, one: Metrics, total: Metrics)
    requires one == Metrics(1, 0, 0, 0, 0) && Add(after, one) == Add(m.(functions := m.functions + 1), total)
    ensures after == Add(m, total)
  {
  }

  lemma FromEmpty(m: Metrics, after: Metrics, node: Tree, t: Tree)
    requires Counted(m.(functions := m.functions + 1), node, after, t)
    requires node.instructions == [] && node.constants == [] && node.children == []
    ensures after == Add(m, Totals(t))
  {
    EmptyTotals(node);
    CancelOne(m, after, Totals(node), Totals(t));
  }

  /** Reading a function is reading its steps into a node with nothing in it. */
  lemma FunctionIsSteps(data: seq<Byte>, order: seq<Step>, tags: seq<Kind>, p: nat, m: Metrics, depth: nat) returns (node: Tree)
    requires Within(data, p, m) && depth <= MAX_PROTOTYPE_DEPTH && m.functions < MAX_FUNCTIONS
    ensures node.instructions == [] && node.constants == [] && node.children == []
    ensures ParseFunction(data, order, tags, p, m, depth)
         == ParseSteps(data, order, tags, p, m.(functions := m.functions + 1), depth, 0, node)
  {
    node := EMPTY;
  }

  /** Reading a function adds exactly the totals of its tree. */
  lemma {:induction false} FunctionTotals(data: seq<Byte>, order: seq<Step>, tags: seq<Kind>, p: nat, m: Metrics, depth: nat)
    requires Within(data, p, m) && depth <= MAX_PROTOTYPE_DEPTH + 1 && IsLayout(order)
    ensures var r := ParseFunction(data, order, tags, p, m, depth); r.Some? ==> r.metrics == Add(m, Totals(r.value))
    decreases MAX_PROTOTYPE_DEPTH + 1 - depth, 4
  {
    var r := ParseFunction(data, order, tags, p, m, depth);
    if r.Some? {
      var node := FunctionIsSteps(data, order, tags, p, m, depth);
      StepsTotals(data, order, tags, p, m.(functions := m.functions + 1), depth, 0, node);
      FromEmpty(m, r.metrics, node, r.value);
    }
  }

  /** The deepest nesting below a list of children. */
  function HeightOf(ts: seq<Tree>): nat
    decreases ts
  {
    if ts == [] then 0
    else
      var first, last := HeightOf(Front(ts)), 1 + HeightOf(ts[|ts| - 1].children);
      if first > last then first else last
  }

  function Height(t: Tree): nat {
    HeightOf(t.children)
  }

  ghost predicate Shallow(ts: seq<Tree>, depth: nat) {
    forall k :: 0 <= k < |ts| ==> depth + 1 + Height(ts[k]) <= MAX_PROTOTYPE_DEPTH
  }

  lemma {:induction false} ShallowHeight(ts: seq<Tree>, depth: nat)
    requires Shallow(ts, depth) && depth <= MAX_PROTOTYPE_DEPTH
    ensures depth + HeightOf(ts) <= MAX_PROTOTYPE_DEPTH
    decreases |ts|
  {
    if ts != [] {
      ShallowHeight(ts[..|ts| - 1], depth);
    }
  }

  lemma {:induction false} ChildrenShallow(data: seq<Byte>, order: seq<Step>, tags: seq<Kind>, p: nat, m: Metrics, depth: nat, n: nat, before: seq<Tree>)
    requires Within(data, p, m) && depth <= MAX_PROTOTYPE_DEPTH && Shallow(before, depth)
    ensures var r := ParseChildren(data, order, tags, p, m, depth, n, before); r.Some? ==> Shallow(r.value, depth)
    decreases MAX_PROTOTYPE_DEPTH + 1 - depth, 0, n
  {
    if n > 0 {
      var next := ParseFunction(data, order, tags, p, m, depth + 1);
      if next.Some? {
        FunctionShallow(data, order, tags, p, m, depth + 1);
        ChildrenShallow(data, order, tags, next.position, next.metrics, depth, n - 1, before + [next.value]);
      }
    }
  }

  lemma {:induction false} FunctionsShallow(data: seq<Byte>, order: seq<Step>, tags: seq<Kind>, p: nat, m: Metrics, depth: nat)
    requires Within(data, p, m) && depth <= MAX_PROTOTYPE_DEPTH
    ensures var r := ParseFunctions(data, order, tags, p, m, depth); r.Some? ==> Shallow(r.value, depth)
    decreases MAX_PROTOTYPE_DEPTH + 1 - depth, 1
  {
    if ParseFunctions(data, order, tags, p, m, depth).Some? {
      ChildrenShallow(data, order, tags, p + 4, m, depth, U32(data, p), []);
    }
  }

  lemma {:induction false} StepsShallow(data: seq<Byte>, order: seq<Step>, tags: seq<Kind>, p: nat, m: Metrics, depth: nat, k: nat, node: Tree)
    requires Within(data, p, m) && depth <= MAX_PROTOTYPE_DEPTH && k <= |order| && Shallow(node.children, depth)
    ensures var r := ParseSteps(data, order, tags, p, m, depth, k, node); r.Some? ==> Shallow(r.value.children, depth)
    decreases MAX_PROTOTYPE_DEPTH + 1 - depth, 3, |order| - k
  {
    if k < |order| {
      var next := ParseStep(data, order, tags, p, m, depth, order[k], node);
      if next.Some? {
        if order[k].Functions? {
          FunctionsShallow(data, order, tags, p, m, depth);
        }
        StepsShallow(data, order, tags, next.position, next.metrics, depth, k + 1, next.value);
      }
    }
  }

  /** No function nests deeper than the prototype limit. */
  lemma {:induction false} FunctionShallow(data: seq<Byte>, order: seq<Step>, tags: seq<Kind>, p: nat, m: Metrics, depth: nat)
    requires Within(data, p, m) && depth <= MAX_PROTOTYPE_DEPTH + 1
    ensures var r := ParseFunction(data, order, tags, p, m, depth); r.Some? ==> depth + Height(r.value) <= MAX_PROTOTYPE_DEPTH
    decreases MAX_PROTOTYPE_DEPTH + 1 - depth, 4
  {
    var r := ParseFunction(data, order, tags, p, m, depth);
    if r.Some? {
      var node := FunctionIsSteps(data, order, tags, p, m, depth);
      StepsShallow(data, order, tags, p, m.(functions := m.functions + 1), depth, 0, node);
      ShallowHeight(r.value.children, depth);
    }
  }

  /** What a denoted payload's totals are, and that they and its depth stay within the caps. */
  lemma DenotedTotals(data: seq<Byte>, order: seq<Step>, tags: seq<Kind>)
    requires IsLayout(order)
    ensures var r := Denotes(data, order, tags);
      r.Some? ==>
        && r.metrics == Totals(r.value)
        && r.metrics.functions <= MAX_FUNCTIONS && r.metrics.instructions <= MAX_INSTRUCTIONS && r.metrics.constants <= MAX_CONSTANTS
        && Height(r.value) <= MAX_PROTOTYPE_DEPTH
  {
    FunctionShallow(data, order, tags, 0, ZERO, 0);
    FunctionTotals(data, order, tags, 0, ZERO, 0);
  }
}
