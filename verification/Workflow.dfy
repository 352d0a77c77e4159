/** A workflow is a list of steps; `dispatcher._nodes_of` expands it into one DAG of nodes.
    A pipeline step contributes its schema's nodes under ids `<step>/<node>`; a step-level
    dependency on a pipeline step becomes a dependency on that pipeline's leaves, and it is
    inherited by the depending step's source nodes only. */
module Workflow {
  import opened Base
  import opened Graph

  /** A node of a pipeline's schema; an empty `nodeModule` is a missing one. */
  datatype SchemaNode = SchemaNode(
    id: string,
    dependsOn: seq<string>,
    nodeModule: string,
    gpu: bool,
    model: Option<string>,
    skipIf: Option<string>)

  datatype Step =
    | InputStep(id: string, dependsOn: seq<string>, skipIf: Option<string>)
    | PipelineStep(id: string, dependsOn: seq<string>, skipIf: Option<string>, schema: seq<SchemaNode>)
    | OtherStep(id: string)

  datatype Node = Node(
    id: string,
    input: bool,
    dependsOn: seq<string>,
    nodeModule: string,
    gpu: bool,
    model: Option<string>,
    skipIf: Option<string>)

  // ---------------------------------------------------------------- expansion

  function Prefixed(step: string, node: string): string {
    step + "/" + node
  }

  function Referenced(schema: seq<SchemaNode>): set<string> {
    set sn, d | sn in schema && d in sn.dependsOn :: d
  }

  /** The prefixed ids of the schema nodes nothing in `referenced` names, in schema order. */
  function LeafIds(step: string, schema: seq<SchemaNode>, referenced: set<string>): (ids: seq<string>)
    ensures forall sn :: sn in schema && sn.id !in referenced ==> Prefixed(step, sn.id) in ids
  {
    if schema == [] then []
    else
      (if schema[0].id in referenced then [] else [Prefixed(step, schema[0].id)])
      + LeafIds(step, schema[1..], referenced)
  }

  /** What a step-level dependency on `step` stands for: the input node itself, or every leaf
      of the pipeline (its last node when no node is a leaf). */
  function Leaves(step: Step): seq<string>
    requires step.PipelineStep? ==> step.schema != []
  {
    match step
    case InputStep(id, _, _) => [id]
    case PipelineStep(id, _, _, schema) =>
      var leaves := LeafIds(id, schema, Referenced(schema));
      if leaves == [] then [Prefixed(id, schema[|schema| - 1].id)] else leaves
    case OtherStep(_) => []
  }

  predicate NonEmptyPipelines(steps: seq<Step>) {
    forall i :: 0 <= i < |steps| && steps[i].PipelineStep? ==> steps[i].schema != []
  }

  function StepLeaves(steps: seq<Step>): map<string, seq<string>>
    requires NonEmptyPipelines(steps)
  {
    if steps == [] then map[]
    else
      var last := steps[|steps| - 1];
      var before := StepLeaves(steps[..|steps| - 1]);
      if last.OtherStep? then before else before[last.id := Leaves(last)]
  }

  function ExpandDeps(leaves: map<string, seq<string>>, deps: seq<string>): (out: seq<string>)
    ensures forall d, l :: d in deps && d in leaves && l in leaves[d] ==> l in out
  {
    if deps == [] then []
    else (if deps[0] in leaves then leaves[deps[0]] else [deps[0]]) + ExpandDeps(leaves, deps[1..])
  }

  function PrefixAll(step: string, ids: seq<string>): (out: seq<string>)
    ensures |out| == |ids|
    ensures forall i :: 0 <= i < |ids| ==> out[i] == Prefixed(step, ids[i])
  {
    if ids == [] then [] else [Prefixed(step, ids[0])] + PrefixAll(step, ids[1..])
  }

  function PipelineNode(step: Step, stepDeps: seq<string>, sn: SchemaNode): Node
    requires step.PipelineStep?
  {
    Node(
      Prefixed(step.id, sn.id),
      false,
      PrefixAll(step.id, sn.dependsOn) + (if sn.dependsOn == [] then stepDeps else []),
      if sn.nodeModule == "" then sn.id else sn.nodeModule,
      sn.gpu,
      sn.model,
      if Given(sn.skipIf) then sn.skipIf else step.skipIf)
  }

  function ExpandSchema(step: Step, stepDeps: seq<string>, schema: seq<SchemaNode>): (out: seq<Node>)
    requires step.PipelineStep?
    ensures |out| == |schema|
    ensures forall i :: 0 <= i < |schema| ==> out[i] == PipelineNode(step, stepDeps, schema[i])
  {
    if schema == [] then []
    else
      ExpandSchema(step, stepDeps, schema[..|schema| - 1])
      + [PipelineNode(step, stepDeps, schema[|schema| - 1])]
  }

  function ExpandStep(leaves: map<string, seq<string>>, step: Step): seq<Node> {
    match step
    case InputStep(id, deps, skipIf) => [Node(id, true, ExpandDeps(leaves, deps), "", false, None, skipIf)]
    case PipelineStep(_, deps, _, schema) => ExpandSchema(step, ExpandDeps(leaves, deps), schema)
    case OtherStep(_) => []
  }

  function ExpandSteps(leaves: map<string, seq<string>>, steps: seq<Step>): seq<Node> {
    if steps == [] then []
    else ExpandSteps(leaves, steps[..|steps| - 1]) + ExpandStep(leaves, steps[|steps| - 1])
  }

  /** The node DAG of a workflow. */
  function Expand(steps: seq<Step>): seq<Node>
    requires NonEmptyPipelines(steps)
  {
    ExpandSteps(StepLeaves(steps), steps)
  }

  lemma LeavesSnoc(steps: seq<Step>, i: nat)
    requires i < |steps| && NonEmptyPipelines(steps)
    ensures NonEmptyPipelines(steps[..i]) && NonEmptyPipelines(steps[..i + 1])
    ensures StepLeaves(steps[..i + 1]) ==
            if steps[i].OtherStep? then StepLeaves(steps[..i])
                else StepLeaves(steps[..i])[steps[i].id := Leaves(steps[i])]
  {
    assert steps[..i + 1][..i] == steps[..i];
  }

  lemma ExpandStepsSnoc(leaves: map<string, seq<string>>, steps: seq<Step>, i: nat)
    requires i < |steps|
    ensures ExpandSteps(leaves, steps[..i + 1]) == ExpandSteps(leaves, steps[..i]) + ExpandStep(leaves, steps[i])
  {
    assert steps[..i + 1][..i] == steps[..i];
  }

  lemma ExpandSchemaSnoc(before: seq<Node>, step: Step, stepDeps: seq<string>, schema: seq<SchemaNode>, k: nat)
    requires step.PipelineStep? && k < |schema|
    ensures before + ExpandSchema(step, stepDeps, schema[..k + 1]) ==
            before + ExpandSchema(step, stepDeps, schema[..k]) + [PipelineNode(step, stepDeps, schema[k])]
  {
    assert schema[..k + 1][..k] == schema[..k];
  }

  /** `_nodes_of`: two passes over the steps, the first collecting each step's leaves, the
      second appending nodes to the result list. */
  method NodesOf(steps: seq<Step>) returns (out: seq<Node>)
    requires NonEmptyPipelines(steps)
    ensures out == Expand(steps)
  {
    var stepLeaves: map<string, seq<string>> := map[];
    for i := 0 to |steps|
      invariant NonEmptyPipelines(steps[..i])
      invariant stepLeaves == StepLeaves(steps[..i])
    {
      LeavesSnoc(steps, i);
      var step := steps[i];
      if !step.OtherStep? {
        stepLeaves := stepLeaves[step.id := Leaves(step)];
      }
    }
    assert steps[..|steps|] == steps;
    out := [];
    for i := 0 to |steps|
      invariant out == ExpandSteps(stepLeaves, steps[..i])
    {
      ExpandStepsSnoc(stepLeaves, steps, i);
      var step := steps[i];
      match step {
        case InputStep(id, deps, skipIf) =>
          out := out + [Node(id, true, ExpandDeps(stepLeaves, deps), "", false, None, skipIf)];
        case PipelineStep(_, deps, _, schema) =>
          var stepDeps := ExpandDeps(stepLeaves, deps);
          var before := out;
          for k := 0 to |schema|
            invariant out == before + ExpandSchema(step, stepDeps, schema[..k])
          {
            ExpandSchemaSnoc(before, step, stepDeps, schema, k);
            out := out + [PipelineNode(step, stepDeps, schema[k])];
          }
          assert schema[..|schema|] == schema;
        case OtherStep(_) =>
      }
    }
  }

  // ---------------------------------------------------------------- well-formed DAGs

  ghost predicate UniqueIds(nodes: seq<Node>) {
    forall i, j :: 0 <= i < j < |nodes| ==> nodes[i].id != nodes[j].id
  }

  function Ids(nodes: seq<Node>): set<string> {
    set n | n in nodes :: n.id
  }

  ghost function DependsOn(nodes: seq<Node>): (string, string) -> bool {
    (x, y) => exists n :: n in nodes && n.id == x && y in n.dependsOn
  }

  /** What the engine takes for granted of a DAG: it has nodes, their ids are distinct, every
      dependency names a node, and no node depends on itself through others. */
  ghost predicate WellFormed(nodes: seq<Node>) {
    && nodes != []
    && UniqueIds(nodes)
    && (forall n, d :: n in nodes && d in n.dependsOn ==> d in Ids(nodes))
    && Acyclic(DependsOn(nodes))
  }

  lemma UniqueById(nodes: seq<Node>, n: Node, m: Node)
    requires UniqueIds(nodes) && n in nodes && m in nodes && n.id == m.id
    ensures n == m
  {
  }

  ghost predicate WellFormedSteps(steps: seq<Step>) {
    && NonEmptyPipelines(steps)
    && (forall i, j :: 0 <= i < j < |steps| ==> steps[i].id != steps[j].id)
    && (forall s :: s in steps && s.PipelineStep? ==> SchemaClosed(s.schema))
    && WellFormed(Expand(steps))
  }

  ghost predicate SchemaClosed(schema: seq<SchemaNode>) {
    forall sn, d :: sn in schema && d in sn.dependsOn ==> exists m :: m in schema && m.id == d
  }

  // ---------------------------------------------------------------- facts about expansion

  function StepNodeIds(step: Step): set<string> {
    match step
    case InputStep(id, _, _) => {id}
    case PipelineStep(id, _, _, schema) => set sn | sn in schema :: Prefixed(id, sn.id)
    case OtherStep(_) => {}
  }

  lemma {:induction false} ExpandStepsContains(leaves: map<string, seq<string>>, steps: seq<Step>, step: Step)
    requires step in steps
    ensures forall n :: n in ExpandStep(leaves, step) ==> n in ExpandSteps(leaves, steps)
  {
    var before := steps[..|steps| - 1];
    if step in before {
      ExpandStepsContains(leaves, before, step);
    } else {
      assert steps == before + [steps[|steps| - 1]];
    }
  }

  lemma {:induction false} StepLeavesAt(steps: seq<Step>, k: nat)
    requires NonEmptyPipelines(steps)
    requires forall i, j :: 0 <= i < j < |steps| ==> steps[i].id != steps[j].id
    requires k < |steps| && !steps[k].OtherStep?
    ensures steps[k].id in StepLeaves(steps) && StepLeaves(steps)[steps[k].id] == Leaves(steps[k])
  {
    if k < |steps| - 1 {
      StepLeavesAt(steps[..|steps| - 1], k);
    }
  }

  /** Every schema node of a pipeline step is in the DAG under its prefixed id. */
  lemma PipelineNodeInDag(steps: seq<Step>, step: Step, sn: SchemaNode) returns (n: Node)
    requires NonEmptyPipelines(steps) && step in steps && step.PipelineStep? && sn in step.schema
    ensures n == PipelineNode(step, ExpandDeps(StepLeaves(steps), step.dependsOn), sn) && n in Expand(steps)
  {
    var leaves := StepLeaves(steps);
    var stepDeps := ExpandDeps(leaves, step.dependsOn);
    n := PipelineNode(step, stepDeps, sn);
    var k :| 0 <= k < |step.schema| && step.schema[k] == sn;
    assert ExpandSchema(step, stepDeps, step.schema)[k] == n;
    ExpandStepsContains(leaves, steps, step);
  }

  // ---------------------------------------------------------------- what expansion means

  /** How many nodes a step contributes, and how many the steps before the `i`-th do. */
  function Size(step: Step): nat {
    match step
    case InputStep(_, _, _) => 1
    case PipelineStep(_, _, _, schema) => |schema|
    case OtherStep(_) => 0
  }

  function Offset(steps: seq<Step>, i: nat): nat
    requires i <= |steps|
  {
    if i == 0 then 0 else Offset(steps, i - 1) + Size(steps[i - 1])
  }

  ghost predicate DependedOn(schema: seq<SchemaNode>, id: string) {
    exists m :: m in schema && id in m.dependsOn
  }

  /** `d` is the node a step ends in: an input step's own, or a schema node no other depends on, or the last
      when every one is depended on. */
  ghost predicate EndsIn(step: Step, d: string) {
    match step
    case InputStep(id, _, _) => d == id
    case PipelineStep(id, _, _, schema) =>
      exists i :: 0 <= i < |schema| && d == id + "/" + schema[i].id && EndsPipeline(schema, i)
    case OtherStep(_) => false
  }

  ghost predicate EndsPipeline(schema: seq<SchemaNode>, i: int)
    requires 0 <= i < |schema|
  {
    || !DependedOn(schema, schema[i].id)
    || (i == |schema| - 1 && forall sn :: sn in schema ==> DependedOn(schema, sn.id))
  }

  /** Step `k` is what `name` refers to: an input or pipeline step, the last of that name. */
  ghost predicate Names(steps: seq<Step>, name: string, k: int) {
    && 0 <= k < |steps| && !steps[k].OtherStep? && steps[k].id == name
    && forall j :: k < j < |steps| && !steps[j].OtherStep? ==> steps[j].id != name
  }

  /** `d` is among what a step-level dependency on `name` stands for. */
  ghost predicate StandsFor(steps: seq<Step>, name: string, d: string) {
    || (exists k :: Names(steps, name, k) && EndsIn(steps[k], d))
    || (d == name && forall k :: !Names(steps, name, k))
  }

  ghost predicate StepDependency(steps: seq<Step>, step: Step, d: string)
    requires !step.OtherStep?
  {
    exists name :: name in step.dependsOn && StandsFor(steps, name, d)
  }

  /** `n` is the `k`-th node of `step`: an input step's own node, or its `k`-th schema node under the
      prefixed id, with that node's module, gpu flag and model, its own skip condition or else the step's,
      and its own dependencies prefixed or, having none, the step's. */
  ghost predicate Describes(steps: seq<Step>, step: Step, k: nat, n: Node)
    requires k < Size(step)
  {
    match step
    case InputStep(id, _, skipIf) =>
      && n.id == id && n.input && n.skipIf == skipIf && n.nodeModule == "" && !n.gpu && n.model == None
      && forall d :: d in n.dependsOn <==> StepDependency(steps, step, d)
    case PipelineStep(id, _, skipIf, schema) =>
      var sn := schema[k];
      && n.id == id + "/" + sn.id && !n.input && n.gpu == sn.gpu && n.model == sn.model
      && (sn.nodeModule != "" ==> n.nodeModule == sn.nodeModule)
      && (sn.nodeModule == "" ==> n.nodeModule == sn.id)
      && (Given(sn.skipIf) ==> n.skipIf == sn.skipIf)
      && (!Given(sn.skipIf) ==> n.skipIf == skipIf)
      && (forall d :: d in n.dependsOn <==>
            || (exists x :: x in sn.dependsOn && d == id + "/" + x)
            || (sn.dependsOn == [] && StepDependency(steps, step, d)))
  }

  lemma {:induction false} LeafIdsMembers(step: string, schema: seq<SchemaNode>, referenced: set<string>, d: string)
    ensures d in LeafIds(step, schema, referenced) <==>
            exists sn :: sn in schema && sn.id !in referenced && d == step + "/" + sn.id
  {
    if schema != [] {
      LeafIdsMembers(step, schema[1..], referenced, d);
      assert schema == [schema[0]] + schema[1..];
    }
  }

  lemma ReferencedMeans(schema: seq<SchemaNode>, id: string)
    ensures id in Referenced(schema) <==> DependedOn(schema, id)
  {
  }

  /** Some schema node is a leaf, or every one is depended on. */
  lemma LeafOrAllDependedOn(step: string, schema: seq<SchemaNode>)
    ensures LeafIds(step, schema, Referenced(schema)) == [] <==> forall sn :: sn in schema ==> DependedOn(schema, sn.id)
  {
    var leaves := LeafIds(step, schema, Referenced(schema));
    if leaves == [] {
      forall sn | sn in schema
        ensures DependedOn(schema, sn.id)
      {
        LeafIdsMembers(step, schema, Referenced(schema), step + "/" + sn.id);
        ReferencedMeans(schema, sn.id);
      }
    } else {
      LeafIdsMembers(step, schema, Referenced(schema), leaves[0]);
      var sn :| sn in schema && sn.id !in Referenced(schema) && leaves[0] == step + "/" + sn.id;
      ReferencedMeans(schema, sn.id);
    }
  }

  lemma LeafEnds(step: Step, d: string)
    requires step.PipelineStep? && d in LeafIds(step.id, step.schema, Referenced(step.schema))
    ensures EndsIn(step, d)
  {
    var schema := step.schema;
    LeafIdsMembers(step.id, schema, Referenced(schema), d);
    var sn :| sn in schema && sn.id !in Referenced(schema) && d == step.id + "/" + sn.id;
    ReferencedMeans(schema, sn.id);
    var i :| 0 <= i < |schema| && schema[i] == sn;
    assert EndsPipeline(schema, i);
  }

  lemma FreeNodeIsLeaf(step: string, schema: seq<SchemaNode>, sn: SchemaNode)
    requires sn in schema && !DependedOn(schema, sn.id)
    ensures step + "/" + sn.id in LeafIds(step, schema, Referenced(schema))
  {
    ReferencedMeans(schema, sn.id);
    LeafIdsMembers(step, schema, Referenced(schema), step + "/" + sn.id);
  }

  lemma EndIsLeaf(step: Step, i: nat)
    requires step.PipelineStep? && i < |step.schema| && EndsPipeline(step.schema, i)
    ensures step.id + "/" + step.schema[i].id in Leaves(step)
  {
    LeafOrAllDependedOn(step.id, step.schema);
    if !DependedOn(step.schema, step.schema[i].id) {
      FreeNodeIsLeaf(step.id, step.schema, step.schema[i]);
    }
  }

  lemma PipelineEnds(step: Step, d: string)
    requires step.PipelineStep? && step.schema != []
    ensures d in Leaves(step) <==> EndsIn(step, d)
  {
    LeafOrAllDependedOn(step.id, step.schema);
    if d in LeafIds(step.id, step.schema, Referenced(step.schema)) {
      LeafEnds(step, d);
    } else if d in Leaves(step) {
      assert EndsPipeline(step.schema, |step.schema| - 1);
    }
    if EndsIn(step, d) {
      var i :| 0 <= i < |step.schema| && d == step.id + "/" + step.schema[i].id && EndsPipeline(step.schema, i);
      EndIsLeaf(step, i);
    }
  }

  lemma EndsAreLeaves(step: Step, d: string)
    requires step.PipelineStep? ==> step.schema != []
    ensures d in Leaves(step) <==> EndsIn(step, d)
  {
    if step.PipelineStep? { PipelineEnds(step, d); }
  }

  lemma NamesShrinks(steps: seq<Step>, name: string, k: int)
    requires steps != [] && (steps[|steps| - 1].OtherStep? || steps[|steps| - 1].id != name)
    ensures Names(steps, name, k) <==> Names(steps[..|steps| - 1], name, k)
  {
    var before := steps[..|steps| - 1];
    if 0 <= k < |before| { assert before[k] == steps[k]; }
    assert forall j :: 0 <= j < |before| ==> before[j] == steps[j];
  }

  lemma {:induction false} NamedLeaves(steps: seq<Step>, name: string, k: int)
    requires NonEmptyPipelines(steps) && Names(steps, name, k)
    ensures name in StepLeaves(steps) && StepLeaves(steps)[name] == Leaves(steps[k])
  {
    if steps[|steps| - 1].OtherStep? || steps[|steps| - 1].id != name {
      NamesShrinks(steps, name, k);
      NamedLeaves(steps[..|steps| - 1], name, k);
    }
  }

  lemma {:induction false} LeavesAreNamed(steps: seq<Step>, name: string) returns (k: int)
    requires NonEmptyPipelines(steps) && name in StepLeaves(steps)
    ensures Names(steps, name, k)
  {
    if steps[|steps| - 1].OtherStep? || steps[|steps| - 1].id != name {
      k := LeavesAreNamed(steps[..|steps| - 1], name);
      NamesShrinks(steps, name, k);
    } else {
      k := |steps| - 1;
    }
  }

  lemma LeavesStandFor(steps: seq<Step>, name: string, d: string)
    requires NonEmptyPipelines(steps)
    ensures StandsFor(steps, name, d) <==>
              if name in StepLeaves(steps) then d in StepLeaves(steps)[name] else d == name
  {
    if name in StepLeaves(steps) {
      var k := LeavesAreNamed(steps, name);
    }
    forall k | Names(steps, name, k)
      ensures name in StepLeaves(steps) && (d in StepLeaves(steps)[name] <==> EndsIn(steps[k], d))
    {
      NamedLeaves(steps, name, k);
      EndsAreLeaves(steps[k], d);
    }
  }

  lemma {:induction false} ExpandDepsMembers(steps: seq<Step>, deps: seq<string>, d: string)
    requires NonEmptyPipelines(steps)
    ensures d in ExpandDeps(StepLeaves(steps), deps) <==> exists name :: name in deps && StandsFor(steps, name, d)
  {
    if deps != [] {
      ExpandDepsMembers(steps, deps[1..], d);
      LeavesStandFor(steps, deps[0], d);
      assert deps == [deps[0]] + deps[1..];
    }
  }

  lemma PrefixAllMembers(step: string, ids: seq<string>, d: string)
    ensures d in PrefixAll(step, ids) <==> exists x :: x in ids && d == step + "/" + x
  {
    if d in PrefixAll(step, ids) {
      var i :| 0 <= i < |ids| && PrefixAll(step, ids)[i] == d;
      assert ids[i] in ids;
    }
    if exists x :: x in ids && d == step + "/" + x {
      var x :| x in ids && d == step + "/" + x;
      var i :| 0 <= i < |ids| && ids[i] == x;
      assert PrefixAll(step, ids)[i] == d;
    }
  }

  lemma StepDepsMean(steps: seq<Step>, step: Step)
    requires NonEmptyPipelines(steps) && !step.OtherStep?
    ensures forall d :: d in ExpandDeps(StepLeaves(steps), step.dependsOn) <==> StepDependency(steps, step, d)
  {
    forall d
      ensures d in ExpandDeps(StepLeaves(steps), step.dependsOn) <==> StepDependency(steps, step, d)
    {
      ExpandDepsMembers(steps, step.dependsOn, d);
    }
  }

  lemma PipelineNodeIsDescribed(steps: seq<Step>, step: Step, k: nat)
    requires NonEmptyPipelines(steps) && step.PipelineStep? && k < |step.schema|
    ensures Describes(steps, step, k, PipelineNode(step, ExpandDeps(StepLeaves(steps), step.dependsOn), step.schema[k]))
  {
    StepDepsMean(steps, step);
    var sn := step.schema[k];
    forall d
      ensures d in PrefixAll(step.id, sn.dependsOn) <==> exists x :: x in sn.dependsOn && d == step.id + "/" + x
    {
      PrefixAllMembers(step.id, sn.dependsOn, d);
    }
  }

  lemma StepIsDescribed(steps: seq<Step>, step: Step, k: nat, n: Node)
    requires NonEmptyPipelines(steps) && k < Size(step) == |ExpandStep(StepLeaves(steps), step)|
    requires n == ExpandStep(StepLeaves(steps), step)[k]
    ensures Describes(steps, step, k, n)
  {
    if step.PipelineStep? {
      PipelineNodeIsDescribed(steps, step, k);
    } else {
      StepDepsMean(steps, step);
    }
  }

  lemma StepSize(leaves: map<string, seq<string>>, step: Step)
    ensures |ExpandStep(leaves, step)| == Size(step)
  {
  }

  lemma {:induction false} ExpandStepsPrefix(leaves: map<string, seq<string>>, steps: seq<Step>, m: nat)
    requires m <= |steps|
    ensures ExpandSteps(leaves, steps[..m]) <= ExpandSteps(leaves, steps)
    decreases |steps| - m
  {
    if m == |steps| {
      assert steps[..m] == steps;
    } else {
      ExpandStepsSnoc(leaves, steps, m);
      ExpandStepsPrefix(leaves, steps, m + 1);
    }
  }

  lemma PrefixIndex<T>(p: seq<T>, q: seq<T>, whole: seq<T>, k: nat)
    requires p + q <= whole && k < |q|
    ensures |p| + k < |whole| && whole[|p| + k] == q[k]
  {
    assert (p + q)[|p| + k] == q[k];
  }

  lemma ExpandStepsAt(leaves: map<string, seq<string>>, steps: seq<Step>, i: nat, k: nat)
    requires i < |steps| && k < |ExpandStep(leaves, steps[i])|
    ensures Offset(steps, i) + k < |ExpandSteps(leaves, steps)|
    ensures ExpandSteps(leaves, steps)[Offset(steps, i) + k] == ExpandStep(leaves, steps[i])[k]
  {
    ExpandStepsSnoc(leaves, steps, i);
    ExpandStepsPrefix(leaves, steps, i + 1);
    ExpandStepsLength(leaves, steps[..i]);
    OffsetOfPrefix(steps, i, i);
    PrefixIndex(ExpandSteps(leaves, steps[..i]), ExpandStep(leaves, steps[i]), ExpandSteps(leaves, steps), k);
  }

  lemma {:induction false} OffsetOfPrefix(steps: seq<Step>, m: nat, i: nat)
    requires i <= m <= |steps|
    ensures Offset(steps[..m], i) == Offset(steps, i)
  {
    if i > 0 { OffsetOfPrefix(steps, m, i - 1); }
  }

  lemma {:induction false} ExpandStepsLength(leaves: map<string, seq<string>>, steps: seq<Step>)
    ensures |ExpandSteps(leaves, steps)| == Offset(steps, |steps|)
  {
    if steps != [] {
      ExpandStepsLength(leaves, steps[..|steps| - 1]);
      StepSize(leaves, steps[|steps| - 1]);
      OffsetOfPrefix(steps, |steps| - 1, |steps| - 1);
    }
  }

  /** The DAG has as many nodes as the steps contribute. */
  lemma ExpandedLength(steps: seq<Step>)
    requires NonEmptyPipelines(steps)
    ensures |Expand(steps)| == Offset(steps, |steps|)
  {
    ExpandStepsLength(StepLeaves(steps), steps);
  }

  /** And they are, in order, one per input step and one per schema node of each pipeline step, each as its
      step and schema describe it. */
  lemma ExpandedNode(steps: seq<Step>, i: nat, k: nat) returns (n: Node)
    requires NonEmptyPipelines(steps) && i < |steps| && k < Size(steps[i])
    ensures Offset(steps, i) + k < |Expand(steps)| && n == Expand(steps)[Offset(steps, i) + k]
    ensures Describes(steps, steps[i], k, n)
  {
    StepSize(StepLeaves(steps), steps[i]);
    n := ExpandStep(StepLeaves(steps), steps[i])[k];
    ExpandStepsAt(StepLeaves(steps), steps, i, k);
    StepIsDescribed(steps, steps[i], k, n);
  }

  // ---------------------------------------------------------------- step gating

  /** `has`: the nodes that have a row; `done`: those whose row is completed or skipped. */
  ghost predicate GatedBy(nodes: seq<Node>, has: set<string>, done: set<string>) {
    && done <= has
    && forall n, d :: n in nodes && n.id in has && d in n.dependsOn ==> d in done
  }

  /** A started node of a pipeline that has schema dependencies has a started dependency in the
      same pipeline. */
  lemma StartedNodeHasStartedDep(steps: seq<Step>, b: Step, sn: SchemaNode, has: set<string>, done: set<string>)
    requires WellFormedSteps(steps) && GatedBy(Expand(steps), has, done)
    requires b in steps && b.PipelineStep? && sn in b.schema && sn.dependsOn != []
    requires Prefixed(b.id, sn.id) in has
    ensures HasSuccessorIn(DependsOn(Expand(steps)), StepNodeIds(b) * has, Prefixed(b.id, sn.id))
  {
    var n := PipelineNodeInDag(steps, b, sn);
    var d := sn.dependsOn[0];
    assert n.dependsOn[0] == Prefixed(b.id, d);
    assert SchemaClosed(b.schema) && d in sn.dependsOn;
    var m :| m in b.schema && m.id == d;
    assert Prefixed(b.id, d) in StepNodeIds(b) * has;
    assert DependsOn(Expand(steps))(n.id, Prefixed(b.id, d));
  }

  /** The sources of a started step waited for the leaves of every step it depends on. */
  lemma StartedStepWaited(steps: seq<Step>, a: Step, b: Step, has: set<string>, done: set<string>, id: string)
    requires WellFormedSteps(steps)
    requires a in steps && b in steps && !a.OtherStep? && !b.OtherStep? && a.id in b.dependsOn
    requires GatedBy(Expand(steps), has, done)
    requires id in StepNodeIds(b) && id in has
    ensures forall l :: l in Leaves(a) ==> l in done
  {
    var nodes, leaves := Expand(steps), StepLeaves(steps);
    var k :| 0 <= k < |steps| && steps[k] == a;
    StepLeavesAt(steps, k);
    if b.InputStep? {
      var n := ExpandStep(leaves, b)[0];
      ExpandStepsContains(leaves, steps, b);
      assert n in nodes && n.id == id;
    } else {
      assert id in StepNodeIds(b) * has;
      var v := SinkExists(DependsOn(nodes), StepNodeIds(b) * has);
      var sn :| sn in b.schema && v == Prefixed(b.id, sn.id);
      if sn.dependsOn != [] {
        StartedNodeHasStartedDep(steps, b, sn, has, done);
        assert false;
      }
      var n := PipelineNodeInDag(steps, b, sn);
    }
  }

  /** An unfinished node of a step whose leaves are done has an unfinished dependent in it. */
  lemma OpenNodeHasOpenDependent(steps: seq<Step>, a: Step, sn: SchemaNode, has: set<string>, done: set<string>)
    requires WellFormedSteps(steps) && GatedBy(Expand(steps), has, done)
    requires a in steps && a.PipelineStep? && sn in a.schema
    requires forall l :: l in Leaves(a) ==> l in done
    requires Prefixed(a.id, sn.id) !in done
    ensures HasSuccessorIn(Reverse(DependsOn(Expand(steps))), StepNodeIds(a) - done, Prefixed(a.id, sn.id))
  {
    var u := Prefixed(a.id, sn.id);
    assert sn.id in Referenced(a.schema);
    var m :| m in a.schema && sn.id in m.dependsOn;
    var n := PipelineNodeInDag(steps, a, m);
    var k :| 0 <= k < |m.dependsOn| && m.dependsOn[k] == sn.id;
    assert n.dependsOn[k] == u;
    assert DependsOn(Expand(steps))(n.id, u);
    assert n.id in StepNodeIds(a) - done;
  }

  /** If every leaf of a step is done, every node of it is: an unfinished node would have an
      unfinished dependent, and in an acyclic pipeline that cannot go on. */
  lemma LeavesDoneMeansStepDone(steps: seq<Step>, a: Step, has: set<string>, done: set<string>)
    requires WellFormedSteps(steps)
    requires a in steps && !a.OtherStep?
    requires GatedBy(Expand(steps), has, done)
    requires forall l :: l in Leaves(a) ==> l in done
    ensures StepNodeIds(a) <= done
  {
    var open := StepNodeIds(a) - done;
    if a.InputStep? {
      assert a.id in Leaves(a);
    } else if open != {} {
      ReverseAcyclic(DependsOn(Expand(steps)));
      var u := SinkExists(Reverse(DependsOn(Expand(steps))), open);
      var sn :| sn in a.schema && u == Prefixed(a.id, sn.id);
      OpenNodeHasOpenDependent(steps, a, sn, has, done);
      assert false;
    } else {
      assert forall id :: id in StepNodeIds(a) && id !in done ==> id in open;
    }
  }

  /** Step gating: once any node of step `b` has a row, every node of every step `b` depends
      on, and not only its leaves, is completed or skipped. */
  lemma StepGating(steps: seq<Step>, a: Step, b: Step, has: set<string>, done: set<string>, id: string)
    requires WellFormedSteps(steps)
    requires a in steps && b in steps && !a.OtherStep? && !b.OtherStep? && a.id in b.dependsOn
    requires GatedBy(Expand(steps), has, done)
    requires id in StepNodeIds(b) && id in has
    ensures StepNodeIds(a) <= done
  {
    StartedStepWaited(steps, a, b, has, done, id);
    LeavesDoneMeansStepDone(steps, a, has, done);
  }
}
