/** The controller graph's routing: which node runs after intent parsing. */
module Controller {
  import opened Wrappers
  import opened Text
  import opened Nodes
  import Workflow

  const CreateWorkflowNode := "create_workflow_node"
  const RunWorkflowNode := "run_workflow_node"
  const SqlNode := "sql_node"
  const KgNode := "kg_node"

  /** `pick_next_node`: a lookup in the four-entry routing table, with
      "sql_node" for any other intent string. */
  function PickNextNode(intent: string): (r: string)
    ensures r in {CreateWorkflowNode, RunWorkflowNode, SqlNode, KgNode}
    ensures intent !in {"create_workflow", "run_workflow", "regular_sql", "regular_kg"} ==> r == SqlNode
  {
    var routes := map[
      "create_workflow" := CreateWorkflowNode,
      "run_workflow" := RunWorkflowNode,
      "regular_sql" := SqlNode,
      "regular_kg" := KgNode];
    if intent in routes then routes[intent] else SqlNode
  }

  /** The node each intent is meant to reach. */
  function NodeFor(i: Intent): string
  {
    match i
    case CreateWorkflow => CreateWorkflowNode
    case RunWorkflow => RunWorkflowNode
    case RegularKg => KgNode
    case RegularSql => SqlNode
    case Unknown => SqlNode
  }

  /** Routing agrees with `NodeFor` on every intent the state can hold,
      "unknown" included. */
  lemma RoutesAsMeant(i: Intent)
    ensures PickNextNode(IntentName(i)) == NodeFor(i)
  {
  }

  /** A request the parser accepts reaches the node of its intent; a
      request containing "create a workflow" always reaches workflow
      creation. */
  lemma ParsedRequestRoute(userInput: string)
    requires ParseIntent(userInput).Ok?
    ensures PickNextNode(IntentName(ParseIntent(userInput).value.intent)) ==
      NodeFor(ParseIntent(userInput).value.intent)
    ensures Contains(Lower(userInput), CreateCue) ==>
      PickNextNode(IntentName(ParseIntent(userInput).value.intent)) == CreateWorkflowNode
  {
    RoutesAsMeant(ParseIntent(userInput).value.intent);
  }

  /** Workflow names are stored with the case they were typed in, but a run
      request lower-cases the input before cutting the name out: a workflow
      whose name holds an upper-case letter is never the one a run request
      names. */
  lemma MixedCaseNeverRun(command: string, userInput: string)
    requires Workflow.ParseCreation(command).Created?
    requires !NoUpper(Workflow.ParseCreation(command).name)
    requires ParseIntent(userInput).Ok? && ParseIntent(userInput).value.intent == RunWorkflow
    ensures ParseIntent(userInput).value.workflowName.value != Workflow.ParseCreation(command).name
  {
    RunNameIsLower(userInput);
  }
}
