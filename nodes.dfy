/** The controller graph's nodes: intent parsing of the user's request and
    the decision logic of running a stored workflow. The tools the nodes
    call (workflow store, SQL agent, controller model, notifier) are
    parameters. */
module Nodes {
  import opened Wrappers
  import opened Text

  /** The values the controller state's `intent` field may hold. */
  datatype Intent = CreateWorkflow | RunWorkflow | RegularSql | RegularKg | Unknown

  /** The string the source stores for each intent. */
  function IntentName(i: Intent): string
  {
    match i
    case CreateWorkflow => "create_workflow"
    case RunWorkflow => "run_workflow"
    case RegularSql => "regular_sql"
    case RegularKg => "regular_kg"
    case Unknown => "unknown"
  }

  /** The state update `parse_intent` returns: the intent, and for
      `run_workflow` also `workflow_name`. */
  datatype Update = Update(intent: Intent, workflowName: Option<string>)

  const CreateCue := "create a workflow"
  const RunCue := "run workflow"
  const WorkflowWord := "workflow"

  /** The text after the last "workflow" of `text`. */
  function AfterLastWorkflow(text: string): string
  {
    var parts := Split(text, WorkflowWord);
    parts[|parts| - 1]
  }

  /** `parse_intent`: cues are looked for in the lower-cased input, in the
      order create, run, knowledge graph; the run name is the first token
      after the last "workflow", and its absence raises IndexError. */
  function ParseIntent(userInput: string): (r: Result<Update>)
    ensures r.Err? ==> r.error == IndexError
    ensures r.Ok? ==> r.value.intent != Unknown
    ensures r.Ok? ==> (r.value.workflowName.Some? <==> r.value.intent == RunWorkflow)
    ensures Contains(Lower(userInput), CreateCue) ==> r == Ok(Update(CreateWorkflow, None))
    ensures !Contains(Lower(userInput), CreateCue) && !Contains(Lower(userInput), RunCue) ==>
      r == Ok(Update(
        if Contains(Lower(userInput), "knowledge graph") || Contains(Lower(userInput), "kg")
        then RegularKg else RegularSql, None))
  {
    var text := Lower(userInput);
    if Contains(text, CreateCue) then Ok(Update(CreateWorkflow, None))
    else if Contains(text, RunCue) then RunIntent(AfterLastWorkflow(text))
    else if Contains(text, "knowledge graph") || Contains(text, "kg") then Ok(Update(RegularKg, None))
    else Ok(Update(RegularSql, None))
  }

  /** The run branch, given the text after the last "workflow". */
  function RunIntent(after: string): Result<Update>
  {
    match FirstToken(Strip(after))
    case None => Err(IndexError)
    case Some(name) => Ok(Update(RunWorkflow, Some(name)))
  }

  /** A run request fails with IndexError exactly when only whitespace
      follows the last "workflow"; otherwise the name is the first token of
      that text: non-empty, without whitespace, at the start of the stripped
      text and followed there by whitespace or by its end. */
  lemma RunName(userInput: string)
    requires !Contains(Lower(userInput), CreateCue) && Contains(Lower(userInput), RunCue)
    ensures var after := AfterLastWorkflow(Lower(userInput));
      && (ParseIntent(userInput).Err? <==> AllIn(after, Whitespace))
      && (ParseIntent(userInput).Ok? ==>
            var name := ParseIntent(userInput).value.workflowName.value;
            && ParseIntent(userInput).value.intent == RunWorkflow
            && name != []
            && (forall i | 0 <= i < |name| :: !IsSpace(name[i]))
            && name <= Strip(after)
            && (|name| < |Strip(after)| ==> IsSpace(Strip(after)[|name|]))
            && Contains(after, name))
  {
    var after := AfterLastWorkflow(Lower(userInput));
    assert ParseIntent(userInput) == RunIntent(after);
    RunIntentName(after);
  }

  lemma RunIntentName(after: string)
    ensures (RunIntent(after).Err? <==> AllIn(after, Whitespace))
    ensures RunIntent(after).Ok? ==>
      var name := RunIntent(after).value.workflowName.value;
      && RunIntent(after).value.intent == RunWorkflow
      && name != []
      && (forall i | 0 <= i < |name| :: !IsSpace(name[i]))
      && name <= Strip(after)
      && (|name| < |Strip(after)| ==> IsSpace(Strip(after)[|name|]))
      && Contains(after, name)
  {
    var t := Strip(after);
    StripEmpty(after);
    if t != [] {
      assert !IsSpace(t[0]);
      assert LStrip(t, Whitespace) == t;
    }
    if FirstToken(t).Some? {
      TokenInside(after);
    }
  }

  lemma TokenInside(after: string)
    requires FirstToken(Strip(after)).Some?
    ensures Contains(after, FirstToken(Strip(after)).value)
  {
    var t := Strip(after);
    var l := LStrip(t, Whitespace);
    var name := TakeUntilSpace(l);
    var k := StripInside(after);
    var j := LStripInside(t, Whitespace);
    assert OccursAt(l, name, 0) by {
      assert l[0..|name|] == name;
    }
    OccursWithin(t, l, name, j, 0);
    OccursWithin(after, t, name, k, j);
    ContainsAt(after, name, k + j);
  }

  /** `lstrip` returns a suffix of its input. */
  lemma LStripInside(s: string, cs: set<char>) returns (j: nat)
    ensures OccursAt(s, LStrip(s, cs), j)
  {
    var l := LStrip(s, cs);
    j := |s| - |l|;
    assert s[j..j + |l|] == l;
  }

  /** `strip` returns a slice of its input. */
  lemma StripInside(s: string) returns (k: nat)
    ensures OccursAt(s, Strip(s), k)
  {
    k := StripCharsOccurs(s, Whitespace);
  }

  /** No upper-case ASCII letter occurs in `s`. */
  predicate NoUpper(s: string)
  {
    forall i | 0 <= i < |s| :: !IsUpper(s[i])
  }

  lemma LowerHasNoUpper(s: string)
    ensures NoUpper(Lower(s))
  {
  }

  lemma {:induction false} SplitNoUpper(s: string, sep: string)
    requires sep != [] && NoUpper(s)
    ensures forall k | 0 <= k < |Split(s, sep)| :: NoUpper(Split(s, sep)[k])
    decreases |s|
  {
    match Find(s, sep)
    case None =>
    case Some(i) =>
      var rest := s[i + |sep|..];
      SplitNoUpper(rest, sep);
      assert Split(s, sep) == [s[..i]] + Split(rest, sep);
      forall k | 0 <= k < |Split(s, sep)| ensures NoUpper(Split(s, sep)[k]) {
        if k == 0 {
          assert Split(s, sep)[0] == s[..i];
        } else {
          assert Split(s, sep)[k] == Split(rest, sep)[k - 1];
        }
      }
  }

  /** A parsed workflow name is always lower-case, since it is cut from the
      lower-cased input. */
  lemma RunNameIsLower(userInput: string)
    requires ParseIntent(userInput).Ok? && ParseIntent(userInput).value.intent == RunWorkflow
    ensures NoUpper(ParseIntent(userInput).value.workflowName.value)
  {
    var text := Lower(userInput);
    var after := AfterLastWorkflow(text);
    assert ParseIntent(userInput) == RunIntent(after);
    RunIntentName(after);
    LowerHasNoUpper(userInput);
    AfterLastNoUpper(text);
    ContainedNoUpper(after, RunIntent(after).value.workflowName.value);
  }

  lemma AfterLastNoUpper(text: string)
    requires NoUpper(text)
    ensures NoUpper(AfterLastWorkflow(text))
  {
    SplitNoUpper(text, WorkflowWord);
  }

  lemma ContainedNoUpper(a: string, c: string)
    requires NoUpper(a) && Contains(a, c)
    ensures NoUpper(c)
  {
    var j := Find(a, c).value;
    forall i | 0 <= i < |c| ensures !IsUpper(c[i]) {
      assert c[i] == a[j..j + |c|][i] == a[j + i];
    }
  }

  // ---------------------------------------------------------------------------
  // run_workflow_node

  const DefaultWorkflow := "low_quantity_check"
  const NotFound := "Workflow not found."
  const NotifyCue := "NOTIFY"

  /** What the SQL agent tool hands back: a dict (with or without an
      "output" entry) or any other value, which the node turns into a
      string with `str`. */
  datatype SqlResponse = Dict(output: Option<string>) | Other(shown: string)

  /** The tools the node is given, as functions. The notifier receives the
      workflow name and the message. */
  datatype Tools = Tools(
    prompt: string -> string,
    sql: string -> SqlResponse,
    controller: string -> string,
    notify: (string, string) -> string)

  function ResponseContent(r: SqlResponse): string
  {
    match r
    case Dict(output) => if output.Some? then output.value else ""
    case Other(shown) => shown
  }

  /** The question put to the controller tool. */
  function DecisionPrompt(response: string, prompt: string): string
  {
    DecisionIntro + response + DecisionMiddle + prompt + DecisionQuestion
  }

  const DecisionIntro := "\n    The following response was received from the SQL query:\n    "
  const DecisionMiddle := "\n\n    The workflow condition is as follows:\n    "
  const DecisionQuestion :=
    "\n\n    Does this response indicate a failure of the condition? Respond with:\n" +
    "    - NOTIFY: If it indicates a failure.\n    - NO: If the workflow condition is satisfied.\n    "

  function FailedMessage(name: string, decision: string, notification: string): string
  {
    "Workflow '" + name + "' condition failed!\nDetails:\n" + decision + "\nNotification:\n" + notification
  }

  function SucceededMessage(name: string, decision: string): string
  {
    "Workflow '" + name + "' executed successfully.\nDetails:\n" + decision
  }

  /** `run_workflow_node`: the `final_result` it returns. */
  function RunWorkflowNode(workflowName: Option<string>, tools: Tools): (r: string)
  {
    RunNamed(if workflowName.Some? then workflowName.value else DefaultWorkflow, tools)
  }

  /** The node once the workflow name is settled. */
  function RunNamed(name: string, tools: Tools): string
  {
    var prompt := tools.prompt(name);
    if prompt == NotFound then NotFound
    else
      var content := ResponseContent(tools.sql(prompt));
      var decision := tools.controller(DecisionPrompt(content, prompt));
      if Contains(decision, NotifyCue) then FailedMessage(name, decision, tools.notify(name, content))
      else SucceededMessage(name, decision)
  }

  /** A state without `workflow_name` runs "low_quantity_check". */
  lemma DefaultName(tools: Tools)
    ensures RunWorkflowNode(None, tools) == RunWorkflowNode(Some(DefaultWorkflow), tools)
  {
  }

  /** An unknown workflow answers "Workflow not found." whatever the SQL,
      controller and notification tools would have done: none of them is
      consulted. */
  lemma NotFoundSkipsTools(workflowName: Option<string>, tools: Tools, other: Tools)
    requires other.prompt == tools.prompt
    requires tools.prompt(if workflowName.Some? then workflowName.value else DefaultWorkflow) == NotFound
    ensures RunWorkflowNode(workflowName, tools) == NotFound
    ensures RunWorkflowNode(workflowName, other) == NotFound
  {
  }

  /** A decision containing "NOTIFY" reports the failure and carries the
      notification; any other decision reports success without notifying. */
  lemma DecisionBranches(name: string, tools: Tools)
    requires tools.prompt(name) != NotFound
    ensures var content := ResponseContent(tools.sql(tools.prompt(name)));
      var decision := tools.controller(DecisionPrompt(content, tools.prompt(name)));
      var r := RunWorkflowNode(Some(name), tools);
      && (Contains(decision, NotifyCue) ==>
            && StartsWith(r, "Workflow '" + name + "' condition failed!")
            && EndsWith(r, tools.notify(name, content)))
      && (!Contains(decision, NotifyCue) ==>
            && StartsWith(r, "Workflow '" + name + "' executed successfully.")
            && EndsWith(r, decision)
            && forall n :: RunWorkflowNode(Some(name), tools.(notify := n)) == r)
  {
    var content := ResponseContent(tools.sql(tools.prompt(name)));
    var decision := tools.controller(DecisionPrompt(content, tools.prompt(name)));
    FailedMessageShape(name, decision, tools.notify(name, content));
    SucceededMessageShape(name, decision);
    if !Contains(decision, NotifyCue) {
      forall n
        ensures RunWorkflowNode(Some(name), tools.(notify := n)) == RunWorkflowNode(Some(name), tools)
      {
        NotifyUnused(name, tools, n);
      }
    }
  }

  /** When the decision does not ask for a notification, the notifier is
      never consulted. */
  lemma NotifyUnused(name: string, tools: Tools, n: (string, string) -> string)
    requires tools.prompt(name) != NotFound
    requires !Contains(tools.controller(DecisionPrompt(ResponseContent(tools.sql(tools.prompt(name))), tools.prompt(name))), NotifyCue)
    ensures RunNamed(name, tools.(notify := n)) == RunNamed(name, tools)
  {
    var t := tools.(notify := n);
    assert t.prompt == tools.prompt && t.sql == tools.sql && t.controller == tools.controller;
  }

  lemma FailedMessageShape(name: string, decision: string, notification: string)
    ensures StartsWith(FailedMessage(name, decision, notification), "Workflow '" + name + "' condition failed!")
    ensures EndsWith(FailedMessage(name, decision, notification), notification)
  {
    var head := "Workflow '" + name + "' condition failed!";
    var f := FailedMessage(name, decision, notification);
    assert f == head + ("\nDetails:\n" + decision + "\nNotification:\n") + notification;
    assert f[..|head|] == head;
  }

  lemma SucceededMessageShape(name: string, decision: string)
    ensures StartsWith(SucceededMessage(name, decision), "Workflow '" + name + "' executed successfully.")
    ensures EndsWith(SucceededMessage(name, decision), decision)
  {
    var ok := "Workflow '" + name + "' executed successfully.";
    var s := SucceededMessage(name, decision);
    assert s == ok + "\nDetails:\n" + decision;
    assert s[..|ok|] == ok;
  }
}
