/** `WorkflowAgent`: an in-memory registry from workflow names to the
    natural-language condition each workflow checks, filled by a naive parser
    of "create a workflow called <name> <prompt>" commands. */
module Workflow {
  import opened Wrappers
  import opened Text

  /** The cue the lower-cased command must contain. */
  const CreateCue := "create a workflow called"
  /** The word the command is split on; unlike the cue, case-sensitive. */
  const Called := "called"
  const NoPrompt := "No prompt found."
  const NotFound := "Workflow not found."
  const BadRequest := "Could not parse workflow creation request."
  const BadName := "Could not parse name."

  /** What `parse_workflow_creation` makes of a command: a name and its
      prompt, or the message it returns instead of a name. */
  datatype Parsed = Created(name: string, prompt: string) | Rejected(message: string)

  /** The parse: the text between the first and second "called", stripped;
      the name runs up to its first space and the prompt is the stripped
      remainder. */
  function ParseCreation(text: string): (r: Parsed)
    ensures r.Rejected? ==> r.message in {BadRequest, BadName}
    ensures r.Rejected? <==> !Contains(Lower(text), CreateCue) || !Contains(text, Called)
  {
    if !Contains(Lower(text), CreateCue) then Rejected(BadRequest)
    else
      var parts := Split(text, Called);
      if |parts| < 2 then Rejected(BadName)
      else
        Cut(Strip(parts[1]))
  }

  /** The name runs up to the first space of `after`, the prompt is what
      follows, stripped. */
  function Cut(after: string): Parsed
  {
    match Find(after, " ")
    case None => Created(after, NoPrompt)
    case Some(k) => Created(after[..k], Strip(after[k..]))
  }

  /** The message returned with a created name. */
  function CreatedMessage(name: string): string
  {
    "Workflow '" + name + "' created successfully!"
  }

  /** A name never holds the character ' ' (it may hold other whitespace,
      such as a tab, since the cut is at the first ' ' only). */
  lemma NameHasNoBlank(text: string)
    ensures ParseCreation(text).Created? ==>
      forall i | 0 <= i < |ParseCreation(text).name| :: ParseCreation(text).name[i] != ' '
  {
    if ParseCreation(text).Created? {
      CutHasNoBlank(Strip(Split(text, Called)[1]));
    }
  }

  lemma CutHasNoBlank(after: string)
    ensures forall i | 0 <= i < |Cut(after).name| :: Cut(after).name[i] != ' '
  {
    var n := Cut(after).name;
    forall i | 0 <= i < |n| ensures n[i] != ' ' {
      assert n[i] == after[i];
      if after[i] == ' ' {
        assert after[i..i + 1] == " ";
        assert OccursAt(after, " ", i);
      }
    }
  }

  /** The command the parser is meant for. */
  function CreationCommand(name: string, prompt: string): string
  {
    CommandHead + (" " + (name + " " + prompt))
  }

  const CommandHead := "Create a workflow called"

  /** Parsing undoes `CreationCommand` for a non-empty name without
      whitespace and a non-empty prompt with no surrounding whitespace, as
      long as neither holds the word "called". */
  lemma ParseCreationCommand(name: string, prompt: string)
    requires name != [] && forall i | 0 <= i < |name| :: !IsSpace(name[i])
    requires prompt != [] && Strip(prompt) == prompt
    requires !Contains(" " + (name + " " + prompt), Called)
    ensures ParseCreation(CreationCommand(name, prompt)) == Created(name, prompt)
  {
    var tail := " " + (name + " " + prompt);
    var cmd := CreationCommand(name, prompt);
    CueFound(tail);
    SplitCommand(tail);
    var after := name + " " + prompt;
    TailStripped(name, prompt);
    CutCommand(name, prompt);
    assert Split(cmd, Called)[1] == tail;
    assert ParseCreation(cmd) == Cut(Strip(tail));
  }

  lemma TailStripped(name: string, prompt: string)
    requires name != [] && !IsSpace(name[0])
    requires prompt != [] && Strip(prompt) == prompt
    ensures Strip(" " + (name + " " + prompt)) == name + " " + prompt
  {
    var after := name + " " + prompt;
    AfterStripped(name, prompt);
    StripLeadingBlank(after);
  }

  lemma AfterStripped(name: string, prompt: string)
    requires name != [] && !IsSpace(name[0])
    requires prompt != [] && Strip(prompt) == prompt
    ensures Strip(name + " " + prompt) == name + " " + prompt
  {
    var after := name + " " + prompt;
    StrippedEnds(prompt, Whitespace);
    assert after[0] == name[0];
    assert after[|after| - 1] == prompt[|prompt| - 1];
    StripCharsKeeps(after, Whitespace);
  }

  lemma SplitCommand(tail: string)
    requires !Contains(tail, Called)
    ensures Split(CommandHead + tail, Called) == ["Create a workflow "] + [tail]
  {
    var cmd := CommandHead + tail;
    CalledFound(tail);
    assert cmd[18 + |Called|..] == tail;
    assert cmd[..18] == "Create a workflow ";
  }

  lemma CutCommand(name: string, prompt: string)
    requires forall i | 0 <= i < |name| :: !IsSpace(name[i])
    requires Strip(prompt) == prompt
    ensures Cut(name + " " + prompt) == Created(name, prompt)
  {
    var after := name + " " + prompt;
    FirstBlank(name, prompt);
    assert after[..|name|] == name;
    assert after[|name|..] == " " + prompt;
    StripLeadingBlank(prompt);
  }

  lemma FirstBlank(name: string, prompt: string)
    requires forall i | 0 <= i < |name| :: !IsSpace(name[i])
    ensures Find(name + " " + prompt, " ") == Some(|name|)
  {
    var after := name + " " + prompt;
    assert OccursAt(after, " ", |name|) by {
      assert after[|name|..|name| + 1] == " ";
    }
    forall j | 0 <= j < |name| ensures !OccursAt(after, " ", j) {
      assert after[j] == name[j];
    }
    FindIs(after, " ", |name|);
  }

  lemma StripLeadingBlank(s: string)
    requires Strip(s) == s
    ensures Strip(" " + s) == s
  {
    assert AllIn(" ", Whitespace);
    StripCharsLead(" ", s, Whitespace);
  }

  /** A command that ends right after "called" (give or take whitespace)
      creates a workflow with the empty name and no prompt. */
  lemma EmptyName(tail: string)
    requires AllIn(tail, Whitespace)
    ensures ParseCreation(CommandHead + tail) == Created("", NoPrompt)
  {
    CueFound(tail);
    BlankHasNoCalled(tail);
    SplitCommand(tail);
    BlankStrips(tail);
    assert Find("", " ") == None;
  }

  lemma BlankHasNoCalled(tail: string)
    requires AllIn(tail, Whitespace)
    ensures !Contains(tail, Called)
  {
    forall j ensures !OccursAt(tail, Called, j) {
      if 0 <= j && j + |Called| <= |tail| {
        assert tail[j..j + |Called|][0] == tail[j] != 'c';
      }
    }
  }

  lemma BlankStrips(tail: string)
    requires AllIn(tail, Whitespace)
    ensures Strip(tail) == ""
  {
    LStripAll(tail, Whitespace);
  }

  lemma CueFound(tail: string)
    ensures Contains(Lower(CommandHead + tail), CreateCue)
  {
    var cmd := CommandHead + tail;
    assert Lower(cmd)[..24] == CreateCue;
    assert OccursAt(Lower(cmd), CreateCue, 0);
  }

  lemma CalledFound(tail: string)
    ensures Find(CommandHead + tail, Called) == Some(18)
  {
    var cmd := CommandHead + tail;
    assert OccursAt(cmd, Called, 18) by {
      assert cmd[18..24] == Called;
    }
    forall j | 0 <= j < 18 ensures !OccursAt(cmd, Called, j) {
      assert cmd[j] != 'c';
    }
    FindIs(cmd, Called, 18);
  }

  /** The cue is matched on the lower-cased text but the split is not: a
      command spelling the word "CALLED" or "Called" gets past the cue and
      is then refused for want of a name. */
  lemma CaseSensitiveSplit(text: string)
    requires Contains(Lower(text), CreateCue) && !Contains(text, Called)
    ensures ParseCreation(text) == Rejected(BadName)
  {
  }

  class WorkflowAgent {
    /** Workflow name to its natural-language prompt. */
    var workflows: map<string, string>

    constructor()
      ensures workflows == map[]
    {
      workflows := map[];
    }

    /** `parse_workflow_creation`: a parsed command stores (or overwrites)
        its workflow; a refused one changes nothing. */
    method ParseWorkflowCreation(userText: string) returns (name: Option<string>, message: string)
      modifies this
      ensures match ParseCreation(userText)
        case Created(n, p) =>
          && name == Some(n) && message == CreatedMessage(n)
          && workflows == old(workflows)[n := p]
          && GetPrompt(n) == p
        case Rejected(m) =>
          name == None && message == m && workflows == old(workflows)
    {
      var parsed := ParseCreation(userText);
      match parsed
      case Rejected(m) =>
        name, message := None, m;
      case Created(n, p) =>
        workflows := workflows[n := p];
        name, message := Some(n), CreatedMessage(n);
    }

    /** `get_prompt`: the stored prompt, or "Workflow not found.". */
    function GetPrompt(workflowName: string): (r: string)
      reads this
      ensures workflowName in workflows ==> r == workflows[workflowName]
      ensures workflowName !in workflows ==> r == NotFound
    {
      if workflowName in workflows then workflows[workflowName] else NotFound
    }

    /** `notify_user`: only formats a string; it reads and changes no state. */
    function NotifyUser(workflowName: string, message: string): (r: string)
      ensures StartsWith(r, "Notification for workflow '" + workflowName + "': ")
      ensures EndsWith(r, message)
    {
      "Notification for workflow '" + workflowName + "': " + message
    }
  }
}
