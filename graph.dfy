/** The agent's control loop (agent/graph.py): the system-prompt seeding
    node, the router, and the agent -> tools -> agent cycle that runs until
    the model answers without tool calls. The chat model and the tool
    executor are oracles: functions on the message list. */
module Graph {
  import opened Wrappers

  datatype Role = System | Human | Assistant | ToolResult

  /** One tool call the model requests. */
  datatype ToolCall = ToolCall(name: string, arguments: string, id: string)

  /** A chat message; `toolCalls` is `None` when the message has no
      `tool_calls` attribute or it is `None`. */
  datatype Message = Message(role: Role, content: string, toolCalls: Option<seq<ToolCall>>)

  /** `getattr(m, "tool_calls", None)` is truthy: present and non-empty. */
  predicate HasToolCalls(m: Message) {
    m.toolCalls.Some? && m.toolCalls.value != []
  }

  const SystemPrompt: string := @"You are Data Insight, an autonomous data analysis assistant.
You MUST use tools when needed:
- Use search_eda_kb to retrieve grounded EDA guidance (workflow, missing values, outliers, correlation, visualization).
- Use create_eda_plan when user provides dataset columns and a goal and needs a structured EDA plan.

Follow a ReAct style:
Think -> decide tool -> use tool -> observe -> final answer.
If you have enough info, provide a final answer."

  const SystemMessage: Message := Message(System, SystemPrompt, None)

  /** The chat model bound to the tools: a reply to a message list. */
  type Model = seq<Message> -> Message

  /** The tool node: the message list it leaves after executing the
      requested calls (whether it appends or replaces is not modelled). */
  type ToolExecutor = seq<Message> -> seq<Message>

  /** The list `agent_node` sends to the model: the system prompt is put in
      front exactly when the list is empty or does not start with a system
      message; otherwise the list is left as it is. */
  function Seed(messages: seq<Message>): (r: seq<Message>)
    ensures r == messages <==> (messages != [] && messages[0].role == System)
    ensures r != messages ==> r == [SystemMessage] + messages
    ensures |r| > 0 && r[0].role == System
  {
    if messages == [] || messages[0].role != System then [SystemMessage] + messages else messages
  }

  /** `agent_node`: the seeded list followed by exactly one model reply to it. */
  function AgentNode(messages: seq<Message>, llm: Model): (r: seq<Message>)
    ensures |r| == |messages| + 1 || |r| == |messages| + 2
    ensures r[..|r| - 1] == Seed(messages) && r[|r| - 1] == llm(Seed(messages))
    ensures r[0].role == System
  {
    var seeded := Seed(messages);
    assert (seeded + [llm(seeded)])[..|seeded|] == seeded;
    seeded + [llm(seeded)]
  }

  /** `agent_node` keeps the input list, in order, just before the reply. */
  lemma AgentNodeKeepsInput(messages: seq<Message>, llm: Model)
    ensures var r := AgentNode(messages, llm);
      |messages| < |r| && r[|r| - 1 - |messages|..|r| - 1] == messages
  {
    var r := AgentNode(messages, llm);
    var seeded := Seed(messages);
    if seeded != messages {
      assert r[|r| - 1 - |messages|..|r| - 1] == seeded[1..];
    }
  }

  /** Running `agent_node` on its own output seeds nothing more: the model
      sees that output unchanged and one reply is appended to it. */
  lemma AgentNodeSeedsOnce(messages: seq<Message>, llm: Model)
    ensures var once := AgentNode(messages, llm);
      AgentNode(once, llm) == once + [llm(once)]
  {
    var once := AgentNode(messages, llm);
    assert once[0].role == System;
    assert Seed(once) == once;
  }

  datatype Route = ToTools | ToEnd

  /** `router`: to the tools exactly when the last message has tool calls. */
  function Router(messages: seq<Message>): (r: Route)
    requires messages != []
    ensures r == ToTools <==> HasToolCalls(messages[|messages| - 1])
  {
    if HasToolCalls(messages[|messages| - 1]) then ToTools else ToEnd
  }

  /** The router looks at the last message only. */
  lemma RouterSeesOnlyLast(a: seq<Message>, b: seq<Message>, last: Message)
    ensures Router(a + [last]) == Router(b + [last])
  {
    assert (a + [last])[|a|] == last && (b + [last])[|b|] == last;
  }

  /** The nodes of the compiled graph, END included. */
  datatype Node = Agent | Tools | End

  const EntryNode: Node := Agent

  /** The edges `build_graph` wires: agent to tools or END (conditionally),
      tools back to agent. */
  function Successors(n: Node): (s: set<Node>)
    ensures End in s <==> n == Agent
    ensures Agent in s <==> n == Tools
    ensures n == End <==> s == {}
  {
    match n
    case Agent => {Tools, End}
    case Tools => {Agent}
    case End => {}
  }

  /** A point of a run: the node about to execute and the state's messages. */
  datatype Config = Config(node: Node, messages: seq<Message>)

  /** One super-step of the graph: the agent node replies and the router
      picks the next node; the tool node executes and hands back to the agent. */
  function Step(c: Config, llm: Model, tools: ToolExecutor): (d: Config)
    requires c.node != End
    ensures d.node in Successors(c.node)
    ensures c.node == Agent ==>
      && d.messages == AgentNode(c.messages, llm)
      && (d.node == End <==> !HasToolCalls(llm(Seed(c.messages))))
    ensures c.node == Tools ==> d == Config(Agent, tools(c.messages))
  {
    match c.node
    case Agent =>
      var after := AgentNode(c.messages, llm);
      Config(if Router(after) == ToTools then Tools else End, after)
    case Tools => Config(Agent, tools(c.messages))
  }

  /** The configuration reached after at most `fuel` steps, stopping at END.
      The graph itself has no bound on the number of steps. */
  function Run(c: Config, llm: Model, tools: ToolExecutor, fuel: nat): Config
    decreases fuel
  {
    if c.node == End || fuel == 0 then c else Run(Step(c, llm, tools), llm, tools, fuel - 1)
  }

  /** A configuration at END was reached by an agent step: its list starts
      with a system message and ends with a reply that has no tool calls. */
  predicate Answered(c: Config) {
    c.node == End ==>
      && |c.messages| >= 2 && c.messages[0].role == System
      && !HasToolCalls(c.messages[|c.messages| - 1])
  }

  /** END is reached only by an agent step whose reply requests no tools. */
  lemma {:induction false} RunEndsOnlyWithAnswer(c: Config, llm: Model, tools: ToolExecutor, fuel: nat)
    requires c.node != End
    ensures Answered(Run(c, llm, tools, fuel))
    decreases fuel
  {
    if fuel > 0 {
      var d := Step(c, llm, tools);
      assert Run(c, llm, tools, fuel) == Run(d, llm, tools, fuel - 1);
      if d.node == End {
        assert c.node == Agent;
        assert Run(d, llm, tools, fuel - 1) == d;
        assert d.messages == AgentNode(c.messages, llm);
      } else {
        RunEndsOnlyWithAnswer(d, llm, tools, fuel - 1);
      }
    }
  }

  /** Once a run has reached END, more fuel changes nothing. */
  lemma {:induction false} RunStableAtEnd(c: Config, llm: Model, tools: ToolExecutor, fuel: nat, more: nat)
    requires Run(c, llm, tools, fuel).node == End
    requires fuel <= more
    ensures Run(c, llm, tools, more) == Run(c, llm, tools, fuel)
    decreases fuel
  {
    if c.node != End && fuel > 0 {
      var d := Step(c, llm, tools);
      assert Run(c, llm, tools, fuel) == Run(d, llm, tools, fuel - 1);
      assert Run(c, llm, tools, more) == Run(d, llm, tools, more - 1);
      RunStableAtEnd(d, llm, tools, fuel - 1, more - 1);
    }
  }

  /** A model that always requests tools keeps the graph cycling: no amount
      of fuel reaches END. */
  lemma {:induction false} ToolHungryModelNeverEnds(c: Config, llm: Model, tools: ToolExecutor, fuel: nat)
    requires forall h :: HasToolCalls(llm(h))
    requires c.node != End
    ensures Run(c, llm, tools, fuel).node != End
    decreases fuel
  {
    if fuel > 0 {
      var d := Step(c, llm, tools);
      assert HasToolCalls(llm(Seed(c.messages)));
      assert Run(c, llm, tools, fuel) == Run(d, llm, tools, fuel - 1);
      ToolHungryModelNeverEnds(d, llm, tools, fuel - 1);
    }
  }

  /** A model that never requests tools ends the run after one agent step,
      with the seeded input and its one reply. */
  lemma AnsweringModelEndsAfterOneTurn(messages: seq<Message>, llm: Model, tools: ToolExecutor, fuel: nat)
    requires forall h :: !HasToolCalls(llm(h))
    requires fuel >= 1
    ensures Run(Config(EntryNode, messages), llm, tools, fuel) == Config(End, AgentNode(messages, llm))
  {
    var d := Step(Config(EntryNode, messages), llm, tools);
    assert !HasToolCalls(llm(Seed(messages)));
    assert d == Config(End, AgentNode(messages, llm));
  }

  /** `app.invoke({"messages": messages})` with at most `fuel` node
      executions: steps from the entry node until END or until the fuel is spent. */
  method Invoke(messages: seq<Message>, llm: Model, tools: ToolExecutor, fuel: nat) returns (final: Config)
    ensures final == Run(Config(EntryNode, messages), llm, tools, fuel)
    ensures Answered(final)
  {
    var c := Config(EntryNode, messages);
    var left := fuel;
    while c.node != End && left > 0
      invariant Run(c, llm, tools, left) == Run(Config(EntryNode, messages), llm, tools, fuel)
      decreases left
    {
      var d := Step(c, llm, tools);
      assert Run(c, llm, tools, left) == Run(d, llm, tools, left - 1);
      c, left := d, left - 1;
    }
    final := c;
    RunEndsOnlyWithAnswer(Config(EntryNode, messages), llm, tools, fuel);
  }
}
