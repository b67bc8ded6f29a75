/** What the two tools of agent/tools.py share: the way a schema reports
    broken constraints, and the exported tool list `TOOLS`. */
module Tools {
  import opened Wrappers

  /** A constraint of a schema that the arguments break, as the validator reports it. */
  datatype Violation =
    | Missing(field: string)
    | TooShort(field: string, minLength: nat)
    | BelowMinimum(field: string, minimum: int)
    | AboveMaximum(field: string, maximum: int)

  datatype Tool = SearchEdaKbTool | CreateEdaPlanTool

  /** The name each tool is registered under. */
  function ToolName(t: Tool): string {
    match t
    case SearchEdaKbTool => "search_eda_kb"
    case CreateEdaPlanTool => "create_eda_plan"
  }

  /** `TOOLS`, the list bound to the model and given to the tool node. */
  const ToolList: seq<Tool> := [SearchEdaKbTool, CreateEdaPlanTool]

  /** The tool registered under `name` in `TOOLS`, or `None` for a name no
      tool has. The names in `TOOLS` are distinct (ToolListLookup), so this
      is the tool a name-to-tool table built from the list maps `name` to. */
  function Lookup(name: string, tools: seq<Tool> := ToolList): (t: Option<Tool>)
    ensures t.Some? ==> t.value in tools && ToolName(t.value) == name
    ensures t.None? ==> forall u :: u in tools ==> ToolName(u) != name
  {
    if tools == [] then None
    else if ToolName(tools[0]) == name then Some(tools[0])
    else Lookup(name, tools[1..])
  }

  /** The exported list is the search tool then the planner, and looking a
      tool up by its registered name finds that tool. */
  lemma ToolListLookup()
    ensures |ToolList| == 2 && ToolList[0] == SearchEdaKbTool && ToolList[1] == CreateEdaPlanTool
    ensures forall t: Tool :: Lookup(ToolName(t)) == Some(t)
  {
    assert ToolName(SearchEdaKbTool)[0] != ToolName(CreateEdaPlanTool)[0];
    assert Lookup(ToolName(SearchEdaKbTool)) == Some(SearchEdaKbTool);
    assert Lookup(ToolName(CreateEdaPlanTool)) == Some(CreateEdaPlanTool);
  }
}
