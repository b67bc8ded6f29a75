/** Tool 2 of agent/tools.py, `create_eda_plan`: its input schema
    `EDAPlanInput` as a validator and the fixed plan it builds. */
module EdaPlanTool {
  import opened Wrappers
  import opened Tools

  /** Arguments of `create_eda_plan` as the model sends them. */
  datatype PlanArgs = PlanArgs(datasetColumns: Option<seq<string>>, goal: Option<string>)

  /** A validated `EDAPlanInput`. */
  datatype PlanInput = PlanInput(datasetColumns: seq<string>, goal: string)

  const ColumnsMinLength: nat := 1
  const GoalMinLength: nat := 3

  /** The field constraints of `EDAPlanInput`. */
  predicate ValidPlan(p: PlanInput) {
    |p.datasetColumns| >= ColumnsMinLength && |p.goal| >= GoalMinLength
  }

  /** Every constraint of `EDAPlanInput` the arguments break, in field order. */
  function PlanViolations(args: PlanArgs): seq<Violation> {
    (match args.datasetColumns
     case None => [Missing("dataset_columns")]
     case Some(cs) => if |cs| < ColumnsMinLength then [TooShort("dataset_columns", ColumnsMinLength)] else [])
    + (match args.goal
       case None => [Missing("goal")]
       case Some(g) => if |g| < GoalMinLength then [TooShort("goal", GoalMinLength)] else [])
  }

  /** Validation of `create_eda_plan`'s arguments against `EDAPlanInput`:
      it succeeds exactly when the column list is present and non-empty and
      the goal is present with at least three characters. */
  function ValidatePlan(args: PlanArgs): (r: Result<PlanInput, seq<Violation>>)
    ensures r.Success? <==>
      && args.datasetColumns.Some? && |args.datasetColumns.value| >= ColumnsMinLength
      && args.goal.Some? && |args.goal.value| >= GoalMinLength
    ensures r.Success? ==>
      && ValidPlan(r.value)
      && r.value == PlanInput(args.datasetColumns.value, args.goal.value)
    ensures r.Failure? ==> r.error != []
  {
    var violations := PlanViolations(args);
    if violations == [] then Success(PlanInput(args.datasetColumns.value, args.goal.value))
    else Failure(violations)
  }

  /** The plan dictionary `create_eda_plan` returns. */
  datatype EdaPlan = EdaPlan(goal: string, steps: seq<string>, recommendedPlots: seq<string>, columnsSeen: seq<string>)

  const PlanSteps: seq<string> := [
    "Check dataset shape, data types, and basic schema validation",
    "Compute missing values per column and decide handling approach",
    "Compute summary statistics for numeric columns",
    "Check distributions (histograms / density) for numeric columns",
    "Detect outliers (IQR / boxplots) for key numeric columns",
    "Check correlations between numeric columns (correlation matrix / heatmap)",
    "Visualize key relationships (scatter plots) based on goal",
    "Summarize insights and potential data quality issues"
  ]

  const RecommendedPlots: seq<string> := [
    "Missing values bar chart",
    "Histograms for numeric columns",
    "Boxplots for outlier inspection",
    "Correlation heatmap",
    "Scatter plots for top correlated pairs"
  ]

  /** `create_eda_plan(dataset_columns, goal)`: the goal and the columns are
      echoed verbatim, the eight steps and five plots are fixed. */
  function CreateEdaPlan(datasetColumns: seq<string>, goal: string): (plan: EdaPlan)
    ensures plan.goal == goal && plan.columnsSeen == datasetColumns
    ensures plan.steps == PlanSteps && |plan.steps| == 8
    ensures plan.recommendedPlots == RecommendedPlots && |plan.recommendedPlots| == 5
  {
    EdaPlan(goal, PlanSteps, RecommendedPlots, datasetColumns[..])
  }

  /** Calling the planner tool: validate, then plan. It fails exactly on
      invalid arguments, and on valid ones returns the plan for them. */
  function InvokeCreateEdaPlan(args: PlanArgs): (r: Result<EdaPlan, seq<Violation>>)
    ensures r.Success? <==> ValidatePlan(args).Success?
    ensures r.Success? ==>
      && r.value.columnsSeen == args.datasetColumns.value && |r.value.columnsSeen| >= 1
      && r.value.goal == args.goal.value && |r.value.goal| >= 3
  {
    match ValidatePlan(args)
    case Success(input) => Success(CreateEdaPlan(input.datasetColumns, input.goal))
    case Failure(violations) => Failure(violations)
  }
}
