/** The loaded suite (internal/model), as far as ordering, retries, keywords and teardown need it.
    An expression is kept as the names it reads under result.* and vars.*. */
module Model {
  import opened Wrappers

  datatype Expr = Expr(resultRefs: set<string>, varRefs: set<string>)

  datatype StepVar = StepVar(name: string, expr: Expr)

  datatype Retry = Retry(attempts: int, interval: int)

  /** `body` holds the expressions the reference collectors visit (request, expect, capture, save,
      file, exec, keyword, mobile, sql, webhook, rpc); `uncollected` those they do not (browser,
      mail, load and multipart expressions). */
  datatype Step = Step(
    name: string,
    provider: string,
    dependsOn: seq<string>,
    when: Option<Expr>,
    vars: seq<StepVar>,
    skipRules: seq<Expr>,
    body: seq<Expr>,
    uncollected: seq<Expr>,
    hasKeywordCall: bool,
    retry: Option<Retry>)

  datatype Keyword = Keyword(name: string, inputs: set<string>, steps: seq<Step>, outputs: set<string>)

  datatype Scenario = Scenario(name: string, steps: seq<Step>, teardown: seq<Step>, hasSkipRules: bool)

  datatype Suite = Suite(keywords: map<string, Keyword>, scenarios: seq<Scenario>, teardown: seq<Step>)

  function StepNames(steps: seq<Step>): seq<string> {
    seq(|steps|, i requires 0 <= i < |steps| => steps[i].name)
  }

  function NameSet(steps: seq<Step>): set<string> {
    set i | 0 <= i < |steps| :: steps[i].name
  }

  predicate DistinctNames(steps: seq<Step>) {
    forall i, j | 0 <= i < j < |steps| :: steps[i].name != steps[j].name
  }
}
