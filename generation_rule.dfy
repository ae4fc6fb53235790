/** The rule record of src/generation_rule.rs: two thresholds and a repeat count. */
module GenerationRules {
  import opened MachineInts

  /** One smoothing rule: a cell becomes WALL when its radius-1 count reaches
      `rule1` or its radius-2 count is at most `rule2`; applied `timesToApply` times. */
  datatype GenerationRule = GenerationRule(rule1: i32, rule2: i32, timesToApply: i32)

  /** `GenerationRule::new`: stores its three arguments and checks none of them. */
  function New(rule1: i32, rule2: i32, timesToApply: i32): (r: GenerationRule)
    ensures r.rule1 == rule1
    ensures r.rule2 == rule2
    ensures r.timesToApply == timesToApply
  {
    GenerationRule(rule1, rule2, timesToApply)
  }

  /** Two rules built by `New` are equal exactly when their arguments are:
      nothing is normalised or clamped, negative values included. */
  lemma NewKeepsArguments(a1: i32, a2: i32, a3: i32, b1: i32, b2: i32, b3: i32)
    ensures New(a1, a2, a3) == New(b1, b2, b3) <==> a1 == b1 && a2 == b2 && a3 == b3
  {
  }
}
