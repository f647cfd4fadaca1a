// Model of monitor_check_condition in src/monitor.c: the comparison a monitored output
// port's value is tested with before a "monitor" message is sent.

module Monitor {

  /** The six operators, in the order of their codes. */
  const OP_GT: int := 0
  const OP_GE: int := 1
  const OP_LT: int := 2
  const OP_LE: int := 3
  const OP_EQ: int := 4
  const OP_NE: int := 5

  /** monitor_check_condition. `differ` stands for floats_differ_enough, whose float
      tolerance is not part of this model. */
  function CheckCondition(op: int, condValue: real, value: real, differ: (real, real) -> bool): (r: int)
    ensures r == 0 || r == 1
    ensures op == OP_GT ==> (r == 1 <==> value > condValue)
    ensures op == OP_GE ==> (r == 1 <==> value >= condValue)
    ensures op == OP_LT ==> (r == 1 <==> value < condValue)
    ensures op == OP_LE ==> (r == 1 <==> value <= condValue)
    ensures op == OP_EQ ==> (r == 1 <==> !differ(value, condValue))
    ensures op == OP_NE ==> (r == 1 <==> differ(value, condValue))
    ensures !(0 <= op <= 5) ==> r == 0
  {
    if op == OP_GT then (if value > condValue then 1 else 0)
    else if op == OP_GE then (if value >= condValue then 1 else 0)
    else if op == OP_LT then (if value < condValue then 1 else 0)
    else if op == OP_LE then (if value <= condValue then 1 else 0)
    else if op == OP_EQ then (if differ(value, condValue) then 0 else 1)
    else if op == OP_NE then (if differ(value, condValue) then 1 else 0)
    else 0
  }

  /** "==" and "!=" always disagree, whatever floats_differ_enough decides. */
  lemma EqualNotEqualComplementary(condValue: real, value: real, differ: (real, real) -> bool)
    ensures CheckCondition(OP_EQ, condValue, value, differ) + CheckCondition(OP_NE, condValue, value, differ) == 1
  {
  }

  /** ">" is the negation of "<=", and ">=" the negation of "<". */
  lemma OrderComplementary(condValue: real, value: real, differ: (real, real) -> bool)
    ensures CheckCondition(OP_GT, condValue, value, differ) + CheckCondition(OP_LE, condValue, value, differ) == 1
    ensures CheckCondition(OP_GE, condValue, value, differ) + CheckCondition(OP_LT, condValue, value, differ) == 1
  {
  }
}
