/** The values a predicate can have while an event is handled
    (statsd/src/condition/condition_util.h). */
module ConditionStates {
  datatype ConditionState = NotEvaluated | Unknown | False | True

  /** What a predicate evaluates to. */
  type Evaluated = s: ConditionState | s != NotEvaluated witness Unknown
}
