/** The boundary value probed next to an observed (condition, value). */
module BoundaryValue {
  import opened Values

  /** generateTestCaseValue: a non-numeric value becomes the out-of-domain text "not_<value>";
      an integer moves one step across the boundary of its comparison; an integer under an
      unrecognised condition comes back unchanged. */
  function GenerateTestCaseValue(condition: string, value: Val): (r: Val)
    ensures r.Text? <==> value.Text?
    ensures value.Text? ==> r == Text("not_" + value.s)
    // a recognised comparison against an integer gives its neighbour on the side where
    // the comparison against the observed value changes its truth value
    ensures value.Int? && IsCondition(condition) ==>
      (r.n == value.n + 1 || r.n == value.n - 1) &&
      Compare(condition, r, value) != Compare(condition, value, value)
    // for the four order comparisons that neighbour is the only one that crosses
    ensures value.Int? && IsCondition(condition) && condition != "==" && condition != "!=" ==>
      forall m ::
        (m == value.n + 1 || m == value.n - 1) &&
        Compare(condition, Int(m), value) != Compare(condition, value, value)
        ==> Int(m) == r
    // under == and != both neighbours cross, and the one above is taken
    ensures value.Int? && (condition == "==" || condition == "!=") ==> r == Int(value.n + 1)
    ensures value.Int? && !IsCondition(condition) ==> r == value
    // whatever is recognised, the probe differs from the observation
    ensures value.Text? || IsCondition(condition) ==> r != value
  {
    if value.Text? then Text("not_" + value.s)
    else if condition == "==" then Int(value.n + 1)
    else if condition == "!=" then Int(value.n + 1)
    else if condition == "<" then Int(value.n - 1)
    else if condition == ">" then Int(value.n + 1)
    else if condition == "<=" then Int(value.n + 1)
    else if condition == ">=" then Int(value.n - 1)
    else value
  }

  /** Boundary values for 5, 10 and "abc". */
  lemma BoundaryExamples()
    ensures GenerateTestCaseValue("==", Int(5)) == Int(6)
    ensures GenerateTestCaseValue("<", Int(5)) == Int(4)
    ensures GenerateTestCaseValue(">=", Int(10)) == Int(9)
    ensures GenerateTestCaseValue("==", Text("abc")) == Text("not_abc")
  {
  }
}
