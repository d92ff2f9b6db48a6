/** What a bot module's `run` does with a message, and the `if ... elif ... else raise`
    chain both highlight modules use to pick a command. */
module Outcome {
  import opened Python

  /** `run` returned `False` without replying; or it sent one reply to the room and returned
      `True`; or it raised. */
  datatype RunOutcome = Declined | Replied(text: string) | Raised(error: PyError)

  /** An `if t0: ... elif t1: ... elif ...` chain over the command tests, evaluated in
      order: the first test that raises or holds decides; `None` when all are false. */
  function FirstTrue(tests: seq<Result<bool>>): (r: Result<Option<nat>>)
    ensures r.Ok? && r.value.Some? ==>
      r.value.value < |tests| && tests[r.value.value] == Ok(true) &&
      forall j :: 0 <= j < r.value.value ==> tests[j] == Ok(false)
    ensures r == Ok(None) <==> forall j :: 0 <= j < |tests| ==> tests[j] == Ok(false)
    ensures r.Err? ==>
      exists k :: 0 <= k < |tests| && tests[k] == Err(r.error) &&
        forall j :: 0 <= j < k ==> tests[j] == Ok(false)
  {
    if tests == [] then Ok(None)
    else
      match tests[0]
      case Err(e) => Err(e)
      case Ok(true) => Ok(Some(0))
      case Ok(false) =>
        var rest := FirstTrue(tests[1..]);
        assert forall j :: 1 <= j < |tests| ==> tests[j] == tests[1..][j - 1];
        match rest
        case Err(e) =>
          var k :| 0 <= k < |tests[1..]| && tests[1..][k] == Err(e) &&
            forall j :: 0 <= j < k ==> tests[1..][j] == Ok(false);
          assert tests[k + 1] == Err(e);
          Err(e)
        case Ok(None) => Ok(None)
        case Ok(Some(k)) => Ok(Some(k + 1))
  }
}
