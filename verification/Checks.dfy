/** Conditions that are tested in order: the first that fails decides the answer. */
module Checks {

  /** A condition, and the answer to who does not meet it. */
  datatype Check<T> = Check(holds: bool, refusal: T)

  predicate AllHold<T>(checks: seq<Check<T>>) { forall k :: 0 <= k < |checks| ==> checks[k].holds }

  predicate FirstFailing<T>(checks: seq<Check<T>>, k: int) {
    0 <= k < |checks| && !checks[k].holds && forall j :: 0 <= j < k ==> checks[j].holds
  }

  lemma {:induction false} SomeFirst<T>(checks: seq<Check<T>>) returns (k: int)
    requires !AllHold(checks)
    ensures FirstFailing(checks, k)
  {
    if !AllHold(checks[..|checks| - 1]) {
      k := SomeFirst(checks[..|checks| - 1]);
      assert forall j :: 0 <= j <= k ==> checks[..|checks| - 1][j] == checks[j];
    } else {
      k := |checks| - 1;
      assert forall j :: 0 <= j < k ==> checks[..k][j] == checks[j];
      assert exists j :: 0 <= j < |checks| && !checks[j].holds;
    }
  }
}
