/**
 * The shape every handler in the core shares: a fixed list of checks run in
 * order, where the first one that fails decides the answer and nothing after
 * it is looked at.
 */
module Checks {
  import opened Common

  /** One early-return guard: whether it passes, and what is answered when it does not. */
  datatype Check<E> = Check(passes: bool, failure: E)

  /** Index of the first failing check, or `|cs|` when all pass. */
  function FirstFailing<E>(cs: seq<Check<E>>): (k: nat)
    ensures k <= |cs|
    ensures forall j | 0 <= j < k :: cs[j].passes
    ensures k < |cs| ==> !cs[k].passes
  {
    if cs == [] then 0
    else if !cs[0].passes then 0
    else 1 + FirstFailing(cs[1..])
  }

  /** The answer of the first failing check, if any. */
  function FirstFailure<E>(cs: seq<Check<E>>): (r: Option<E>)
    ensures r.None? <==> forall j | 0 <= j < |cs| :: cs[j].passes
    ensures r.Some? ==> r.value == cs[FirstFailing(cs)].failure
  {
    var k := FirstFailing(cs);
    if k == |cs| then None else Some(cs[k].failure)
  }

  /** A failing check decides the answer unless an earlier one already failed. */
  lemma {:induction false} FailureDecides<E>(cs: seq<Check<E>>, k: nat)
    requires k < |cs| && !cs[k].passes
    requires forall j | 0 <= j < k :: cs[j].passes
    ensures FirstFailure(cs) == Some(cs[k].failure)
  {
    assert FirstFailing(cs) == k;
  }

  /** Checks after the first failing one cannot change the answer. */
  lemma {:induction false} LaterChecksIrrelevant<E>(cs: seq<Check<E>>, ds: seq<Check<E>>)
    requires FirstFailure(cs).Some?
    ensures FirstFailure(cs + ds) == FirstFailure(cs)
  {
    var k := FirstFailing(cs);
    assert (cs + ds)[k] == cs[k];
    FailureDecides(cs + ds, k);
  }
}
