/**
Conditions that a step of a run brings about and a later step ends: after any run, a condition stands if
and only if some step brought it about and none since has ended it.
*/
module RegistrationRuns {
  import opened RegistrationProtocol

  /** The run as far as label `k`. */
  function At(labels: seq<Label>, k: nat): World
    requires k <= |labels|
  {
    Exec(INITIAL, labels[..k])
  }

  lemma LastLabel(labels: seq<Label>, n: nat)
    requires n + 1 == |labels|
    ensures Exec(INITIAL, labels) == Step(At(labels, n), labels[n])
  {
    hide Exec, Step;
    var before, l := labels[..n], labels[n];
    ExecAppend(INITIAL, before, [l]);
    assert labels == before + [l];
    ExecOne(Exec(INITIAL, before), l);
  }

  lemma SamePrefix(labels: seq<Label>, n: nat, k: nat)
    requires k <= n <= |labels|
    ensures At(labels, k) == At(labels[..n], k)
  {
    assert labels[..n][..k] == labels[..k];
  }

  /** Whether a label, in the world it meets, is of some kind. */
  type Change = (World, Label) -> bool

  /** Label `k` brought it about, and nothing since has ended it. */
  ghost predicate StandsSince(labels: seq<Label>, enters: Change, leaves: Change, k: nat)
    requires k < |labels|
  {
    && enters(At(labels, k), labels[k])
    && (forall j | k < j < |labels| :: !leaves(At(labels, j), labels[j]))
  }

  ghost predicate Stands(labels: seq<Label>, enters: Change, leaves: Change) {
    exists k :: 0 <= k < |labels| && StandsSince(labels, enters, leaves, k)
  }

  lemma StandsSincePrefix(labels: seq<Label>, enters: Change, leaves: Change, n: nat, k: nat)
    requires k < n && n + 1 == |labels|
    ensures StandsSince(labels, enters, leaves, k) <==>
      StandsSince(labels[..n], enters, leaves, k) && !leaves(At(labels, n), labels[n])
  {
    hide Exec, Step;
    SamePrefix(labels, n, k);
    forall j | k < j < n ensures leaves(At(labels, j), labels[j]) <==> leaves(At(labels[..n], j), labels[..n][j]) {
      SamePrefix(labels, n, j);
    }
  }

  /** One label more: brought about now, or standing before and not ended now. */
  lemma StandsStep(labels: seq<Label>, enters: Change, leaves: Change, n: nat)
    requires n + 1 == |labels|
    ensures Stands(labels, enters, leaves) <==>
      enters(At(labels, n), labels[n]) || (Stands(labels[..n], enters, leaves) && !leaves(At(labels, n), labels[n]))
  {
    hide Exec, Step;
    if k :| 0 <= k < n && StandsSince(labels[..n], enters, leaves, k) {
      StandsSincePrefix(labels, enters, leaves, n, k);
    }
    if enters(At(labels, n), labels[n]) {
      assert StandsSince(labels, enters, leaves, n);
    }
    if k :| 0 <= k < n + 1 && StandsSince(labels, enters, leaves, k) {
      if k < n {
        StandsSincePrefix(labels, enters, leaves, n, k);
      }
    }
  }
}
