/** Sequences of actions applied to the slice, as the store applies them one
    after another, and what the resulting state is in terms of the actions:
    each field holds what the last action writing it wrote. Nothing in the
    reducers looks at the current status or at which request a response
    belongs to, so the last response applied wins. */
module SliceHistory {
  import opened Types
  import opened RepoSlice

  /** The actions the slice handles. */
  datatype Action =
    | SetPageAction(n: int)
    | PendingAction
    | FulfilledAction(payload: Payload)
    | RejectedAction(message: Option<string>)

  function Reduce(s: RepoState, a: Action): RepoState {
    match a
    case SetPageAction(n) => SetPage(s, n)
    case PendingAction => Pending(s)
    case FulfilledAction(p) => Fulfilled(s, p)
    case RejectedAction(m) => Rejected(s, m)
  }

  /** The state after applying `actions` in order. */
  function ReduceAll(s: RepoState, actions: seq<Action>): RepoState
    decreases |actions|
  {
    if |actions| == 0 then s else ReduceAll(Reduce(s, actions[0]), actions[1..])
  }

  /** Every reachable state is well formed. */
  lemma {:induction false} ReduceAllPreservesWf(s: RepoState, actions: seq<Action>)
    requires Wf(s)
    ensures Wf(ReduceAll(s, actions))
    decreases |actions|
  {
    if |actions| > 0 {
      ReduceAllPreservesWf(Reduce(s, actions[0]), actions[1..]);
    }
  }

  lemma ReachableWf(actions: seq<Action>)
    ensures Wf(ReduceAll(InitialState, actions))
  {
    InitialStateWf();
    ReduceAllPreservesWf(InitialState, actions);
  }

  // ----- results and total count: only a fulfilled response writes them -----

  lemma {:induction false} DataUntouchedWithoutFulfilled(s: RepoState, actions: seq<Action>)
    requires forall j :: 0 <= j < |actions| ==> !actions[j].FulfilledAction?
    ensures ReduceAll(s, actions).repos == s.repos
    ensures ReduceAll(s, actions).totalCount == s.totalCount
    decreases |actions|
  {
    if |actions| > 0 {
      DataUntouchedWithoutFulfilled(Reduce(s, actions[0]), actions[1..]);
    }
  }

  /** Results and total count are those of the last fulfilled response,
      together, whatever came before it and whatever state it met. */
  lemma {:induction false} DataFromLastFulfilled(s: RepoState, actions: seq<Action>, i: nat)
    requires i < |actions| && actions[i].FulfilledAction?
    requires forall j :: i < j < |actions| ==> !actions[j].FulfilledAction?
    ensures ReduceAll(s, actions).repos == actions[i].payload.items
    ensures ReduceAll(s, actions).totalCount == actions[i].payload.totalCount
    decreases |actions|
  {
    if i == 0 {
      DataUntouchedWithoutFulfilled(Reduce(s, actions[0]), actions[1..]);
    } else {
      DataFromLastFulfilled(Reduce(s, actions[0]), actions[1..], i - 1);
    }
  }

  // ----- page: only setPage writes it -----

  lemma {:induction false} PageUntouchedWithoutSetPage(s: RepoState, actions: seq<Action>)
    requires forall j :: 0 <= j < |actions| ==> !actions[j].SetPageAction?
    ensures ReduceAll(s, actions).page == s.page
    decreases |actions|
  {
    if |actions| > 0 {
      PageUntouchedWithoutSetPage(Reduce(s, actions[0]), actions[1..]);
    }
  }

  /** The page is the argument of the last `setPage`, unchecked. */
  lemma {:induction false} PageFromLastSetPage(s: RepoState, actions: seq<Action>, i: nat)
    requires i < |actions| && actions[i].SetPageAction?
    requires forall j :: i < j < |actions| ==> !actions[j].SetPageAction?
    ensures ReduceAll(s, actions).page == actions[i].n
    decreases |actions|
  {
    if i == 0 {
      PageUntouchedWithoutSetPage(Reduce(s, actions[0]), actions[1..]);
    } else {
      PageFromLastSetPage(Reduce(s, actions[0]), actions[1..], i - 1);
    }
  }

  // ----- error: only a rejection writes it; nothing clears it -----

  lemma {:induction false} ErrorUntouchedWithoutRejected(s: RepoState, actions: seq<Action>)
    requires forall j :: 0 <= j < |actions| ==> !actions[j].RejectedAction?
    ensures ReduceAll(s, actions).error == s.error
    decreases |actions|
  {
    if |actions| > 0 {
      ErrorUntouchedWithoutRejected(Reduce(s, actions[0]), actions[1..]);
    }
  }

  /** The error is the text of the last rejection, even if later requests
      were started or succeeded. */
  lemma {:induction false} ErrorFromLastRejected(s: RepoState, actions: seq<Action>, i: nat)
    requires i < |actions| && actions[i].RejectedAction?
    requires forall j :: i < j < |actions| ==> !actions[j].RejectedAction?
    ensures ReduceAll(s, actions).error == Some(ErrorText(actions[i].message))
    decreases |actions|
  {
    if i == 0 {
      ErrorUntouchedWithoutRejected(Reduce(s, actions[0]), actions[1..]);
    } else {
      ErrorFromLastRejected(Reduce(s, actions[0]), actions[1..], i - 1);
    }
  }

  /** Once an error is stored it is never reset to `null`. */
  lemma {:induction false} ErrorNeverCleared(s: RepoState, actions: seq<Action>)
    requires s.error.Some?
    ensures ReduceAll(s, actions).error.Some?
    decreases |actions|
  {
    if |actions| > 0 {
      ErrorNeverCleared(Reduce(s, actions[0]), actions[1..]);
    }
  }

  // ----- status: written by every lifecycle action -----

  predicate IsLifecycle(a: Action) {
    !a.SetPageAction?
  }

  function StatusOf(a: Action): Status
    requires IsLifecycle(a)
  {
    match a
    case PendingAction => Loading
    case FulfilledAction(_) => Succeeded
    case RejectedAction(_) => Failed
  }

  lemma {:induction false} StatusUntouchedWithoutLifecycle(s: RepoState, actions: seq<Action>)
    requires forall j :: 0 <= j < |actions| ==> !IsLifecycle(actions[j])
    ensures ReduceAll(s, actions).status == s.status
    decreases |actions|
  {
    if |actions| > 0 {
      StatusUntouchedWithoutLifecycle(Reduce(s, actions[0]), actions[1..]);
    }
  }

  /** The status is that of the last lifecycle action, whether or not a
      request was in flight when it arrived. */
  lemma {:induction false} StatusFromLastLifecycle(s: RepoState, actions: seq<Action>, i: nat)
    requires i < |actions| && IsLifecycle(actions[i])
    requires forall j :: i < j < |actions| ==> !IsLifecycle(actions[j])
    ensures ReduceAll(s, actions).status == StatusOf(actions[i])
    decreases |actions|
  {
    if i == 0 {
      StatusUntouchedWithoutLifecycle(Reduce(s, actions[0]), actions[1..]);
    } else {
      StatusFromLastLifecycle(Reduce(s, actions[0]), actions[1..], i - 1);
    }
  }

  /** From the initial state the slice is idle exactly until the first
      request starts or settles. */
  lemma IdleUntilFirstLifecycle(actions: seq<Action>)
    ensures ReduceAll(InitialState, actions).status == Idle
            <==> forall j :: 0 <= j < |actions| ==> !IsLifecycle(actions[j])
  {
    if forall j :: 0 <= j < |actions| ==> !IsLifecycle(actions[j]) {
      StatusUntouchedWithoutLifecycle(InitialState, actions);
    } else {
      var i :| 0 <= i < |actions| && IsLifecycle(actions[i]);
      NotIdleAfterLifecycle(InitialState, actions, i);
    }
  }

  /** Any lifecycle action leaves the slice out of the idle state for good. */
  lemma NotIdleAfterLifecycle(s: RepoState, actions: seq<Action>, i: nat)
    requires i < |actions| && IsLifecycle(actions[i])
    ensures ReduceAll(s, actions).status != Idle
  {
    var k := LastLifecycle(actions, i);
    StatusFromLastLifecycle(s, actions, k);
  }

  /** The index of the last lifecycle action at or after `i`. */
  function LastLifecycle(actions: seq<Action>, i: nat): (k: nat)
    requires i < |actions| && IsLifecycle(actions[i])
    ensures i <= k < |actions| && IsLifecycle(actions[k])
    ensures forall j :: k < j < |actions| ==> !IsLifecycle(actions[j])
    decreases |actions| - i
  {
    if exists j :: i < j < |actions| && IsLifecycle(actions[j]) then
      var j :| i < j < |actions| && IsLifecycle(actions[j]);
      LastLifecycle(actions, j)
    else
      i
  }

  // ----- the race the reducers do not guard against -----

  /** Two searches started one after the other whose responses arrive in the
      opposite order: the older response is the one left on screen. */
  lemma StaleResponseOverwrites(s: RepoState, older: Payload, newer: Payload)
    ensures ReduceAll(s, [PendingAction, PendingAction, FulfilledAction(newer), FulfilledAction(older)])
            == s.(status := Succeeded, repos := older.items, totalCount := older.totalCount)
  {
    var actions := [PendingAction, PendingAction, FulfilledAction(newer), FulfilledAction(older)];
    assert actions[1..] == [PendingAction, FulfilledAction(newer), FulfilledAction(older)];
    assert actions[1..][1..] == [FulfilledAction(newer), FulfilledAction(older)];
    assert actions[1..][1..][1..] == [FulfilledAction(older)];
    assert actions[1..][1..][1..][1..] == [];
    var s1 := Pending(s);
    var s2 := Pending(s1);
    var s3 := Fulfilled(s2, newer);
    var s4 := Fulfilled(s3, older);
    assert ReduceAll(s3, actions[1..][1..][1..]) == s4;
    assert ReduceAll(s2, actions[1..][1..]) == s4;
    assert ReduceAll(s1, actions[1..]) == s4;
  }

  /** A response is applied the same way whatever status it meets: a
      fulfilled action on an idle, failed or already succeeded slice still
      replaces the data. */
  lemma FulfilledIgnoresStatus(s: RepoState, p: Payload, st: Status)
    ensures Fulfilled(s.(status := st), p) == Fulfilled(s, p)
  {
  }
}
