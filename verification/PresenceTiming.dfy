/** How long an away takes to be believed. */
module PresenceTiming {
  import opened Options
  import opened PresenceFusion

  /** One evaluation of a user: when, and whether away was strictly stronger. */
  datatype Eval = Eval(now: real, away: bool)

  function PendingAfter(evals: seq<Eval>): Option<real> {
    if evals == [] then None
    else
      var e := evals[|evals| - 1];
      Pending(PendingAfter(evals[..|evals| - 1]), e.away, e.now)
  }

  /** What the k-th evaluation of a user decides. */
  function DecisionAt(evals: seq<Eval>, k: nat, grace: real): Option<Presence>
    requires k < |evals|
  {
    Decision(PendingAfter(evals[..k]), evals[k].away, evals[k].now, grace)
  }

  predicate InOrder(evals: seq<Eval>) {
    forall i, j :: 0 <= i < j < |evals| ==> evals[i].now <= evals[j].now
  }

  /** Away was strictly stronger at every evaluation from the i-th to the k-th. */
  predicate AwayFrom(evals: seq<Eval>, i: nat, k: nat)
    requires i <= k < |evals|
  {
    forall j :: i <= j <= k ==> evals[j].away
  }

  /** The pending away starts at the first of the uninterrupted run of away evaluations. */
  lemma {:induction false} PendingSince(evals: seq<Eval>, k: nat) returns (i: nat)
    requires k < |evals| && evals[k].away
    ensures i <= k && AwayFrom(evals, i, k) && (i > 0 ==> !evals[i - 1].away)
    ensures PendingAfter(evals[..k + 1]) == Some(evals[i].now)
  {
    assert evals[..k + 1][..k] == evals[..k];
    if k == 0 {
      i := 0;
    } else if evals[k - 1].away {
      i := PendingSince(evals, k - 1);
    } else {
      assert evals[..k][..k - 1] == evals[..k - 1];
      i := k;
    }
  }

  /** Away is decided exactly when it was strictly stronger at every evaluation for at least the
      grace period: any home evaluation in between starts the count again. */
  lemma AwayDecidedIff(evals: seq<Eval>, k: nat, grace: real)
    requires k < |evals| && InOrder(evals)
    ensures DecisionAt(evals, k, grace) == Some(Away) <==>
      exists i :: 0 <= i < k && AwayFrom(evals, i, k) && evals[k].now - evals[i].now >= grace
  {
    if k > 0 && evals[k - 1].away && evals[k].away {
      var first := PendingSince(evals, k - 1);
      assert AwayFrom(evals, first, k);
      forall i | 0 <= i < k && AwayFrom(evals, i, k)
        ensures evals[first].now <= evals[i].now
      {
        assert first <= i;
      }
    } else {
      if k > 0 {
        assert evals[..k][..k - 1] == evals[..k - 1];
      }
      forall i | 0 <= i < k
        ensures !AwayFrom(evals, i, k)
      {
        assert !evals[k - 1].away || !evals[k].away;
      }
    }
  }

  /** A user's state after the evaluations. */
  function FusedRun(u: UserState, evals: seq<Eval>, grace: real): UserState {
    if evals == [] then u
    else
      var e := evals[|evals| - 1];
      Fused(FusedRun(u, evals[..|evals| - 1], grace), e.away, e.now, grace)
  }

  lemma {:induction false} PendingOfRun(u: UserState, evals: seq<Eval>, grace: real)
    requires u.pending == None
    ensures FusedRun(u, evals, grace).pending == PendingAfter(evals)
  {
    if evals == [] {
    } else {
      PendingOfRun(u, evals[..|evals| - 1], grace);
    }
  }

  /** Away was strictly stronger at every evaluation up to now for at least the grace period. */
  ghost predicate AwayForGrace(evals: seq<Eval>, grace: real) {
    var last := |evals| - 1;
    exists i :: 0 <= i < last && AwayFrom(evals, i, last) && evals[last].now - evals[i].now >= grace
  }

  lemma LongerAway(evals: seq<Eval>, grace: real)
    requires evals != [] && InOrder(evals) && evals[|evals| - 1].away
    requires AwayForGrace(evals[..|evals| - 1], grace)
    ensures AwayForGrace(evals, grace)
  {
    var last := |evals| - 1;
    var init := evals[..last];
    var i :| 0 <= i < last - 1 && AwayFrom(init, i, last - 1) && init[last - 1].now - init[i].now >= grace;
    assert AwayFrom(evals, i, last) by {
      assert forall j :: i <= j < last ==> evals[j] == init[j];
    }
  }

  /** The last evaluation writes what it decides, if anything. */
  lemma LastWrites(u: UserState, evals: seq<Eval>, grace: real)
    requires u.pending == None && evals != [] && InOrder(evals)
    requires FusedRun(u, evals[..|evals| - 1], grace).presence in {Some(Home), Some(Away)}
    ensures var last := |evals| - 1;
      FusedRun(u, evals, grace).presence ==
        if !evals[last].away then Some(Home)
        else if AwayForGrace(evals, grace) then Some(Away)
        else FusedRun(u, evals[..last], grace).presence
  {
    var last := |evals| - 1;
    PendingOfRun(u, evals[..last], grace);
    AwayDecidedIff(evals, last, grace);
    assert AwayForGrace(evals, grace) <==> DecisionAt(evals, last, grace) == Some(Away);
  }

  lemma EndsAway(evals: seq<Eval>, grace: real)
    requires AwayForGrace(evals, grace)
    ensures evals != [] && evals[|evals| - 1].away
  {}

  /** After any run of evaluations, a user who is not asleep is away if and only if away was strictly
      stronger at all of them for at least the grace period, or always and the user was away before. */
  lemma {:induction false} AwayIff(u: UserState, evals: seq<Eval>, grace: real)
    requires u.pending == None && u.presence in {Some(Home), Some(Away)} && InOrder(evals)
    ensures FusedRun(u, evals, grace).presence in {Some(Home), Some(Away)}
    ensures FusedRun(u, evals, grace).presence == Some(Away) <==>
      AwayForGrace(evals, grace) || (u.presence == Some(Away) && forall e :: e in evals ==> e.away)
  {
    hide AwayForGrace, Fused;
    if evals == [] {
      if AwayForGrace(evals, grace) {
        EndsAway(evals, grace);
      }
    } else {
      var last := |evals| - 1;
      var init := evals[..last];
      assert evals == init + [evals[last]];
      AwayIff(u, init, grace);
      LastWrites(u, evals, grace);
      if AwayForGrace(evals, grace) {
        EndsAway(evals, grace);
      } else if evals[last].away && AwayForGrace(init, grace) {
        LongerAway(evals, grace);
      }
    }
  }

  /** No run of evaluations writes the presence of a sleeping user, or of one who is not known. */
  lemma {:induction false} NeverWritten(u: UserState, evals: seq<Eval>, grace: real)
    requires u.presence in {Some(Asleep), None}
    ensures FusedRun(u, evals, grace).presence == u.presence
  {
    if evals == [] {
    } else {
      NeverWritten(u, evals[..|evals| - 1], grace);
    }
  }
}
