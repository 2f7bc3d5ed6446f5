/** Per-peer connectivity tracking: the integer round-trip estimator (RFC 6298, section 2) and the failure detector. */
module Connectivity {
  import opened Common

  datatype ConnectionState = New | Checking | Connected | Verifying | Disconnected | Failed

  datatype Event = Success(rtt: nat) | Failure

  datatype Tracker = Tracker(state: ConnectionState, failedChecks: nat, successfulChecks: nat, samples: seq<nat>,
                             srtt: nat, rttVar: nat, probesSent: nat, probesReceived: nat)

  function Initial(): Tracker {
    Tracker(New, 0, 0, [], 0, 0, 0, 0)
  }

  function AbsDiff(a: nat, b: nat): nat {
    if a >= b then a - b else b - a
  }

  /** The last eight samples. */
  function Remember(samples: seq<nat>, rtt: nat): seq<nat> {
    var s := samples + [rtt];
    if |s| > 8 then s[1..] else s
  }

  function Smoothed(srtt: nat, rtt: nat): nat {
    if srtt == 0 then rtt else (7 * srtt + rtt) / 8
  }

  function Variance(srtt: nat, rttVar: nat, rtt: nat): nat {
    if srtt == 0 then rtt / 2 else (3 * rttVar + AbsDiff(rtt, srtt)) / 4
  }

  function Apply(t: Tracker, e: Event): Tracker {
    match e
    case Success(rtt) =>
      Tracker(Connected, 0, t.successfulChecks + 1, Remember(t.samples, rtt),
              Smoothed(t.srtt, rtt), Variance(t.srtt, t.rttVar, rtt), t.probesSent + 1, t.probesReceived + 1)
    case Failure =>
      var failed := t.failedChecks + 1;
      t.(failedChecks := failed, successfulChecks := 0, probesSent := t.probesSent + 1,
         state := if failed >= 5 then Failed else if failed >= 3 then Disconnected else t.state)
  }

  function Run(events: seq<Event>): Tracker {
    if events == [] then Initial() else Apply(Run(events[..|events| - 1]), events[|events| - 1])
  }

  function Timeout(t: Tracker): nat {
    t.srtt + 4 * t.rttVar
  }

  // ---- The estimator ----

  ghost predicate SamplesWithin(events: seq<Event>, lo: nat, hi: nat) {
    forall i :: 0 <= i < |events| && events[i].Success? ==> lo <= events[i].rtt <= hi
  }

  ghost predicate HasSample(events: seq<Event>) {
    exists i :: 0 <= i < |events| && events[i].Success?
  }

  lemma OneSample(srtt: nat, rttVar: nat, rtt: nat, lo: nat, hi: nat)
    requires lo <= rtt <= hi && srtt <= hi && rttVar <= hi && (srtt != 0 ==> lo <= srtt)
    ensures lo <= Smoothed(srtt, rtt) <= hi && Variance(srtt, rttVar, rtt) <= hi
  {
  }

  /**
   * Whatever the history, the smoothed value lies between the smallest and the largest sample, and the timeout is
   * at most five times the largest.
   */
  lemma {:induction false} EstimateIsBounded(events: seq<Event>, lo: nat, hi: nat)
    requires SamplesWithin(events, lo, hi)
    ensures var t := Run(events);
            && t.srtt <= hi && t.rttVar <= hi && Timeout(t) <= 5 * hi
            && (if HasSample(events) then lo <= t.srtt else t.srtt == 0)
    decreases |events|
  {
    if events == [] {
    } else {
      var n := |events| - 1;
      var before := events[..n];
      assert SamplesWithin(before, lo, hi);
      EstimateIsBounded(before, lo, hi);
      LastSample(events);
      if events[n].Success? {
        OneSample(Run(before).srtt, Run(before).rttVar, events[n].rtt, lo, hi);
      }
    }
  }

  /** Samples below 2^61 keep every intermediate value of the estimator and the timeout below 2^64. */
  lemma NoOverflow(events: seq<Event>, rtt: nat)
    requires SamplesWithin(events, 0, 0x2000_0000_0000_0000 - 1) && rtt < 0x2000_0000_0000_0000
    ensures var t := Run(events);
            && 7 * t.srtt + rtt < 0x1_0000_0000_0000_0000
            && 3 * t.rttVar + AbsDiff(rtt, t.srtt) < 0x1_0000_0000_0000_0000
            && Timeout(t) < 0x1_0000_0000_0000_0000
  {
    EstimateIsBounded(events, 0, 0x2000_0000_0000_0000 - 1);
  }

  /** The smoothed value after a number of successes with one and the same round-trip time. */
  function Steady(srtt: nat, rtt: nat, steps: nat): nat
    decreases steps
  {
    if steps == 0 then srtt else Steady(Smoothed(srtt, rtt), rtt, steps - 1)
  }

  /** The constant round-trip time r pulls every start value into (r - 8, r], and it stays there. */
  lemma {:induction false} SteadyConverges(srtt: nat, rtt: nat, steps: nat)
    requires steps >= AbsDiff(srtt, rtt) || rtt - 8 < srtt <= rtt
    ensures rtt - 8 < Steady(srtt, rtt, steps) <= rtt
    decreases steps
  {
    if steps == 0 {
    } else {
      SmoothedMoves(srtt, rtt);
      SteadyConverges(Smoothed(srtt, rtt), rtt, steps - 1);
    }
  }

  lemma SmoothedMoves(srtt: nat, rtt: nat)
    ensures srtt != rtt && !(rtt - 8 < srtt <= rtt) ==> AbsDiff(Smoothed(srtt, rtt), rtt) < AbsDiff(srtt, rtt)
    ensures rtt - 8 < srtt <= rtt && srtt != 0 ==> Smoothed(srtt, rtt) == srtt
    ensures srtt == 0 ==> Smoothed(srtt, rtt) == rtt
  {
  }

  /** The variance after the same successes. */
  function SteadyVar(srtt: nat, rttVar: nat, rtt: nat, steps: nat): nat
    decreases steps
  {
    if steps == 0 then rttVar
    else SteadyVar(Smoothed(srtt, rtt), Variance(srtt, rttVar, rtt), rtt, steps - 1)
  }

  lemma {:induction false} SteadySplits(srtt: nat, rttVar: nat, rtt: nat, n: nat, m: nat)
    ensures Steady(srtt, rtt, n + m) == Steady(Steady(srtt, rtt, n), rtt, m)
    ensures SteadyVar(srtt, rttVar, rtt, n + m) ==
            SteadyVar(Steady(srtt, rtt, n), SteadyVar(srtt, rttVar, rtt, n), rtt, m)
    decreases n
  {
    if n == 0 {
    } else {
      SteadySplits(Smoothed(srtt, rtt), Variance(srtt, rttVar, rtt), rtt, n - 1, m);
    }
  }

  /** Neither the deviation nor the variance ever exceeds the larger of the two at the start. */
  lemma {:induction false} VarianceStaysBelow(srtt: nat, rttVar: nat, rtt: nat, steps: nat)
    ensures SteadyVar(srtt, rttVar, rtt, steps) <= Max(rttVar, AbsDiff(srtt, rtt))
    decreases steps
  {
    if steps == 0 {
    } else {
      SmoothedMoves(srtt, rtt);
      VarianceStaysBelow(Smoothed(srtt, rtt), Variance(srtt, rttVar, rtt), rtt, steps - 1);
    }
  }

  lemma {:induction false} SteadyIsPositive(srtt: nat, rtt: nat, steps: nat)
    requires rtt > 0 && steps > 0
    ensures Steady(srtt, rtt, steps) > 0
    decreases steps
  {
    if steps == 1 {
      assert Steady(Smoothed(srtt, rtt), rtt, 0) == Smoothed(srtt, rtt);
    } else {
      SteadyIsPositive(Smoothed(srtt, rtt), rtt, steps - 1);
    }
  }

  /** Once the smoothed value has settled at a distance of d, the variance settles in (d - 4, d]. */
  lemma {:induction false} VarianceSettles(srtt: nat, rttVar: nat, rtt: nat, steps: nat)
    requires rtt - 8 < srtt <= rtt && (srtt > 0 || rtt == 0)
    requires steps >= AbsDiff(rttVar, rtt - srtt) || rtt - srtt - 4 < rttVar <= rtt - srtt
    ensures rtt - srtt - 4 < SteadyVar(srtt, rttVar, rtt, steps) <= rtt - srtt
    decreases steps
  {
    if steps == 0 {
    } else {
      SmoothedMoves(srtt, rtt);
      VarianceMoves(srtt, rttVar, rtt);
      VarianceSettles(srtt, Variance(srtt, rttVar, rtt), rtt, steps - 1);
    }
  }

  lemma VarianceMoves(srtt: nat, rttVar: nat, rtt: nat)
    requires srtt <= rtt && (srtt > 0 || rtt == 0)
    ensures var d, v := rtt - srtt, Variance(srtt, rttVar, rtt);
            if d - 4 < rttVar <= d then d - 4 < v <= d else d - 4 < v <= d || AbsDiff(v, d) < AbsDiff(rttVar, d)
  {
  }

  /** Successes with the time r are the steady iteration, whatever happened before. */
  lemma {:induction false} RepeatedSuccess(events: seq<Event>, rtt: nat, steps: nat)
    ensures var t, t' := Run(events), Run(events + seq(steps, _ => Success(rtt)));
            t'.srtt == Steady(t.srtt, rtt, steps) && t'.rttVar == SteadyVar(t.srtt, t.rttVar, rtt, steps)
    decreases steps
  {
    if steps == 0 {
      assert events + seq(0, _ => Success(rtt)) == events;
    } else {
      var more := events + [Success(rtt)];
      RepeatedSuccess(more, rtt, steps - 1);
      assert more[..|events|] == events;
      assert more + seq(steps - 1, _ => Success(rtt)) == events + seq(steps, _ => Success(rtt));
    }
  }

  /** From any history, a constant round-trip time r brings the estimate into (r - 8, r] and keeps it there. */
  lemma ConstantTimeIsLearned(events: seq<Event>, rtt: nat, steps: nat)
    requires steps >= AbsDiff(Run(events).srtt, rtt)
    ensures rtt - 8 < Run(events + seq(steps, _ => Success(rtt))).srtt <= rtt
  {
    RepeatedSuccess(events, rtt, steps);
    SteadyConverges(Run(events).srtt, rtt, steps);
  }

  /** From any history, a constant time r also brings the timeout into (r - 16, r + 21] and keeps it there. */
  lemma TimeoutIsLearned(events: seq<Event>, rtt: nat, steps: nat)
    requires steps >= 2 * AbsDiff(Run(events).srtt, rtt) + Run(events).rttVar + 8
    ensures var t := Run(events + seq(steps, _ => Success(rtt)));
            && rtt - t.srtt - 4 < t.rttVar <= rtt - t.srtt
            && rtt - 16 < Timeout(t) <= rtt + 21
  {
    RepeatedSuccess(events, rtt, steps);
    SteadyTimeout(Run(events).srtt, Run(events).rttVar, rtt, steps);
  }

  lemma SteadyTimeout(srtt: nat, rttVar: nat, rtt: nat, steps: nat)
    requires steps >= 2 * AbsDiff(srtt, rtt) + rttVar + 8
    ensures var s, v := Steady(srtt, rtt, steps), SteadyVar(srtt, rttVar, rtt, steps);
            rtt - 8 < s <= rtt && rtt - s - 4 < v <= rtt - s
  {
    var n := AbsDiff(srtt, rtt) + 1;
    SteadySplits(srtt, rttVar, rtt, n, steps - n);
    SteadyConverges(srtt, rtt, n);
    VarianceStaysBelow(srtt, rttVar, rtt, n);
    if rtt > 0 {
      SteadyIsPositive(srtt, rtt, n);
    }
    SteadyStays(Steady(srtt, rtt, n), rtt, steps - n);
    VarianceSettles(Steady(srtt, rtt, n), SteadyVar(srtt, rttVar, rtt, n), rtt, steps - n);
  }

  lemma {:induction false} SteadyStays(srtt: nat, rtt: nat, steps: nat)
    requires rtt - 8 < srtt <= rtt && (srtt > 0 || rtt == 0)
    ensures Steady(srtt, rtt, steps) == srtt
    decreases steps
  {
    if steps == 0 {
    } else {
      SmoothedMoves(srtt, rtt);
      SteadyStays(srtt, rtt, steps - 1);
    }
  }

  // ---- What the tracker counts ----

  /** The round-trip times of the successes, in order. */
  function Times(events: seq<Event>): seq<nat> {
    if events == [] then []
    else
      var last := events[|events| - 1];
      Times(events[..|events| - 1]) + if last.Success? then [last.rtt] else []
  }

  function TrailingSuccesses(events: seq<Event>): nat {
    if events == [] || events[|events| - 1].Failure? then 0
    else 1 + TrailingSuccesses(events[..|events| - 1])
  }

  /** The last eight times, the successes since the last failure, all checks, and all answers. */
  lemma {:induction false} TrackerCounts(events: seq<Event>)
    ensures var t, times := Run(events), Times(events);
            && t.samples == times[|times| - Min(8, |times|)..]
            && t.successfulChecks == TrailingSuccesses(events)
            && t.probesSent == |events| && t.probesReceived == |times|
    decreases |events|
  {
    if events == [] {
    } else {
      var front, last := events[..|events| - 1], events[|events| - 1];
      TrackerCounts(front);
      if last.Failure? {
        assert Times(events) == Times(front);
      }
    }
  }

  // ---- The failure detector ----

  /** How many checks at the end of the history failed in a row. */
  function TrailingFailures(events: seq<Event>): nat {
    if events == [] || events[|events| - 1].Success? then 0
    else 1 + TrailingFailures(events[..|events| - 1])
  }

  /** The state is a function of the length of the trailing run of failures and of whether a check ever succeeded. */
  lemma {:induction false} StateIsTrailingFailures(events: seq<Event>)
    ensures var t, f := Run(events), TrailingFailures(events);
            && t.failedChecks == f
            && (t.state == Failed <==> f >= 5)
            && (t.state == Disconnected <==> 3 <= f < 5)
            && (t.state == Connected <==> f < 3 && HasSample(events))
            && (t.state == New <==> f < 3 && !HasSample(events))
    decreases |events|
  {
    if events == [] {
    } else {
      var n := |events| - 1;
      StateIsTrailingFailures(events[..n]);
      LastSample(events);
    }
  }

  lemma LastSample(events: seq<Event>)
    requires events != []
    ensures var n := |events| - 1;
            HasSample(events) <==> HasSample(events[..n]) || events[n].Success?
  {
    var n := |events| - 1;
    if HasSample(events[..n]) {
      var i :| 0 <= i < n && events[..n][i].Success?;
      assert events[i].Success?;
    }
    if HasSample(events) {
      var i :| 0 <= i < |events| && events[i].Success?;
      assert i < n ==> events[..n][i].Success?;
    }
  }

  /** Failed means exactly that the last five checks, at least, all failed. */
  lemma FailedMeansFiveFailures(events: seq<Event>)
    ensures Run(events).state == Failed <==>
            |events| >= 5 && forall i :: |events| - 5 <= i < |events| ==> events[i].Failure?
  {
    StateIsTrailingFailures(events);
    if |events| >= 5 {
      var n := |events|;
      TrailingAtLeast(events, 5);
    } else {
      TrailingFits(events);
    }
  }

  lemma {:induction false} TrailingAtLeast(events: seq<Event>, k: nat)
    requires k <= |events|
    ensures TrailingFailures(events) >= k <==> forall i :: |events| - k <= i < |events| ==> events[i].Failure?
    decreases k
  {
    if k == 0 {
    } else {
      var n := |events| - 1;
      if events[n].Failure? {
        TrailingAtLeast(events[..n], k - 1);
        assert forall i :: 0 <= i < n ==> events[..n][i] == events[i];
      }
    }
  }

  lemma {:induction false} TrailingFits(events: seq<Event>)
    ensures TrailingFailures(events) <= |events|
    decreases |events|
  {
    if events == [] {
    } else {
      TrailingFits(events[..|events| - 1]);
    }
  }

  class PeerConnectivity {
    var state: ConnectionState
    var failedChecks: nat
    var successfulChecks: nat
    var rttSamples: seq<nat>
    var srttUs: nat
    var rttVarUs: nat
    var probesSent: nat
    var probesReceived: nat

    ghost function View(): Tracker
      reads this
    {
      Tracker(state, failedChecks, successfulChecks, rttSamples, srttUs, rttVarUs, probesSent, probesReceived)
    }

    constructor ()
      ensures View() == Run([])
    {
      state, failedChecks, successfulChecks, rttSamples := New, 0, 0, [];
      srttUs, rttVarUs, probesSent, probesReceived := 0, 0, 0, 0;
    }

    method RecordSuccess(rttUs: nat)
      modifies this
      ensures View() == Apply(old(View()), Success(rttUs))
      ensures old(srttUs) == 0 ==> srttUs == rttUs && 2 * rttVarUs <= rttUs <= 2 * rttVarUs + 1
      ensures old(srttUs) != 0 ==>
                && 8 * srttUs <= 7 * old(srttUs) + rttUs < 8 * srttUs + 8
                && 4 * rttVarUs <= 3 * old(rttVarUs) + Max(rttUs - old(srttUs), old(srttUs) - rttUs) < 4 * rttVarUs + 4
    {
      probesSent := probesSent + 1;
      successfulChecks := successfulChecks + 1;
      failedChecks := 0;
      state := Connected;
      rttSamples := rttSamples + [rttUs];
      if |rttSamples| > 8 {
        rttSamples := rttSamples[1..];
      }
      if srttUs == 0 {
        srttUs := rttUs;
        rttVarUs := rttUs / 2;
      } else {
        var delta := AbsDiff(rttUs, srttUs);
        rttVarUs := (3 * rttVarUs + delta) / 4;
        srttUs := (7 * srttUs + rttUs) / 8;
      }
      probesReceived := probesReceived + 1;
    }

    method RecordFailure()
      modifies this
      ensures View() == Apply(old(View()), Failure)
    {
      failedChecks := failedChecks + 1;
      successfulChecks := 0;
      if failedChecks >= 3 {
        state := Disconnected;
      }
      if failedChecks >= 5 {
        state := Failed;
      }
      probesSent := probesSent + 1;
    }

    method RttTimeout() returns (micros: nat)
      ensures micros == Timeout(View()) == srttUs + 4 * rttVarUs
    {
      micros := srttUs + 4 * rttVarUs;
    }

    method IsDead() returns (dead: bool)
      ensures dead <==> state == Failed
    {
      dead := state.Failed?;
    }
  }
}
