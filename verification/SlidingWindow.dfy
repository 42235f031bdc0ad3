/**
 The timestamp log (crates/summer-common/src/rate_limit/algorithms.rs:194-241).
 Each call runs under the bucket's lock: it drops expired timestamps from the
 front, then refuses or appends the current one.
 */
module SlidingWindow {
  import opened Wrappers
  import opened I64
  import opened Gcra

  function DropExpired(entries: seq<int>, cutoff: int): seq<int> {
    if entries != [] && entries[0] <= cutoff then DropExpired(entries[1..], cutoff) else entries
  }

  function ResetFromFront(entries: seq<int>, window: int, now: int): int {
    if entries == [] then 0 else AsU64(Max(entries[0] + window - now, 0))
  }

  datatype WindowOutcome = WindowOutcome(entries: seq<int>, decision: Decision)

  function SlidingCheck(window: int, limit: UInt32, entries: seq<int>, now: int): WindowOutcome {
    var kept := DropExpired(entries, now - window);
    if AsU32(|kept|) >= limit then
      var retry := ResetFromFront(kept, window, now);
      WindowOutcome(kept, Rejected(Metadata(limit, 0, retry, Some(retry))))
    else
      var grown := kept + [now];
      WindowOutcome(
        grown, Allowed(Metadata(limit, Max(limit - AsU32(|grown|), 0), ResetFromFront(grown, window, now), None)))
  }

  // ----- reference: the whole history of accepted timestamps -----

  // The timestamps later than the cutoff, in order.
  function Recent(times: seq<int>, cutoff: int): seq<int> {
    if times == [] then []
    else
      var last := times[|times| - 1];
      Recent(times[..|times| - 1], cutoff) + (if last > cutoff then [last] else [])
  }

  ghost predicate Sorted(times: seq<int>) {
    forall i, j :: 0 <= i < j < |times| ==> times[i] <= times[j]
  }

  // The state and the accepted timestamps after the first k calls.
  function Entries(window: int, limit: UInt32, clocks: seq<int>, k: nat): seq<int>
    requires k <= |clocks|
  {
    if k == 0 then []
    else SlidingCheck(window, limit, Entries(window, limit, clocks, k - 1), clocks[k - 1]).entries
  }

  predicate AcceptedCall(window: int, limit: UInt32, clocks: seq<int>, k: nat)
    requires k < |clocks|
  {
    SlidingCheck(window, limit, Entries(window, limit, clocks, k), clocks[k]).decision.Allowed?
  }

  function AcceptedTimes(window: int, limit: UInt32, clocks: seq<int>, k: nat): seq<int>
    requires k <= |clocks|
  {
    if k == 0 then []
    else
      AcceptedTimes(window, limit, clocks, k - 1)
      + (if AcceptedCall(window, limit, clocks, k - 1) then [clocks[k - 1]] else [])
  }

  lemma {:induction false} RecentKeepsAll(times: seq<int>, cutoff: int)
    requires forall i :: 0 <= i < |times| ==> times[i] > cutoff
    ensures Recent(times, cutoff) == times
  {
    if times != [] {
      RecentKeepsAll(times[..|times| - 1], cutoff);
    }
  }

  lemma {:induction false} RecentSkipsFront(times: seq<int>, cutoff: int)
    requires times != [] && times[0] <= cutoff
    ensures Recent(times, cutoff) == Recent(times[1..], cutoff)
  {
    if |times| > 1 {
      var prefix := times[..|times| - 1];
      RecentSkipsFront(prefix, cutoff);
      assert times[1..][..|times| - 2] == prefix[1..];
    } else {
      assert times[..0] == [] && times[1..] == [];
    }
  }

  // Popping from the front of a sorted log is filtering it.
  lemma {:induction false} DropIsFilter(entries: seq<int>, cutoff: int)
    requires Sorted(entries)
    ensures DropExpired(entries, cutoff) == Recent(entries, cutoff)
    decreases |entries|
  {
    if entries != [] && entries[0] <= cutoff {
      DropIsFilter(entries[1..], cutoff);
      RecentSkipsFront(entries, cutoff);
    } else {
      RecentKeepsAll(entries, cutoff);
    }
  }

  // Timestamps dropped at an earlier cutoff do not matter at a later one.
  lemma {:induction false} RecentTwice(times: seq<int>, early: int, late: int)
    requires early <= late
    ensures Recent(Recent(times, early), late) == Recent(times, late)
  {
    if times != [] {
      var prefix, last := times[..|times| - 1], times[|times| - 1];
      RecentTwice(prefix, early, late);
      if last > early {
        var kept := Recent(prefix, early);
        assert (kept + [last])[..|kept|] == kept;
      } else {
        assert Recent(times, early) == Recent(prefix, early);
      }
    }
  }

  lemma SortedAppend(times: seq<int>, last: int)
    requires Sorted(times) && forall x :: x in times ==> x <= last
    ensures Sorted(times + [last])
  {
    assert forall i :: 0 <= i < |times| ==> times[i] in times;
  }

  lemma {:induction false} RecentSorted(times: seq<int>, cutoff: int)
    requires Sorted(times)
    ensures Sorted(Recent(times, cutoff))
    ensures forall x :: x in Recent(times, cutoff) ==> x in times && x > cutoff
  {
    if times != [] {
      var prefix, last := times[..|times| - 1], times[|times| - 1];
      RecentSorted(prefix, cutoff);
      forall x | x in Recent(prefix, cutoff)
        ensures x <= last
      {
        var i :| 0 <= i < |prefix| && prefix[i] == x;
        assert times[i] <= times[|times| - 1];
      }
      SortedAppend(Recent(prefix, cutoff), last);
    }
  }

  ghost predicate ValidWindow(window: int, limit: UInt32, clocks: seq<int>) {
    && 1 <= window <= 86_400_000 && 1 <= limit && Sorted(clocks)
    && (forall k :: 0 <= k < |clocks| ==> ValidClock(clocks[k]))
  }

  lemma {:induction false} AcceptedSorted(window: int, limit: UInt32, clocks: seq<int>, k: nat)
    requires ValidWindow(window, limit, clocks) && k <= |clocks|
    ensures Sorted(AcceptedTimes(window, limit, clocks, k))
    ensures forall x :: x in AcceptedTimes(window, limit, clocks, k) ==>
              ValidClock(x) && (k > 0 ==> x <= clocks[k - 1])
  {
    hide SlidingCheck, AcceptedCall;
    if k > 0 {
      AcceptedSorted(window, limit, clocks, k - 1);
      var times := AcceptedTimes(window, limit, clocks, k - 1);
      if k > 1 {
        assert clocks[k - 2] <= clocks[k - 1];
      }
      assert forall x :: x in times ==> x <= clocks[k - 1];
      SortedAppend(times, clocks[k - 1]);
    }
  }

  // One call on a log that holds the accepted timestamps after `early`.
  lemma OneCall(window: int, limit: UInt32, times: seq<int>, early: int, now: int)
    requires 1 <= window && 1 <= limit && Sorted(times) && early <= now - window
    requires |Recent(times, early)| <= limit
    ensures var out := SlidingCheck(window, limit, Recent(times, early), now);
            var times' := times + (if out.decision.Allowed? then [now] else []);
            && out.entries == Recent(times', now - window)
            && |out.entries| <= limit
            && (out.decision.Allowed? <==> |Recent(times, now - window)| < limit)
            && (!out.decision.Allowed? ==>
                  && |out.entries| == limit
                  && out.decision.meta.retryAfterMs == Some(ResetFromFront(out.entries, window, now)))
  {
    RecentSorted(times, early);
    RecentTwice(times, early, now - window);
    DropIsFilter(Recent(times, early), now - window);
    RecentNoLonger(Recent(times, early), now - window);
    assert (times + [now])[..|times|] == times;
    assert times + [] == times;
  }

  // With a non-decreasing clock: after every call the log is exactly the
  // accepted timestamps of the last window, never more than the limit; a call
  // was accepted exactly when fewer than `limit` accepted timestamps lay there.
  lemma {:induction false} LogIsTheWindow(window: int, limit: UInt32, clocks: seq<int>, k: nat)
    requires ValidWindow(window, limit, clocks) && 1 <= k <= |clocks|
    ensures Entries(window, limit, clocks, k)
            == Recent(AcceptedTimes(window, limit, clocks, k), clocks[k - 1] - window)
    ensures |Entries(window, limit, clocks, k)| <= limit
    ensures AcceptedCall(window, limit, clocks, k - 1)
            <==> |Recent(AcceptedTimes(window, limit, clocks, k - 1), clocks[k - 1] - window)| < limit
    ensures !AcceptedCall(window, limit, clocks, k - 1) ==> |Entries(window, limit, clocks, k)| == limit
  {
    hide SlidingCheck, Recent;
    AcceptedSorted(window, limit, clocks, k - 1);
    if k > 1 {
      LogIsTheWindow(window, limit, clocks, k - 1);
      assert clocks[k - 2] <= clocks[k - 1];
      OneCall(window, limit, AcceptedTimes(window, limit, clocks, k - 1), clocks[k - 2] - window, clocks[k - 1]);
    } else {
      RecentKeepsAll([], clocks[0] - window);
      OneCall(window, limit, [], clocks[0] - window, clocks[0]);
    }
  }

  lemma {:induction false} RecentNoLonger(times: seq<int>, cutoff: int)
    ensures |Recent(times, cutoff)| <= |times|
  {
    if times != [] {
      RecentNoLonger(times[..|times| - 1], cutoff);
    }
  }

  // A full log admits again once its oldest entry has left the window.
  lemma FullLogRetry(window: int, limit: UInt32, kept: seq<int>, now: int, wait: nat)
    requires 1 <= window <= 86_400_000 && 1 <= limit && Sorted(kept) && |kept| == limit
    requires ValidClock(now) && kept[0] > now - window && ValidClock(kept[0])
    ensures SlidingCheck(window, limit, kept, now + wait).decision.Allowed?
            <==> wait >= ResetFromFront(kept, window, now)
  {
    var cutoff := now + wait - window;
    if kept[0] <= cutoff {
      DropIsFilter(kept[1..], cutoff);
      RecentNoLonger(kept[1..], cutoff);
    }
  }

  // After a refusal, if nothing else is accepted meanwhile, the next call is
  // refused after every wait shorter than `retry_after` and accepted from then on.
  lemma RetryIsLeastWait(window: int, limit: UInt32, clocks: seq<int>, k: nat, wait: nat)
    requires ValidWindow(window, limit, clocks) && k < |clocks|
    requires !AcceptedCall(window, limit, clocks, k)
    ensures var out := SlidingCheck(window, limit, Entries(window, limit, clocks, k), clocks[k]);
            && out.decision.meta.retryAfterMs.Some?
            && (SlidingCheck(window, limit, out.entries, clocks[k] + wait).decision.Allowed?
                <==> wait >= out.decision.meta.retryAfterMs.value)
  {
    var now := clocks[k];
    var times := AcceptedTimes(window, limit, clocks, k + 1);
    RefusalMetadata(window, limit, Entries(window, limit, clocks, k), now);
    hide SlidingCheck, Recent, ResetFromFront;
    LogIsTheWindow(window, limit, clocks, k + 1);
    AcceptedSorted(window, limit, clocks, k + 1);
    RecentSorted(times, now - window);
    var kept := Entries(window, limit, clocks, k + 1);
    assert kept[0] in times;
    FullLogRetry(window, limit, kept, now, wait);
  }

  lemma RefusalMetadata(window: int, limit: UInt32, entries: seq<int>, now: int)
    ensures var out := SlidingCheck(window, limit, entries, now);
            !out.decision.Allowed? ==>
              out.decision.meta.retryAfterMs == Some(ResetFromFront(out.entries, window, now))
  {
  }

  // ----- the numbers of an accepted call -----

  // The log after `more` further calls at the same clock.
  function Again(window: int, limit: UInt32, entries: seq<int>, now: int, more: nat): seq<int> {
    if more == 0 then entries
    else SlidingCheck(window, limit, Again(window, limit, entries, now, more - 1), now).entries
  }

  lemma {:induction false} AgainGrows(window: int, limit: UInt32, entries: seq<int>, now: int, more: nat)
    requires 1 <= window && entries != [] && entries[0] > now - window && |entries| <= limit
    ensures var log := Again(window, limit, entries, now, more);
            && entries <= log && |log| == Min(|entries| + more, limit)
            && (SlidingCheck(window, limit, log, now).decision.Allowed? <==> |entries| + more < limit)
  {
    if more > 0 {
      AgainGrows(window, limit, entries, now, more - 1);
    }
  }

  lemma CallMetadata(window: int, limit: UInt32, entries: seq<int>, now: int)
    requires 1 <= window && 1 <= limit
    ensures var out := SlidingCheck(window, limit, entries, now);
            && out.decision.meta.limit == limit
            && out.decision.meta.resetAfterMs == ResetFromFront(out.entries, window, now)
            && (out.decision.Allowed? && |out.entries| <= limit ==>
                  && out.decision.meta.remaining == limit - |out.entries|
                  && out.entries != [] && out.entries[0] > now - window)
  {
    FrontIsKept(entries, now - window);
  }

  // After an accepted call exactly `remaining` more calls at the same clock pass.
  lemma CallsRemaining(window: int, limit: UInt32, clocks: seq<int>, k: nat, more: nat)
    requires ValidWindow(window, limit, clocks) && k < |clocks| && AcceptedCall(window, limit, clocks, k)
    ensures var out := SlidingCheck(window, limit, Entries(window, limit, clocks, k), clocks[k]);
            && out.decision.meta.limit == limit
            && (SlidingCheck(window, limit, Again(window, limit, out.entries, clocks[k], more), clocks[k])
                  .decision.Allowed?
                <==> more < out.decision.meta.remaining)
  {
    hide SlidingCheck, Recent, AcceptedTimes, Again;
    LogIsTheWindow(window, limit, clocks, k + 1);
    var entries, now := Entries(window, limit, clocks, k), clocks[k];
    CallMetadata(window, limit, entries, now);
    AgainGrows(window, limit, SlidingCheck(window, limit, entries, now).entries, now, more);
  }

  lemma {:induction false} FrontIsKept(entries: seq<int>, cutoff: int)
    ensures var kept := DropExpired(entries, cutoff); kept == [] || kept[0] > cutoff
    decreases |entries|
  {
    if entries != [] && entries[0] <= cutoff {
      FrontIsKept(entries[1..], cutoff);
    }
  }

  // `reset_after` is the least wait after which the oldest timestamp of the log has left it.
  lemma ResetIsLeastWait(window: int, limit: UInt32, clocks: seq<int>, k: nat, wait: nat)
    requires ValidWindow(window, limit, clocks) && k < |clocks|
    ensures var out := SlidingCheck(window, limit, Entries(window, limit, clocks, k), clocks[k]);
            DropExpired(out.entries, clocks[k] + wait - window) != out.entries
            <==> out.decision.meta.resetAfterMs <= wait
  {
    hide SlidingCheck, Recent, AcceptedTimes, DropExpired;
    var out := SlidingCheck(window, limit, Entries(window, limit, clocks, k), clocks[k]);
    LogIsTheWindow(window, limit, clocks, k + 1);
    CallMetadata(window, limit, Entries(window, limit, clocks, k), clocks[k]);
    AcceptedSorted(window, limit, clocks, k + 1);
    RecentSorted(AcceptedTimes(window, limit, clocks, k + 1), clocks[k] - window);
    assert out.entries == Entries(window, limit, clocks, k + 1);
    assert out.entries[0] in AcceptedTimes(window, limit, clocks, k + 1);
    DropShortens(out.entries, clocks[k] + wait - window);
  }

  lemma {:induction false} DropShortens(entries: seq<int>, cutoff: int)
    requires entries != []
    ensures DropExpired(entries, cutoff) != entries <==> entries[0] <= cutoff
    ensures |DropExpired(entries, cutoff)| <= |entries|
    decreases |entries|
  {
    if entries[0] <= cutoff && |entries| > 1 {
      DropShortens(entries[1..], cutoff);
    }
  }
}
