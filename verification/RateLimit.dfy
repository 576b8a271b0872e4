/** The sliding-window rate limiter of the API. Times are seconds of a clock that never goes back. */
module RateLimit {

  datatype Call = Call(key: string, at: real, accepted: bool)

  const WINDOW := 60.0

  function Last<T>(s: seq<T>): T
    requires s != []
  {
    s[|s| - 1]
  }

  /** The times, oldest first, of the accepted calls of a key from a given time on. */
  function Accepted(history: seq<Call>, key: string, from: real): (times: seq<real>)
  {
    if history == [] then []
    else
      var call := Last(history);
      var earlier := Accepted(history[..|history| - 1], key, from);
      if call.key == key && call.accepted && call.at >= from then earlier + [call.at] else earlier
  }

  /** How many accepted calls of a key lie in the closed interval from `a` to `b`. */
  function CountIn(history: seq<Call>, key: string, a: real, b: real): nat {
    if history == [] then 0
    else
      var call := Last(history);
      CountIn(history[..|history| - 1], key, a, b) +
      if call.key == key && call.accepted && a <= call.at <= b then 1 else 0
  }

  /** The accepted calls of a key in a closed interval, by their places in the history. */
  function AcceptedIn(history: seq<Call>, key: string, a: real, b: real): set<nat> {
    set i: nat | i < |history| && history[i].key == key && history[i].accepted && a <= history[i].at <= b
  }

  lemma {:induction false} CountsAccepted(history: seq<Call>, key: string, a: real, b: real)
    ensures CountIn(history, key, a, b) == |AcceptedIn(history, key, a, b)|
  {
    if history == [] {
      assert AcceptedIn(history, key, a, b) == {};
    } else {
      hide AcceptedIn;
      var n := |history| - 1;
      var front := history[..n];
      CountsAccepted(front, key, a, b);
      AcceptedGrows(history, key, a, b);
    }
  }

  lemma AcceptedGrows(history: seq<Call>, key: string, a: real, b: real)
    requires history != []
    ensures var n, call := |history| - 1, Last(history);
            var before := AcceptedIn(history[..n], key, a, b);
            && n !in before
            && AcceptedIn(history, key, a, b) ==
               if call.key == key && call.accepted && a <= call.at <= b then before + {n} else before
  {
    var n := |history| - 1;
    var before, after := AcceptedIn(history[..n], key, a, b), AcceptedIn(history, key, a, b);
    forall i: nat | i < n ensures i in before <==> i in after {
      assert history[..n][i] == history[i];
    }
  }

  /** With a clock that never goes back, the look-back sees the whole of the last interval. */
  lemma {:induction false} LookbackCounts(history: seq<Call>, key: string, from: real, now: real)
    requires Ordered(history) && (history != [] ==> Last(history).at <= now)
    ensures |Accepted(history, key, from)| == CountIn(history, key, from, now)
  {
    if history != [] {
      var front := history[..|history| - 1];
      if front != [] {
        assert Last(front).at <= Last(history).at;
      }
      LookbackCounts(front, key, from, now);
    }
  }

  ghost predicate Ordered(history: seq<Call>) {
    forall i, j :: 0 <= i < j < |history| ==> history[i].at <= history[j].at
  }

  /** Each call was accepted exactly when fewer than `limit` earlier accepted calls of its key
      lay in the 60 seconds up to it. */
  ghost predicate Fair(history: seq<Call>, limit: nat) {
    history != [] ==>
      var front, call := history[..|history| - 1], Last(history);
      && Fair(front, limit)
      && (call.accepted <==> |Accepted(front, call.key, call.at - WINDOW)| < limit)
  }

  /** In a fair history no closed window of 60 seconds, wherever it starts, holds more than
      `limit` accepted calls of a key. */
  lemma {:induction false} NoWindowExceedsLimit(history: seq<Call>, limit: nat, key: string, start: real)
    requires Ordered(history) && Fair(history, limit)
    ensures CountIn(history, key, start, start + WINDOW) <= limit
  {
    if history != [] {
      var front, call := history[..|history| - 1], Last(history);
      NoWindowExceedsLimit(front, limit, key, start);
      if call.key == key && call.accepted && start <= call.at <= start + WINDOW {
        WindowIsWithinLookback(front, key, start, start + WINDOW, call.at - WINDOW);
      }
    }
  }

  lemma {:induction false} WindowIsWithinLookback(history: seq<Call>, key: string, a: real, b: real, from: real)
    requires from <= a
    ensures CountIn(history, key, a, b) <= |Accepted(history, key, from)|
  {
    if history != [] {
      WindowIsWithinLookback(history[..|history| - 1], key, a, b, from);
    }
  }

  // ---------- The queue against the history ----------

  /** The times of a queue from a given time on. */
  function From(times: seq<real>, from: real): seq<real> {
    if times == [] then []
    else (From(times[..|times| - 1], from)) + if Last(times) >= from then [Last(times)] else []
  }

  lemma {:induction false} FromSplits(a: seq<real>, b: seq<real>, from: real)
    ensures From(a + b, from) == From(a, from) + From(b, from)
  {
    if b == [] {
      assert a + b == a;
    } else {
      assert (a + b)[..|a + b| - 1] == a + b[..|b| - 1];
      FromSplits(a, b[..|b| - 1], from);
    }
  }

  lemma {:induction false} FromKeepsRecent(times: seq<real>, from: real)
    requires forall i :: 0 <= i < |times| ==> times[i] >= from
    ensures From(times, from) == times
  {
    if times != [] {
      FromKeepsRecent(times[..|times| - 1], from);
    }
  }

  lemma {:induction false} AcceptedNarrows(history: seq<Call>, key: string, early: real, late: real)
    requires early <= late
    ensures From(Accepted(history, key, early), late) == Accepted(history, key, late)
  {
    if history != [] {
      var front, call := history[..|history| - 1], Last(history);
      AcceptedNarrows(front, key, early, late);
      var more := if call.key == key && call.accepted && call.at >= early then [call.at] else [];
      FromSplits(Accepted(front, key, early), more, late);
      assert more != [] ==> more[..|more| - 1] == [];
    }
  }

  lemma {:induction false} AcceptedIsSorted(history: seq<Call>, key: string, from: real)
    requires Ordered(history)
    ensures var times := Accepted(history, key, from);
            && (forall i, j :: 0 <= i < j < |times| ==> times[i] <= times[j])
            && (forall i :: 0 <= i < |times| ==> from <= times[i])
            && (times != [] ==> history != [] && Last(times) <= Last(history).at)
  {
    if history != [] {
      AcceptedIsSorted(history[..|history| - 1], key, from);
    }
  }

  lemma {:induction false} NoCallsNoneAccepted(history: seq<Call>, key: string, from: real)
    requires forall c :: c in history ==> c.key != key
    ensures Accepted(history, key, from) == []
  {
    if history != [] {
      assert Last(history) in history;
      NoCallsNoneAccepted(history[..|history| - 1], key, from);
    }
  }

  /** Each queue is exactly the accepted calls of its key since that key's last cutoff. */
  ghost predicate Matches(history: seq<Call>, limit: nat, events: map<string, seq<real>>, pruned: map<string, real>) {
    && Ordered(history) && Fair(history, limit)
    && pruned.Keys == events.Keys
    && (forall key {:trigger QueueMatches(history, limit, events[key], key, pruned[key])} ::
          key in events ==> QueueMatches(history, limit, events[key], key, pruned[key]))
    && (forall c :: c in history ==> c.key in events)
  }

  ghost predicate QueueMatches(history: seq<Call>, limit: nat, queue: seq<real>, key: string, cutoff: real) {
    && history != [] && cutoff <= Last(history).at - WINDOW
    && queue == Accepted(history, key, cutoff) && |queue| <= limit
  }

  /** The queue of a key, empty for a key not seen before. */
  function Queue(events: map<string, seq<real>>, key: string): seq<real> {
    if key in events then events[key] else []
  }

  predicate Sorted(times: seq<real>) {
    forall i, j :: 0 <= i < j < |times| ==> times[i] <= times[j]
  }

  lemma QueueHoldsTheWindow(history: seq<Call>, limit: nat, events: map<string, seq<real>>,
                            pruned: map<string, real>, key: string, now: real)
    requires Matches(history, limit, events, pruned)
    requires history != [] ==> Last(history).at <= now
    ensures Sorted(Queue(events, key)) && |Queue(events, key)| <= limit
    ensures From(Queue(events, key), now - WINDOW) == Accepted(history, key, now - WINDOW)
  {
    if key in events {
      assert QueueMatches(history, limit, events[key], key, pruned[key]);
      AcceptedIsSorted(history, key, pruned[key]);
      AcceptedNarrows(history, key, pruned[key], now - WINDOW);
    } else {
      NoCallsNoneAccepted(history, key, now - WINDOW);
    }
  }

  lemma AcceptedGrowsBy(history: seq<Call>, call: Call, key: string, from: real)
    ensures Accepted(history + [call], key, from) ==
            Accepted(history, key, from) + if call.key == key && call.accepted && call.at >= from then [call.at] else []
  {
    var longer := history + [call];
    assert longer[..|longer| - 1] == history && Last(longer) == call;
  }

  lemma LongerIsFair(history: seq<Call>, limit: nat, call: Call)
    requires Ordered(history) && Fair(history, limit) && (history != [] ==> Last(history).at <= call.at)
    requires call.accepted <==> |Accepted(history, call.key, call.at - WINDOW)| < limit
    ensures Ordered(history + [call]) && Fair(history + [call], limit)
  {
    hide Accepted;
    var longer := history + [call];
    assert longer[..|longer| - 1] == history && Last(longer) == call;
    if history != [] {
      forall i | 0 <= i < |history| ensures history[i].at <= call.at {
        assert history[i].at <= history[|history| - 1].at;
      }
    }
  }

  lemma RecordedCallKeepsMatch(history: seq<Call>, limit: nat, events: map<string, seq<real>>,
                               pruned: map<string, real>, call: Call)
    requires Matches(history, limit, events, pruned)
    requires history != [] ==> Last(history).at <= call.at
    requires call.accepted <==> |Accepted(history, call.key, call.at - WINDOW)| < limit
    requires |Accepted(history, call.key, call.at - WINDOW)| <= limit
    ensures var cutoff := call.at - WINDOW;
            var recent := Accepted(history, call.key, cutoff);
            var queue := if call.accepted then recent + [call.at] else recent;
            Matches(history + [call], limit, events[call.key := queue], pruned[call.key := cutoff]) &&
            queue == Accepted(history + [call], call.key, cutoff)
  {
    hide Accepted, Ordered, Fair;
    var longer, cutoff := history + [call], call.at - WINDOW;
    assert Last(longer) == call;
    LongerIsFair(history, limit, call);
    AcceptedGrowsBy(history, call, call.key, cutoff);
    forall key | key in events && key != call.key
      ensures QueueMatches(longer, limit, events[key], key, pruned[key])
    {
      assert QueueMatches(history, limit, events[key], key, pruned[key]);
      AcceptedGrowsBy(history, call, key, pruned[key]);
      assert Accepted(history, key, pruned[key]) + [] == Accepted(history, key, pruned[key]);
    }
    assert Accepted(history, call.key, cutoff) + [] == Accepted(history, call.key, cutoff);
  }

  /** Drops the leading entries of a queue that are older than the cutoff. */
  method Prune(queue: seq<real>, cutoff: real) returns (recent: seq<real>)
    requires Sorted(queue)
    ensures recent == From(queue, cutoff)
    ensures |recent| <= |queue|
  {
    recent := queue;
    while recent != [] && recent[0] < cutoff
      invariant Sorted(recent)
      invariant From(recent, cutoff) == From(queue, cutoff) && |recent| <= |queue|
    {
      FromSplits(recent[..1], recent[1..], cutoff);
      assert recent == recent[..1] + recent[1..] && recent[..1][..0] == [];
      recent := recent[1..];
    }
    FromKeepsRecent(recent, cutoff);
  }

  class SlidingWindowRateLimiter {
    const limit: nat
    var events: map<string, seq<real>>
    ghost var history: seq<Call>
    ghost var pruned: map<string, real>  // per key, the cutoff of its last call

    ghost predicate Valid()
      reads this
    {
      Matches(history, limit, events, pruned)
    }

    constructor (requestsPerMinute: nat)
      ensures Valid() && limit == requestsPerMinute && history == [] && events == map[]
    {
      limit, events, history, pruned := requestsPerMinute, map[], [], map[];
    }

    method Check(key: string, now: real) returns (accepted: bool)
      requires Valid()
      requires history != [] ==> Last(history).at <= now
      modifies this
      ensures Valid()
      ensures history == old(history) + [Call(key, now, accepted)]
      ensures accepted <==> |AcceptedIn(old(history), key, now - 60.0, now)| < limit
      ensures events.Keys == old(events).Keys + {key}
      ensures events[key] == Accepted(history, key, now - 60.0)
      ensures forall k :: k in old(events) && k != key ==> events[k] == old(events)[k]
    {
      hide Matches, Accepted, AcceptedIn, CountIn, From, Sorted, Ordered;
      var cutoff := now - WINDOW;
      QueueHoldsTheWindow(history, limit, events, pruned, key, now);
      HistoryIsOrdered();
      LookbackCounts(history, key, cutoff, now);
      CountsAccepted(history, key, cutoff, now);
      var queue := Prune(Queue(events, key), cutoff);
      accepted := |queue| < limit;
      RecordedCallKeepsMatch(history, limit, events, pruned, Call(key, now, accepted));
      if accepted {
        queue := queue + [now];
      }
      events := events[key := queue];
      history := history + [Call(key, now, accepted)];
      pruned := pruned[key := cutoff];
    }

    lemma HistoryIsOrdered()
      requires Valid()
      ensures Ordered(history)
    {
    }

    /** At any time, no closed 60-second window holds more than `limit` accepted calls of a key. */
    lemma WindowsAreBounded(key: string, start: real)
      requires Valid()
      ensures |AcceptedIn(history, key, start, start + 60.0)| <= limit
    {
      NoWindowExceedsLimit(history, limit, key, start);
      CountsAccepted(history, key, start, start + 60.0);
    }
  }
}
