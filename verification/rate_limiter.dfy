/** The sliding-window rate limiter decorator of RateLimiter.py, run
    sequentially. Clock readings are integer parameters: `now` is the
    reading taken before pruning and `after` the reading taken when the new
    call is recorded, after any sleep. The lock is not modelled. */
module RateLimiter {
  import opened Maybe

  datatype Limiter = Limiter(maxCalls: int, period: int, calls: seq<int>)

  /** The outcome of one admission: the new limiter state and the sleep
      requested, if any */
  datatype Admission = Admission(next: Limiter, slept: Option<int>)

  predicate Sorted(s: seq<int>) {
    forall i, j :: 0 <= i < j < |s| ==> s[i] <= s[j]
  }

  /** `sub` is `s` with some elements removed, the rest in their order */
  predicate IsSubseq(sub: seq<int>, s: seq<int>) {
    sub == [] ||
    (s != [] && ((sub[0] == s[0] && IsSubseq(sub[1..], s[1..])) || IsSubseq(sub, s[1..])))
  }

  /** A fresh limiter records no call */
  function New(maxCalls: int, period: int): (l: Limiter)
    ensures l.calls == [] && l.maxCalls == maxCalls && l.period == period
  {
    Limiter(maxCalls, period, [])
  }

  /** The pruning comprehension: keep the calls less than `period` old */
  function Prune(calls: seq<int>, now: int, period: int): (r: seq<int>)
    ensures forall c :: c in r <==> c in calls && now - c < period
    ensures IsSubseq(r, calls)
    ensures |r| <= |calls|
  {
    if calls == [] then []
    else if now - calls[0] < period then [calls[0]] + Prune(calls[1..], now, period)
    else Prune(calls[1..], now, period)
  }

  /** Pruning keeps every young call as often as it was recorded, equal
      timestamps included, and drops every old one */
  lemma {:induction false} PruneCounts(calls: seq<int>, now: int, period: int)
    ensures forall c :: multiset(Prune(calls, now, period))[c] == if now - c < period then multiset(calls)[c] else 0
  {
    if calls != [] {
      PruneCounts(calls[1..], now, period);
      var rest := Prune(calls[1..], now, period);
      assert calls == [calls[0]] + calls[1..];
      if now - calls[0] < period {
        assert multiset([calls[0]] + rest) == multiset{calls[0]} + multiset(rest);
      }
    }
  }

  /** The sleep the limiter asks for when the pruned list is full: the time
      until its oldest call leaves the window, and only when positive */
  function SleepTime(l: Limiter, pruned: seq<int>, now: int): (d: Option<int>)
    requires pruned != []
    ensures d.Some? ==> d.value > 0 && d.value + now - pruned[0] == l.period
    ensures d.None? ==> now - pruned[0] >= l.period
  {
    var t := l.period - (now - pruned[0]);
    if t > 0 then Some(t) else None
  }

  /** One invocation's bookkeeping under the lock: prune, check against
      `maxCalls`, sleep, append. `None` is the IndexError of `calls[0]` on
      an empty list, reachable only when `maxCalls <= 0`. */
  function Admit(l: Limiter, now: int, after: int): (r: Option<Admission>)
    ensures r.None? <==> l.maxCalls <= 0 && Prune(l.calls, now, l.period) == []
    ensures r.Some? ==> r.value.next.calls == Prune(l.calls, now, l.period) + [after]
    ensures r.Some? ==> r.value.next.maxCalls == l.maxCalls && r.value.next.period == l.period
    ensures r.Some? && r.value.slept.Some? ==>
              |Prune(l.calls, now, l.period)| >= l.maxCalls
              && r.value.slept.value > 0
              && r.value.slept.value == l.period - (now - Prune(l.calls, now, l.period)[0])
    ensures r.Some? && r.value.slept.None? ==>
              |Prune(l.calls, now, l.period)| < l.maxCalls
              || now - Prune(l.calls, now, l.period)[0] >= l.period
  {
    var pruned := Prune(l.calls, now, l.period);
    if |pruned| >= l.maxCalls then
      if pruned == [] then None
      else Some(Admission(l.(calls := pruned + [after]), SleepTime(l, pruned, now)))
    else Some(Admission(l.(calls := pruned + [after]), None))
  }

  /** The decorated call: the bookkeeping, then the wrapped function once on
      the original arguments, its result handed back unchanged. When the
      bookkeeping raises, the wrapped function is not called. */
  function Call<A, R>(l: Limiter, now: int, after: int, f: A -> R, args: A): (r: Option<(Admission, R)>)
    ensures r.Some? <==> Admit(l, now, after).Some?
    ensures r.Some? ==> r.value.0 == Admit(l, now, after).value && r.value.1 == f(args)
  {
    match Admit(l, now, after)
    case None => None
    case Some(adm) => Some((adm, f(args)))
  }

  // ---------------------------------------------------------------------
  // Properties of a single admission
  // ---------------------------------------------------------------------

  /** With a monotone clock the recorded calls stay in ascending order, so
      `calls[0]` is the oldest retained call */
  lemma {:induction false} AdmitKeepsSorted(l: Limiter, now: int, after: int)
    requires Sorted(l.calls)
    requires forall i :: 0 <= i < |l.calls| ==> l.calls[i] <= now
    requires now <= after
    requires Admit(l, now, after).Some?
    ensures Sorted(Admit(l, now, after).value.next.calls)
    ensures Admit(l, now, after).value.next.calls[0] <= after
  {
    var pruned := Prune(l.calls, now, l.period);
    SubseqSorted(pruned, l.calls);
    var next := pruned + [after];
    assert forall i :: 0 <= i < |pruned| ==> pruned[i] <= after by {
      forall i | 0 <= i < |pruned| ensures pruned[i] <= after {
        assert pruned[i] in l.calls;
      }
    }
    forall i, j | 0 <= i < j < |next| ensures next[i] <= next[j] {
      if j < |pruned| { assert next[i] == pruned[i] && next[j] == pruned[j]; }
    }
  }

  lemma {:induction false} SubseqSorted(sub: seq<int>, s: seq<int>)
    requires IsSubseq(sub, s) && Sorted(s)
    ensures Sorted(sub)
    decreases |s|
  {
    if sub != [] && s != [] {
      if sub[0] == s[0] && IsSubseq(sub[1..], s[1..]) {
        SubseqSorted(sub[1..], s[1..]);
        SubseqMembers(sub[1..], s[1..]);
        forall i, j | 0 <= i < j < |sub| ensures sub[i] <= sub[j] {
          assert sub[j] == sub[1..][j - 1];
          if i > 0 { assert sub[i] == sub[1..][i - 1]; }
          else {
            assert sub[j] in s[1..];
            var x :| 0 <= x < |s[1..]| && s[1..][x] == sub[j];
            assert s[1..][x] == s[x + 1];
          }
        }
      } else {
        SubseqSorted(sub, s[1..]);
      }
    }
  }

  lemma {:induction false} SubseqMembers(sub: seq<int>, s: seq<int>)
    requires IsSubseq(sub, s)
    ensures forall x :: x in sub ==> x in s
    decreases |s|
  {
    if sub != [] && s != [] {
      if sub[0] == s[0] && IsSubseq(sub[1..], s[1..]) {
        SubseqMembers(sub[1..], s[1..]);
        assert forall x :: x in sub ==> x == sub[0] || x in sub[1..];
      } else {
        SubseqMembers(sub, s[1..]);
      }
    }
  }

  /** After a sleep of at least the requested length, the oldest retained
      call lies outside the new call's window */
  lemma OldestLeavesWindow(l: Limiter, now: int, after: int)
    requires Admit(l, now, after).Some?
    requires Admit(l, now, after).value.slept.Some?
    requires after >= now + Admit(l, now, after).value.slept.value
    ensures after - Prune(l.calls, now, l.period)[0] >= l.period
  {
  }

  // ---------------------------------------------------------------------
  // The window bound
  // ---------------------------------------------------------------------

  /** How many of the recorded timestamps fall in the half-open window
      `(t - period, t]` */
  function CountIn(h: seq<int>, t: int, period: int): (n: nat)
    ensures n <= |h|
  {
    if h == [] then 0
    else (if t - period < h[0] <= t then 1 else 0) + CountIn(h[1..], t, period)
  }

  /** Any `m + 1` consecutive recorded calls span at least `period` */
  predicate Spaced(h: seq<int>, m: int, period: int) {
    m >= 1 && forall i :: 0 <= i && i + m < |h| ==> h[i + m] - h[i] >= period
  }

  lemma {:induction false} CountInAppend(a: seq<int>, b: seq<int>, t: int, period: int)
    ensures CountIn(a + b, t, period) == CountIn(a, t, period) + CountIn(b, t, period)
  {
    if a != [] {
      assert (a + b)[1..] == a[1..] + b;
      CountInAppend(a[1..], b, t, period);
    } else {
      assert a + b == b;
    }
  }

  lemma {:induction false} CountInAbove(h: seq<int>, t: int, period: int)
    requires forall i :: 0 <= i < |h| ==> h[i] > t
    ensures CountIn(h, t, period) == 0
  {
    if h != [] {
      CountInAbove(h[1..], t, period);
    }
  }

  /** The headline bound, stated on a history of recorded calls: no window of
      length `period` holds more than `m` of them */
  lemma {:induction false} WindowBoundOfSpaced(h: seq<int>, m: int, period: int, t: int)
    requires Sorted(h) && Spaced(h, m, period)
    ensures CountIn(h, t, period) <= m
  {
    if h != [] {
      var tail := h[1..];
      assert Spaced(tail, m, period) by {
        forall i | 0 <= i && i + m < |tail| ensures tail[i + m] - tail[i] >= period {
          assert tail[i + m] == h[i + 1 + m] && tail[i] == h[i + 1];
        }
      }
      if t - period < h[0] <= t {
        if |tail| >= m {
          // h[m] >= h[0] + period > t, so everything from h[m] on is outside
          var front, back := tail[..m - 1], tail[m - 1..];
          assert tail == front + back;
          CountInAppend(front, back, t, period);
          forall i | 0 <= i < |back| ensures back[i] > t {
            assert back[i] == h[m + i];
            assert h[m] - h[0] >= period;
          }
          CountInAbove(back, t, period);
        }
      } else {
        WindowBoundOfSpaced(tail, m, period, t);
      }
    }
  }

  /** What the limiter state keeps true of the whole history `h` of recorded
      calls, with `clock` the last clock reading */
  ghost predicate Inv(l: Limiter, h: seq<int>, clock: int) {
    && l.maxCalls >= 1
    && Sorted(h)
    && (forall i :: 0 <= i < |h| ==> h[i] <= clock)
    && |l.calls| <= |h|
    && l.calls == h[|h| - |l.calls|..]
    && (forall i :: 0 <= i < |h| - |l.calls| ==> clock - h[i] >= l.period)
    && Spaced(h, l.maxCalls, l.period)
  }

  /** On an ascending list, pruning keeps a suffix and drops only calls at
      least `period` old */
  lemma {:induction false} PruneSorted(calls: seq<int>, now: int, period: int)
    requires Sorted(calls)
    ensures |Prune(calls, now, period)| <= |calls|
    ensures Prune(calls, now, period) == calls[|calls| - |Prune(calls, now, period)|..]
    ensures forall i :: 0 <= i < |calls| - |Prune(calls, now, period)| ==> now - calls[i] >= period
  {
    if calls != [] {
      var rest := Prune(calls[1..], now, period);
      PruneSorted(calls[1..], now, period);
      if now - calls[0] < period {
        // every later call is at least as recent, so none is dropped
        assert forall i :: 0 < i < |calls| ==> now - calls[i] < period;
        PruneKeepsAll(calls[1..], now, period);
        assert calls == [calls[0]] + calls[1..];
      }
    }
  }

  lemma {:induction false} PruneKeepsAll(calls: seq<int>, now: int, period: int)
    requires forall i :: 0 <= i < |calls| ==> now - calls[i] < period
    ensures Prune(calls, now, period) == calls
  {
    if calls != [] {
      PruneKeepsAll(calls[1..], now, period);
      assert calls == [calls[0]] + calls[1..];
    }
  }

  lemma SuffixSorted(h: seq<int>, c: seq<int>)
    requires Sorted(h) && |c| <= |h| && c == h[|h| - |c|..]
    ensures Sorted(c)
  {
    var n := |h|;
    forall i, j | 0 <= i < j < |c| ensures c[i] <= c[j] {
      assert c[i] == h[n - |c| + i] && c[j] == h[n - |c| + j];
    }
  }

  lemma SuffixOfSuffix(h: seq<int>, c: seq<int>, r: seq<int>)
    requires |c| <= |h| && c == h[|h| - |c|..]
    requires |r| <= |c| && r == c[|c| - |r|..]
    ensures r == h[|h| - |r|..]
  {
    assert forall i :: 0 <= i < |r| ==> r[i] == c[|c| - |r| + i] == h[|h| - |r| + i];
  }

  /** Under `Inv`, the calls that survive pruning are the last ones of the
      history and every earlier call is at least `period` old */
  lemma {:induction false} PrunedIsSuffix(l: Limiter, h: seq<int>, clock: int, now: int)
    requires Inv(l, h, clock)
    requires clock <= now
    ensures |Prune(l.calls, now, l.period)| <= |h|
    ensures Prune(l.calls, now, l.period) == h[|h| - |Prune(l.calls, now, l.period)|..]
    ensures forall i :: 0 <= i < |h| - |Prune(l.calls, now, l.period)| ==> now - h[i] >= l.period
  {
    var p, n := l.period, |h|;
    var c := l.calls;
    SuffixSorted(h, c);
    PruneSorted(c, now, p);
    var pruned := Prune(c, now, p);
    var k := |pruned|;
    SuffixOfSuffix(h, c, pruned);
    forall i | 0 <= i < n - k ensures now - h[i] >= p {
      if i >= n - |c| {
        assert h[i] == c[i - (n - |c|)];
      }
    }
  }

  /** In a spaced history whose calls all precede `now`, the first call of
      any suffix longer than `m` is at least `period` old */
  lemma LongSuffixStartsOld(h: seq<int>, m: int, p: int, now: int, k: nat)
    requires Spaced(h, m, p)
    requires forall i :: 0 <= i < |h| ==> h[i] <= now
    ensures m < k <= |h| ==> now - h[|h| - k] >= p
  {
    if m < k <= |h| {
      var i := |h| - k;
      assert h[i + m] - h[i] >= p && h[i + m] <= now;
    }
  }

  /** Appending a call that is `period` past the call `m` positions back
      keeps the history spaced and ascending */
  lemma {:induction false} SpacedAppend(h: seq<int>, m: int, p: int, a: int)
    requires Sorted(h) && Spaced(h, m, p)
    requires forall i :: 0 <= i < |h| ==> h[i] <= a
    requires |h| >= m ==> a - h[|h| - m] >= p
    ensures Sorted(h + [a]) && Spaced(h + [a], m, p)
  {
    var h' := h + [a];
    var n := |h|;
    forall i, j | 0 <= i < j < |h'| ensures h'[i] <= h'[j] {
      assert h'[i] == h[i];
      if j < n { assert h'[j] == h[j]; }
    }
    forall i | 0 <= i && i + m < |h'| ensures h'[i + m] - h'[i] >= p {
      assert h'[i] == h[i];
      if i + m < n { assert h'[i + m] == h[i + m]; }
    }
  }

  /** Under `Inv`, at most `maxCalls` calls survive pruning */
  lemma PrunedAtMost(l: Limiter, h: seq<int>, clock: int, now: int)
    requires Inv(l, h, clock)
    requires clock <= now
    ensures |Prune(l.calls, now, l.period)| <= l.maxCalls
  {
    var pruned := Prune(l.calls, now, l.period);
    var n, k := |h|, |pruned|;
    PrunedIsSuffix(l, h, clock, now);
    LongSuffixStartsOld(h, l.maxCalls, l.period, now, k);
    if k > 0 {
      assert pruned[0] in pruned && h[n - k] == pruned[0];
    }
  }

  /** The new call is `period` past the call `maxCalls` positions back: either
      that call was already pruned, or it is the oldest retained one and the
      limiter slept until it left the window */
  lemma NewCallSpaced(l: Limiter, h: seq<int>, clock: int, now: int, after: int)
    requires Inv(l, h, clock)
    requires clock <= now <= after
    requires Admit(l, now, after).Some?
    requires Admit(l, now, after).value.slept.Some? ==> after >= now + Admit(l, now, after).value.slept.value
    ensures |h| >= l.maxCalls ==> after - h[|h| - l.maxCalls] >= l.period
  {
    var m, p, n := l.maxCalls, l.period, |h|;
    var pruned := Prune(l.calls, now, p);
    var k := |pruned|;
    PrunedIsSuffix(l, h, clock, now);
    PrunedAtMost(l, h, clock, now);
    if n >= m {
      if k < m {
        assert now - h[n - m] >= p;
      } else {
        assert h[n - m] == pruned[0];
        assert pruned[0] in pruned;
      }
    }
  }

  /** Appending one call to the history and to its retained suffix keeps the
      suffix relation and the age of the dropped prefix */
  lemma SuffixAppend(h: seq<int>, pruned: seq<int>, now: int, after: int, p: int)
    requires |pruned| <= |h| && pruned == h[|h| - |pruned|..]
    requires forall i :: 0 <= i < |h| - |pruned| ==> now - h[i] >= p
    requires now <= after
    ensures pruned + [after] == (h + [after])[|h| - |pruned|..]
    ensures forall i :: 0 <= i < |h| - |pruned| ==> after - (h + [after])[i] >= p
  {
    var h' := h + [after];
    assert h'[|h| - |pruned|..] == h[|h| - |pruned|..] + [after];
    forall i | 0 <= i < |h| - |pruned| ensures after - h'[i] >= p {
      assert h'[i] == h[i];
    }
  }

  /** One admission with a monotone clock and an honoured sleep keeps `Inv`
      on the history extended by the new call */
  lemma {:induction false} AdmitKeepsInv(l: Limiter, h: seq<int>, clock: int, now: int, after: int)
    requires Inv(l, h, clock)
    requires clock <= now <= after
    requires Admit(l, now, after).Some?
    requires Admit(l, now, after).value.slept.Some? ==> after >= now + Admit(l, now, after).value.slept.value
    ensures Inv(Admit(l, now, after).value.next, h + [after], after)
  {
    var m, p := l.maxCalls, l.period;
    var pruned := Prune(l.calls, now, p);
    var next := Admit(l, now, after).value.next;
    assert next.calls == pruned + [after] && next.maxCalls == m && next.period == p;
    PrunedIsSuffix(l, h, clock, now);
    NewCallSpaced(l, h, clock, now, after);
    SpacedAppend(h, m, p, after);
    SuffixAppend(h, pruned, now, after, p);
    var h' := h + [after];
    forall i | 0 <= i < |h'| ensures h'[i] <= after {
      if i < |h| { assert h'[i] == h[i]; }
    }
  }

  /** One step of a run: the two clock readings of one invocation */
  datatype Tick = Tick(now: int, after: int)

  /** The run's environment behaves: the clock never goes back and every
      requested sleep lasts at least as long as asked */
  ghost predicate Honest(l: Limiter, clock: int, ticks: seq<Tick>)
    decreases |ticks|
  {
    ticks == [] ||
    (var t := ticks[0];
     && clock <= t.now <= t.after
     && Admit(l, t.now, t.after).Some?
     && (Admit(l, t.now, t.after).value.slept.Some? ==>
           t.after >= t.now + Admit(l, t.now, t.after).value.slept.value)
     && Honest(Admit(l, t.now, t.after).value.next, t.after, ticks[1..]))
  }

  /** The timestamps a run records, one per invocation */
  function Recorded(ticks: seq<Tick>): (h: seq<int>)
    ensures |h| == |ticks|
    ensures forall i :: 0 <= i < |ticks| ==> h[i] == ticks[i].after
  {
    if ticks == [] then [] else [ticks[0].after] + Recorded(ticks[1..])
  }

  lemma RecordedCons(h: seq<int>, ticks: seq<Tick>)
    requires ticks != []
    ensures h + [ticks[0].after] + Recorded(ticks[1..]) == h + Recorded(ticks)
  {
    assert Recorded(ticks) == [ticks[0].after] + Recorded(ticks[1..]);
  }

  lemma {:induction false} RunKeepsInv(l: Limiter, h: seq<int>, clock: int, ticks: seq<Tick>)
    requires Inv(l, h, clock)
    requires Honest(l, clock, ticks)
    ensures Sorted(h + Recorded(ticks)) && Spaced(h + Recorded(ticks), l.maxCalls, l.period)
    decreases |ticks|
  {
    if ticks == [] {
      assert h + Recorded(ticks) == h;
    } else {
      var t := ticks[0];
      var next := Admit(l, t.now, t.after).value.next;
      assert Inv(next, h + [t.after], t.after) && Honest(next, t.after, ticks[1..]) by {
        AdmitKeepsInv(l, h, clock, t.now, t.after);
      }
      RunKeepsInv(next, h + [t.after], t.after, ticks[1..]);
      RecordedCons(h, ticks);
    }
  }

  /** The decorator's purpose: starting from a fresh limiter with
      `maxCalls >= 1`, under a monotone clock and honoured sleeps, every
      window `(t - period, t]` holds at most `maxCalls` recorded calls */
  lemma {:induction false} WindowBound(maxCalls: int, period: int, clock: int, ticks: seq<Tick>, t: int)
    requires maxCalls >= 1
    requires Honest(New(maxCalls, period), clock, ticks)
    ensures CountIn(Recorded(ticks), t, period) <= maxCalls
  {
    var l := New(maxCalls, period);
    assert Inv(l, [], clock);
    RunKeepsInv(l, [], clock, ticks);
    assert [] + Recorded(ticks) == Recorded(ticks);
    WindowBoundOfSpaced(Recorded(ticks), maxCalls, period, t);
  }
}
