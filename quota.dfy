/** The usage counter of a breakpoint against its optional quota (`breaks` and `max_usage`),
    one call at a time and over a run of calls. */
module Quota {
  import opened Values

  /** `max_usage is None or breaks < max_usage`: the quota still admits a firing. */
  predicate Armed(maxUsage: Option<int>, breaks: int) {
    maxUsage.None? || breaks < maxUsage.value
  }

  /** What one call does to the counter: whether it fired, whether it warned of expiry,
      and the counter afterwards. */
  datatype Tick = Tick(fired: bool, warned: bool, breaks: int)

  /** One call of the breakpoint, given whether it qualifies (always active, forced or
      tagged with an active tag): it fires when it qualifies and the quota is armed; the
      counter is incremented, and the warning is given when it has just reached `max_usage`. */
  function Step(maxUsage: Option<int>, breaks: int, qualifies: bool): (t: Tick)
    ensures t.fired <==> qualifies && Armed(maxUsage, breaks)
    ensures t.breaks == breaks + (if t.fired then 1 else 0)
    ensures t.warned <==> t.fired && maxUsage == Some(t.breaks)
  {
    if qualifies && Armed(maxUsage, breaks) then
      Tick(true, maxUsage == Some(breaks + 1), breaks + 1)
    else
      Tick(false, false, breaks)
  }

  /** A run of calls from counter `breaks`; `calls[i]` says whether call i qualifies. */
  function Run(maxUsage: Option<int>, breaks: int, calls: seq<bool>): (ticks: seq<Tick>)
    ensures |ticks| == |calls|
    ensures forall i :: 0 <= i < |ticks| ==> ticks[i].fired ==> calls[i]
    ensures forall i :: 0 <= i < |ticks| ==>
              (ticks[i].warned <==> ticks[i].fired && maxUsage == Some(ticks[i].breaks))
    decreases |calls|
  {
    if calls == [] then []
    else
      var t := Step(maxUsage, breaks, calls[0]);
      [t] + Run(maxUsage, t.breaks, calls[1..])
  }

  /** Number of `true` entries. */
  function CountTrue(s: seq<bool>): (n: nat)
    ensures n <= |s|
  {
    if s == [] then 0 else (if s[0] then 1 else 0) + CountTrue(s[1..])
  }

  function Min(a: int, b: int): (m: int) {
    if a <= b then a else b
  }

  lemma CountTruePrefix(s: seq<bool>, i: nat)
    requires i < |s|
    ensures CountTrue(s[..i + 1]) == (if s[0] then 1 else 0) + CountTrue(s[1..][..i])
  {
    assert s[..i + 1][1..] == s[1..][..i];
  }

  lemma {:induction false} CountTrueAll(s: seq<bool>)
    requires forall i :: 0 <= i < |s| ==> s[i]
    ensures CountTrue(s) == |s|
  {
    if s != [] {
      CountTrueAll(s[1..]);
    }
  }

  /** The quota with a finite `max_usage = n`: call i fires exactly when it qualifies and
      fewer than `n` firings have happened, counting from `breaks`; the counter then stands
      at the number of qualifying calls so far, capped at `n` (or stays put if the
      breakpoint started out expired). */
  lemma {:induction false} FiresIffWithinQuota(n: int, breaks: int, calls: seq<bool>, i: nat)
    requires i < |calls|
    ensures Run(Some(n), breaks, calls)[i].fired <==> calls[i] && breaks + CountTrue(calls[..i]) < n
    ensures Run(Some(n), breaks, calls)[i].breaks ==
              if breaks < n then Min(n, breaks + CountTrue(calls[..i + 1])) else breaks
    decreases i
  {
    var t := Step(Some(n), breaks, calls[0]);
    assert Run(Some(n), breaks, calls)[i] ==
           if i == 0 then t else Run(Some(n), t.breaks, calls[1..])[i - 1];
    CountTruePrefix(calls, i);
    if i > 0 {
      FiresIffWithinQuota(n, t.breaks, calls[1..], i - 1);
      CountTruePrefix(calls, i - 1);
      assert calls[1..][..i - 1 + 1] == calls[1..][..i];
      assert calls[1..][i - 1] == calls[i];
    }
  }

  /** The expiry warning with a finite `max_usage = n` comes on exactly the qualifying call
      that brings the count of firings up to `n`. */
  lemma WarnsIffReachesQuota(n: int, breaks: int, calls: seq<bool>, i: nat)
    requires i < |calls|
    ensures Run(Some(n), breaks, calls)[i].warned <==> calls[i] && breaks + CountTrue(calls[..i]) + 1 == n
  {
    FiresIffWithinQuota(n, breaks, calls, i);
    CountTruePrefix(calls, i);
    if calls[i] && breaks < n {
      CountTrueLast(calls, i);
    }
  }

  lemma CountTrueLast(s: seq<bool>, i: nat)
    requires i < |s|
    ensures CountTrue(s[..i + 1]) == CountTrue(s[..i]) + (if s[i] then 1 else 0)
  {
    CountTrueAppend(s[..i], [s[i]]);
    assert s[..i] + [s[i]] == s[..i + 1];
  }

  lemma {:induction false} CountTrueAppend(a: seq<bool>, b: seq<bool>)
    ensures CountTrue(a + b) == CountTrue(a) + CountTrue(b)
  {
    if a != [] {
      CountTrueAppend(a[1..], b);
      assert (a + b)[1..] == a[1..] + b;
    } else {
      assert a + b == b;
    }
  }

  /** A fresh breakpoint (`breaks == 0`) with `max_usage = n` called over and over with
      qualifying calls fires on exactly the first `n` of them, warns on the `n`-th, and
      never again. */
  lemma ExactlyFirstNFire(n: int, calls: seq<bool>, i: nat)
    requires forall j :: 0 <= j < |calls| ==> calls[j]
    requires i < |calls|
    ensures Run(Some(n), 0, calls)[i].fired <==> i < n
    ensures Run(Some(n), 0, calls)[i].warned <==> i == n - 1
  {
    FiresIffWithinQuota(n, 0, calls, i);
    WarnsIffReachesQuota(n, 0, calls, i);
    CountTrueAll(calls[..i]);
  }

  /** `max_usage = 0` never fires from a non-negative counter (the code treats only `None`
      as unlimited). */
  lemma ZeroQuotaNeverFires(breaks: nat, calls: seq<bool>, i: nat)
    requires i < |calls|
    ensures !Run(Some(0), breaks, calls)[i].fired
    ensures Run(Some(0), breaks, calls)[i].breaks == breaks
  {
    FiresIffWithinQuota(0, breaks, calls, i);
  }

  /** `max_usage = None` fires on every qualifying call, never warns, and counts every firing. */
  lemma {:induction false} UnlimitedFiresEveryQualifyingCall(breaks: int, calls: seq<bool>, i: nat)
    requires i < |calls|
    ensures Run(None, breaks, calls)[i].fired == calls[i]
    ensures !Run(None, breaks, calls)[i].warned
    ensures Run(None, breaks, calls)[i].breaks == breaks + CountTrue(calls[..i + 1])
    decreases i
  {
    var t := Step(None, breaks, calls[0]);
    assert Run(None, breaks, calls)[i] ==
           if i == 0 then t else Run(None, t.breaks, calls[1..])[i - 1];
    CountTruePrefix(calls, i);
    if i > 0 {
      UnlimitedFiresEveryQualifyingCall(t.breaks, calls[1..], i - 1);
      assert calls[1..][..i - 1 + 1] == calls[1..][..i];
    }
  }

  /** The counter never passes a finite quota it started within, and never decreases from
      one call to the next. */
  lemma CounterStaysWithinQuota(n: int, breaks: int, calls: seq<bool>, i: nat)
    requires breaks <= n
    requires i < |calls|
    ensures breaks <= Run(Some(n), breaks, calls)[i].breaks <= n
    ensures i + 1 < |calls| ==> Run(Some(n), breaks, calls)[i].breaks <= Run(Some(n), breaks, calls)[i + 1].breaks
  {
    FiresIffWithinQuota(n, breaks, calls, i);
    if i + 1 < |calls| {
      FiresIffWithinQuota(n, breaks, calls, i + 1);
      CountTrueLast(calls, i + 1);
    }
  }
}
