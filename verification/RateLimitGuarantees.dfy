/** What the two limiters guarantee over any sequence of calls. */
module RateLimitGuarantees {
  import opened Common
  import opened RateLimits

  // --- global limiter ---

  /** The distinct instants of calls in the window that ends at now. */
  function InWindow(times: seq<int>, window: int, now: int): set<int> {
    set t | t in times && now - window < t <= now
  }

  lemma {:induction false} AnswersPrefix(policy: Policy, times: seq<int>, k: nat)
    requires k <= |times|
    ensures GlobalRun(policy, times[..k]).1 == GlobalRun(policy, times).1[..k]
    decreases |times|
  {
    if k < |times| {
      var init := times[..|times| - 1];
      AnswersPrefix(policy, init, k);
      assert init[..k] == times[..k];
    } else {
      assert times[..k] == times;
    }
  }

  /** The key holds the distinct stamps of the window that ends with the last call. */
  ghost predicate Stored(key: Option<Key<set<int>>>, window: int, times: seq<int>) {
    if times == [] then key.None?
    else
      var now := times[|times| - 1];
      key == Some(Key(InWindow(times, window, now), now + window))
  }

  /** The stored set is always exactly the distinct stamps of the last window, accepted or
      not, although the key itself expires. */
  lemma {:induction false} StoredIsLastWindow(policy: Policy, times: seq<int>)
    requires NonDecreasing(times) && 0 < policy.window
    ensures Stored(GlobalRun(policy, times).0, policy.window, times)
    decreases |times|
  {
    if times != [] {
      var init, now := times[..|times| - 1], times[|times| - 1];
      PrefixNonDecreasing(times, |times| - 1);
      StoredIsLastWindow(policy, init);
      assert times == init + [now];
      SlideWindow(GlobalRun(policy, init).0, policy.window, init, now);
    }
  }

  lemma PrefixNonDecreasing(times: seq<int>, k: nat)
    requires NonDecreasing(times) && k <= |times|
    ensures NonDecreasing(times[..k])
  {
  }

  /** One more call: whatever the expiry of the key loses lies outside the new window. */
  lemma SlideWindow(key: Option<Key<set<int>>>, window: int, before: seq<int>, now: int)
    requires 0 < window && NonDecreasing(before + [now])
    requires Stored(key, window, before)
    ensures Stored(Some(Slide(key, window, now)), window, before + [now])
  {
    var times := before + [now];
    assert forall i :: 0 <= i < |before| ==> before[i] == times[i] && times[i] <= times[|before|];
    assert forall t :: t in before ==> 0 <= t <= now;
    assert before != [] ==> forall i :: 0 <= i < |before| ==> times[i] <= times[|before| - 1];
    forall t ensures t in Slide(key, window, now).value <==> t in InWindow(times, window, now) {
      assert t in times <==> t in before || t == now;
    }
    assert Slide(key, window, now).value == InWindow(times, window, now);
  }

  /** A call is accepted exactly when the window that ends with it holds at most limit
      distinct stamps. */
  lemma {:induction false} AcceptedIff(policy: Policy, times: seq<int>, i: nat)
    requires NonDecreasing(times) && i < |times| && 0 < policy.window
    ensures GlobalRun(policy, times).1[i] <==> |InWindow(times[..i + 1], policy.window, times[i])| <= policy.limit
  {
    var upTo := times[..i + 1];
    AnswersPrefix(policy, times, i + 1);
    assert GlobalRun(policy, upTo).1[i] == GlobalRun(policy, times).1[i];
    StoredIsLastWindow(policy, upTo);
    assert upTo[..i] == times[..i];
  }

  predicate AcceptedAt(policy: Policy, times: seq<int>, end: int, i: int) {
    0 <= i < |times| && GlobalRun(policy, times).1[i] && end - policy.window < times[i] <= end
  }

  /** The distinct stamps of accepted calls in the window that ends at end. */
  function AcceptedStamps(policy: Policy, times: seq<int>, end: int): set<int> {
    set i | 0 <= i < |times| && AcceptedAt(policy, times, end, i) :: times[i]
  }

  /** Any window of the configured length holds at most limit accepted distinct stamps. */
  lemma AcceptedInAnyWindow(policy: Policy, times: seq<int>, end: int)
    requires NonDecreasing(times) && 0 < policy.window && 0 <= policy.limit
    ensures |AcceptedStamps(policy, times, end)| <= policy.limit
  {
    var accepted := AcceptedStamps(policy, times, end);
    if accepted != {} {
      var some :| some in accepted;
      var last := LastAccepted(policy, times, end, |times|);
      var stored := InWindow(times[..last + 1], policy.window, times[last]);
      AcceptedIff(policy, times, last);
      forall t | t in accepted ensures t in stored {
        var i :| 0 <= i < |times| && AcceptedAt(policy, times, end, i) && times[i] == t;
        assert i <= last;
        assert times[..last + 1][i] == t;
      }
      SubsetSize(accepted, stored);
    }
  }

  lemma {:induction false} LastAccepted(policy: Policy, times: seq<int>, end: int, k: nat) returns (last: nat)
    requires k <= |times| && exists i :: 0 <= i < k && AcceptedAt(policy, times, end, i)
    ensures last < k && AcceptedAt(policy, times, end, last)
    ensures forall i :: last < i < k ==> !AcceptedAt(policy, times, end, i)
    decreases k
  {
    if AcceptedAt(policy, times, end, k - 1) {
      last := k - 1;
    } else {
      last := LastAccepted(policy, times, end, k - 1);
    }
  }

  lemma {:induction false} SubsetSize<T>(a: set<T>, b: set<T>)
    requires a <= b
    ensures |a| <= |b|
    decreases a
  {
    if a != {} {
      var x :| x in a;
      SubsetSize(a - {x}, b - {x});
    }
  }

  // --- per-address limiter ---

  /** How many accepted calls fall in the half-open window [start, start + window). */
  function AcceptedCount(policy: Policy, times: seq<int>, start: int): nat
    decreases |times|
  {
    if times == [] then 0
    else
      var k := |times| - 1;
      AcceptedCount(policy, times[..k], start)
      + if IpRun(policy, times).1[k] && start <= times[k] < start + policy.window then 1 else 0
  }

  /** The instant of the last accepted call, if there is one. */
  function LastAcceptedIp(policy: Policy, times: seq<int>): Option<int>
    decreases |times|
  {
    if times == [] then None
    else
      var k := |times| - 1;
      if IpRun(policy, times).1[k] then Some(times[k]) else LastAcceptedIp(policy, times[..k])
  }

  /** The key expires one window after the last accepted call; its counter covers at least
      the accepted calls of any window that has not ended yet. */
  lemma {:induction false} CounterInv(policy: Policy, times: seq<int>, start: int)
    requires NonDecreasing(times) && 0 < policy.window && 0 <= policy.limit
    ensures
      var key, last := IpRun(policy, times).0, LastAcceptedIp(policy, times);
      && (key.None? <==> last.None?)
      && (key.Some? ==> key.value.expiry == last.value + policy.window && 1 <= key.value.value <= policy.limit + 1)
      && (key.None? ==> AcceptedCount(policy, times, start) == 0)
      && AcceptedCount(policy, times, start) <= policy.limit + 1
      && (last.Some? ==> last.value in times)
      && (AcceptedCount(policy, times, start) > 0 ==> last.Some? && start <= last.value)
      && (AcceptedCount(policy, times, start) > 0 && times[|times| - 1] < start + policy.window ==>
            AcceptedCount(policy, times, start) <= key.value.value)
    decreases |times|
  {
    if times != [] {
      var init := times[..|times| - 1];
      CounterInv(policy, init, start);
      assert forall t :: t in init ==> t in times && t <= times[|times| - 1];
    }
  }

  /** Any half-open window of the configured length holds at most limit + 1 accepted calls
      of one address: the limit is checked before the call is counted. */
  lemma AcceptedPerAddress(policy: Policy, times: seq<int>, start: int)
    requires NonDecreasing(times) && 0 < policy.window
    ensures AcceptedCount(policy, times, start) <= if policy.limit < 0 then 0 else policy.limit + 1
  {
    if policy.limit < 0 {
      NothingAccepted(policy, times, start);
    } else {
      CounterInv(policy, times, start);
    }
  }

  lemma {:induction false} NothingAccepted(policy: Policy, times: seq<int>, start: int)
    requires policy.limit < 0
    ensures IpRun(policy, times).0 == None && AcceptedCount(policy, times, start) == 0
    decreases |times|
  {
    if times != [] {
      NothingAccepted(policy, times[..|times| - 1], start);
    }
  }

  /** The bound is reached: limit + 1 calls at one instant are all accepted. */
  lemma {:induction false} BurstIsAccepted(policy: Policy, n: nat, now: int)
    requires 0 < policy.window && 0 <= policy.limit && n <= policy.limit + 1 && 0 <= now
    ensures AcceptedCount(policy, seq(n, _ => now), now) == n
    ensures n > 0 ==> IpRun(policy, seq(n, _ => now)).0 == Some(Key(n, now + policy.window))
    ensures n == 0 ==> IpRun(policy, seq(n, _ => now)).0 == None
    decreases n
  {
    if n > 0 {
      BurstIsAccepted(policy, n - 1, now);
      assert seq(n, _ => now)[..n - 1] == seq(n - 1, _ => now);
    }
  }

  /** Once refused, an address stays refused until exactly one window after its last accepted
      call: the next call is accepted if and only if it comes no earlier than that. */
  lemma RefusedUntilWindowPasses(policy: Policy, times: seq<int>, next: int)
    requires NonDecreasing(times + [next]) && 0 < policy.window && 0 <= policy.limit
    requires times != [] && !IpRun(policy, times).1[|times| - 1]
    ensures
      var last := LastAcceptedIp(policy, times);
      && last.Some? && last.value <= times[|times| - 1] < last.value + policy.window
      && (IpRun(policy, times + [next]).1[|times|] <==> last.value + policy.window <= next)
  {
    var init := times[..|times| - 1];
    assert (times + [next])[..|times|] == times;
    PrefixNonDecreasing(times + [next], |times|);
    PrefixNonDecreasing(times, |times| - 1);
    CounterInv(policy, init, next);
    assert forall t :: t in init ==> t <= times[|times| - 1];
  }

  /** How many accepted calls the unbroken chain before next holds: the last accepted one among
      the first k if it came less than a window before next, and the chain before that one. */
  function Chain(window: int, times: seq<int>, accepted: seq<bool>, k: nat, next: int): nat
    requires k <= |times| == |accepted|
    decreases k
  {
    if k == 0 then 0
    else if !accepted[k - 1] then Chain(window, times, accepted, k - 1, next)
    else if next < times[k - 1] + window then Chain(window, times, accepted, k - 1, times[k - 1]) + 1
    else 0
  }

  lemma {:induction false} ChainPrefix(window: int, times: seq<int>, accepted: seq<bool>, n: nat, k: nat, next: int)
    requires k <= n <= |times| == |accepted|
    ensures Chain(window, times[..n], accepted[..n], k, next) == Chain(window, times, accepted, k, next)
    decreases k
  {
    if k > 0 {
      ChainPrefix(window, times, accepted, n, k - 1, next);
      ChainPrefix(window, times, accepted, n, k - 1, times[k - 1]);
    }
  }

  lemma {:induction false} IpAnswersPrefix(policy: Policy, times: seq<int>, k: nat)
    requires k <= |times|
    ensures IpRun(policy, times[..k]).1 == IpRun(policy, times).1[..k]
    decreases |times|
  {
    if k < |times| {
      var init := times[..|times| - 1];
      IpAnswersPrefix(policy, init, k);
      assert init[..k] == times[..k];
    } else {
      assert times[..k] == times;
    }
  }

  /** At any instant the live counter is the length of the chain. */
  lemma {:induction false} CounterIsChain(policy: Policy, times: seq<int>, next: int)
    ensures Count(IpRun(policy, times).0, next)
         == Chain(policy.window, times, IpRun(policy, times).1, |times|, next)
    decreases |times|
  {
    if times != [] {
      var n := |times| - 1;
      var init, accepted := times[..n], IpRun(policy, times).1;
      IpAnswersPrefix(policy, times, n);
      CounterIsChain(policy, init, next);
      CounterIsChain(policy, init, times[n]);
      ChainPrefix(policy.window, times, accepted, n, n, next);
      ChainPrefix(policy.window, times, accepted, n, n, times[n]);
    }
  }

  /** A call of an address is accepted exactly if the unbroken chain of accepted calls that
      reaches it, each less than a window after the one before, holds at most limit calls. */
  lemma IpAcceptedIff(policy: Policy, times: seq<int>, i: nat)
    requires i < |times|
    ensures
      var accepted := IpRun(policy, times).1;
      accepted[i] <==> Chain(policy.window, times, accepted, i, times[i]) <= policy.limit
  {
    var accepted := IpRun(policy, times).1;
    IpAnswersPrefix(policy, times, i);
    IpAnswersPrefix(policy, times, i + 1);
    assert times[..i + 1][..i] == times[..i];
    CounterIsChain(policy, times[..i], times[i]);
    ChainPrefix(policy.window, times, accepted, i, i, times[i]);
    assert IpRun(policy, times[..i + 1]).1[i] == accepted[i];
  }
}
