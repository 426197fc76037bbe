/** The retry/failover controller of the email service as a pure state machine.
    `Send` is the whole of one `sendEmail` call: it maps the service's state before
    the call, the email's fingerprint and the outcome of the random draws to the
    state after the call, the value returned and the trace of what happened in order. */
module Dispatch {
  import opened EmailHash
  import opened Provider

  /** The wait before each attempt, in milliseconds; its length bounds the attempts. */
  const RetryDelays: seq<nat> := [1000, 3000, 5000]
  /** Failures at which the service moves to the next provider. */
  const MaxFailures: nat := 3

  const Duplicate := SendResult(false, "Duplicate email prevented")
  const AllFailed := SendResult(false, "All attempts failed. Email not sent.")

  /** The fields of the service and of its providers. */
  datatype ServiceState = ServiceState(
    providers: seq<ProviderState>,
    primaryIndex: nat,
    sentEmails: set<Hash>,
    failureCount: nat)

  predicate Valid(s: ServiceState)
  {
    0 < |s.providers| && s.primaryIndex < |s.providers|
  }

  /** What one call does, in order: a wait, a provider call with its reply, a rotation
      to the provider with the given index. */
  datatype Event = Wait(ms: nat) | Call(provider: nat, reply: ProviderReply) | Switched(to: nat)

  /** The state after a call, the value it returns and what it did. */
  datatype Run = Run(state: ServiceState, result: SendResult, trace: seq<Event>)

  /** A freshly constructed service. */
  function Initial(): (s: ServiceState)
    ensures Valid(s) && |s.providers| == 2
    ensures s.sentEmails == {} && s.failureCount == 0 && s.primaryIndex == 0
    ensures s.providers[0].operational && s.providers[0].failureRate == Normal
    ensures s.providers[1].operational && s.providers[1].failureRate == Normal
  {
    ServiceState([ProviderState("Provider 1", true, Normal), ProviderState("Provider 2", true, Normal)], 0, {}, 0)
  }

  /** Moves to the next provider, wrapping around, and takes the provider it moves to
      out of service. */
  function SwitchProvider(s: ServiceState): (r: ServiceState)
    requires Valid(s)
    ensures Valid(r) && |r.providers| == |s.providers|
    ensures r.primaryIndex == (s.primaryIndex + 1) % |s.providers|
    ensures r.providers == s.providers[r.primaryIndex := s.providers[r.primaryIndex].(operational := false)]
    ensures r.sentEmails == s.sentEmails && r.failureCount == s.failureCount
  {
    var next := (s.primaryIndex + 1) % |s.providers|;
    s.(primaryIndex := next, providers := s.providers[next := s.providers[next].(operational := false)])
  }

  function RecordFailure(s: ServiceState): (r: ServiceState)
    ensures r.failureCount == s.failureCount + 1
    ensures r.(failureCount := s.failureCount) == s
  {
    s.(failureCount := s.failureCount + 1)
  }

  function ResetFailures(s: ServiceState): (r: ServiceState)
    ensures r.failureCount == 0
    ensures r.(failureCount := s.failureCount) == s
  {
    s.(failureCount := 0)
  }

  /** The state after a failed attempt: the counter goes up by one and, once it is at
      the threshold or beyond, the service rotates. The counter is not reset by a rotation. */
  function AfterFailure(s: ServiceState): (r: ServiceState)
    requires Valid(s)
    ensures Valid(r) && |r.providers| == |s.providers|
    ensures r.failureCount == s.failureCount + 1 && r.sentEmails == s.sentEmails
    ensures Rotates(s) ==> r == SwitchProvider(RecordFailure(s))
    ensures !Rotates(s) ==> r == RecordFailure(s)
  {
    var t := RecordFailure(s);
    if t.failureCount >= MaxFailures then SwitchProvider(t) else t
  }

  /** Whether one more failure brings the counter to the threshold. */
  predicate Rotates(s: ServiceState)
  {
    s.failureCount + 1 >= MaxFailures
  }

  /** The events of attempt `a` in state `s` when the provider replies `reply`. */
  function AttemptEvents(s: ServiceState, a: nat, reply: ProviderReply): (events: seq<Event>)
    requires Valid(s) && a < |RetryDelays|
  {
    [Wait(RetryDelays[a]), Call(s.primaryIndex, reply)]
      + (if reply.Rejected? && Rotates(s) then [Switched(AfterFailure(s).primaryIndex)] else [])
  }

  function Prepend(events: seq<Event>, r: Run): (r': Run)
  {
    r.(trace := events + r.trace)
  }

  /** The retry loop from attempt index `attempt` on: wait, call the active provider;
      on success record the fingerprint, reset the counter and stop; on failure count it,
      rotate once the counter has reached the threshold, and go on. */
  function Attempts(s: ServiceState, h: Hash, attempt: nat, coin: nat -> bool): (r: Run)
    requires Valid(s)
    ensures Valid(r.state) && |r.state.providers| == |s.providers|
    ensures s.sentEmails <= r.state.sentEmails <= s.sentEmails + {h}
    decreases |RetryDelays| - attempt
  {
    if attempt >= |RetryDelays| then Run(s, AllFailed, [])
    else
      var reply := Reply(s.providers[s.primaryIndex], coin(attempt));
      var events := AttemptEvents(s, attempt, reply);
      if reply.Resolved? then
        Run(ResetFailures(s.(sentEmails := s.sentEmails + {h})), reply.result, events)
      else
        Prepend(events, Attempts(AfterFailure(s), h, attempt + 1, coin))
  }

  /** One failed attempt followed by the rest of the loop. */
  lemma AttemptFails(s: ServiceState, h: Hash, a: nat, coin: nat -> bool)
    requires Valid(s) && a < |RetryDelays|
    requires Reply(s.providers[s.primaryIndex], coin(a)).Rejected?
    ensures var reply := Reply(s.providers[s.primaryIndex], coin(a));
      Attempts(s, h, a, coin) == Prepend(AttemptEvents(s, a, reply), Attempts(AfterFailure(s), h, a + 1, coin))
  {
  }

  /** One successful attempt ends the loop. */
  lemma AttemptSucceeds(s: ServiceState, h: Hash, a: nat, coin: nat -> bool)
    requires Valid(s) && a < |RetryDelays|
    requires Reply(s.providers[s.primaryIndex], coin(a)).Resolved?
    ensures var reply := Reply(s.providers[s.primaryIndex], coin(a));
      Attempts(s, h, a, coin)
        == Run(ResetFailures(s.(sentEmails := s.sentEmails + {h})), reply.result, AttemptEvents(s, a, reply))
  {
  }

  lemma PrependTwice(t1: seq<Event>, t2: seq<Event>, r: Run)
    ensures Prepend(t1, Prepend(t2, r)) == Prepend(t1 + t2, r)
  {
    assert t1 + (t2 + r.trace) == (t1 + t2) + r.trace;
  }

  /** One `sendEmail` call on state `s` for an email with fingerprint `h`;
      `coin(k)` is the random draw of attempt `k`. */
  function Send(s: ServiceState, h: Hash, coin: nat -> bool): (r: Run)
    requires Valid(s)
    ensures Valid(r.state) && |r.state.providers| == |s.providers|
    ensures s.sentEmails <= r.state.sentEmails <= s.sentEmails + {h}
  {
    if h in s.sentEmails then Run(s, Duplicate, [])
    else Attempts(s, h, 0, coin)
  }

  // ---------------------------------------------------------------------------
  // Views of a trace

  /** The waits of a trace, in order. */
  function Delays(tr: seq<Event>): (ds: seq<nat>)
  {
    if tr == [] then []
    else (if tr[0].Wait? then [tr[0].ms] else []) + Delays(tr[1..])
  }

  /** The replies of the provider calls of a trace, in order. */
  function Replies(tr: seq<Event>): (rs: seq<ProviderReply>)
  {
    if tr == [] then []
    else (if tr[0].Call? then [tr[0].reply] else []) + Replies(tr[1..])
  }

  /** The providers rotated to in a trace, in order. */
  function Switches(tr: seq<Event>): (sw: seq<nat>)
  {
    if tr == [] then []
    else (if tr[0].Switched? then [tr[0].to] else []) + Switches(tr[1..])
  }

  lemma ViewsConcat(a: seq<Event>, b: seq<Event>)
    ensures Delays(a + b) == Delays(a) + Delays(b)
    ensures Replies(a + b) == Replies(a) + Replies(b)
    ensures Switches(a + b) == Switches(a) + Switches(b)
  {
    DelaysConcat(a, b);
    RepliesConcat(a, b);
    SwitchesConcat(a, b);
  }

  lemma {:induction false} DelaysConcat(a: seq<Event>, b: seq<Event>)
    ensures Delays(a + b) == Delays(a) + Delays(b)
  {
    if a == [] {
      assert a + b == b;
    } else {
      var ab := a + b;
      var first := if a[0].Wait? then [a[0].ms] else [];
      assert ab[0] == a[0] && ab[1..] == a[1..] + b;
      DelaysConcat(a[1..], b);
      assert Delays(ab) == first + Delays(a[1..] + b);
      assert first + (Delays(a[1..]) + Delays(b)) == (first + Delays(a[1..])) + Delays(b);
    }
  }

  lemma {:induction false} RepliesConcat(a: seq<Event>, b: seq<Event>)
    ensures Replies(a + b) == Replies(a) + Replies(b)
  {
    if a == [] {
      assert a + b == b;
    } else {
      var ab := a + b;
      var first := if a[0].Call? then [a[0].reply] else [];
      assert ab[0] == a[0] && ab[1..] == a[1..] + b;
      RepliesConcat(a[1..], b);
      assert Replies(ab) == first + Replies(a[1..] + b);
      assert first + (Replies(a[1..]) + Replies(b)) == (first + Replies(a[1..])) + Replies(b);
    }
  }

  lemma {:induction false} SwitchesConcat(a: seq<Event>, b: seq<Event>)
    ensures Switches(a + b) == Switches(a) + Switches(b)
  {
    if a == [] {
      assert a + b == b;
    } else {
      var ab := a + b;
      var first := if a[0].Switched? then [a[0].to] else [];
      assert ab[0] == a[0] && ab[1..] == a[1..] + b;
      SwitchesConcat(a[1..], b);
      assert Switches(ab) == first + Switches(a[1..] + b);
      assert first + (Switches(a[1..]) + Switches(b)) == (first + Switches(a[1..])) + Switches(b);
    }
  }

  /** How many of the next `failures` consecutive failures, counted from `count`,
      bring the counter to the threshold or beyond. */
  function Rotations(count: nat, failures: nat): (n: nat)
    ensures n <= failures
    decreases failures
  {
    if failures == 0 then 0
    else (if count + 1 >= MaxFailures then 1 else 0) + Rotations(count + 1, failures - 1)
  }

  /** In closed form: every failure rotates once the counter is at the threshold less one;
      below it, only the failures beyond the threshold rotate. */
  lemma {:induction false} RotationsClosedForm(count: nat, failures: nat)
    ensures Rotations(count, failures)
      == if count + 1 >= MaxFailures then failures
         else if count + failures < MaxFailures then 0
         else count + failures - (MaxFailures - 1)
    decreases failures
  {
    if failures > 0 {
      RotationsClosedForm(count + 1, failures - 1);
    }
  }

  // ---------------------------------------------------------------------------
  // Properties of the retry loop

  /** One attempt waits its scheduled delay, makes one call, and rotates at most once. */
  lemma AttemptEventsViews(s: ServiceState, a: nat, reply: ProviderReply)
    requires Valid(s) && a < |RetryDelays|
    ensures var ev := AttemptEvents(s, a, reply);
      && Delays(ev) == [RetryDelays[a]]
      && Replies(ev) == [reply]
      && Switches(ev) == (if reply.Rejected? && Rotates(s) then [AfterFailure(s).primaryIndex] else [])
  {
    var pair := [Wait(RetryDelays[a]), Call(s.primaryIndex, reply)];
    var extra := if reply.Rejected? && Rotates(s) then [Switched(AfterFailure(s).primaryIndex)] else [];
    ViewsConcat(pair, extra);
    assert pair[1..][1..] == [];
    if extra != [] {
      assert extra[1..] == [];
    }
  }

  /** Whether a trace of the loop started at attempt `a` makes at most one call per
      remaining schedule entry, at least one when any is left, and waits the scheduled
      delays in schedule order. */
  predicate FollowsSchedule(a: nat, tr: seq<Event>)
    requires a <= |RetryDelays|
  {
    && |Replies(tr)| <= |RetryDelays| - a
    && (a < |RetryDelays| ==> 0 < |Replies(tr)|)
    && Delays(tr) == RetryDelays[a..a + |Replies(tr)|]
  }

  /** The loop makes at most one call per remaining schedule entry, at least one when
      any is left, and waits the scheduled delays in schedule order. */
  lemma {:induction false} AttemptsBounded(s: ServiceState, h: Hash, a: nat, coin: nat -> bool)
    requires Valid(s) && a <= |RetryDelays|
    ensures FollowsSchedule(a, Attempts(s, h, a, coin).trace)
    decreases |RetryDelays| - a
  {
    if a < |RetryDelays| {
      var reply := Reply(s.providers[s.primaryIndex], coin(a));
      var ev := AttemptEvents(s, a, reply);
      AttemptEventsViews(s, a, reply);
      if reply.Rejected? {
        var rest := Attempts(AfterFailure(s), h, a + 1, coin).trace;
        AttemptsBounded(AfterFailure(s), h, a + 1, coin);
        FollowsScheduleStep(s, a, reply, rest);
        assert Attempts(s, h, a, coin).trace == ev + rest;
      } else {
        assert Attempts(s, h, a, coin).trace == ev;
        FollowsScheduleStep(s, a, reply, []);
        assert ev + [] == ev;
      }
    }
  }

  lemma FollowsScheduleStep(s: ServiceState, a: nat, reply: ProviderReply, rest: seq<Event>)
    requires Valid(s) && a < |RetryDelays|
    requires rest == [] || FollowsSchedule(a + 1, rest)
    ensures FollowsSchedule(a, AttemptEvents(s, a, reply) + rest)
  {
    var ev := AttemptEvents(s, a, reply);
    AttemptEventsViews(s, a, reply);
    DelaysConcat(ev, rest);
    RepliesConcat(ev, rest);
    var n := |Replies(rest)|;
    assert rest == [] ==> n == 0 && Delays(rest) == [];
    assert a + 1 + n <= |RetryDelays|;
    assert RetryDelays[a..a + 1 + n] == [RetryDelays[a]] + RetryDelays[a + 1..a + 1 + n];
  }

  /** Whether every wait in `tr` is immediately followed by a call and every call
      immediately follows a wait. */
  predicate WaitsThenCalls(tr: seq<Event>)
  {
    && (forall i :: 0 <= i < |tr| && tr[i].Wait? ==> i + 1 < |tr| && tr[i + 1].Call?)
    && (forall i :: 0 <= i < |tr| && tr[i].Call? ==> 0 < i && tr[i - 1].Wait?)
  }

  /** The loop, when any attempt is left, begins by waiting the delay of its first attempt. */
  lemma AttemptsStartWithWait(s: ServiceState, h: Hash, a: nat, coin: nat -> bool)
    requires Valid(s)
    ensures var tr := Attempts(s, h, a, coin).trace;
      a < |RetryDelays| ==> tr != [] && tr[0] == Wait(RetryDelays[a])
  {
    if a < |RetryDelays| {
      var reply := Reply(s.providers[s.primaryIndex], coin(a));
      var ev := AttemptEvents(s, a, reply);
      assert ev[0] == Wait(RetryDelays[a]);
      if reply.Rejected? {
        AttemptFails(s, h, a, coin);
      }
    }
  }

  /** Every wait is immediately followed by a call and every call immediately follows a
      wait, so the delay of an attempt precedes it, the first attempt included. */
  lemma {:induction false} AttemptsWaitThenCall(s: ServiceState, h: Hash, a: nat, coin: nat -> bool)
    requires Valid(s)
    ensures WaitsThenCalls(Attempts(s, h, a, coin).trace)
    decreases |RetryDelays| - a
  {
    if a < |RetryDelays| {
      var reply := Reply(s.providers[s.primaryIndex], coin(a));
      if reply.Rejected? {
        var rest := Attempts(AfterFailure(s), h, a + 1, coin).trace;
        AttemptsWaitThenCall(AfterFailure(s), h, a + 1, coin);
        AttemptsStartWithWait(AfterFailure(s), h, a + 1, coin);
        AttemptFails(s, h, a, coin);
        WaitsThenCallsStep(s, a, reply, rest);
      } else {
        AttemptSucceeds(s, h, a, coin);
        WaitsThenCallsStep(s, a, reply, []);
        assert AttemptEvents(s, a, reply) + [] == AttemptEvents(s, a, reply);
      }
    }
  }

  lemma WaitsThenCallsStep(s: ServiceState, a: nat, reply: ProviderReply, rest: seq<Event>)
    requires Valid(s) && a < |RetryDelays|
    requires rest == [] || rest[0].Wait?
    requires WaitsThenCalls(rest)
    ensures WaitsThenCalls(AttemptEvents(s, a, reply) + rest)
  {
    var ev := AttemptEvents(s, a, reply);
    var tr := ev + rest;
    forall i | 0 <= i < |tr| && tr[i].Wait?
      ensures i + 1 < |tr| && tr[i + 1].Call?
    {
      if i >= |ev| {
        assert tr[i] == rest[i - |ev|];
        assert tr[i + 1] == rest[i + 1 - |ev|];
      }
    }
    forall i | 0 <= i < |tr| && tr[i].Call?
      ensures 0 < i && tr[i - 1].Wait?
    {
      if i >= |ev| {
        assert tr[i] == rest[i - |ev|];
        assert i > |ev|;
        assert tr[i - 1] == rest[i - 1 - |ev|];
      }
    }
  }

  /** Success records the fingerprint, resets the counter and returns the provider's result. */
  lemma {:induction false} AttemptsDelivered(s: ServiceState, h: Hash, a: nat, coin: nat -> bool)
    requires Valid(s)
    requires Attempts(s, h, a, coin).result.success
    ensures var r := Attempts(s, h, a, coin);
      && r.result == Delivered
      && r.state.sentEmails == s.sentEmails + {h}
      && r.state.failureCount == 0
    decreases |RetryDelays| - a
  {
    var reply := Reply(s.providers[s.primaryIndex], coin(a));
    if reply.Rejected? {
      AttemptsDelivered(AfterFailure(s), h, a + 1, coin);
    }
  }

  /** Whether `tr` ends with a successful call and every earlier call in it failed. */
  predicate EndsWithOnlySuccess(tr: seq<Event>)
  {
    var n := |Replies(tr)|;
    && 0 < n && Replies(tr)[n - 1] == Resolved(Delivered)
    && (forall k :: 0 <= k < n - 1 ==> Replies(tr)[k].Rejected?)
    && 0 < |tr| && tr[|tr| - 1].Call? && tr[|tr| - 1].reply == Resolved(Delivered)
  }

  /** Success ends the loop at once: the successful call is the last event, and every
      earlier call failed. */
  lemma {:induction false} AttemptsDeliveredLast(s: ServiceState, h: Hash, a: nat, coin: nat -> bool)
    requires Valid(s)
    requires Attempts(s, h, a, coin).result.success
    ensures EndsWithOnlySuccess(Attempts(s, h, a, coin).trace)
    decreases |RetryDelays| - a
  {
    var reply := Reply(s.providers[s.primaryIndex], coin(a));
    if reply.Resolved? {
      DeliveredNowIsLast(s, h, a, coin);
    } else {
      AttemptsDeliveredLast(AfterFailure(s), h, a + 1, coin);
      FailureThenSuccessIsLast(s, a, reply, Attempts(AfterFailure(s), h, a + 1, coin).trace);
    }
  }

  lemma DeliveredNowIsLast(s: ServiceState, h: Hash, a: nat, coin: nat -> bool)
    requires Valid(s) && a < |RetryDelays|
    requires Reply(s.providers[s.primaryIndex], coin(a)).Resolved?
    ensures EndsWithOnlySuccess(Attempts(s, h, a, coin).trace)
  {
    var reply := Reply(s.providers[s.primaryIndex], coin(a));
    AttemptSucceeds(s, h, a, coin);
    AttemptEventsViews(s, a, reply);
    assert AttemptEvents(s, a, reply) == [Wait(RetryDelays[a]), Call(s.primaryIndex, reply)];
  }

  lemma FailureThenSuccessIsLast(s: ServiceState, a: nat, reply: ProviderReply, rest: seq<Event>)
    requires Valid(s) && a < |RetryDelays| && reply.Rejected?
    requires EndsWithOnlySuccess(rest)
    ensures EndsWithOnlySuccess(AttemptEvents(s, a, reply) + rest)
  {
    var ev := AttemptEvents(s, a, reply);
    var tr := ev + rest;
    AttemptEventsViews(s, a, reply);
    ViewsConcat(ev, rest);
    var rs := Replies(rest);
    assert Replies(tr) == [reply] + rs;
    forall k | 0 <= k < |rs|
      ensures Replies(tr)[k].Rejected?
    {
      if k > 0 {
        assert Replies(tr)[k] == rs[k - 1];
      }
    }
    assert tr[|tr| - 1] == rest[|rest| - 1];
  }

  /** Whether `tr` holds exactly `n` calls and all of them failed. */
  predicate AllRejected(tr: seq<Event>, n: nat)
  {
    |Replies(tr)| == n && forall k :: 0 <= k < n ==> Replies(tr)[k].Rejected?
  }

  /** Running out of attempts returns the aggregate failure after one failed call per
      remaining schedule entry, leaves the sent set alone and adds one to the counter
      per failure. */
  lemma {:induction false} AttemptsExhausted(s: ServiceState, h: Hash, a: nat, coin: nat -> bool)
    requires Valid(s) && a <= |RetryDelays|
    requires !Attempts(s, h, a, coin).result.success
    ensures var r := Attempts(s, h, a, coin);
      && r.result == AllFailed
      && AllRejected(r.trace, |RetryDelays| - a)
      && r.state.sentEmails == s.sentEmails
      && r.state.failureCount == s.failureCount + (|RetryDelays| - a)
    decreases |RetryDelays| - a
  {
    if a < |RetryDelays| {
      var reply := Reply(s.providers[s.primaryIndex], coin(a));
      var rest := Attempts(AfterFailure(s), h, a + 1, coin).trace;
      AttemptsExhausted(AfterFailure(s), h, a + 1, coin);
      AllRejectedStep(s, a, reply, rest, |RetryDelays| - a - 1);
    }
  }

  lemma AllRejectedStep(s: ServiceState, a: nat, reply: ProviderReply, rest: seq<Event>, n: nat)
    requires Valid(s) && a < |RetryDelays| && reply.Rejected?
    requires AllRejected(rest, n)
    ensures AllRejected(AttemptEvents(s, a, reply) + rest, n + 1)
  {
    var ev := AttemptEvents(s, a, reply);
    AttemptEventsViews(s, a, reply);
    RepliesConcat(ev, rest);
    var all := Replies(ev + rest);
    assert all == [reply] + Replies(rest);
    forall k | 0 <= k < n + 1
      ensures all[k].Rejected?
    {
      if k > 0 {
        assert all[k] == Replies(rest)[k - 1];
      }
    }
  }

  /** Whether the rotations in `tr` are exactly the failures in it that bring the
      counter, starting from `count`, to the threshold or beyond; `success` says whether
      the last call succeeded. */
  predicate RotationsCounted(count: nat, tr: seq<Event>, success: bool)
  {
    var failed := |Replies(tr)| - (if success then 1 else 0);
    0 <= failed && |Switches(tr)| == Rotations(count, failed)
  }

  /** The number of rotations is the number of failures that bring the counter to the
      threshold or beyond, counting from the counter's value before the call. */
  lemma {:induction false} AttemptsRotationCount(s: ServiceState, h: Hash, a: nat, coin: nat -> bool)
    requires Valid(s)
    ensures var r := Attempts(s, h, a, coin);
      RotationsCounted(s.failureCount, r.trace, r.result.success)
    decreases |RetryDelays| - a
  {
    if a < |RetryDelays| {
      var reply := Reply(s.providers[s.primaryIndex], coin(a));
      if reply.Rejected? {
        var rest := Attempts(AfterFailure(s), h, a + 1, coin);
        AttemptsRotationCount(AfterFailure(s), h, a + 1, coin);
        RotationsCountedStep(s, a, reply, rest.trace, rest.result.success);
        AttemptFails(s, h, a, coin);
      } else {
        AttemptSucceeds(s, h, a, coin);
        RotationsCountedSuccess(s, a, reply);
      }
    }
  }

  lemma RotationsCountedSuccess(s: ServiceState, a: nat, reply: ProviderReply)
    requires Valid(s) && a < |RetryDelays| && reply.Resolved?
    ensures RotationsCounted(s.failureCount, AttemptEvents(s, a, reply), true)
  {
    AttemptEventsViews(s, a, reply);
  }

  lemma RotationsCountedStep(s: ServiceState, a: nat, reply: ProviderReply, rest: seq<Event>, success: bool)
    requires Valid(s) && a < |RetryDelays| && reply.Rejected?
    requires RotationsCounted(AfterFailure(s).failureCount, rest, success)
    ensures RotationsCounted(s.failureCount, AttemptEvents(s, a, reply) + rest, success)
  {
    var ev := AttemptEvents(s, a, reply);
    AttemptEventsViews(s, a, reply);
    ViewsConcat(ev, rest);
  }

  /** Whether each index in `sw` is the one after its predecessor, wrapping around
      at `L`, the first being the one after `start`. */
  predicate SuccessiveFrom(start: nat, sw: seq<nat>, L: nat)
    requires 0 < L
  {
    && (sw != [] ==> sw[0] == (start + 1) % L)
    && (forall k :: 0 < k < |sw| ==> sw[k] == (sw[k - 1] + 1) % L)
  }

  /** Whether `after` is `before` with exactly the providers whose indices are in `sw`
      taken out of service. */
  predicate DisabledExactly(before: seq<ProviderState>, after: seq<ProviderState>, sw: seq<nat>)
  {
    && |after| == |before|
    && (forall j :: 0 <= j < |before| ==>
          after[j] == if j in sw then before[j].(operational := false) else before[j])
  }

  /** Whether the rotations of run `r`, started in state `s`, each move to the provider
      after the one active before, end at the final active index, and take exactly the
      providers moved to out of service. */
  predicate RotationTargetsHold(s: ServiceState, r: Run)
    requires Valid(s)
  {
    var sw := Switches(r.trace);
    && SuccessiveFrom(s.primaryIndex, sw, |s.providers|)
    && r.state.primaryIndex == (if sw == [] then s.primaryIndex else sw[|sw| - 1])
    && DisabledExactly(s.providers, r.state.providers, sw)
  }

  /** Each rotation moves to the provider after the one active before it, wrapping
      around; the active index ends at the last provider rotated to; exactly the
      providers rotated to are taken out of service, and nothing else about any
      provider changes. */
  lemma {:induction false} AttemptsRotationTargets(s: ServiceState, h: Hash, a: nat, coin: nat -> bool)
    requires Valid(s)
    ensures RotationTargetsHold(s, Attempts(s, h, a, coin))
    decreases |RetryDelays| - a
  {
    if a < |RetryDelays| {
      var reply := Reply(s.providers[s.primaryIndex], coin(a));
      if reply.Rejected? {
        var rest := Attempts(AfterFailure(s), h, a + 1, coin);
        AttemptsRotationTargets(AfterFailure(s), h, a + 1, coin);
        RotationTargetsStep(s, a, reply, rest);
        AttemptFails(s, h, a, coin);
      } else {
        AttemptSucceeds(s, h, a, coin);
        AttemptEventsViews(s, a, reply);
      }
    }
  }

  lemma RotationTargetsStep(s: ServiceState, a: nat, reply: ProviderReply, rest: Run)
    requires Valid(s) && a < |RetryDelays| && reply.Rejected?
    requires RotationTargetsHold(AfterFailure(s), rest)
    ensures RotationTargetsHold(s, Prepend(AttemptEvents(s, a, reply), rest))
  {
    var ev := AttemptEvents(s, a, reply);
    var next := AfterFailure(s);
    AttemptEventsViews(s, a, reply);
    SwitchesConcat(ev, rest.trace);
    var rs := Switches(rest.trace);
    if Rotates(s) {
      SuccessiveCons(s.primaryIndex, rs, |s.providers|);
      DisabledCons(s.providers, next.providers, rest.state.providers, next.primaryIndex, rs);
      assert Switches(ev + rest.trace) == [next.primaryIndex] + rs;
    } else {
      assert Switches(ev + rest.trace) == rs;
    }
  }

  lemma SuccessiveCons(start: nat, rs: seq<nat>, L: nat)
    requires 0 < L
    requires SuccessiveFrom((start + 1) % L, rs, L)
    ensures SuccessiveFrom(start, [(start + 1) % L] + rs, L)
  {
    var sw := [(start + 1) % L] + rs;
    forall k | 0 < k < |sw|
      ensures sw[k] == (sw[k - 1] + 1) % L
    {
      assert sw[k] == rs[k - 1];
      if k > 1 {
        assert sw[k - 1] == rs[k - 2];
      }
    }
  }

  lemma DisabledCons(before: seq<ProviderState>, middle: seq<ProviderState>, after: seq<ProviderState>,
                     p: nat, rs: seq<nat>)
    requires p < |before|
    requires middle == before[p := before[p].(operational := false)]
    requires DisabledExactly(middle, after, rs)
    ensures DisabledExactly(before, after, [p] + rs)
  {
    forall j | 0 <= j < |before|
      ensures after[j] == if j in [p] + rs then before[j].(operational := false) else before[j]
    {
      assert j in [p] + rs <==> j == p || j in rs;
    }
  }

  /** Whether, in a trace of a call that started with the counter at `count`, each
      failed call is immediately followed by a rotation if and only if the counter,
      after counting it, is at or above the threshold, and nothing else rotates. */
  predicate RotatesAtThreshold(count: nat, tr: seq<Event>)
  {
    && (forall i :: 0 <= i < |tr| && tr[i].Call? && tr[i].reply.Rejected? ==>
          ((i + 1 < |tr| && tr[i + 1].Switched?) <==> count + |Replies(tr[..i + 1])| >= MaxFailures))
    && (forall i :: 0 <= i < |tr| && tr[i].Switched? ==> 0 < i && tr[i - 1].Call? && tr[i - 1].reply.Rejected?)
  }

  /** A failed call is followed by a rotation exactly when it brings the counter to
      the threshold or beyond; the counter is not reset by a rotation. */
  lemma {:induction false} RotateExactlyAtThreshold(s: ServiceState, h: Hash, a: nat, coin: nat -> bool, r: Run)
    requires Valid(s) && r == Attempts(s, h, a, coin)
    ensures RotatesAtThreshold(s.failureCount, r.trace)
    decreases |RetryDelays| - a
  {
    if a < |RetryDelays| {
      var reply := Reply(s.providers[s.primaryIndex], coin(a));
      if reply.Rejected? {
        var rest := Attempts(AfterFailure(s), h, a + 1, coin);
        RotateExactlyAtThreshold(AfterFailure(s), h, a + 1, coin, rest);
        AttemptsStartWithWait(AfterFailure(s), h, a + 1, coin);
        RotatesAtThresholdStep(s, a, reply, rest.trace);
        AttemptFails(s, h, a, coin);
      } else {
        AttemptSucceeds(s, h, a, coin);
        RotatesAtThresholdStep(s, a, reply, []);
        assert AttemptEvents(s, a, reply) + [] == AttemptEvents(s, a, reply);
      }
    }
  }

  lemma RotatesAtThresholdStep(s: ServiceState, a: nat, reply: ProviderReply, rest: seq<Event>)
    requires Valid(s) && a < |RetryDelays|
    requires rest == [] || rest[0].Wait?
    requires RotatesAtThreshold(s.failureCount + 1, rest)
    ensures RotatesAtThreshold(s.failureCount, AttemptEvents(s, a, reply) + rest)
  {
    var ev := AttemptEvents(s, a, reply);
    var tr := ev + rest;
    forall i | 0 <= i < |tr| && tr[i].Call? && tr[i].reply.Rejected?
      ensures (i + 1 < |tr| && tr[i + 1].Switched?) <==> s.failureCount + |Replies(tr[..i + 1])| >= MaxFailures
    {
      if i < |ev| {
        assert i == 1;
        var pair := [Wait(RetryDelays[a]), Call(s.primaryIndex, reply)];
        assert tr[..i + 1] == pair;
        assert Replies(pair) == [reply] by {
          assert pair[1..][1..] == [];
          assert Replies(pair[1..][1..]) == [];
          assert Replies(pair[1..]) == [reply];
        }
      } else {
        var j := i - |ev|;
        assert tr[i] == rest[j];
        assert tr[..i + 1] == ev + rest[..j + 1];
        ViewsConcat(ev, rest[..j + 1]);
        AttemptEventsViews(s, a, reply);
        if i + 1 < |tr| {
          assert tr[i + 1] == rest[j + 1];
        }
      }
    }
    forall i | 0 <= i < |tr| && tr[i].Switched?
      ensures 0 < i && tr[i - 1].Call? && tr[i - 1].reply.Rejected?
    {
      if i >= |ev| {
        var j := i - |ev|;
        assert tr[i] == rest[j];
        assert j > 0;
        assert tr[i - 1] == rest[j - 1];
      }
    }
  }

  /** Once the active provider is out of service and one more failure reaches the
      threshold, every remaining attempt fails: each failure rotates, and each
      rotation takes the provider it moves to out of service. */
  lemma {:induction false} StuckAfterRotation(s: ServiceState, h: Hash, a: nat, coin: nat -> bool)
    requires Valid(s)
    requires !s.providers[s.primaryIndex].operational
    requires Rotates(s)
    ensures Attempts(s, h, a, coin).result == AllFailed
    decreases |RetryDelays| - a
  {
    if a < |RetryDelays| {
      StuckAfterRotation(AfterFailure(s), h, a + 1, coin);
    }
  }

  // ---------------------------------------------------------------------------
  // Properties of one call

  /** What one `sendEmail` call promises: a duplicate changes nothing and calls no
      provider; otherwise one to three attempts, each after its scheduled wait; the
      fingerprint is recorded exactly when the call succeeds. */
  lemma SendProperties(s: ServiceState, h: Hash, coin: nat -> bool)
    requires Valid(s)
    ensures var r := Send(s, h, coin);
      var n := |Replies(r.trace)|;
      && (h in s.sentEmails ==> r == Run(s, Duplicate, []))
      && (h !in s.sentEmails ==>
            && 1 <= n <= |RetryDelays|
            && Delays(r.trace) == RetryDelays[..n]
            && r.trace[0] == Wait(RetryDelays[0])
            && (r.result.success <==> h in r.state.sentEmails))
      && (r.result.success ==>
            && h !in s.sentEmails
            && r.result == Delivered
            && r.state.sentEmails == s.sentEmails + {h}
            && r.state.failureCount == 0)
      && (h !in s.sentEmails && !r.result.success ==>
            && r.result == AllFailed
            && n == |RetryDelays|
            && r.state.sentEmails == s.sentEmails
            && r.state.failureCount == s.failureCount + |RetryDelays|
            && |Switches(r.trace)| == Rotations(s.failureCount, |RetryDelays|)
            && |Switches(r.trace)| == if s.failureCount + 1 >= MaxFailures then 3 else s.failureCount + 1)
  {
    if h !in s.sentEmails {
      RotationsClosedForm(s.failureCount, |RetryDelays|);
      AttemptsBounded(s, h, 0, coin);
      AttemptsStartWithWait(s, h, 0, coin);
      AttemptsRotationCount(s, h, 0, coin);
      if Send(s, h, coin).result.success {
        AttemptsDelivered(s, h, 0, coin);
      } else {
        AttemptsExhausted(s, h, 0, coin);
      }
    }
  }

  /** A call adds the fingerprint to the sent set exactly when it succeeds. */
  lemma SendRecordsOnlySuccess(s: ServiceState, h: Hash, coin: nat -> bool)
    requires Valid(s)
    ensures var r := Send(s, h, coin);
      r.state.sentEmails == s.sentEmails + (if r.result.success then {h} else {})
  {
    if h !in s.sentEmails {
      if Send(s, h, coin).result.success {
        AttemptsDelivered(s, h, 0, coin);
      } else {
        AttemptsExhausted(s, h, 0, coin);
      }
    }
  }

  /** Once a call has delivered an email, every later call for an email with the
      same fingerprint is suppressed without calling any provider. */
  lemma DeliveredThenDuplicate(s: ServiceState, h: Hash, coin: nat -> bool, later: nat -> bool)
    requires Valid(s)
    requires Send(s, h, coin).result.success
    ensures var after := Send(s, h, coin).state;
      Send(after, h, later) == Run(after, Duplicate, [])
  {
    SendProperties(s, h, coin);
  }

  /** A fresh service whose first provider fails all three attempts (its draws fail,
      or it was set to fail always): the call waits and calls the first provider three
      times, rotates once, after the third failure, to the second provider, which it
      takes out of service, and reports the aggregate failure. */
  lemma FreshServiceAllAttemptsFail(h: Hash, coin: nat -> bool, rate: FailureRate)
    requires rate == AlwaysFail || (!coin(0) && !coin(1) && !coin(2))
    ensures var first := ProviderState("Provider 1", true, rate);
      var second := ProviderState("Provider 2", true, Normal);
      var r := Send(ServiceState([first, second], 0, {}, 0), h, coin);
      && r.result == AllFailed
      && r.trace == [Wait(1000), Call(0, Rejected(TransportError)),
                     Wait(3000), Call(0, Rejected(TransportError)),
                     Wait(5000), Call(0, Rejected(TransportError)), Switched(1)]
      && r.state == ServiceState([first, second.(operational := false)], 1, {}, 3)
  {
    var s := ServiceState([ProviderState("Provider 1", true, rate), ProviderState("Provider 2", true, Normal)], 0, {}, 0);
    var s1 := AfterFailure(s);
    var s2 := AfterFailure(s1);
    var fail := Rejected(TransportError);
    AttemptFails(s, h, 0, coin);
    AttemptFails(s1, h, 1, coin);
    AttemptFails(s2, h, 2, coin);
    assert AttemptEvents(s, 0, fail) == [Wait(1000), Call(0, fail)];
    assert AttemptEvents(s1, 1, fail) == [Wait(3000), Call(0, fail)];
    assert AttemptEvents(s2, 2, fail) == [Wait(5000), Call(0, fail), Switched(1)];
  }

  /** The counter carries over from call to call: after the first call of a fresh
      service has failed on its draws, a second call fails whatever its draws, rotating
      on each of its three failures and leaving both providers out of service. */
  lemma SecondCallAfterFailureFails(h: Hash, h2: Hash, coin: nat -> bool, later: nat -> bool)
    requires !coin(0) && !coin(1) && !coin(2)
    ensures var r1 := Send(Initial(), h, coin);
      var r2 := Send(r1.state, h2, later);
      && r1.result == AllFailed
      && r2.result == AllFailed
      && Switches(r2.trace) == [0, 1, 0]
      && r2.state.primaryIndex == 0
      && r2.state.failureCount == 6
      && !r2.state.providers[0].operational && !r2.state.providers[1].operational
  {
    FreshServiceAllAttemptsFail(h, coin, Normal);
    var s := Send(Initial(), h, coin).state;
    assert h2 !in s.sentEmails;
    StuckAfterRotation(s, h2, 0, later);
    AttemptsExhausted(s, h2, 0, later);
    AttemptsRotationCount(s, h2, 0, later);
    RotationsClosedForm(s.failureCount, |RetryDelays|);
    AttemptsRotationTargets(s, h2, 0, later);
    var sw := Switches(Send(s, h2, later).trace);
    assert |sw| == 3;
    assert sw[0] == 0 && sw[1] == 1 && sw[2] == 0;
    assert 0 in sw && 1 in sw;
  }

  /** From any state, a call whose attempts all fail leaves the counter at the threshold
      or beyond and the active provider out of service, so the next call for a new
      fingerprint fails whatever its draws. */
  lemma FailedCallDoomsNext(s: ServiceState, h: Hash, coin: nat -> bool, h2: Hash, later: nat -> bool)
    requires Valid(s) && h !in s.sentEmails
    requires !Send(s, h, coin).result.success
    requires h2 !in Send(s, h, coin).state.sentEmails
    ensures Send(Send(s, h, coin).state, h2, later).result == AllFailed
  {
    var r := Send(s, h, coin);
    AttemptsExhausted(s, h, 0, coin);
    AttemptsRotationCount(s, h, 0, coin);
    RotationsClosedForm(s.failureCount, |RetryDelays|);
    AttemptsRotationTargets(s, h, 0, coin);
    var sw := Switches(r.trace);
    assert 0 < |sw| && sw[|sw| - 1] in sw;
    assert !r.state.providers[r.state.primaryIndex].operational;
    StuckAfterRotation(r.state, h2, 0, later);
  }

  /** A fresh service whose first draw succeeds delivers on the first attempt, after
      the first scheduled wait, and records the fingerprint. */
  lemma FreshServiceDeliversFirstTime(h: Hash, coin: nat -> bool)
    requires coin(0)
    ensures var r := Send(Initial(), h, coin);
      && r.result == Delivered
      && r.trace == [Wait(1000), Call(0, Resolved(Delivered))]
      && r.state == Initial().(sentEmails := {h})
  {
  }
}
