/** The email service object: two providers, the index of the active one, the set of
    fingerprints already sent and the running failure counter, all updated in place by
    `SendEmail`. Its behaviour is tied call by call to `Dispatch.Send`. */
module Service {
  import opened EmailHash
  import opened Provider
  import Dispatch

  class EmailService {
    const providers: seq<EmailProvider>
    /** The digest used to fingerprint emails: SHA-256 rendered as hex. */
    const digest: string -> Hash
    var primaryIndex: nat
    var sentEmails: set<Hash>
    var failureCount: nat

    ghost predicate Valid()
      reads this
    {
      |providers| == 2 && providers[0] != providers[1] && primaryIndex < |providers|
    }

    /** The service's fields and its providers' fields as one value. */
    ghost function State(): (s: Dispatch.ServiceState)
      requires Valid()
      reads this, providers
      ensures Dispatch.Valid(s) && |s.providers| == 2
    {
      Dispatch.ServiceState([providers[0].State(), providers[1].State()], primaryIndex, sentEmails, failureCount)
    }

    constructor (digest: string -> Hash)
      ensures Valid() && fresh(providers[0]) && fresh(providers[1])
      ensures this.digest == digest
      ensures State() == Dispatch.Initial()
    {
      var first := new EmailProvider("Provider 1");
      var second := new EmailProvider("Provider 2");
      providers := [first, second];
      this.digest := digest;
      primaryIndex := 0;
      sentEmails := {};
      failureCount := 0;
    }

    /** Moves to the next provider, wrapping around, and takes that provider out of service. */
    method SwitchProvider()
      requires Valid()
      modifies this, providers
      ensures Valid()
      ensures primaryIndex == (old(primaryIndex) + 1) % |providers|
      ensures var p := primaryIndex; providers[p].State() == old(providers[p].State()).(operational := false)
      ensures var q := 1 - primaryIndex; providers[q].State() == old(providers[q].State())
      ensures sentEmails == old(sentEmails) && failureCount == old(failureCount)
      ensures State() == Dispatch.SwitchProvider(old(State()))
    {
      primaryIndex := (primaryIndex + 1) % |providers|;
      providers[primaryIndex].Fail();
    }

    method ResetFailures()
      requires Valid()
      modifies this
      ensures Valid() && failureCount == 0
      ensures State() == Dispatch.ResetFailures(old(State()))
    {
      failureCount := 0;
    }

    method RecordFailure()
      requires Valid()
      modifies this
      ensures Valid() && failureCount == old(failureCount) + 1
      ensures State() == Dispatch.RecordFailure(old(State()))
    {
      failureCount := failureCount + 1;
    }

    /** One pass of the retry loop: wait, call the active provider; on success record
        the fingerprint and reset the counter; on failure count it and rotate once the
        counter has reached the threshold. `events` records what happened, in order. */
    method Attempt(email: Email, h: Hash, attempt: nat, coin: nat -> bool)
      returns (reply: ProviderReply, events: seq<Dispatch.Event>)
      requires Valid() && attempt < |Dispatch.RetryDelays|
      modifies this, providers
      ensures Valid()
      ensures reply == Reply(old(State()).providers[old(primaryIndex)], coin(attempt))
      ensures events == Dispatch.AttemptEvents(old(State()), attempt, reply)
      ensures reply.Resolved? ==> State() == Dispatch.ResetFailures(old(State()).(sentEmails := old(sentEmails) + {h}))
      ensures reply.Rejected? ==> State() == Dispatch.AfterFailure(old(State()))
    {
      ghost var current := State();
      events := [Dispatch.Wait(Dispatch.RetryDelays[attempt])];
      reply := providers[primaryIndex].SendEmail(email, coin(attempt));
      events := events + [Dispatch.Call(primaryIndex, reply)];
      if reply.Resolved? {
        sentEmails := sentEmails + {h};
        ResetFailures();
        return;
      }
      RecordFailure();
      if failureCount >= Dispatch.MaxFailures {
        SwitchProvider();
        events := events + [Dispatch.Switched(primaryIndex)];
      }
    }

    /** Sends `email`: suppressed if its fingerprint was already sent; otherwise up to
        one attempt per scheduled delay, each after its wait, stopping at the first
        success. `coin(k)` is the random draw of attempt `k`; `trace` records the waits,
        calls and rotations in order. */
    method SendEmail(email: Email, coin: nat -> bool) returns (result: SendResult, trace: seq<Dispatch.Event>)
      requires Valid()
      modifies this, providers
      ensures Valid()
      ensures Dispatch.Run(State(), result, trace) == Dispatch.Send(old(State()), HashEmail(digest, email), coin)
      ensures old(HashEmail(digest, email) in sentEmails) ==> result == Dispatch.Duplicate && trace == []
      ensures sentEmails == old(sentEmails) + (if result.success then {HashEmail(digest, email)} else {})
    {
      ghost var before := State();
      var h := HashEmail(digest, email);
      if h in sentEmails {
        return Dispatch.Duplicate, [];
      }
      trace := [];
      var attempt := 0;
      while attempt < |Dispatch.RetryDelays|
        invariant Valid()
        invariant attempt <= |Dispatch.RetryDelays|
        invariant Dispatch.Send(before, h, coin) == Dispatch.Prepend(trace, Dispatch.Attempts(State(), h, attempt, coin))
        decreases |Dispatch.RetryDelays| - attempt
      {
        ghost var current := State();
        ghost var done := trace;
        var reply, events := Attempt(email, h, attempt, coin);
        trace := trace + events;
        if reply.Resolved? {
          Dispatch.AttemptSucceeds(current, h, attempt, coin);
          Dispatch.SendRecordsOnlySuccess(before, h, coin);
          return reply.result, trace;
        }
        Dispatch.AttemptFails(current, h, attempt, coin);
        Dispatch.PrependTwice(done, events, Dispatch.Attempts(State(), h, attempt + 1, coin));
        attempt := attempt + 1;
      }
      Dispatch.SendRecordsOnlySuccess(before, h, coin);
      return Dispatch.AllFailed, trace;
    }
  }
}
