/** A mock delivery backend. Its transport outcome is random; here the random draw
    is an injected boolean `coin` ("the draw exceeded 0.5"). */
module Provider {
  import opened EmailHash

  /** The two values `failureRate` ever takes: 0.5 (from construction and `restore`)
      and 1.0 (from `simulateFailure`). A draw from [0, 1) never exceeds 1.0. */
  datatype FailureRate = Normal | AlwaysFail

  /** The value a send resolves with, as returned to the caller of the service. */
  datatype SendResult = SendResult(success: bool, message: string)

  /** What one provider call does: resolve with a result, or reject with an error message. */
  datatype ProviderReply = Resolved(result: SendResult) | Rejected(error: string)

  const Delivered := SendResult(true, "Email sent successfully")
  const TransportError := "Failed to send email"

  /** The observable fields of a provider. */
  datatype ProviderState = ProviderState(name: string, operational: bool, failureRate: FailureRate)

  function OutOfService(name: string): (message: string)
  {
    name + " is currently out of service."
  }

  /** The reply of a provider in state `p` when the random draw comes out as `coin`. */
  function Reply(p: ProviderState, coin: bool): (r: ProviderReply)
    ensures r.Resolved? <==> p.operational && p.failureRate == Normal && coin
    ensures r.Resolved? ==> r.result == Delivered
    ensures !p.operational ==> r == Rejected(OutOfService(p.name))
    ensures p.operational && r.Rejected? ==> r == Rejected(TransportError)
  {
    if !p.operational then Rejected(OutOfService(p.name))
    else if p.failureRate == Normal && coin then Resolved(Delivered)
    else Rejected(TransportError)
  }

  /** A provider that is out of service answers the same whatever the draw. */
  lemma OutOfServiceIgnoresDraw(p: ProviderState, c1: bool, c2: bool)
    requires !p.operational
    ensures Reply(p, c1) == Reply(p, c2) && Reply(p, c1).Rejected?
  {
  }

  class EmailProvider {
    const name: string
    var failureRate: FailureRate
    var operational: bool

    function State(): (p: ProviderState)
      reads this
    {
      ProviderState(name, operational, failureRate)
    }

    constructor (name: string)
      ensures State() == ProviderState(name, true, Normal)
    {
      this.name := name;
      failureRate := Normal;
      operational := true;
    }

    /** One delivery attempt. The email's content plays no part in the outcome. */
    method SendEmail(email: Email, coin: bool) returns (reply: ProviderReply)
      ensures reply == Reply(State(), coin)
    {
      if !operational {
        return Rejected(OutOfService(name));
      }
      if failureRate == Normal && coin {
        reply := Resolved(Delivered);
      } else {
        reply := Rejected(TransportError);
      }
    }

    method SimulateFailure()
      modifies this
      ensures State() == old(State()).(failureRate := AlwaysFail)
    {
      failureRate := AlwaysFail;
    }

    method Restore()
      modifies this
      ensures State() == old(State()).(failureRate := Normal, operational := true)
    {
      failureRate := Normal;
      operational := true;
    }

    method Fail()
      modifies this
      ensures State() == old(State()).(operational := false)
    {
      operational := false;
    }
  }
}
