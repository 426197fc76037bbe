# Email service with retries and provider failover

This project models the retry and failover controller of a small email-sending service.
The service owns:
- two mock delivery providers;
- the index of the active one;
- the set of fingerprints of emails already delivered;
- a running failure counter.

A call to `sendEmail` works like this:
1. It fingerprints the email.
2. If the fingerprint was already delivered, it refuses the email as a duplicate.
3. Otherwise it makes up to three attempts. Each attempt waits its scheduled delay (1000, 3000, then 5000 ms) and then calls the active provider.
4. The first success records the fingerprint, resets the counter and returns the provider's result.
5. Each failure adds one to the counter. Once the counter is at 3 or more, the service rotates to the next provider (wrapping around) and takes the provider it rotates *to* out of service.
6. If all three attempts fail, the call reports the aggregate failure.

The model has four modules:

- `EmailHash` (`email_hash.dfy`): the email value and its fingerprint. The fingerprint is a digest of the three fields concatenated without a separator. The digest is a parameter.
- `Provider` (`provider.dfy`): a provider's observable state and the reply it gives. Class `EmailProvider` has the fields `operational` and `failureRate`, updated in place by `SimulateFailure`, `Restore` and `Fail`.
- `Dispatch` (`dispatch.dfy`): the controller as a pure state machine. `Send` maps these inputs:
  - the state before a call;
  - the email's fingerprint;
  - the random draw of each attempt.

  It returns the state after the call, the value returned and the trace of the call. The trace lists, in order, each wait, each provider call with its reply, and each rotation. The properties of the retry loop are lemmas about `Send` and `Attempts`.
- `Service` (`email_service.dfy`): class `EmailService` with the source's fields. Its `SendEmail` method runs the `for` loop imperatively, updating the fields and the providers in place. The method is proved equal, call by call, to `Dispatch.Send`.

The random draw of attempt `k` is `coin(k)`: "the draw exceeded 0.5". A provider whose failure rate was set to 1.0 never succeeds, because a draw from [0, 1) never exceeds 1.0.

Three behaviours of the code are modelled as written and stated as lemmas:
- The counter is never reset by a rotation, only by a success. It also carries over from one call to the next, so once it has reached the threshold, every later failure rotates again.
- A rotation takes the provider it moves to out of service. From any state, after a call whose three attempts all fail, the next call for a new fingerprint fails whatever its draws (`Dispatch.FailedCallDoomsNext`, `Dispatch.StuckAfterRotation`, and the fresh-service instance `Dispatch.SecondCallAfterFailureFails`).
- Fields are concatenated without a separator, so two different emails can share a fingerprint. The second one is then refused as a duplicate (`EmailHash.DistinctEmailsCanShareHash`).

## Model

| member | source | states |
|---|---|---|
| EmailHash.Concatenated | src/EmailService.js:5-8 | the digested text is `to`, then `subject`, then `body`, with no separator: its length is the sum of the three and it starts with `to` and ends with `body` |
| EmailHash.HashEmail | src/EmailService.js:5-8 | the fingerprint is the digest applied to `to + subject + body`, i.e. to `Concatenated(e)` |
| EmailHash.HashDependsOnlyOnConcatenation | src/EmailService.js:5-8 | emails with equal concatenations get equal fingerprints under any digest |
| EmailHash.DistinctEmailsCanShareHash | src/EmailService.js:7 | two different emails (`"a","b",""` and `"ab","",""`) share a fingerprint under every digest |
| Provider.Reply | src/EmailService.js:17-31 | a provider resolves iff it is operational, its failure rate is the normal one and the draw succeeds; it then resolves with "Email sent successfully"; if out of service it rejects with "<name> is currently out of service."; otherwise it rejects with "Failed to send email" |
| Provider.OutOfServiceIgnoresDraw | src/EmailService.js:19-20 | a provider out of service rejects whatever the draw |
| Provider.EmailProvider.constructor | src/EmailService.js:11-15 | a new provider has the given name, is operational and has the normal failure rate |
| Provider.EmailProvider.SendEmail | src/EmailService.js:17-31 | the reply is the one `Provider.Reply` gives for the provider's current fields; the email's content plays no part; no field changes |
| Provider.EmailProvider.SimulateFailure | src/EmailService.js:33-35 | only the failure rate changes, to "always fail" |
| Provider.EmailProvider.Restore | src/EmailService.js:37-40 | the failure rate becomes normal and the provider operational; the name is unchanged |
| Provider.EmailProvider.Fail | src/EmailService.js:42-44 | only `operational` changes, to false |
| Dispatch.Initial | src/EmailService.js:48-55 | a fresh service has two operational providers with the normal rate, index 0, no fingerprints and a zero counter |
| Dispatch.SwitchProvider | src/EmailService.js:89-93 | the index becomes `(index + 1) % length` and stays in range; exactly the new active provider is taken out of service; fingerprints and counter unchanged |
| Dispatch.RecordFailure | src/EmailService.js:99-101 | the counter goes up by exactly one and nothing else changes |
| Dispatch.ResetFailures | src/EmailService.js:95-97 | the counter becomes 0 and nothing else changes |
| Dispatch.AfterFailure | src/EmailService.js:74-77 | a failure adds one to the counter; the service rotates exactly when the new count is at the threshold or beyond, and the rotation does not reset the counter |
| Dispatch.Attempts | src/EmailService.js:64-82 | the retry loop keeps the active index in range and the number of providers, and adds at most the call's own fingerprint to the sent set |
| Dispatch.Send | src/EmailService.js:57-83 | a call keeps the service valid and only ever adds its own fingerprint to the sent set |
| Dispatch.RotationsClosedForm | src/EmailService.js:74-77 | of `f` consecutive failures starting from counter `c`, all rotate when `c + 1 >= 3`, none when `c + f < 3`, and otherwise `c + f - 2` do |
| Dispatch.AttemptsBounded | src/EmailService.js:64-67 | the loop makes at most one provider call per remaining delay, at least one if any delay remains, and waits the scheduled delays in schedule order |
| Dispatch.AttemptsStartWithWait | src/EmailService.js:64-66 | when an attempt remains, the loop starts by waiting that attempt's delay |
| Dispatch.AttemptsWaitThenCall | src/EmailService.js:64-67 | every wait is immediately followed by a provider call and every call immediately follows a wait |
| Dispatch.AttemptsDelivered | src/EmailService.js:67-71 | on success the result is the provider's, the fingerprint is added and the counter is 0 |
| Dispatch.AttemptsDeliveredLast | src/EmailService.js:67-71 | on success the successful call is the last event of the trace and every earlier call failed: no attempt follows a success |
| Dispatch.AttemptsExhausted | src/EmailService.js:64-82 | if no attempt succeeds: the result is "All attempts failed. Email not sent."; every remaining attempt made one failed call; the sent set is unchanged; the counter grew by the number of failures |
| Dispatch.AttemptsRotationCount | src/EmailService.js:74-77 | the number of rotations is the number of failures that bring the counter to the threshold or beyond |
| Dispatch.AttemptsRotationTargets | src/EmailService.js:89-91 | each rotation moves to the provider after the previous active one, wrapping around; the final index is the last one rotated to; exactly the providers rotated to are taken out of service and nothing else about any provider changes |
| Dispatch.RotateExactlyAtThreshold | src/EmailService.js:74-77 | a failed call is followed by a rotation iff the counter, after counting it, is at the threshold or beyond; no rotation happens except right after a failed call |
| Dispatch.StuckAfterRotation | src/EmailService.js:89-91 | if the active provider is out of service and one more failure reaches the threshold, every remaining attempt fails and the call reports the aggregate failure |
| Dispatch.SendProperties | src/EmailService.js:57-83 | a duplicate returns "Duplicate email prevented", calls no provider and changes nothing; otherwise the call makes 1 to 3 calls, waits the scheduled delays in order, begins with the 1000 ms wait, and succeeds iff the fingerprint ends up recorded; success also returns the provider's result and sets the counter to 0; failure returns the aggregate failure, leaves the sent set alone, adds 3 to the counter and rotates 3 times if the counter started at 2 or more, `counter + 1` times otherwise |
| Dispatch.SendRecordsOnlySuccess | src/EmailService.js:68 | the sent set after a call is the set before it plus the fingerprint exactly when the call succeeded |
| Dispatch.DeliveredThenDuplicate | src/EmailService.js:58-62 | after a call delivers an email, every later call with the same fingerprint is refused as a duplicate without calling a provider or changing anything |
| Dispatch.FreshServiceAllAttemptsFail | src/EmailService.js:64-79 | on a fresh service whose first provider fails three times: three waits and calls to provider 0, exactly one rotation (after the third failure) to index 1, which is taken out of service, the counter at 3 and the aggregate failure |
| Dispatch.SecondCallAfterFailureFails | src/EmailService.js:74-77 | the counter carries over between calls: after such a call, the next call fails whatever its draws, rotates on each of its three failures (to 0, 1, 0), ends with the counter at 6 and both providers out of service |
| Dispatch.FailedCallDoomsNext | src/EmailService.js:74-77 | from any valid state, once a call's three attempts have all failed, the next call for a fingerprint not yet sent fails whatever its draws: the counter is at the threshold and the provider rotated to last is active and out of service |
| Dispatch.FreshServiceDeliversFirstTime | src/EmailService.js:64-71 | on a fresh service whose first draw succeeds, the call waits 1000 ms, calls provider 0 once, delivers and records the fingerprint |
| Service.EmailService.constructor | src/EmailService.js:48-55 | the new service's fields and providers form the initial state of `Dispatch.Initial` |
| Service.EmailService.SwitchProvider | src/EmailService.js:89-93 | the index advances with wrap-around; the provider moved to is taken out of service; the other provider, the sent set and the counter are unchanged |
| Service.EmailService.ResetFailures | src/EmailService.js:95-97 | the counter becomes 0, nothing else changes |
| Service.EmailService.RecordFailure | src/EmailService.js:99-101 | the counter goes up by one, nothing else changes |
| Service.EmailService.Attempt | src/EmailService.js:65-78 | one pass of the loop: the reply is the active provider's; the events are that attempt's wait, call and any rotation; success records the fingerprint and resets the counter; failure counts and rotates as `Dispatch.AfterFailure` says |
| Service.EmailService.SendEmail | src/EmailService.js:57-83 | the new fields, the result and the trace are those of `Dispatch.Send` on the old fields; a duplicate returns "Duplicate email prevented" with no provider call; the sent set gains the fingerprint exactly when the result is a success |

## Left out

- SHA-256 from Node's `crypto` module (src/EmailService.js:3, 7) is a foreign library. The digest is a parameter of the service (`digest: string -> Hash`), and nothing is stated about it beyond determinism.
- `Math.random()` and the floating-point failure rate (src/EmailService.js:13, 23, 34, 38) are replaced by an injected draw `coin(k)` per attempt. The failure rate keeps only the two values the code assigns: `Normal` (0.5) and `AlwaysFail` (1.0).
- `setTimeout`, promises, `async`/`await` and `delay` (src/EmailService.js:18-30, 66, 85-87) are timing plumbing. Each wait is a `Wait(ms)` event in the trace. The provider's own 100 ms timer is not recorded.
- Concurrency is not modelled. Concurrent `sendEmail` calls on one service could interleave at every `await`. `simulateFailure`, `restore` or `fail` could also run while a call is in flight. The source checks `operational` when a provider is called (src/EmailService.js:19) but reads `failureRate` only when the 100 ms timer fires (src/EmailService.js:22-23). The model reads both at the call, and every operation runs to completion before the next one starts.
- `console.log` output (src/EmailService.js:60, 70, 73, 81, 92) is observability only.
- Errors are modelled by their message only: a rejection is `Rejected(message)`, not an `Error` object.
- The test file src/__tests__/EmailService.test.js asserts only that a random process eventually succeeds. It is not part of this model.
- The service class holds exactly the two distinct providers its constructor creates. Replacing the provider list from outside is not modelled. `Dispatch` itself works for any non-empty provider list.
