# Verified model of the OBS ONVIF plugin's control core

A Dafny model, with proofs, of the four parts of the plugin where a mistake is hardest to see in the
code: the PTZ dispatch governor, the authentication digest stack, the SOAP connection pool with its
authentication negotiation, and the logic that follows a camera to a new address (apply policy, URL
rewriting, subnet sweep). `dafny verify dfyconfig.toml` checks everything.

## The parts

**PTZ dispatch governor.** Any number of caller threads submit moves and stops; one worker coalesces
them per camera, lets stops go first, spaces moves by a minimum interval, repeats bounded moves and
wakes threads that wait for idleness.

- `PtzModel` holds the values and the effect of each critical section; `PtzControllers.PtzController` is
  the object, one method per critical section, proved against `PtzModel`; `KeyOrder` is the iteration
  order of the ordered map of cameras.
- `PtzSystem` is the labelled transition system: caller steps (move, stop, settings, shutdown, notify,
  wait for idle), the passing of time, spurious wakeups, and the worker's steps with a program counter
  for each place where the mutex is released. Three logs record submissions, picks and executor calls.
- `PtzLabels` ties the logged submissions to the callers' own calls and their arguments. `PtzInvariants`
  proves the invariant of every run, `PtzTheorems` what follows for whole runs, `PtzTimes` the lower and
  upper bounds on the floor and on the repeats of bounded moves, and
  `PtzDrain` that once nothing more is submitted the controller becomes idle within a bounded number of
  steps, and that after a shutdown the worker carries out exactly what was queued and exits.
  `PtzShutdown` is about what is submitted after that.

**Authentication digest.** `Sha1Spec` is FIPS 180-4 on a whole message, and `Sha1KnownAnswer` derives the
published digest of "abc" from it, one round after the other. `Sha1Stream.Sha1Context` is the
streaming code with its 64-byte buffer filled in place, proved to compute it for any cut of the input.
`Base64` is the codec with its inverse laws, `WsSecurity` the UsernameToken digest made of the two.

**Connection pool and negotiation.** `PoolSystem` is a transition system of any number of senders, each
running the pooled send again and again, with every WinHTTP call's outcome arbitrary. `SoapClient` is
the code as objects and methods for one call, with the negotiation of WS-Security or Basic and the
remembered modes; a trace records every acquire, request, look at the abort handle, close, release and
send, and the contracts give the trace of each call exactly.

**Following a camera.** `ApplyModel`, `ApplyPolicies` and `ApplyRuns` are the policy's transitions, its
object with the OBS side that drives it, and runs of calls with the fate of each captured incident.
`UrlRewrite` and `UserinfoEncoding` are the credential splice and the percent-encoding. `Sweep` is the
directed probe of each interface's subnet. `Seqs` holds a few facts about sequences used throughout.

## Where the code and its documentation differ

The model follows the code.

- A move picked while the steady clock reads its epoch does not arm the movement floor, because a zero
  `lastMove` means "no move yet" (`registry/ptz_controller.cpp:99-116`). `PtzTheorems.FloorExactly` shows
  that this is the only exception, and `PtzTheorems.EpochMoveUnarmed` is a run that shows it.
- `registry/apply.h:34` lists ':' among the characters `UrlEncodeUserinfo` escapes; the code leaves it.
  `UserinfoEncoding.PairRoundTrip` shows that a user name and password joined by ':' can then be told
  apart exactly when the user name holds no ':'.
- `onvif/ws_discovery.h:78` says that /22 subnets are skipped and line 14 that an unknown prefix counts
  as /24; the code sweeps /22 and /23, capped at 254 hosts, and skips an unknown prefix.
  `Sweep.SweepSkips` says exactly which prefixes are skipped, and `Sweep.SweepComplete` for which the
  capped sweep is complete.
- `registry/ptz_controller.h:76` says that `Shutdown` stops accepting work. `Move` and `Stop` still queue
  commands afterwards, and the worker carries them out unless it has exited:
  `PtzShutdown.LateMoveDispatched` is a run in which it does, and `PtzShutdown.RefusedExactly` shows that
  late commands are refused exactly once the worker has exited. The draining results are therefore stated
  for stretches of a run without submissions.

## Model

| member | source | states |
|---|---|---|
| PtzTheorems.QuiescentCorrect | registry/ptz_controller.cpp:27-94 | In every run and interleaving, whenever nothing is in flight and no work is queued, the last command the executor got for a camera carries what its caller's last call asked for: the pan, tilt and zoom of the last Move with the timeout of that moment, or a stop; a camera nobody called for got none. |
| PtzLabels.SubmissionIs | registry/ptz_controller.cpp:31-54 | A Move submits a move for its camera with exactly the caller's pan, tilt and zoom and the timeout then set, a Stop a stop, and nothing else submits anything. |
| PtzLabels.NewestCarries | registry/ptz_controller.cpp:27-64 | The newest submission for a camera is the one made by the last call for it, with that call's arguments. |
| PtzTheorems.LatestWins | registry/ptz_controller.cpp:135-166 | Each pick answers the last call made for its camera before it, with exactly that call's velocities and the timeout of that moment, or a stop; per camera the answered calls strictly increase, so none is answered twice. |
| PtzTheorems.ExecutorFollowsPicks | registry/ptz_controller.cpp:185-232 | The executor log, with adjacent repeats taken once, is the pick log in order (all but possibly the newest pick); only a bounded move is ever called again. |
| PtzTheorems.StopPurges | registry/ptz_controller.cpp:46-64 | Between a Stop and the next Move of a camera every pick for it is a stop, and the executor gets at most one more move for it: one already chosen under the mutex when Stop was called. |
| PtzTheorems.StopsGoFirst | registry/ptz_controller.cpp:135-163 | From a Stop until it is picked, or replaced by a Move of the same camera, it stays queued and every pick of any camera is a stop. |
| PtzTheorems.StopExcludesHeld | registry/ptz_controller.h:89-95 | In every reachable state a pending stop excludes a held move. |
| PtzTheorems.OneDispatch | registry/ptz_controller.cpp:166-181 | The dispatch count is one exactly while the worker is between pick and finish, and zero otherwise. |
| PtzTheorems.NoLostIdleWakeup | registry/ptz_controller.cpp:174-181 | Only the decrement after a dispatch turns the idle condition true, the worker then goes on to notify, and no thread is left waiting on an idle controller without a notification to come. |
| PtzTheorems.WorkNeverLost | registry/ptz_controller.cpp:106-170 | Work seen at the top of the loop survives the floor wait, so an iteration always picks something; the worker sleeps on work or shutdown only while a caller still owes a notify. |
| PtzTheorems.RecheckRedundant | registry/ptz_controller.cpp:209-229 | After a hold that timed out the second look at the held command always agrees with the first. |
| PtzTheorems.MovementFloor | registry/ptz_controller.cpp:112-133 | Any two move picks, across all cameras, are at least the later iteration's interval apart, unless the earlier was made at the clock's epoch. |
| PtzTheorems.FloorExactly | registry/ptz_controller.cpp:115-119 | The floor holds in all runs after a move picked at a given clock reading if and only if that reading is not the epoch or no interval is asked for. |
| PtzTimes.FloorReleases | registry/ptz_controller.cpp:115-133 | In every run, with work to do, the worker can make a pick at the present clock reading if and only if no move was picked yet (none but at the epoch), or the iteration's interval since the last move pick has passed, or a stop is queued. |
| PtzTimes.IterationSettings | registry/ptz_controller.cpp:107-110 | Every pick goes by the settings in force when its iteration started, and nothing was picked in between. |
| PtzTheorems.EpochMoveUnarmed | registry/ptz_controller.cpp:99-115 | For every interval there is a run with two move picks at the same instant, the clock's epoch. |
| PtzTheorems.EarlyExitPicksStop | registry/ptz_controller.cpp:119-147 | Leaving the floor wait before the next slot always picks a stop. |
| PtzInvariants.RunInv | registry/ptz_controller.cpp:96-183 | Every state of every run satisfies the invariant that ties each camera's state to its newest submission and last pick, the worker's place to the executor log, and the clock to the pick times. |
| PtzDrain.Drains | registry/ptz_controller.cpp:96-170 | While nothing is submitted, picks made and cameras with work add up to a constant: each pick takes exactly one camera off the work. |
| PtzDrain.CallsOnce | registry/ptz_controller.cpp:203-206 | With a move timeout of zero the executor is called exactly once per pick. |
| PtzDrain.ExitDrained | registry/ptz_controller.cpp:72-109 | When the worker has exited it made exactly one pick and one call per camera that had work, and left nothing queued or in flight. |
| PtzDrain.StepBound | registry/ptz_controller.cpp:96-232 | Once nothing more is submitted the worker takes, with a move timeout of zero, at most six steps per camera with work and six more; and whatever the timeout, if no camera holds a move, seven per camera and seven more. |
| PtzDrain.IdleWithin | registry/ptz_controller.cpp:66-70 | And what `WaitIdle` waits for comes about: under either condition the controller is idle after all but three of those steps at the latest, and an idle controller stays idle. |
| PtzDrain.HeldMoveKeepsWorker | registry/ptz_controller.cpp:203-232 | Under neither condition there is a case without a bound: while a bounded move is still the newest submission for its camera, the worker stays with it, picks nothing for any camera and is never idle. |
| PtzDrain.NeverStuck | registry/ptz_controller.cpp:96-232 | Whatever the timeouts, as long as the controller is not idle, or is shut down and the worker has not exited, the worker can take a step once enough time has passed, or is asleep with a notify to come. |
| PtzShutdown.ExitedForGood | registry/ptz_controller.cpp:108-109 | Once the worker has exited nothing is ever picked or called again. |
| PtzShutdown.LateMoveDispatched | registry/ptz_controller.cpp:27-44 | There is a run in which a Move submitted after Shutdown is picked and reaches the executor. |
| PtzShutdown.RefusedExactly | registry/ptz_controller.cpp:106-109 | In every run no command submitted after Shutdown is ever answered by a pick, if and only if the worker had exited when it was submitted. |
| PtzControllers.PtzController.Move | registry/ptz_controller.cpp:27-44 | Replaces whatever the camera had queued by the new held move, clears a pending stop and asks for a dispatch, with the current timeout; other cameras are untouched. |
| PtzControllers.PtzController.Stop | registry/ptz_controller.cpp:46-64 | Drops the held move and queues a stop; other cameras are untouched; asks for an abort exactly in immediate mode. |
| PtzControllers.PtzController.SetSettings | registry/ptz_controller.cpp:18-25 | Changes the settings and nothing else. |
| PtzControllers.PtzController.Shutdown | registry/ptz_controller.cpp:72-78 | Sets the shutdown flag and nothing else. |
| PtzControllers.PtzController.HasWork | registry/ptz_controller.cpp:83-94 | True exactly when some camera has a pending stop or a held move that was not dispatched. |
| PtzControllers.PtzController.MustWait | registry/ptz_controller.cpp:115-132 | The floor wait goes on exactly while the next slot is ahead and no camera has a pending stop. |
| PtzControllers.PtzController.Pick | registry/ptz_controller.cpp:135-167 | Takes the first camera in map order with a pending stop, or else the first with a move to dispatch; nothing is picked exactly when there is no work. |
| KeyOrder.PrecedesIs | registry/ptz_controller.h:96 | The map order is the lexicographic one: a proper prefix comes first, and otherwise the smaller character at the first difference. |
| PtzTheorems.RefiresCurrent | registry/ptz_controller.cpp:209-229 | In every run, while a bounded move is held its hold ends early if and only if the last call for its camera was a Stop or a Move with another pan, tilt or zoom (another timeout alone does not end it), and it is fired again if and only if not. |
| PtzTimes.RepeatsSpaced | registry/ptz_controller.cpp:203-231 | Two calls that carry out the same pick are at least the move timeout apart, and the hold's deadline is that long after the call and never further ahead than that. |
| PtzTimes.RepeatsOnTime | registry/ptz_controller.cpp:210-228 | From its deadline on, and not before, a held move can be called again at once, exactly when it is still current. |
| PtzControllers.PtzController.FinishDispatch | registry/ptz_controller.cpp:174-179 | Lowers the count and reports idleness exactly when nothing is in flight or queued. |
| Sha1Spec.ChOr | onvif/sha1.cpp:37-39 | The code's OR form of the choice function is the XOR form of FIPS 180-4 section 4.1.1. |
| Sha1Spec.MajOr | onvif/sha1.cpp:43-45 | The code's OR form of the majority function is the XOR form of FIPS 180-4 section 4.1.1. |
| Sha1Spec.RotlShifts | onvif/sha1.cpp:18-21 | The two shifts joined by OR are a rotation, for the three amounts used. |
| Sha1Spec.ZeroCountLeast | onvif/sha1.cpp:88-90 | The number of zero bytes of the padding is the least that leads to 56 modulo 64. |
| Sha1Spec.HashBlocksChain | onvif/sha1.cpp:58-62 | The hash value starts from the standard's initial value and chains one block after the other. |
| Sha1KnownAnswer.Abc | tests/unit/sha1_test.cpp:12-13 | The definition gives the published digest of "abc"; all its constants, rotations and indices take part. |
| Sha1Stream.Sha1Context.Schedule | onvif/sha1.cpp:25-30 | The 80-word array holds the message schedule recurrence of FIPS 180-4 section 6.1.2. |
| Sha1Stream.RoundFunction | onvif/sha1.cpp:36-49 | The function and constant of each round are those of FIPS 180-4 sections 4.1.1 and 4.2.1. |
| Sha1Stream.Sha1Context.ProcessBlock | onvif/sha1.cpp:23-63 | Hashing a block in place is the standard's compression of that block. |
| Sha1Stream.AppendPartial | onvif/sha1.cpp:69-75 | A chunk that does not complete the block only extends the buffer. |
| Sha1Stream.AppendFull | onvif/sha1.cpp:69-79 | A chunk that completes the block leaves the compression of the old buffer and the chunk. |
| Sha1Stream.Sha1Context.Update | onvif/sha1.cpp:65-81 | The context afterwards is the one determined by everything fed so far, however it was cut. |
| Sha1Stream.Chunked | onvif/sha1.cpp:65-81 | For any sequence of updates, hash value, length, buffer and fill are those of the one concatenated input. |
| Sha1Stream.ChunkedDigest | onvif/sha1.cpp:65-108 | And for any cut of fewer than 2^61 bytes the digest is the FIPS 180-4 hash of the whole. |
| Sha1Stream.Sha1Context.Pad | onvif/sha1.cpp:86-90 | The zero loop ends after at most 63 turns and feeds exactly the standard's padding. |
| Sha1Stream.Sha1Context.LengthField | onvif/sha1.cpp:92-94 | The eight shifted bytes are the big-endian bit length. |
| Sha1Stream.Sha1Context.Final | onvif/sha1.cpp:83-108 | The digest is the standard's hash of the padded input; the buffer is empty after the length field, so the branch for a leftover is dead. |
| Sha1Stream.Sha1 | onvif/sha1.cpp:112-117 | For every byte string shorter than 2^61 bytes the result is the FIPS 180-4 hash; for longer ones the length field is taken modulo 2^64. |
| Base64.DigitIsTable | onvif/base64.cpp:10-11 | The characters are those of the table of RFC 4648 section 4, written out, at every index. |
| Base64.DigitDecodes | onvif/base64.cpp:13-26 | Decoding a character of the alphabet gives the six bits it stands for. |
| Base64.DecodedDigit | onvif/base64.cpp:13-26 | Only the character of those six bits decodes to them. |
| Base64.EncodeBytes | onvif/base64.cpp:35-67 | The loop computes the group-wise encoding of the whole input with its padded last group. |
| Base64.DecodeString | onvif/base64.cpp:69-105 | The two loops decode the digits before the first '=', blanks skipped, and give nothing on a foreign character before it. |
| Base64.DecodeEncode | onvif/base64.cpp:35-105 | Decoding an encoding gives the bytes back, for every byte string. |
| Base64.EncodeDecode | onvif/base64.cpp:35-105 | Encoding a decoding gives the string back if and only if the string is canonical: whole groups, correct padding, no stray bits. |
| Base64.EncodeCanonical | onvif/base64.cpp:35-67 | Every encoding is canonical. |
| Base64.EncodeKeepsBits | onvif/base64.cpp:35-67 | The digits of an encoding, read as six bits each, are the bits of the bytes in order with zero bits filling up the last digit, and the padding is as RFC 4648 section 4 has it. |
| Base64.DecodeKeepsBits | onvif/base64.cpp:87-104 | Of any digits decoding gives the bits in order, without the two or four that do not fill a byte; a lone last digit gives one byte. |
| Base64.PaddingEnds | onvif/base64.cpp:76-77 | Nothing after the first '=' is read. |
| Base64.ForeignRejected | onvif/base64.cpp:78-79 | A foreign character before the first '=' makes the whole string decode to nothing. |
| Base64.BlankInsensitive | onvif/base64.cpp:69-80 | Decoding any string is unchanged by a space, tab, CR or LF inserted anywhere. |
| WsSecurity.PasswordDigest | onvif/ws_security.cpp:52-59 | For a nonce given as the Base64 of raw bytes the digest is that of section 3.1 of the UsernameToken Profile 1.0 over those bytes, the creation time and the password; it has 28 characters, the last alone being '='. |
| WsSecurity.DigestShape | onvif/ws_security.cpp:58 | Any 20-byte hash encodes to 28 characters of which exactly the last is '='. |
| WsSecurity.DigestTextInjective | onvif/ws_security.cpp:58 | Different hashes have different texts. |
| WsSecurity.BuildUsernameTokenFixed | onvif/ws_security.cpp:105-117 | Each field of the token is the one given, and its digest is the profile's digest of those fields. |
| PoolSystem.PoolSafe | onvif/soap_client.cpp:161-188 | In every interleaving a connection has at most one holder; two senders, looked at in the same or in different states of a run, have the same connection exactly when their keys are equal; and a free connection has both handles or neither. |
| PoolSystem.CallAccounted | onvif/soap_client.cpp:352-399 | Counted over the steps of the run, a call that returned released as often as it acquired, made at most two requests, closed once per failed request, and succeeded exactly when its last request did. |
| PoolSystem.RunCalls | onvif/soap_client.cpp:352-399 | What a sender holds of its call is what its steps since the call began say: the key, the handle, whether it was signaled, and how often each thing was done. |
| PoolSystem.FailedReleasedClosed | onvif/soap_client.cpp:381-398 | A connection whose request failed is released with both handles closed; the call tries again exactly after a first failure that was not aborted. |
| PoolSystem.AbortedNeverRetries | onvif/soap_client.cpp:384-391 | Once a failed attempt found the abort handle signaled the call makes no further request and ends in failure. |
| PoolSystem.AskFinds | onvif/soap_client.cpp:384 | The look after a failed request finds the operation aborted if and only if the call has a handle and it was signaled since the call began. |
| PoolSystem.SignaledNeverRetries | onvif/soap_client.cpp:384-391 | A call whose handle is signaled during its first attempt, before that look, makes at most one request in all. |
| PoolSystem.WaitersProgress | onvif/soap_client.cpp:175-177 | No deadlock: whoever waits for a connection can take it, or its holder can take a step. |
| PoolSystem.HolderReleases | onvif/soap_client.cpp:365-397 | A holder keeps its connection for at most nine steps of its own, whatever the outcomes and whatever others do. |
| PoolSystem.RunInv | onvif/soap_client.cpp:161-201 | Every state of every run satisfies the pool's invariant: key and connection name each other, holders are exclusive, handles and counts are as the sender's place in the code has them. |
| SoapClient.SoapPool.Acquire | onvif/soap_client.cpp:161-179 | Gives the key's one connection, new only if there was none, marked in use after a wait if somebody else held it; one that was free is as it was left; no other connection changes. |
| SoapClient.SoapPool.Release | onvif/soap_client.cpp:181-188 | Marks the connection free and nothing else, whatever other connections are in use. |
| SoapClient.SoapPool.Close | onvif/soap_client.cpp:190-201 | Leaves neither handle set. |
| SoapClient.LookupRemembers | onvif/soap_client.cpp:144-159 | After any history of operations and toggles the lookup gives the mode that the first deciding operation found, and unknown if and only if the cache is off or nothing was decided. |
| SoapClient.SwitchIs | onvif/soap_client.cpp:139-142 | The cache is on from the start and then as the last toggle set it. |
| SoapClient.SoapPool.RememberAuth | onvif/soap_client.cpp:153-159 | Stores the mode, unless the cache is off. |
| SoapClient.OpenConnection | onvif/soap_client.cpp:333-350 | Afterwards both handles are set, or neither, according to the result; an open connection stays. |
| SoapClient.Exchange | onvif/soap_client.cpp:367-397 | With the connection in hand: what is done is exactly one turn, ending in the release; the connection stays open exactly after an answered request; an answer never comes through a handle signaled before. |
| SoapClient.SendPooled | onvif/soap_client.cpp:352-399 | Everything done is one or two turns of acquire, at most one request, a close after a failed one, and release; the second turn is taken if and only if the first request failed without finding the handle signaled; the result is that of the last turn. |
| SoapClient.Send | onvif/soap_client.cpp:505-511 | What is done is exactly one sending with the given authentication: turns of the pool with keep-alive, at most one request without; the remembered modes are untouched. |
| SoapClient.SendCount | onvif/soap_client.cpp:352-399 | Such a sending makes at most two requests with keep-alive and one without, and at least one when it completed. |
| SoapClient.Negotiate | onvif/onvif_client.cpp:235-252 | What is done is exactly a sending with WS-Security and, if and only if it was not accepted, a look at the abort handle and, unless that is signaled, one sending with Basic; the stored mode follows from these results. |
| SoapClient.PostOperation | onvif/onvif_client.cpp:221-265 | What is done is exactly one sending with the stored mode, or with WS-Security when there is no fallback, or else the negotiation, where a 401, a fault or a failed transport is final only if the handle was then found signaled and any other answer is final at once; requests are at most two per sending with keep-alive, one without; and the result in the fields of the last answer: the body exactly for a completed answer with status 200 and no fault. |
| SoapClient.PostCount | onvif/onvif_client.cpp:221-253 | An operation makes at most two requests with one sending and four with two, with keep-alive, and half of that without. |
| SoapClient.ModeSticks | onvif/onvif_client.cpp:226-253 | Over any sequence of operations and cache toggles, whatever the outcomes, a stored mode never changes. |
| SoapClient.NegotiatesOnce | onvif/onvif_client.cpp:226-235 | An operation negotiates if and only if it may fall back and the cache is off or no operation so far decided the mode of the service. |
| SoapClient.StoredByFirst | onvif/onvif_client.cpp:235-252 | A service has a stored mode if and only if some operation, with the cache on, got a first answer that was no 401, fault or failed transport, or then went on to Basic and completed; the first of those decides the mode, and it is WS-Security exactly for such a first answer. |
| ApplyModel.RewritesImage | registry/apply.cpp:144-164 | The list of rewrites is the order-preserving image of exactly the mappings of the camera with auto-apply set; each entry holds the mapping, the tracked URL of its source if any, and the rewrite of that to the new stream. |
| ApplyModel.RewritesCarry | registry/apply.cpp:156-159 | Each entry's new URL is the incident's new stream with the incident's credentials, or else those of the source's own URL, spliced in and nothing else changed. |
| ApplyModel.WithoutAppend | registry/apply.cpp:136-141 | Forgetting a source goes mapping by mapping and keeps the order. |
| ApplyModel.ListsKept | registry/apply.cpp:190-232 | The caller's list is replaced when an incident is consumed into it, and left alone when there is none or, on idle, nothing to rewrite. |
| ApplyModel.WithoutIs | registry/apply.cpp:133-142 | After a source is forgotten exactly the other mappings are left, and no incident rewrites it. |
| ApplyPolicies.ApplyPolicy.BuildRewrites | registry/apply.cpp:144-164 | The loop computes that list and its length. |
| ApplyPolicies.ApplyPolicy.SetCameraPolicy | registry/apply.cpp:113-120 | Remembers the camera's choice, or forgets it. |
| ApplyPolicies.ApplyPolicy.ForgetSource | registry/apply.cpp:133-142 | Takes out the source's URL and its mappings, the others kept in order. |
| ApplyPolicies.ApplyPolicy.OnIpChange | registry/apply.cpp:166-188 | Ignored cameras change nothing; while an output is active an asking camera with something to rewrite only becomes pending; otherwise the rewrites are given at once. |
| ApplyPolicies.ApplyPolicy.ApplyPending | registry/apply.cpp:190-197 | Consumes the pending incident into its rewrites; with none pending the caller's list stays. |
| ApplyPolicies.ApplyPolicy.IgnorePending | registry/apply.cpp:199-206 | Drops the pending incident and, if remembered, ignores its camera from then on. |
| ApplyPolicies.ApplyPolicy.DeferPending | registry/apply.cpp:208-215 | The pending incident becomes the deferred one. |
| ApplyPolicies.ApplyPolicy.OnPromptTimeout | registry/apply.cpp:217-220 | A prompt that times out defers. |
| ApplyPolicies.ApplyPolicy.OnOutputsIdle | registry/apply.cpp:222-232 | Consumes the deferred incident; the caller's list changes only if there is something to rewrite. |
| ApplyPolicies.ApplyPolicy.PendingSources | registry/apply.cpp:254-264 | The prompt lists exactly the sources applying would rewrite, in order. |
| ApplyPolicies.ObsSide.ApplySourceRewrites | obs/obs_apply.cpp:109-123 | Each named, existing source gets its rewrite through the second pass; the others are untouched. |
| ApplyPolicies.ObsSide.SetOutputActive | obs/obs_apply.cpp:125-139 | The count never goes below zero; the deferred incident is applied when it is zero, and nothing happens otherwise. |
| ApplyPolicies.ObsSide.OnCameraMoved | obs/obs_apply.cpp:147-184 | Drives the policy with whether an output is active, queues the rewrites only when they are to be applied now, and prompts only when asked to. |
| ApplyPolicies.LastRewriteStands | obs/obs_apply.cpp:88-123 | After a list is carried out a source's input is the last rewrite for it, with the input's own userinfo put in exactly where that carries none and has a scheme. |
| ApplyPolicies.OthersKeepInput | obs/obs_apply.cpp:109-123 | A source no rewrite names keeps its input. |
| ApplyRuns.Accounted | registry/apply.cpp:166-232 | Over every run of calls each incident captured by a prompt is in exactly one place: pending, deferred, or at one of five ends; and what is pending or deferred is what was captured. |
| ApplyRuns.HistoryGrows | registry/apply.cpp:166-232 | Ends are final: later calls never take one back. |
| ApplyRuns.ConsumedRewrites | registry/apply.cpp:190-232 | Consuming an incident, by the user or when outputs go idle, carries out exactly its rewrites over the mappings of that moment. |
| ApplyRuns.LiveOutputsUntouched | registry/apply.cpp:166-188 | While an output is active sources are rewritten only by the user's apply or under the policy Always; a prompt comes only under Ask with an output active; an ignored camera changes nothing. |
| ApplyRuns.IgnoredForGood | registry/apply.cpp:199-206 | In every run, after a remembered ignore of a pending incident no later move of that camera changes anything or gives a rewrite, until that camera's policy is set. |
| ApplyRuns.MoveHandled | registry/apply.cpp:166-188 | In every run a move of a camera that is not ignored gives at once exactly the rewrites of its auto-apply mappings when no output is active or its policy is Always, applied if and only if there is such a mapping; with an output active under Ask it prompts and becomes pending if and only if there is one. |
| ApplyRuns.Decisions | registry/apply.cpp:166-232 | A call is reported as applied if and only if it gave rewrites; prompts leave their incident pending. |
| ApplyRuns.ChoiceStep | registry/apply.cpp:102-120 | A camera's choice is the last one remembered for it, gone once one is not to be remembered, Ignore after a remembered ignore of its prompt, and otherwise the last default. |
| ApplyRuns.TrackingStep | registry/apply.cpp:122-142 | URLs and mappings are changed only by the calls that track or forget, and just so. |
| ApplyRuns.OutputsUnmatched | obs/obs_apply.cpp:125-133 | The count of active outputs is the number of starts not matched by a later stop, so that it is zero exactly when all are matched. |
| UrlRewrite.SchemeIsFirst | registry/apply.cpp:14 | The scheme separator found is the first one. |
| UrlRewrite.InjectExtract | registry/apply.cpp:12-49 | What is spliced into a URL is what is read back if and only if it holds no '/', '?' or '#'. |
| UrlRewrite.InjectStrip | registry/apply.cpp:28-49 | Taking the userinfo out of a spliced URL gives the URL without userinfo. |
| UrlRewrite.RewriteSplices | registry/apply.cpp:51-67 | A new URL without '@' gets exactly the given credentials, or else the old URL's, and is otherwise unchanged. |
| UrlRewrite.RewriteNeedsNoDelims | registry/apply.cpp:51-67 | For a new URL with a scheme and no userinfo it gets them if and only if the given credentials hold no delimiter. |
| UrlRewrite.RewriteOnce | registry/apply.cpp:51-67 | A URL is left alone by every later rewrite, whatever the old URL and the credentials, if and only if it carries userinfo or has no scheme. |
| UrlRewrite.SecondPass | obs/obs_apply.cpp:88-98 | The second pass leaves the first one's result alone if and only if that carries userinfo, has no scheme, or the current input has no userinfo to add. |
| UserinfoEncoding.UrlEncodeUserinfo | registry/apply.cpp:69-93 | The loop computes the character-wise encoding. |
| UserinfoEncoding.DecodeEncode | registry/apply.cpp:69-93 | Percent-decoding by RFC 3986 section 2.1 gives every byte string back. |
| UserinfoEncoding.EncodeCharIs | registry/apply.cpp:71-90 | A letter, digit or one of the marks -._~:!$&'()*+,;= stays; any other byte becomes '%' and two upper-case hexadecimal digits. |
| UserinfoEncoding.EncodeKeeps | registry/apply.cpp:74-85 | The encoding is the text itself if and only if all its characters may stay. |
| UserinfoEncoding.EncodeLegal | registry/apply.cpp:69-93 | Every output is legal userinfo by RFC 3986 section 3.2.1. |
| UserinfoEncoding.LegalIsSafe | registry/apply.cpp:69-93 | Legal userinfo holds no '@', '/', '?' or '#'. |
| UserinfoEncoding.SpliceRoundTrip | registry/apply.cpp:12-93 | Credentials encoded, spliced into any URL with a scheme and read back decode to themselves; so do non-empty credentials through a rewrite of a URL without userinfo, whatever the old URL. |
| UserinfoEncoding.PairRoundTrip | registry/apply.cpp:79-83 | User name and password joined by ':' are told apart again at the first ':' if and only if the user name holds none. |
| Sweep.SendProbeDirected | onvif/ws_discovery.cpp:432-468 | Over all interfaces the datagrams are each interface's sweep in order; the total is the sum of the positive send results, never negative and no less than any one of them. |
| Sweep.SweepInterface | onvif/ws_discovery.cpp:443-465 | The host loop, with its 32-bit arithmetic, sends both payloads to each host number in turn, the interface's own address left out. |
| Sweep.SweepExact | onvif/ws_discovery.cpp:437-466 | For prefixes 22 to 30 the addresses probed are exactly hosts 1 to min(2^(32-prefix)-2, 254) but the own address, in increasing order, each once with the 1.1 payload and then once with the other; none is the network or broadcast address or outside the subnet. |
| Sweep.NetworkIs | onvif/ws_discovery.cpp:443-446 | The base is the multiple of the subnet's size at or below the interface's address. |
| Sweep.SweepAll | onvif/ws_discovery.cpp:437 | The interfaces are swept one after the other, each once. |
| Sweep.GainedAppend | onvif/ws_discovery.cpp:436-463 | The total is the sum over the sends of what each returned, if positive. |
| Sweep.NoWrap | onvif/ws_discovery.cpp:443-452 | The subnet ends within the 32-bit address space, so no probed address wraps around. |
| Sweep.SweepSkips | onvif/ws_discovery.cpp:438-442 | An interface gets no datagram if and only if its prefix is below 22 (unknown included) or above 30. |
| Sweep.SweepComplete | onvif/ws_discovery.cpp:448-450 | Every other usable host is probed if and only if the prefix is at least 24. |

## Left out

- WinHTTP, BCrypt, sockets, Qt and libobs: a send, an open or a source lookup is an arbitrary outcome or a parameter.
- The abort of a PTZ request in flight (`activeAbort_`): Stop reports that it asks for one; what the signal does to the executor's request is not part of this model.
- Timed waits and joins: a timed wait may wake at any moment and looks at its condition again as in the code; time only moves forward.
- NaN velocities: velocities are reals, so a command always equals itself.
- The 32-bit width of the PTZ settings and the range of the clock: both are unbounded numbers; only the dispatch count wraps.
- PTZ claims the code does not make: that every Stop is dispatched (a later Move clears it), fairness between cameras (picks follow map order), an end of Shutdown while a bounded move is held (PtzDrain.HeldMoveKeepsWorker shows why), and the interval between executor calls (repeats do not count).
- `SoapPool::Shutdown`, which closes handles under their holders.
- The single wakeup of `notify_one` on a released connection: a waiter may look again at any time.
- Memory-model effects of the handle stores, which the code makes outside the connection's lock: they are two atomic steps.
- SoapClient.SoapPool.Acquire: while it waits the holder may open or close the connection, but other senders neither add nor take other connections; PoolSystem has all interleavings.
- SoapClient.SendPooled: other threads may hold other connections and signal the abort handle meanwhile, but do not change the pool's map during the call; interleaved calls are in PoolSystem.
- SoapClient.PostOperation: no concurrent toggles or operations during one call; the bodies of the requests, the error texts and the fault details are not modelled.
- SoapClient.ModeSticks: for operations one after another; two at once may both negotiate and store.
- `ParseTarget`, `SendWithAuthFallback` and the request itself: a URL parses or not, and its key is given.
- Base64.EncodeBytes: shifts, masks and ORs of disjoint bit fields are written as division, remainder and sum.
- Sweep.SweepInterface: the mask is applied as a remainder, and the payloads are two labels.
- The XML security header, the nonce and clock of `BuildUsernameToken`, and the hexadecimal digest texts: string building and outside input.
- ApplyPolicies.ObsSide.OnCameraMoved: the rewrites it queues are handed to the caller; when the UI thread carries them out is left open.
- The prompt's window and timer: the timeout is a call in the runs, and since it may come after the last output stopped, nothing is claimed about incidents deferred while outputs are idle.
- Registry, store, identity, discovery table and the typed SOAP operations: map updates and string building that would only add easy members.
