# Meridian: verified models of its quote resilience, sign-in and amount handling

Meridian compares payment routes. This project models the parts of it whose correctness depends on
state, time, interleaving or exact arithmetic, and proves what they promise.

- **Quote resilience.** A circuit breaker per provider (`CircuitBreaker.dfy`), whose four fields are
  shown to be functions of its call log (`BreakerHistory.dfy`); which of the calls it let through are
  out at any time (`BreakerProbes.dfy`); the registry that owns the breakers (`BreakerRegistry.dfy`);
  the retrying provider call (`ProviderCall.dfy`, `RetryTheorems.dfy`); and the bounded record log it
  writes to (`QuoteRecorder.dfy`).
- **Sign-in with a second factor.** Login, verification and recovery-code writers as concurrent
  requests over one store (`MfaProtocol.dfy`), what no interleaving can break (`MfaSafety.dfy`), every
  run told from its steps alone (`MfaTrace.dfy`), a race in which a recovery code is spent for nothing
  (`MfaRace.dfy`), and the in-memory store behind the steps, held to the protocol along every run
  (`MfaStore.dfy`).
- **Exact amounts.** Digit strings (`DigitStrings.dfy`), the web form's parser and printer
  (`MajorMinor.dfy`), the API's parser (`AmountApi.dfy`) and the chart bars (`BarChart.dfy`).
- **Structures that must agree with something simpler.** Kill switches against their store
  (`KillSwitch.dfy`) and against the requests they name (`KillTargets.dfy`), the error sanitiser against a safety predicate (`Sanitiser.dfy`), the pricing
  dataset validator against "every amount has one tier" (`TierSchema.dfy`), and locale prefixes
  (`LocalePath.dfy`).

`Arithmetic.dfy` and `Options.dfy` are shared helpers. Objects whose methods change fields are
classes; each method's contract gives the new state as a function of the old one, or of a ghost
history, and the theorems are about those functions. `dafny verify dfyconfig.toml` checks everything.

## What is assumed of the surroundings

- The clock never goes back. A breaker method reads it once; a registry snapshot reads it once for
  all breakers. In a provider call, `World.timerLag`, `World.recordLag` and `World.sleepLag` are the
  only delays besides the adapter, the attempt timer and the backoff; all are arbitrary, and zero
  where a lemma says so. A timer fires no sooner than one millisecond.
- A call that a breaker lets through reports one success or one failure to it, at any later time; that
  is how `with-quote-resilience.ts:51-67` uses the breaker, and what `BreakerProbes.WellFormed` says.
- Retryability, backoff, the comparator of provider ids, what a corridor's regions are, upper-casing
  and which texts are unsafe are parameters. So are hash, password and code comparisons: the step
  that performs one chooses its outcome, so the claims hold for every outcome.
- Trimming and upper-casing obey `KillTargets.TextLaws`. Generated row ids never repeat. Recorder,
  projections, quote cache and audit log do not throw.
- `num` in the tier validator is the language's text-to-number conversion; only its monotonicity is
  used.

## Where the code says something unexpected

- Probe spacing: "a window of width W holds at most floor(W / cooldown) calls" is not true of every
  window on a tripped breaker. It is true of the windows opening at a time s exactly when a call has
  been let through since the last failure, or that failure is no earlier than s (`WindowBoundExact`).
  Any window holds at most one call more (`ProbesInAnyWindow`), and for every width and cooldown a
  window that opens with the breaker ready for a probe can hold that one (`AnyWindowBoundIsTight`).
- `docs/PRODUCTION_AUDIT.md:545` promises one probe per half-open period. Between recorded outcomes
  that holds (`OneProbePerPeriod`). But a failure reported late, by a call let through before the trip,
  reopens the breaker under a running probe, and one cooldown later a second probe joins the first:
  `LateFailureOverlap` is such a run. Probes of a tripped breaker never overlap before the next success
  exactly when no call is out that was let through before the last outcome (`OneProbeExact`); seen
  from the trip itself, exactly when no call is out at all (`OneProbeFromTrip`). In every case the
  breaker adds at most one to the calls already out (`CallsOutBound`).
- `public-error.ts` passes `providerId` of an upstream error on without looking at it. The body is
  safe exactly when that id is not an unsafe text (`PublicBodySafe`, both directions).
- `withLocalePrefix` and `stripLocalePrefix` undo each other except for a default-locale prefix on an
  already prefixed path (`DefaultKeepsOldPrefix`), and for a bare locale root with a trailing slash
  (`TrailingSlashIsLost`); `StripWith` and `WithStrip` state both conditions exactly.
- A spent recovery code need not buy a session: in the run of `SpentCodeBuysNothing` two codes are
  accepted on one challenge and one session exists. Once its request is over, a code has bought a
  session exactly when the request claimed its challenge (`CodeBuysSession`), and the consume step
  claims it exactly when it is still stored and nobody claimed it before (`ConsumeDecides`).
- Kill-switch keys are trimmed when an operator engages them and not when a request looks them up. A
  target excludes the requests it names and no others exactly when trimming makes no difference to it
  and no asset of a corridor holds the separating bar (`TargetExact`); the route's own checks let no
  other target in, but a provider whose id is not trimmed cannot be switched off by name
  (`ProviderReachable`).
- `maxDecimal` throws for a text whose scaled form is no integer, and reads hexadecimal, octal and
  binary forms; `BarChart.BigIntOf` follows it in both.
- A failure threshold below one behaves as a threshold of one; a recorder bound below zero as zero.

## Model

| member | source | states |
|---|---|---|
| CircuitBreaker.ProviderCircuitBreaker.AdmitCall | packages/adapters/src/resilience/circuit-breaker.ts:53-66 | a closed breaker lets every call through, a half-open one only while none is in flight; in general a call is allowed iff the trailing failures are below the threshold, or the cooldown has passed since the last failure and no call was allowed since it; the fields stay functions of the log |
| CircuitBreaker.ProviderCircuitBreaker.AllowsCandidates | packages/adapters/src/resilience/circuit-breaker.ts:69-72 | candidacy is refused exactly while tripped and not cooled down |
| CircuitBreaker.ProviderCircuitBreaker.RecordSuccess | packages/adapters/src/resilience/circuit-breaker.ts:74-83 | a success leaves the fields at what a log ending in it means: closed, no failures, nothing in flight |
| CircuitBreaker.ProviderCircuitBreaker.RecordFailure | packages/adapters/src/resilience/circuit-breaker.ts:85-91 | a failure, late or not, leaves the fields at what the longer log means: open with the opening time moved to it once the threshold is reached |
| CircuitBreaker.ProviderCircuitBreaker.TakeSnapshot | packages/adapters/src/resilience/circuit-breaker.ts:93-103 | the published view is the one the log and the clock determine |
| CircuitBreaker.ProviderCircuitBreaker.MaybeEnterHalfOpen | packages/adapters/src/resilience/circuit-breaker.ts:118-128 | the lazily kept state catches up with the clock and nothing else changes |
| CircuitBreaker.ProviderCircuitBreaker.HalfOpenImpliesCount | packages/adapters/src/resilience/circuit-breaker.ts:88 | the half-open test never decides: the count already reaches the threshold |
| BreakerHistory.UntrippedAdmits | packages/adapters/src/resilience/circuit-breaker.ts:53-66 | with fewer failures than the threshold since the last success, counted on the log, every call is let through |
| BreakerHistory.TrippedAdmits | packages/adapters/src/resilience/circuit-breaker.ts:53-66 | with as many or more, a call is let through iff it is the first to ask once the cooldown has passed since the last failure |
| BreakerHistory.LooksTell | packages/adapters/src/resilience/circuit-breaker.ts:69-103 | by the same count, candidacy is refused iff the threshold is reached and the cooldown has not passed, and the snapshot shows the count, the last failure's time and the position |
| BreakerHistory.RefusedCandidacyAdmitsNone | packages/adapters/src/resilience/circuit-breaker.ts:69-72 | candidacy is refused only at a time when no call would be let through |
| BreakerHistory.ObserversLeaveNoTrace | packages/adapters/src/resilience/circuit-breaker.ts:69-72 | candidate checks and snapshots change none of the three facts later answers depend on |
| BreakerHistory.ObserverTransparency | packages/adapters/src/resilience/circuit-breaker.ts:93-128 | two logs that differ only in observer calls, anywhere, give every later call the same answer |
| BreakerHistory.HoldAdvances | packages/adapters/src/resilience/circuit-breaker.ts:53-91 | from any held point without a success, each allowed call moves the earliest next call on by a whole cooldown |
| BreakerHistory.ProbeSpacing | packages/adapters/src/resilience/circuit-breaker.ts:53-128 | after a trip at t0 and until a success, the N-th allowed call is no earlier than t0 + N * cooldown |
| BreakerHistory.WindowBoundExact | packages/adapters/src/resilience/circuit-breaker.ts:53-128 | on a tripped breaker every window opening at s holds at most floor(W / cooldown) calls, in every continuation without a success, iff a call was let through since the last failure or that failure is no earlier than s |
| BreakerHistory.ProbesAfterTrip | packages/adapters/src/resilience/circuit-breaker.ts:53-128 | a window of width W opening at the trip holds at most floor(W / cooldown) calls |
| BreakerHistory.ProbesInAnyWindow | packages/adapters/src/resilience/circuit-breaker.ts:53-128 | any window of width W while tripped holds at most one more than that |
| BreakerHistory.AnyWindowBoundIsTight | packages/adapters/src/resilience/circuit-breaker.ts:53-128 | for every width and cooldown, and every history ready for a probe, some run fills the window with that one more |
| BreakerHistory.OneProbePerPeriod | packages/adapters/src/resilience/circuit-breaker.ts:58-64 | two calls allowed while tripped have a recorded outcome between them |
| BreakerHistory.ProbesPaidFor | packages/adapters/src/resilience/circuit-breaker.ts:53-91 | while tripped, each further allowed call is paid for by a recorded outcome |
| BreakerProbes.LateFailureOverlap | packages/adapters/src/resilience/circuit-breaker.ts:85-91 | a run in which a late failure reopens the breaker under a running probe and two probes are out together |
| BreakerProbes.ProbeOutButNotStale | packages/adapters/src/resilience/circuit-breaker.ts:58-64 | a state with the current probe out and nothing stale, so a call out does not by itself let probes overlap |
| BreakerProbes.OneProbeExact | packages/adapters/src/resilience/circuit-breaker.ts:53-128 | from a tripped state no two calls let through are ever out together before a success iff no call is out from before the last outcome |
| BreakerProbes.OneProbeFromTrip | packages/adapters/src/resilience/circuit-breaker.ts:85-91 | told at the failure that trips: probes stay apart iff no call is out |
| BreakerProbes.OneProbeAtATime | packages/adapters/src/resilience/circuit-breaker.ts:53-66 | with nothing stale out, at most one call of any age is out at any time before a success |
| BreakerProbes.CallsOutCount | packages/adapters/src/resilience/with-quote-resilience.ts:51-67 | the calls out are those let through less the outcomes recorded |
| BreakerProbes.CallsOutBound | packages/adapters/src/resilience/with-quote-resilience.ts:51-67 | while tripped, the set of calls out never grows by more than one, whatever is reported late |
| BreakerRegistry.CircuitBreakerRegistry.ForProvider | packages/adapters/src/resilience/circuit-breaker.ts:142-156 | the same object for a known id, a new closed breaker otherwise, all other breakers untouched |
| BreakerRegistry.CircuitBreakerRegistry.Deliver | packages/adapters/src/resilience/with-quote-resilience.ts:41-67 | the answer equals that of a breaker fed only this provider's events; every other breaker is outside the frame |
| BreakerRegistry.CircuitBreakerRegistry.TakeSnapshot | packages/adapters/src/resilience/circuit-breaker.ts:158-162 | each known provider once, sorted, each with the view of its own events |
| BreakerRegistry.ProjectNotBefore | packages/adapters/src/resilience/circuit-breaker.ts:131-163 | one provider's events inherit the clock order of the whole run |
| BreakerRegistry.SortRowsSorted | packages/adapters/src/resilience/circuit-breaker.ts:161 | the snapshot's sort orders its rows for any total comparator |
| QuoteRecorder.InMemoryQuoteRecorder.Record | packages/adapters/src/recording/in-memory-quote-recorder.ts:19-38 | the entries are the last maxEntries of everything recorded; latency is the time between the two instants, zero when one does not parse or they are reversed |
| QuoteRecorder.InMemoryQuoteRecorder.List | packages/adapters/src/recording/in-memory-quote-recorder.ts:40-43 | the newest records first, as many as are held up to the limit, a hundred without one; a negative limit leaves out that many of the oldest |
| QuoteRecorder.InMemoryQuoteRecorder.ForProvider | packages/adapters/src/recording/in-memory-quote-recorder.ts:46-48 | the retained records of one provider, oldest first |
| QuoteRecorder.InMemoryQuoteRecorder.Clear | packages/adapters/src/recording/in-memory-quote-recorder.ts:54-56 | nothing is retained and the history starts again |
| QuoteRecorder.InMemoryQuoteRecorder.Size | packages/adapters/src/recording/in-memory-quote-recorder.ts:50-52 | the smaller of what was recorded and the bound |
| RetryTheorems.ExecuteAll | packages/adapters/src/recording/in-memory-quote-recorder.ts:19-38 | after any sequence of provider calls the recorder holds the last maxEntries of its history followed by the calls' traces, in order |
| RetryTheorems.TracesOfProvider | packages/adapters/src/recording/in-memory-quote-recorder.ts:46-48 | one provider's records are the traces of its own calls, whoever was recorded in between |
| QuoteRecorder.OfProviderConcat | packages/adapters/src/recording/in-memory-quote-recorder.ts:46-48 | the provider filter respects order: it distributes over concatenation |
| QuoteRecorder.OfProviderCounts | packages/adapters/src/recording/in-memory-quote-recorder.ts:46-48 | the provider filter keeps each of the provider's records as often as it occurs and no other |
| ProviderCall.ExecuteProviderCall | packages/adapters/src/resilience/execute.ts:77-197 | the loop computes the recursive specification; the recorder gains one record per attempt, in order, holding what the attempt yielded; the caller gets the last attempt's value with the number of records and the whole latency, or the last record's error, a provider error with its message where that is internal, or the timeout of a budget spent before an attempt |
| ProviderCall.RecordAttempt | packages/adapters/src/resilience/execute.ts:120-157 | the record holds the call, its start and the attempt's end; a success is quoted with its projection, a failure failed with its public error |
| ProviderCall.Normalised | packages/adapters/src/resilience/execute.ts:189-197 | a thrown error never carries the internal code; a classified error is passed on unchanged |
| RetryTheorems.AttemptTells | packages/adapters/src/resilience/execute.ts:94-118 | an attempt is given its own timeout or the budget left, whichever is less; what the adapter settles before the timer fires counts, and a timeout otherwise |
| RetryTheorems.RetryTrace | packages/adapters/src/resilience/execute.ts:92-186 | a trace is the call's trace iff its attempts are consecutive from one, all but the last retried for cause, chained in time, and it ends for the reason the last attempt gives |
| RetryTheorems.RecordsTellTheOutcome | packages/adapters/src/resilience/execute.ts:120-157 | at most maxAttempts records numbered from one; only the last can be quoted, and it is iff the call returns, with that number of attempts |
| RetryTheorems.AttemptsInOrder | packages/adapters/src/resilience/execute.ts:92-178 | attempts never overlap and none precedes the call |
| RetryTheorems.RecordLatencies | packages/adapters/src/resilience/execute.ts:86-157 | latencies run from the start of the call and never decrease; a record has a quote or an error, not both |
| RetryTheorems.LatencyBound | packages/adapters/src/resilience/execute.ts:86-100 | whatever fails, the call overruns its budget by at most the last attempt's late timer and recording, or the last oversleep |
| RetryTheorems.Deadline | packages/adapters/src/resilience/execute.ts:92-178 | with punctual timers, instant recording and exact sleeps the call fits its budget, no attempt starts at the deadline, every pause leaves budget, and the head-of-loop timeout fires only with no budget at all |
| RetryTheorems.FirstSuccess | packages/adapters/src/resilience/execute.ts:92-186 | with ample budget the clock drops out: the first success, first final failure or last attempt decides |
| MfaSafety.EveryRunIsSafe | apps/api/src/routes/auth-mfa.ts:149-211 | in every interleaving verified sessions inject into challenges, and challenges into logins of enrolled users that proved their password; a session on the password alone is for a user neither enrolled nor made to enroll; the request behind a verified session presented the token its challenge was made for, and passed a TOTP check of the user's or consumed the recovery code of the user's that its text was found to match; each code and each request is accepted at most once |
| MfaSafety.StepKeepsInv | apps/api/src/routes/auth.ts:48-128 | every step of login, verification and code writing keeps the inductive invariant, gate decisions included |
| MfaTrace.EveryRunAccounted | apps/api/src/routes/auth-mfa.ts:149-270 | in every run, where each request stands is decided by its own steps in order and what the store showed it at them; every session, challenge, accepted code and code row comes from such a sequence of steps, and what a step made is still there |
| MfaTrace.NextStands | apps/api/src/routes/auth-mfa.ts:149-270 | each step takes its request to the place its longer sequence of steps leads to: every success and every way of failing |
| MfaTrace.AcceptedCodeMatched | apps/api/src/routes/auth-mfa.ts:258-269 | behind every accepted code stand a listing of the user's unused codes, a true comparison with that code when it was next to scan, and a false one with each code listed before it |
| MfaTrace.NoMatchNoCode | apps/api/src/routes/auth-mfa.ts:259-263 | a request none of whose comparisons came out true has no code accepted and gets no session by one |
| MfaTrace.GateDecides | packages/core/src/auth/mfa-gate.ts:11-23 | a login asked about an enrolled user gets no session on the password alone, nor does one of a privileged user required to enroll; only an enrolled user's gets a challenge |
| MfaTrace.GateWasAsked | apps/api/src/routes/auth.ts:86-97 | every such session and every challenge has its gate question in the run |
| MfaTrace.VerifiedInTime | apps/api/src/routes/auth-mfa.ts:155-185 | the request behind a verified session found its challenge unconsumed before it expired and an active account |
| MfaTrace.NotesAreTrue | apps/api/src/routes/auth-mfa.ts:149-211 | every note safety rests on has its step in the run |
| MfaSafety.SessionsAtMostChallenges | apps/api/src/auth/issue-session.ts:38-55 | verification never mints more sessions than logins created challenges |
| MfaSafety.CodeBuysSession | apps/api/src/routes/auth-mfa.ts:187-211 | in every run, once its request is over an accepted code has bought a session iff the request claimed its challenge |
| MfaSafety.ConsumeDecides | apps/api/src/routes/auth-mfa.ts:193-200 | the consume step claims the challenge iff it is still stored under its token and nobody claimed it before; otherwise the request ends |
| MfaRace.SpentCodeBuysNothing | apps/api/src/routes/auth-mfa.ts:187-200 | a run that spends two recovery codes on one challenge and mints one session |
| MfaSafety.CodeTaken | apps/api/src/routes/auth-mfa.ts:259-269 | consuming an open code accepts a code nobody was accepted with before and leaves it used everywhere |
| MfaSafety.CodesReplaced | apps/api/src/routes/auth-mfa.ts:103-112 | replacing a user's codes gives new rows made for that user, leaves every other row's owner alone and revives no accepted code |
| MfaStore.RunsFitStore | packages/persistence/src/memory/memory-identity.ts:210-266 | in every run stored challenges have distinct ids and no user has a code row twice |
| MfaStore.InMemoryIdentityStore.TakeStep | packages/persistence/src/memory/memory-identity.ts:196-266 | the handler's store call leaves the tables of the protocol's next state, and what it returns takes the request where the protocol says |
| MfaStore.InMemoryIdentityStore.Replay | packages/persistence/src/memory/memory-identity.ts:196-266 | driven through any run, the store holds that run's tables |
| MfaStore.InMemoryIdentityStore.VerifyMfaCode | apps/api/src/routes/auth-mfa.ts:240-271 | six digits go to TOTP; otherwise the first unused matching row is consumed and exactly one code leaves the unused list, however many match |
| MfaStore.InMemoryIdentityStore.ConsumeMfaChallenge | packages/persistence/src/memory/memory-identity.ts:258-266 | test and set: true iff the challenge was open, which it then is not |
| MfaStore.InMemoryIdentityStore.ConsumeRecoveryCode | packages/persistence/src/memory/memory-identity.ts:223-234 | test and set on one user's row; nothing changes when it fails |
| MfaStore.InMemoryIdentityStore.FindValidMfaChallenge | packages/persistence/src/memory/memory-identity.ts:247-256 | the challenge for a token iff unconsumed and unexpired |
| MfaStore.InMemoryIdentityStore.CreateMfaChallenge | packages/persistence/src/memory/memory-identity.ts:236-245 | the row is stored under its token hash, replacing one already there |
| MfaStore.InMemoryIdentityStore.ReplaceRecoveryCodes | packages/persistence/src/memory/memory-identity.ts:210-221 | the user's set is replaced by unused rows for the given hashes |
| MfaStore.MarkUsedTakesOne | packages/persistence/src/memory/memory-identity.ts:196-234 | marking an open code takes it and only it off the unused list |
| MfaStore.UnusedInOrder | packages/persistence/src/memory/memory-identity.ts:196-208 | listing keeps the unused rows in their order |
| MajorMinor.ParseValue | apps/web/src/lib/format.ts:208-220 | accepted iff a decimal whose fraction fits; the result is the canonical numeral of value times ten to the exponent |
| MajorMinor.PrintParts | apps/web/src/lib/format.ts:223-234 | the printed text is the canonical decimal of the quotient and remainder by ten to the exponent |
| MajorMinor.PrintThenParse | apps/web/src/lib/format.ts:208-234 | reading back printed minor units gives them without leading zeros |
| MajorMinor.ParseThenPrint | apps/web/src/lib/format.ts:208-234 | printing a read decimal gives its canonical form |
| MajorMinor.ReformatIdempotent | apps/web/src/lib/format.ts:208-234 | reformatting once is reformatting for good |
| MajorMinor.SamePrintIffSameAmount | apps/web/src/lib/format.ts:208-234 | two accepted texts print alike iff they denote the same amount |
| MajorMinor.DecimalIsJoined | apps/web/src/lib/format.ts:210-213 | the grammar is digits with an optional dot and digits, and splitting finds the parts |
| MajorMinor.TrimIs | apps/web/src/lib/format.ts:208-210 | trimming gives the one middle part that has no white space at either end, with white space alone around it |
| MajorMinor.OthersPrintZero | apps/web/src/lib/format.ts:223-226 | what is no string of digits is printed as zero |
| DigitStrings.CanonicalUnique | apps/web/src/lib/format.ts:218 | a number has one numeral without leading zeros |
| DigitStrings.StripZerosValue | apps/web/src/lib/format.ts:218 | the leading-zero replacement keeps the value and makes the numeral canonical |
| DigitStrings.NumeralOfValue | apps/api/src/http/validation.ts:196 | printing the number read from digits gives those digits without leading zeros |
| AmountApi.NeverRounds | apps/api/src/http/validation.ts:171-197 | an accepted amount is exactly the requested value in canonical minor units, positive and within the maximum |
| AmountApi.ParsersAgree | apps/api/src/http/validation.ts:24-27 | what the web form accepts and the API grammar admits is read to the same digits, or refused only for being zero or too large |
| AmountApi.ApiIgnoresSurplusZeros | apps/api/src/http/validation.ts:176-183 | the precision test passes iff the digits beyond the exponent are zeros, and then reads what the web form reads without them |
| AmountApi.ScalesExactly | packages/core/src/money/money.ts:55-64 | scaling a representable decimal needs no rounding under half-up |
| AmountApi.RoundsToNearest | packages/core/src/money/money.ts:55-64 | half-up rounding goes to a nearest integer, and up from the middle |
| AmountApi.FormatDecides | apps/api/src/http/validation.ts:24-27 | a text is refused for its format iff, trimmed, it is not one to eighteen digits with at most six after a dot |
| BarChart.FourDpIsFloor | apps/web/src/lib/chart-display.ts:53-59 | scaling is the floor of ten thousand times the value |
| BarChart.FourDpOfNegative | apps/web/src/lib/chart-display.ts:53-59 | a minus sign makes it truncation towards zero |
| BarChart.MaxDecimal | apps/web/src/lib/chart-display.ts:32-43 | throws iff some text's scaled form is no integer; otherwise the first text of greatest scaled value, or "0" when none is positive |
| BarChart.MaxMinorUnits | apps/web/src/lib/chart-display.ts:21-30 | the canonical numeral of the greatest value, zero for none |
| BarChart.BarIsShare | apps/web/src/lib/chart-display.ts:9-19 | a bar is its value's share of the maximum cut to hundredths of a percent, two percent when the share is less, and none without a value or a maximum |
| BarChart.MinorBarIsShare | apps/web/src/lib/chart-display.ts:9-19 | the same on minor units as text |
| BarChart.DecimalBarIsShare | apps/web/src/lib/chart-display.ts:45-51 | the same on decimals, by their scaled values |
| BarChart.UnsignedReads | apps/web/src/lib/chart-display.ts:61-66 | digits count as their number whatever white space surrounds them; any other text counts as nothing |
| BarChart.PrefixedReads | apps/web/src/lib/chart-display.ts:32-43 | a prefixed text is read in the base it announces |
| BarChart.BarsOfList | apps/web/src/lib/chart-display.ts:9-51 | every bar of a list is within the width, shows iff its scaled value is positive, and is then the value's share of the maximum but at least two percent; the maximum fills the width |
| BarChart.BarsMonotone | apps/web/src/lib/chart-display.ts:9-51 | a larger amount never gets a shorter bar |
| KillSwitch.RestartEquivalence | apps/api/src/app.ts:84-91 | after any sequence of completed requests, hydrating from the active rows in any order rebuilds the registry |
| KillSwitch.PerformKeepsInStep | apps/api/src/routes/ops-routing.ts:156-225 | each completed request keeps one active row per key and the registry equal to the active rows |
| KillSwitch.HandleEngage | apps/api/src/routes/ops-routing.ts:156-193 | store and registry change together and stay in step |
| KillSwitch.HandleRelease | apps/api/src/routes/ops-routing.ts:195-225 | a release is a 404 iff the key is not engaged, and then changes nothing |
| KillSwitch.Restart | apps/api/src/app.ts:84-91 | a registry loaded at start equals the one before |
| KillSwitch.RoutingOverrideStore.EngageRow | packages/persistence/src/memory/memory-routing-overrides.ts:18-39 | an active row is rewritten in place under its own id, otherwise one is added; no other row changes |
| KillSwitch.RoutingOverrideStore.ReleaseRow | packages/persistence/src/memory/memory-routing-overrides.ts:41-61 | the active row is stamped released and nothing else changes; none means nothing changed |
| KillSwitch.ManualOverrideRegistry.Hydrate | packages/adapters/src/resilience/manual-override.ts:16-23 | the registry holds the last unreleased row per key |
| KillSwitch.HydratedIs | packages/adapters/src/resilience/manual-override.ts:16-23 | a key is held iff some unreleased row has it, and then the last such row is |
| KillSwitch.ManualOverrideRegistry.IsProviderExcluded | packages/adapters/src/resilience/manual-override.ts:44-58 | excluded iff one of the keys the request looks up is engaged |
| KillSwitch.ExclusionMonotone | packages/adapters/src/resilience/manual-override.ts:44-58 | engaging keys re-admits nobody and newly excludes only requests that look a new key up |
| KillSwitch.EngageThenRelease | packages/adapters/src/resilience/manual-override.ts:25-31 | engaging and releasing an inactive key restores registry and active rows |
| KillTargets.TargetExact | packages/core/src/ports/routing-overrides.ts:33-41 | an engaged target excludes the requests it names and no others iff trimming makes no difference to it and no asset of a corridor holds a bar |
| KillTargets.ProviderReachable | packages/adapters/src/resilience/manual-override.ts:44-50 | some target's key excludes a provider by name iff its id is trimmed |
| KillTargets.RegionExcludes | packages/adapters/src/resilience/manual-override.ts:33-58 | a region target excludes exactly the corridors touching that region |
| Sanitiser.SanitizeDetails | apps/api/src/http/public-error.ts:74-91 | the loop computes the recursive sanitiser on object entries |
| Sanitiser.SanitizeValue | apps/api/src/http/public-error.ts:58-72 | the recursion terminates and computes the sanitiser on values |
| Sanitiser.SanitizedIsSafe | apps/api/src/http/public-error.ts:58-91 | no unsafe key or text survives at any depth |
| Sanitiser.SanitizeIdempotent | apps/api/src/http/public-error.ts:58-91 | the fixed points are exactly the safe trees, and one pass reaches one |
| Sanitiser.SanitizedNodes | apps/api/src/http/public-error.ts:58-91 | the output has exactly the surviving nodes in their order: nothing safe is lost, added or moved |
| Sanitiser.PublicBodySafe | apps/api/src/http/public-error.ts:93-137 | the public body is safe iff it is not an upstream error whose provider id is an unsafe text |
| Sanitiser.UpstreamIdEscapes | apps/api/src/http/public-error.ts:105-114 | an id the sanitiser would drop is passed on in an upstream error |
| Sanitiser.PublicBodyTells | apps/api/src/http/public-error.ts:93-137 | code, message and details of the public body for internal, upstream, data-store and other errors |
| Sanitiser.UnsafeKeysAre | apps/api/src/http/public-error.ts:26-27 | a key is unsafe iff it is one of eighteen words, whatever the case of its letters |
| Sanitiser.KeysIgnoreCase | apps/api/src/http/public-error.ts:26-27 | keys that differ in case alone are treated alike |
| TierSchema.AssertAscendingTiers | packages/adapters/src/data/schema.ts:192-227 | the issues added are exactly those that say what is wrong, each at its path: a bounded last tier, an unbounded earlier one, a threshold not above the one before; none iff only the last tier is unbounded and thresholds strictly ascend |
| TierSchema.Refine | packages/adapters/src/data/schema.ts:130-188 | no issue at all iff ids are distinct, groups known, percentiles ordered, tables well formed and last profiles catch-all |
| TierSchema.CheckProvider | packages/adapters/src/data/schema.ts:154-186 | no issue is added iff the provider is acceptable |
| TierSchema.TierUnique | packages/adapters/src/data/schema.ts:39-43 | an amount lies in at most one tier of an accepted table |
| TierSchema.ResolveTier | packages/adapters/src/sandbox/data-driven-provider.ts:250-265 | the pricing scan stops at the one tier the amount is in and never falls through |
| TierSchema.EveryCorridorPriced | packages/adapters/src/sandbox/data-driven-provider.ts:215-224 | an accepted provider has a profile for every corridor and one spread tier for every amount |
| LocalePath.StripWith | apps/web/src/i18n/pathname.ts:9-47 | stripping an added prefix restores path and locale iff the locale is not the default or no locale prefixes the path already |
| LocalePath.WithStrip | apps/web/src/i18n/pathname.ts:9-47 | re-prefixing a stripped path restores it iff it starts with a slash and is no bare locale root with a trailing slash |
| LocalePath.DefaultKeepsOldPrefix | apps/web/src/i18n/pathname.ts:38-47 | the default locale leaves "/ko/x" as it is, and stripping it gives "/x" and "ko" |
| LocalePath.TrailingSlashIsLost | apps/web/src/i18n/pathname.ts:9-47 | "/ko/" comes back as "/ko" |
| LocalePath.PrefixUnique | apps/web/src/i18n/pathname.ts:9-36 | a path carries at most one locale prefix |

## Left out

- The cost engine, scorer, route graph and quote cache, Fastify wiring, OpenAPI, React components, Prisma drivers, OIDC and token handling: outside the chosen parts.
- The MFA handlers are one state machine on values, not methods: their steps interleave. The reads of user, organization, membership and enrollment between two writes are one step with a free outcome, so what an administrator changes in between is covered but not named.
- OIDC login and logout are not requests of the protocol; enrollment writes no row the protocol reads.
- A challenge's expiry is tested when it is looked up and not again when it is consumed, in the code and in the model; nothing is claimed about the time of consumption.
- Log lines, audit entries and HTTP statuses are not modelled, except the 404 of a release.
- BreakerRegistry.CircuitBreakerRegistry.TakeSnapshot: one clock reading serves all breakers, because the pass is synchronous.
- Interleaved engage and release of one kill switch: only completed requests, one at a time, are claimed to stay in step. Starting with an unreachable store is not modelled.
- The pattern of unsafe texts stays a parameter; the list of unsafe keys is modelled exactly. An object key that names the prototype is treated as any other key.
- Numbers are exact: bar widths are hundredths of a percent, thresholds and tier bounds are reals, and amounts have no digit limit beyond the grammar's.
- Retry jitter is a function of the attempt number, and cancelling the losing side of a race is not modelled.
