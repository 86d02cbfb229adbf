# Governance voting-alert engine: a Dafny model

This project models the voting-alert logic of `targets/proposals.go`. On each
poll, the bot reads its table of validator records. For every record it asks
the record's chain for LCD endpoints. At every endpoint it fetches the
governance proposals that are in their voting period. For every such
proposal it looks up the validator's vote. When no vote is found, it runs the
deadline decision, which may send a Slack alert saying
`you have not voted on proposal <id> with address <address>`.

Every call the code makes into the outside world becomes a pure function
stored in `Types.Env`. These are the validator table, the endpoint lookup,
the HTTP helper, the JSON decoder, the bech32 conversion, the RFC 3339
parser, the clock and the sink. A run of the loop is a function from `Env` to
`Outcome`. An `Outcome` holds the alert texts handed to the sink, in order,
and the error that ended the run, if there was one.

Modules:

- `Types`: the records and `Env`.
- `Clock`: Go's saturating `Time.Sub` and the `Hours() <= 24` comparison.
- `Lcd`: the two governance REST requests.
- `Votes`: `GetValidatorVote`.
- `Alerts`: the alert text and `SendVotingPeriodProposalAlerts`.
- `Engine`: `AlertOnProposals`, as three nested recursive loops.
- `Poll`: `GetProposals`.
- `Runs`: properties of whole runs.

The model follows the code as written, including where the code departs from
what such an engine is meant to do. The code has none of the following:

- a deduplication store for alerts;
- a rule against alerting after the deadline has passed;
- a way to tell a failed vote lookup from "not voted";
- the account address in the alert text;
- failover between a chain's endpoints: every endpoint is queried, so the
  same alert is sent once per endpoint that reports the proposal and whose
  own vote lookup (targets/proposals.go:74) reads empty.

The model has none of them either. Instead it proves what the code does:

- every deadline still ahead of `now` qualifies for an alert
  (`Clock.FutureDeadlineQualifies`);
- so does a deadline passed by at most 24 hours;
- every poll alerts again (`Runs.EveryPollAlertsAgain`);
- a failed vote lookup reads as "not voted" (`Votes.FailedLookupReadsAsNotVoted`);
- an endpoint listed twice sends its alerts twice (`Runs.RepeatedEndpointsRepeatAlerts`).

## Model

| member | source | states |
|---|---|---|
| Lcd.RequestsAreDistinct | targets/proposals.go:55-59 | no vote request equals a proposal-list request: the list request always carries `proposal_status=2` and a vote request has no query |
| Lcd.ProposalsRequestIsInjective | targets/proposals.go:55-59 | two endpoints asked the same proposal-list request are the same endpoint: the URL is the endpoint followed by a fixed path |
| Lcd.VoteRequest | targets/proposals.go:94-97 | the vote URL extends the proposal-list URL with `/<proposalID>/votes/<account>` and has no query parameters |
| Votes.LastOption | targets/proposals.go:110-113 | the loop over `Vote.Options` leaves the option of the last element, or its starting value when the list is empty |
| Votes.VoteFromReply | targets/proposals.go:99-115 | the answer is the last decoded option, or "" for no options, taken from whatever the decoder left in the record |
| Votes.GetValidatorVote | targets/proposals.go:90-116 | the lookup answers "" exactly when the decoded vote at the account-address URL has no options or its last option is empty; otherwise it answers that last option |
| Votes.LookupErrorsAreInvisible | targets/proposals.go:99-107 | the fetch error and the decode error have no effect on the answer: only the decoded record matters |
| Votes.FailedLookupReadsAsNotVoted | targets/proposals.go:99-115 | a fetch that failed and left an undecodable body yields "", the same as "not voted" |
| Clock.Sub | targets/proposals.go:122 | the elapsed time is `now - endTime` when it fits in int64, exactly the int64 maximum when it is larger and exactly the minimum when it is smaller; its sign is that of `now - endTime` |
| Clock.TruncRem | targets/proposals.go:125 | the split of a duration into whole hours and leftover nanoseconds is exact, and the remainder has the dividend's sign and is smaller than an hour |
| Clock.HoursIsExact | targets/proposals.go:125 | `Hours()`, as whole hours plus the leftover fraction, equals the duration divided by one hour |
| Clock.HoursAtMost | targets/proposals.go:125 | `d.Hours() <= limit`, with `Hours()` as whole hours plus the leftover fraction, holds exactly when `d <= limit * 1h` |
| Clock.WithinAlertWindow | targets/proposals.go:120-125 | the decision on the clamped `now.Sub(endTime)` holds exactly when `now - endTime <= 24h`: the clamping makes no difference |
| Clock.FutureDeadlineQualifies | targets/proposals.go:122-125 | every end time at or after `now` qualifies |
| Clock.StaleDeadlineNeverQualifies | targets/proposals.go:122-125 | an end time more than 24 hours before `now` never qualifies |
| Clock.WindowBoundaryIsInclusive | targets/proposals.go:125 | exactly 24 hours after the end still qualifies, one nanosecond later does not |
| Alerts.AlertTextLayout | targets/proposals.go:126 | the alert is the fixed prefix, the proposal id, the fixed middle, and the address passed in, in that order |
| Alerts.AlertTextNamesOneProposal | targets/proposals.go:126 | for one address, two equal alert texts name the same proposal |
| Alerts.SendVotingPeriodProposalAlerts | targets/proposals.go:119-134 | a message is sent exactly when `now - endTime <= 24h`; it is the alert text for the given id and the stored address; a send returns the sink's error unchanged, and no send returns nil |
| Engine.FetchProposals | targets/proposals.go:55-70 | the proposal list is returned only when both the fetch and the decode succeed; a fetch error is returned as is, and so is a decode error after a good fetch |
| Engine.Traversal | targets/proposals.go:49-54 | every endpoint of every validator's chain is visited |
| Engine.AlertFor | targets/proposals.go:74-80 | one proposal yields its alert text exactly when its vote reads "" and its deadline qualifies, and nothing otherwise; the send error plays no part |
| Engine.AlertsForProposals | targets/proposals.go:72-82 | no more alerts than listed proposals; an alert is sent only for a listed proposal whose vote reads "" and whose deadline qualifies, and every such proposal is alerted (one alert per qualifying position, in order: `Engine.AlertsForProposalsIsOrderedFilter`) |
| Engine.AlertsForProposalsIsOrderedFilter | targets/proposals.go:72-82 | the alerts are, in list order, one per qualifying position of the proposal list and nothing else |
| Engine.AtEndpoint | targets/proposals.go:55-81 | a failing proposal fetch ends the run with that error and sends nothing; otherwise the due proposals of that endpoint, and only they, are alerted |
| Engine.AtEndpointIsOrderedFilter | targets/proposals.go:55-82 | after a successful fetch, an endpoint sends one alert per qualifying position of its proposal list, in list order, and nothing else |
| Engine.AlertsForEndpoints | targets/proposals.go:54-83 | the run over one validator's endpoints fails exactly when some endpoint's proposal fetch fails, and then with the first such error; every alert is due at one of the endpoints, and without failure every due proposal is alerted |
| Engine.AlertsForValidators | targets/proposals.go:49-84 | the run fails exactly when some proposal fetch of some validator fails, and then with the error of the first failing endpoint in visiting order; every alert names a due proposal and the validator's stored address; without failure every due pair is alerted |
| Engine.AlertOnProposals | targets/proposals.go:44-86 | a validator-table error is returned with no alerts; otherwise the run returns an error exactly when some proposal fetch of some validator's endpoint fails, every alert names a due proposal and the stored address of a validator record, and without an error every due (validator, endpoint, proposal) triple is alerted |
| Poll.MapGet | targets/proposals.go:35 | reading a key missing from the map, as every key is in the nil `networksMap`, gives `false`; a present key gives its stored value |
| Poll.CollectNetworks | targets/proposals.go:34-38 | with a map that marks nothing, as the nil `networksMap` is, every record appends its chain name after what was there |
| Poll.Networks | targets/proposals.go:27-38 | the networks list has one entry per validator record, in record order |
| Poll.DuplicateChainsAreKept | targets/proposals.go:27-38 | two records on one chain give a list that repeats that chain |
| Poll.GetProposals | targets/proposals.go:25-41 | a validator-table error panics; otherwise the networks list has one entry per record, entry i being record i's chain name, and the loop's alerts are the poll's effect |
| Runs.ValidatorsCompose | targets/proposals.go:49-84 | running validators `a + b` is running `a`, then `b` unless `a` ended in error |
| Runs.AbortSkipsLaterValidators | targets/proposals.go:60-70 | after a proposal-fetch error, no later validator changes the outcome |
| Runs.EndpointsCompose | targets/proposals.go:54-83 | running endpoints `a + b` is running `a`, then `b` unless `a` ended in error |
| Runs.AbortSkipsLaterEndpoints | targets/proposals.go:60-70 | after a proposal-fetch error, no later endpoint changes the outcome |
| Runs.AlertsForEndpointsIsConcatenation | targets/proposals.go:54-83 | the endpoint loop sends, in order, the alerts of each endpoint in turn: all of them when no fetch fails, exactly those of the endpoints before the first failing one otherwise, and always a prefix of the full concatenation |
| Runs.EndpointsStopAtFailure | targets/proposals.go:54-70 | when the `k`-th endpoint is the first whose fetch fails, the loop has sent exactly the alerts of the endpoints before it |
| Runs.AlertsForValidatorsIsConcatenation | targets/proposals.go:49-84 | the validator loop sends a prefix of the concatenated endpoint alerts of all validators in record order, and all of it when no fetch fails |
| Runs.ValidatorsStopAtFailure | targets/proposals.go:49-70 | when the loop fails, some validator is the first whose endpoint loop fails; the run carries that error and sends the alerts of the validators before it followed by what that validator's endpoint loop sent |
| Runs.AlertOnProposalsIsConcatenation | targets/proposals.go:44-86 | after a good table read, the alerts are a prefix of the concatenated endpoint alerts of all validator records in order, and all of them when no error is returned |
| Runs.RepeatedEndpointsRepeatAlerts | targets/proposals.go:54-82 | an endpoint list given twice, with every fetch succeeding, sends the first pass's alerts again in the second: endpoints are not failovers |
| Runs.ProposalFetchFailureEndsRun | targets/proposals.go:60-70 | a failing proposal fetch at any visited endpoint makes `AlertOnProposals` return the first such error |
| Runs.OnlyProposalFetchesEndRun | targets/proposals.go:49-85 | when every proposal fetch succeeds, `AlertOnProposals` returns nil whatever the vote lookups, endpoint lookups and sends did |
| Runs.NetworksArgumentIgnored | targets/proposals.go:44-49 | the `networks` argument has no effect on the outcome |
| Runs.SinkIgnoredForProposals | targets/proposals.go:76-79 | the sink's answers do not change which alerts the proposal loop sends |
| Runs.SinkIgnoredForEndpoints | targets/proposals.go:76-79 | the sink's answers do not change the endpoint loop's outcome |
| Runs.SinkErrorsNeverStopRun | targets/proposals.go:76-79 | a sink that fails differently yields the same alerts and the same returned error |
| Runs.LookupIgnoredForProposals | targets/proposals.go:50-53 | the endpoint lookup plays no part in the proposal loop |
| Runs.LookupIgnoredForEndpoints | targets/proposals.go:50-53 | the endpoint lookup plays no part in the endpoint loop |
| Runs.EndpointLookupErrorsIgnored | targets/proposals.go:50-54 | a lookup returning the same endpoint lists with different errors yields the same run |
| Runs.EveryPollAlertsAgain | targets/proposals.go:72-80 | nothing is remembered between polls: a due pair is alerted, and alerted again by a later poll whose clock is still in the window |

## Left out

- alerting/slack.go: Slack bot registration, its event goroutine and its blocking `Listen` are UI, I/O and concurrency with no decision logic. The sink is `Env.send`, and the bot token and channel ID are folded into it.
- `HitHTTPTarget` and `GetValidLCDEndpoints` are not part of this model. Their answers are `Env.http` and `Env.lcdEndpoints`. Each is a body or list together with an error, as Go's two return values are.
- A failed HTTP call that returns a nil response in `GetValidatorVote`: the source reads `resp.Body` regardless (targets/proposals.go:99-104; the proposal-list fetch returns before touching the body, targets/proposals.go:60-64), and what happens then depends on the HTTP helper, which is not part of this model. The model reads the body that comes with the error.
- JSON decoding is `Env.decodeProposals` and `Env.decodeVote`. Each returns the value the decoder left behind together with its error, because `json.Unmarshal` may fill part of the value before it fails.
- The bech32 operator-to-account conversion is the uninterpreted `Env.accountAddress`. Its discarded errors are part of whatever it returns.
- RFC 3339 parsing is `Env.parseTime`, into nanoseconds. Its discarded error and its zero-time fallback are part of whatever it returns.
- `time.Now` is read once per run as `Env.now`. The source reads the clock on each call, so a clock that moves during one run is not modelled.
- `Env.http` answers the same request the same way within one run. Answers that change between two identical requests in one run are not modelled.
- `Env.lcdEndpoints` answers one chain name the same way for every validator record within a run. The source calls `GetValidLCDEndpoints` once per record (targets/proposals.go:50), so two records on one chain could get different lists from a lookup that filters by endpoint health; that is not modelled.
- The source reads the validator table twice: through the `db` argument of `GetProposals` (targets/proposals.go:29) and through the stored handle `a.db` in `AlertOnProposals` (targets/proposals.go:45). The model reads one table (`Env.validators`) for both. So the two handles cannot disagree, and a run where the first read succeeds and the second fails is not modelled.
- Clock.HoursAtMost: compares `Hours()` exactly over the reals and leaves out float64 rounding. Rounding cannot flip `<= 24`: a positive leftover of at least 1 ns adds about 2.8e-13 hours to 24, which is far more than half an ulp of 24.
- Logging is left out, as is the HTTP method (always GET).
- Poll.GetProposals: the source panics when the table read fails. The model returns `Panicked` with the error instead.
- Engine.AlertsForEndpoints: its own contract describes the alerts as a set. Their order and number are stated by `Runs.AlertsForEndpointsIsConcatenation` and `Runs.EndpointsStopAtFailure` together with `Engine.AtEndpointIsOrderedFilter`, which keeps the function's own recursive proof small.
- Engine.AlertsForValidators: its own contract describes the alerts as a set. Their order and number are stated by `Runs.AlertsForValidatorsIsConcatenation` and `Runs.ValidatorsStopAtFailure`, which build on the endpoint-level lemmas.
- Engine.AlertOnProposals: its own contract describes the alerts as a set. Their order and number are stated by `Runs.AlertOnProposalsIsConcatenation`.
