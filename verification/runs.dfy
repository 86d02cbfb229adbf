/** Properties of whole runs of the alert loop: which failures end it,
    which it ignores, and the absence of any memory between polls. */
module Runs {
  import opened Types
  import opened Clock
  import opened Votes
  import opened Alerts
  import opened Engine

  /** `Then` is associative, so stages of the loop compose in any grouping. */
  lemma ThenAssociates(x: Outcome, y: Outcome, z: Outcome)
    ensures Then(Then(x, y), z) == Then(x, Then(y, z))
  {
    if x.err.None? && y.err.None? {
      assert (x.sent + y.sent) + z.sent == x.sent + (y.sent + z.sent);
    }
  }

  /** Running the validators `a + b` is running `a`, then, unless that
      ended in error, running `b`. */
  lemma {:induction false} ValidatorsCompose(env: Env, a: seq<Validator>, b: seq<Validator>)
    ensures AlertsForValidators(env, a + b) == Then(AlertsForValidators(env, a), AlertsForValidators(env, b))
  {
    if |a| == 0 {
      assert a + b == b;
    } else {
      assert (a + b)[1..] == a[1..] + b;
      ValidatorsCompose(env, a[1..], b);
      ThenAssociates(AlertsForEndpoints(env, a[0], Endpoints(env, a[0])),
                     AlertsForValidators(env, a[1..]), AlertsForValidators(env, b));
    }
  }

  /** Once a validator's proposal fetch fails, no later validator is
      processed: whatever follows leaves the outcome unchanged. */
  lemma AbortSkipsLaterValidators(env: Env, a: seq<Validator>, b: seq<Validator>)
    requires AlertsForValidators(env, a).err.Some?
    ensures AlertsForValidators(env, a + b) == AlertsForValidators(env, a)
  {
    ValidatorsCompose(env, a, b);
  }

  /** Running the endpoints `a + b` of one validator is running `a`, then,
      unless that ended in error, running `b`. */
  lemma {:induction false} EndpointsCompose(env: Env, v: Validator, a: seq<string>, b: seq<string>)
    ensures AlertsForEndpoints(env, v, a + b) == Then(AlertsForEndpoints(env, v, a), AlertsForEndpoints(env, v, b))
  {
    if |a| == 0 {
      assert a + b == b;
    } else {
      assert (a + b)[1..] == a[1..] + b;
      EndpointsCompose(env, v, a[1..], b);
      ThenAssociates(AtEndpoint(env, v, a[0]), AlertsForEndpoints(env, v, a[1..]), AlertsForEndpoints(env, v, b));
    }
  }

  /** Once an endpoint's proposal fetch fails, no later endpoint is tried. */
  lemma AbortSkipsLaterEndpoints(env: Env, v: Validator, a: seq<string>, b: seq<string>)
    requires AlertsForEndpoints(env, v, a).err.Some?
    ensures AlertsForEndpoints(env, v, a + b) == AlertsForEndpoints(env, v, a)
  {
    EndpointsCompose(env, v, a, b);
  }

  // The alerts of a run, in order and counted: each endpoint contributes
  // the ordered filter of its own proposal list (`AtEndpointIsOrderedFilter`),
  // and the loops only concatenate these contributions up to the first
  // failing proposal fetch.

  /** Reference: every alert of every endpoint in `endpoints`, in order,
      with failing endpoints contributing nothing. */
  function EndpointAlerts(env: Env, v: Validator, endpoints: seq<string>): seq<string>
  {
    if |endpoints| == 0 then []
    else AtEndpoint(env, v, endpoints[0]).sent + EndpointAlerts(env, v, endpoints[1..])
  }

  /** Reference: `EndpointAlerts` of every validator's endpoints, in record
      order. */
  function ValidatorAlerts(env: Env, vals: seq<Validator>): seq<string>
  {
    if |vals| == 0 then []
    else EndpointAlerts(env, vals[0], Endpoints(env, vals[0])) + ValidatorAlerts(env, vals[1..])
  }

  /** `Then` keeps prefixes: when each stage sent a prefix of its reference
      list, and all of it unless it failed, so did the sequence of both. */
  lemma ThenConcat(first: Outcome, rest: Outcome, firstAll: seq<string>, restAll: seq<string>)
    requires first.sent <= firstAll && (first.err.None? ==> first.sent == firstAll)
    requires rest.sent <= restAll && (rest.err.None? ==> rest.sent == restAll)
    ensures Then(first, rest).sent <= firstAll + restAll
    ensures Then(first, rest).err.None? ==> Then(first, rest).sent == firstAll + restAll
  {
    if first.err.Some? {
      assert (firstAll + restAll)[..|first.sent|] == firstAll[..|first.sent|];
    } else {
      assert (firstAll + restAll)[..|first.sent + rest.sent|] == first.sent + rest.sent;
    }
  }

  /** The endpoint loop sends the alerts of the endpoints before the first
      failing one, in order, or of all of them when none fails. */
  lemma {:induction false} AlertsForEndpointsIsConcatenation(env: Env, v: Validator, endpoints: seq<string>)
    ensures var o := AlertsForEndpoints(env, v, endpoints);
            && o.sent <= EndpointAlerts(env, v, endpoints)
            && (o.err.None? ==> o.sent == EndpointAlerts(env, v, endpoints))
            && (forall k, e :: FirstFailure(env, endpoints, k, e) ==> o.sent == EndpointAlerts(env, v, endpoints[..k]))
  {
    if |endpoints| > 0 {
      AlertsForEndpointsIsConcatenation(env, v, endpoints[1..]);
      var first := AtEndpoint(env, v, endpoints[0]);
      ThenConcat(first, AlertsForEndpoints(env, v, endpoints[1..]), first.sent, EndpointAlerts(env, v, endpoints[1..]));
    }
    forall k, e | FirstFailure(env, endpoints, k, e)
      ensures AlertsForEndpoints(env, v, endpoints).sent == EndpointAlerts(env, v, endpoints[..k])
    {
      EndpointsStopAtFailure(env, v, endpoints, k, e);
    }
  }

  /** The endpoint loop stops at its first failing endpoint, having sent the
      alerts of the endpoints before it. */
  lemma {:induction false} EndpointsStopAtFailure(env: Env, v: Validator, endpoints: seq<string>, k: int, e: Error)
    requires FirstFailure(env, endpoints, k, e)
    ensures AlertsForEndpoints(env, v, endpoints).sent == EndpointAlerts(env, v, endpoints[..k])
    decreases k
  {
    if k == 0 {
      assert endpoints[..k] == [];
    } else {
      assert FirstFailure(env, endpoints[1..], k - 1, e) by {
        assert forall i :: 0 <= i < k - 1 ==> endpoints[1..][i] == endpoints[i + 1];
      }
      EndpointsStopAtFailure(env, v, endpoints[1..], k - 1, e);
      assert endpoints[..k][1..] == endpoints[1..][..k - 1];
    }
  }

  /** The endpoint loop of one validator record. */
  function RunOf(env: Env, v: Validator): Outcome
  {
    AlertsForEndpoints(env, v, Endpoints(env, v))
  }

  /** `vals[i]` is the first validator whose endpoint loop ends in error:
      the run over the validators before it succeeds, and that endpoint
      loop's error is `err`. */
  predicate ValidatorFailsFirst(env: Env, vals: seq<Validator>, i: int, err: Option<Error>)
  {
    && 0 <= i < |vals|
    && AlertsForValidators(env, vals[..i]).err.None?
    && RunOf(env, vals[i]).err == err
  }

  /** The validator loop sends the concatenated endpoint alerts of the
      validators, in record order: all of them when no fetch fails, and a
      prefix of them otherwise. */
  lemma {:induction false} AlertsForValidatorsIsConcatenation(env: Env, vals: seq<Validator>)
    ensures var o := AlertsForValidators(env, vals);
            && o.sent <= ValidatorAlerts(env, vals)
            && (o.err.None? ==> o.sent == ValidatorAlerts(env, vals))
  {
    if |vals| > 0 {
      AlertsForValidatorsIsConcatenation(env, vals[1..]);
      AlertsForEndpointsIsConcatenation(env, vals[0], Endpoints(env, vals[0]));
      ThenConcat(RunOf(env, vals[0]), AlertsForValidators(env, vals[1..]),
                 EndpointAlerts(env, vals[0], Endpoints(env, vals[0])), ValidatorAlerts(env, vals[1..]));
    }
  }

  /** When the validator loop fails, some validator's endpoint loop is the
      first to fail, and its error is the run's. */
  lemma {:induction false} FirstFailingValidator(env: Env, vals: seq<Validator>) returns (i: int)
    requires AlertsForValidators(env, vals).err.Some?
    ensures ValidatorFailsFirst(env, vals, i, AlertsForValidators(env, vals).err)
  {
    if RunOf(env, vals[0]).err.Some? {
      i := 0;
      assert vals[..i] == [];
    } else {
      var j := FirstFailingValidator(env, vals[1..]);
      i := j + 1;
      SliceAfterHead(vals, j);
    }
  }

  lemma SliceAfterHead<T>(s: seq<T>, j: int)
    requires 0 <= j < |s| - 1
    ensures s[..j + 1][0] == s[0] && s[..j + 1][1..] == s[1..][..j] && s[j + 1] == s[1..][j]
  {
  }

  /** When the validator loop fails, the alerts are those of the validators
      before the first failing one, followed by what that validator's
      endpoint loop sent before it stopped. */
  lemma ValidatorsStopAtFailure(env: Env, vals: seq<Validator>) returns (i: int)
    requires AlertsForValidators(env, vals).err.Some?
    ensures ValidatorFailsFirst(env, vals, i, AlertsForValidators(env, vals).err)
    ensures AlertsForValidators(env, vals).sent == ValidatorAlerts(env, vals[..i]) + RunOf(env, vals[i]).sent
  {
    i := FirstFailingValidator(env, vals);
    var before, after := vals[..i], vals[i..];
    SplitAt(vals, i);
    ValidatorsCompose(env, before, after);
    AlertsForValidatorsIsConcatenation(env, before);
    FailingHeadEndsRun(env, after);
  }

  lemma SplitAt<T>(s: seq<T>, i: int)
    requires 0 <= i < |s|
    ensures s[..i] + s[i..] == s && s[i..][0] == s[i]
  {
  }

  /** A run whose first validator's endpoint loop fails is that loop. */
  lemma FailingHeadEndsRun(env: Env, vals: seq<Validator>)
    requires |vals| > 0 && RunOf(env, vals[0]).err.Some?
    ensures AlertsForValidators(env, vals) == RunOf(env, vals[0])
  {
  }

  /** `AlertOnProposals` sends, in order and counted, the alerts of every
      validator record's endpoints up to the first failing proposal fetch. */
  lemma AlertOnProposalsIsConcatenation(env: Env, networks: seq<string>)
    requires env.validators.Ok?
    ensures var o := AlertOnProposals(env, networks);
            && o.sent <= ValidatorAlerts(env, env.validators.value)
            && (o.err.None? ==> o.sent == ValidatorAlerts(env, env.validators.value))
  {
    AlertsForValidatorsIsConcatenation(env, env.validators.value);
  }

  /** Endpoints are not failovers of one another: when the lookup lists the
      same endpoints twice and their fetches succeed, every alert of the
      first pass is sent again by the second. */
  lemma RepeatedEndpointsRepeatAlerts(env: Env, v: Validator, endpoints: seq<string>)
    requires AlertsForEndpoints(env, v, endpoints).err.None?
    ensures var once := AlertsForEndpoints(env, v, endpoints).sent;
            AlertsForEndpoints(env, v, endpoints + endpoints) == Outcome(once + once, None)
  {
    EndpointsCompose(env, v, endpoints, endpoints);
  }

  /** A proposal fetch that fails at any endpoint of any validator makes
      `AlertOnProposals` return an error. */
  lemma ProposalFetchFailureEndsRun(env: Env, networks: seq<string>, v: Validator, endpoint: string)
    requires env.validators.Ok? && v in env.validators.value
    requires endpoint in Endpoints(env, v) && FetchProposals(env, endpoint).Err?
    ensures AlertOnProposals(env, networks).err.Some?
    ensures exists k :: FirstFailure(env, Traversal(env, env.validators.value), k, AlertOnProposals(env, networks).err.value)
  {
  }

  /** A run with no failing proposal fetch returns no error, however the
      vote lookups, the endpoint lookups and the sends went. */
  lemma OnlyProposalFetchesEndRun(env: Env, networks: seq<string>)
    requires env.validators.Ok?
    requires forall v, endpoint :: v in env.validators.value && endpoint in Endpoints(env, v) ==>
               FetchProposals(env, endpoint).Ok?
    ensures AlertOnProposals(env, networks).err.None?
  {
  }

  /** The `networks` argument has no effect. */
  lemma NetworksArgumentIgnored(env: Env, networks1: seq<string>, networks2: seq<string>)
    ensures AlertOnProposals(env, networks1) == AlertOnProposals(env, networks2)
  {
  }

  // The sink's answers never change a run.

  lemma {:induction false} SinkIgnoredForProposals(env: Env, send: string -> Option<Error>, v: Validator,
                                                   endpoint: string, ps: seq<Proposal>)
    ensures AlertsForProposals(env.(send := send), v, endpoint, ps) == AlertsForProposals(env, v, endpoint, ps)
  {
    if |ps| > 0 {
      SinkIgnoredForProposals(env, send, v, endpoint, ps[1..]);
    }
  }

  lemma {:induction false} SinkIgnoredForEndpoints(env: Env, send: string -> Option<Error>, v: Validator,
                                                   endpoints: seq<string>)
    ensures AlertsForEndpoints(env.(send := send), v, endpoints) == AlertsForEndpoints(env, v, endpoints)
  {
    if |endpoints| > 0 {
      SinkIgnoredForEndpoints(env, send, v, endpoints[1..]);
      var env' := env.(send := send);
      assert FetchProposals(env', endpoints[0]) == FetchProposals(env, endpoints[0]);
      if FetchProposals(env, endpoints[0]).Ok? {
        SinkIgnoredForProposals(env, send, v, endpoints[0], FetchProposals(env, endpoints[0]).value);
      }
    }
  }

  /** Send errors are logged and dropped: replacing the sink by one that
      answers differently yields the same alerts and the same error. */
  lemma {:induction false} SinkErrorsNeverStopRun(env: Env, send: string -> Option<Error>, vals: seq<Validator>)
    ensures AlertsForValidators(env.(send := send), vals) == AlertsForValidators(env, vals)
  {
    if |vals| > 0 {
      SinkErrorsNeverStopRun(env, send, vals[1..]);
      SinkIgnoredForEndpoints(env, send, vals[0], Endpoints(env, vals[0]));
    }
  }

  // The endpoint lookup's error never changes a run.

  lemma {:induction false} LookupIgnoredForProposals(env: Env, lookup: string -> EndpointReply, v: Validator,
                                                     endpoint: string, ps: seq<Proposal>)
    ensures AlertsForProposals(env.(lcdEndpoints := lookup), v, endpoint, ps) == AlertsForProposals(env, v, endpoint, ps)
  {
    if |ps| > 0 {
      LookupIgnoredForProposals(env, lookup, v, endpoint, ps[1..]);
    }
  }

  lemma {:induction false} LookupIgnoredForEndpoints(env: Env, lookup: string -> EndpointReply, v: Validator,
                                                     endpoints: seq<string>)
    ensures AlertsForEndpoints(env.(lcdEndpoints := lookup), v, endpoints) == AlertsForEndpoints(env, v, endpoints)
  {
    if |endpoints| > 0 {
      LookupIgnoredForEndpoints(env, lookup, v, endpoints[1..]);
      var env' := env.(lcdEndpoints := lookup);
      assert FetchProposals(env', endpoints[0]) == FetchProposals(env, endpoints[0]);
      if FetchProposals(env, endpoints[0]).Ok? {
        LookupIgnoredForProposals(env, lookup, v, endpoints[0], FetchProposals(env, endpoints[0]).value);
      }
    }
  }

  /** An endpoint lookup error is only logged: a lookup that returns the
      same endpoint lists with different errors yields the same run. */
  lemma {:induction false} EndpointLookupErrorsIgnored(env: Env, lookup: string -> EndpointReply, vals: seq<Validator>)
    requires forall chain :: lookup(chain).urls == env.lcdEndpoints(chain).urls
    ensures AlertsForValidators(env.(lcdEndpoints := lookup), vals) == AlertsForValidators(env, vals)
  {
    if |vals| > 0 {
      EndpointLookupErrorsIgnored(env, lookup, vals[1..]);
      var env' := env.(lcdEndpoints := lookup);
      assert Endpoints(env', vals[0]) == Endpoints(env, vals[0]);
      LookupIgnoredForEndpoints(env, lookup, vals[0], Endpoints(env, vals[0]));
    }
  }

  /** The clock plays no part in the proposal fetch. */
  lemma FetchIgnoresClock(env: Env, later: int, endpoint: string)
    ensures FetchProposals(env.(now := later), endpoint) == FetchProposals(env, endpoint)
  {
  }

  /** The clock plays no part in the vote lookup. */
  lemma VoteIgnoresClock(env: Env, later: int, endpoint: string, proposalID: string, address: string)
    ensures GetValidatorVote(env.(now := later), endpoint, proposalID, address) == GetValidatorVote(env, endpoint, proposalID, address)
  {
  }

  /** No poll remembers an earlier one: a pair that is due now is alerted,
      and, with the same answers from the chain, alerted again by any later
      poll whose clock still lies in its window. */
  lemma EveryPollAlertsAgain(env: Env, networks: seq<string>, later: int,
                             v: Validator, endpoint: string, p: Proposal)
    requires env.validators.Ok? && v in env.validators.value && endpoint in Endpoints(env, v)
    requires AlertOnProposals(env, networks).err.None?
    requires Due(env, v, endpoint, p)
    requires env.now <= later && later - env.parseTime(p.votingEndTime) <= AlertWindowHours * Hour
    ensures AlertText(p.proposalID, v.address) in AlertOnProposals(env, networks).sent
    ensures AlertText(p.proposalID, v.address) in AlertOnProposals(env.(now := later), networks).sent
  {
    var env' := env.(now := later);
    var vals := env.validators.value;
    assert forall w :: Endpoints(env', w) == Endpoints(env, w);
    forall w, e | w in vals && e in Endpoints(env', w)
      ensures FetchProposals(env', e).Ok?
    {
      FetchIgnoresClock(env, later, e);
    }
    assert AlertOnProposals(env', networks).err.None?;
    FetchIgnoresClock(env, later, endpoint);
    VoteIgnoresClock(env, later, endpoint, p.proposalID, v.address);
    assert Due(env', v, endpoint, p);
  }
}
