/** `AlertOnProposals` (targets/proposals.go:44-86): for every validator
    record, for every endpoint its chain resolves to, fetch the proposals in
    their voting period and, for each one the validator has not voted on,
    run the deadline decision. A proposal-list fetch or decode failure ends
    the whole run; every other failure is only logged. */
module Engine {
  import opened Types
  import opened Clock
  import opened Lcd
  import opened Votes
  import opened Alerts

  /** The endpoints the lookup returned for a validator's chain, used
      whether or not the lookup also reported an error. */
  function Endpoints(env: Env, v: Validator): seq<string>
  {
    env.lcdEndpoints(v.chainName).urls
  }

  /** Lines 55-70: fetch and decode the proposal list of one endpoint. */
  function FetchProposals(env: Env, endpoint: string): (r: Result<seq<Proposal>>)
    ensures var reply := env.http(ProposalsRequest(endpoint));
            var decoded := env.decodeProposals(reply.body);
            && (r.Ok? <==> reply.err.None? && decoded.err.None?)
            && (reply.err.Some? ==> r.error == reply.err.value)
            && (reply.err.None? && decoded.err.Some? ==> r.error == decoded.err.value)
            && (r.Ok? ==> r.value == decoded.value.proposals)
  {
    var reply := env.http(ProposalsRequest(endpoint));
    if reply.err.Some? then Err(reply.err.value)
    else
      var decoded := env.decodeProposals(reply.body);
      if decoded.err.Some? then Err(decoded.err.value)
      else Ok(decoded.value.proposals)
  }

  /** The validator has not voted on `p`, as far as the lookup at
      `endpoint` can tell, and `p`'s deadline lies in the alert window. */
  predicate Qualifies(env: Env, v: Validator, endpoint: string, p: Proposal)
  {
    && GetValidatorVote(env, endpoint, p.proposalID, v.address) == ""
    && env.now - env.parseTime(p.votingEndTime) <= AlertWindowHours * Hour
  }

  /** `p` came back from `endpoint`'s proposal list and qualifies. */
  predicate Due(env: Env, v: Validator, endpoint: string, p: Proposal)
  {
    && FetchProposals(env, endpoint).Ok?
    && p in FetchProposals(env, endpoint).value
    && Qualifies(env, v, endpoint, p)
  }

  /** `m` is the alert for some proposal due at `endpoint`. */
  ghost predicate AlertedAt(env: Env, v: Validator, endpoint: string, m: string)
  {
    exists p :: Due(env, v, endpoint, p) && m == AlertText(p.proposalID, v.address)
  }

  /** `m` is the alert for some proposal due at one of `v`'s endpoints. */
  ghost predicate Alerted(env: Env, v: Validator, m: string)
  {
    exists endpoint :: endpoint in Endpoints(env, v) && AlertedAt(env, v, endpoint, m)
  }

  /** Position `k` holds the first endpoint of `endpoints` whose proposal
      fetch fails, and it fails with `e`. */
  predicate FirstFailure(env: Env, endpoints: seq<string>, k: int, e: Error)
  {
    && 0 <= k < |endpoints|
    && FetchProposals(env, endpoints[k]) == Err(e)
    && forall i :: 0 <= i < k ==> FetchProposals(env, endpoints[i]).Ok?
  }

  /** Every endpoint visited by a full run, in visiting order. */
  function Traversal(env: Env, vals: seq<Validator>): (r: seq<string>)
    ensures forall v, endpoint :: v in vals && endpoint in Endpoints(env, v) ==> endpoint in r
  {
    if |vals| == 0 then []
    else Endpoints(env, vals[0]) + Traversal(env, vals[1..])
  }

  /** Sequencing of two stages of the loop: a stage that ended in error
      ends the run. */
  function Then(first: Outcome, rest: Outcome): (r: Outcome)
    ensures first.err.Some? ==> r == first
    ensures first.err.None? ==> r.sent == first.sent + rest.sent && r.err == rest.err
  {
    if first.err.Some? then first else Outcome(first.sent + rest.sent, rest.err)
  }

  /** Lines 74-80: one proposal. An empty vote runs the deadline decision,
      whose send error is dropped; any other vote sends nothing. */
  function AlertFor(env: Env, v: Validator, endpoint: string, p: Proposal): (r: seq<string>)
    ensures Qualifies(env, v, endpoint, p) ==> r == [AlertText(p.proposalID, v.address)]
    ensures !Qualifies(env, v, endpoint, p) ==> r == []
  {
    if GetValidatorVote(env, endpoint, p.proposalID, v.address) == "" then
      match SendVotingPeriodProposalAlerts(env, v.address, p.proposalID, p.votingEndTime).message
      case Some(m) => [m]
      case None => []
    else []
  }

  /** Lines 72-82: the proposals of one endpoint, in list order. */
  function AlertsForProposals(env: Env, v: Validator, endpoint: string, ps: seq<Proposal>): (sent: seq<string>)
    ensures |sent| <= |ps|
    ensures forall m :: m in sent ==>
              exists p :: p in ps && Qualifies(env, v, endpoint, p) && m == AlertText(p.proposalID, v.address)
    ensures forall p :: p in ps && Qualifies(env, v, endpoint, p) ==> AlertText(p.proposalID, v.address) in sent
  {
    if |ps| == 0 then []
    else
      var rest := AlertsForProposals(env, v, endpoint, ps[1..]);
      ProposalStep(env, v, endpoint, ps, rest);
      AlertFor(env, v, endpoint, ps[0]) + rest
  }

  /** The loop's contract is kept by deciding one more proposal in front. */
  lemma ProposalStep(env: Env, v: Validator, endpoint: string, ps: seq<Proposal>, rest: seq<string>)
    requires |ps| > 0 && |rest| <= |ps| - 1
    requires forall m :: m in rest ==>
               exists p :: p in ps[1..] && Qualifies(env, v, endpoint, p) && m == AlertText(p.proposalID, v.address)
    requires forall p :: p in ps[1..] && Qualifies(env, v, endpoint, p) ==> AlertText(p.proposalID, v.address) in rest
    ensures var sent := AlertFor(env, v, endpoint, ps[0]) + rest;
            && |sent| <= |ps|
            && (forall m :: m in sent ==>
                  exists p :: p in ps && Qualifies(env, v, endpoint, p) && m == AlertText(p.proposalID, v.address))
            && (forall p :: p in ps && Qualifies(env, v, endpoint, p) ==> AlertText(p.proposalID, v.address) in sent)
  {
    assert forall q :: q in ps[1..] ==> q in ps;
    assert forall q :: q in ps ==> q == ps[0] || q in ps[1..];
  }

  /** `idx` lists, in increasing order, the positions in `ps` of the
      proposals that qualify, and `sent` holds one alert for each of them. */
  ghost predicate IsOrderedFilter(env: Env, v: Validator, endpoint: string, ps: seq<Proposal>,
                                  sent: seq<string>, idx: seq<int>)
  {
    && |idx| == |sent|
    && (forall j :: 0 <= j < |idx| ==> 0 <= idx[j] < |ps| && Qualifies(env, v, endpoint, ps[idx[j]]))
    && (forall j :: 0 <= j < |idx| ==> sent[j] == AlertText(ps[idx[j]].proposalID, v.address))
    && (forall j, k :: 0 <= j < k < |idx| ==> idx[j] < idx[k])
    && (forall i :: 0 <= i < |ps| && Qualifies(env, v, endpoint, ps[i]) ==> i in idx)
  }

  /** The proposal loop sends exactly one alert per qualifying position of
      the list, in list order, and nothing else. */
  lemma AlertsForProposalsIsOrderedFilter(env: Env, v: Validator, endpoint: string, ps: seq<Proposal>)
    returns (idx: seq<int>)
    ensures IsOrderedFilter(env, v, endpoint, ps, AlertsForProposals(env, v, endpoint, ps), idx)
  {
    idx := AlertsForProposalsPicks(env, v, endpoint, ps);
  }

  /** Which positions of `ps` qualify. */
  function Mask(env: Env, v: Validator, endpoint: string, ps: seq<Proposal>): (keep: seq<bool>)
    ensures |keep| == |ps|
    ensures forall i :: 0 <= i < |ps| ==> keep[i] == Qualifies(env, v, endpoint, ps[i])
  {
    seq(|ps|, i requires 0 <= i < |ps| => Qualifies(env, v, endpoint, ps[i]))
  }

  /** The alert each position of `ps` would send. */
  function Texts(v: Validator, ps: seq<Proposal>): (texts: seq<string>)
    ensures |texts| == |ps|
    ensures forall i :: 0 <= i < |ps| ==> texts[i] == AlertText(ps[i].proposalID, v.address)
  {
    seq(|ps|, i requires 0 <= i < |ps| => AlertText(ps[i].proposalID, v.address))
  }

  /** `sent` holds `texts[i]` for exactly the positions `i` that `keep`
      marks, in increasing order; `idx` lists those positions. */
  ghost predicate Picks(keep: seq<bool>, texts: seq<string>, sent: seq<string>, idx: seq<int>)
  {
    && |keep| == |texts| && |idx| == |sent|
    && (forall j :: 0 <= j < |idx| ==> 0 <= idx[j] < |keep| && keep[idx[j]] && sent[j] == texts[idx[j]])
    && (forall j, k :: 0 <= j < k < |idx| ==> idx[j] < idx[k])
    && (forall i :: 0 <= i < |keep| && keep[i] ==> i in idx)
  }

  lemma {:induction false} AlertsForProposalsPicks(env: Env, v: Validator, endpoint: string, ps: seq<Proposal>)
    returns (idx: seq<int>)
    ensures Picks(Mask(env, v, endpoint, ps), Texts(v, ps), AlertsForProposals(env, v, endpoint, ps), idx)
  {
    if |ps| == 0 {
      idx := [];
    } else {
      var tail := AlertsForProposalsPicks(env, v, endpoint, ps[1..]);
      var keep, texts := Mask(env, v, endpoint, ps), Texts(v, ps);
      assert keep[1..] == Mask(env, v, endpoint, ps[1..]);
      assert texts[1..] == Texts(v, ps[1..]);
      assert AlertFor(env, v, endpoint, ps[0]) == if keep[0] then [texts[0]] else [];
      idx := PicksCons(keep, texts, AlertsForProposals(env, v, endpoint, ps[1..]), tail);
    }
  }

  /** Deciding one more position in front of a filtered tail filters the
      whole list. */
  lemma PicksCons(keep: seq<bool>, texts: seq<string>, rest: seq<string>, tail: seq<int>) returns (idx: seq<int>)
    requires |keep| == |texts| > 0
    requires Picks(keep[1..], texts[1..], rest, tail)
    ensures Picks(keep, texts, (if keep[0] then [texts[0]] else []) + rest, idx)
  {
    var shifted := seq(|tail|, j requires 0 <= j < |tail| => tail[j] + 1);
    var head: seq<int> := if keep[0] then [0] else [];
    var here := if keep[0] then [texts[0]] else [];
    idx := head + shifted;
    PicksConsChosen(keep, texts, rest, tail, shifted, head, here);
    PicksConsOrdered(tail, shifted, head);
    PicksConsComplete(keep, tail, shifted, head);
  }

  lemma PicksConsChosen(keep: seq<bool>, texts: seq<string>, rest: seq<string>, tail: seq<int>,
                        shifted: seq<int>, head: seq<int>, here: seq<string>)
    requires |keep| == |texts| > 0 && |tail| == |rest| == |shifted| && |head| == |here| <= 1
    requires forall j :: 0 <= j < |tail| ==> shifted[j] == tail[j] + 1
    requires forall j :: 0 <= j < |tail| ==> 0 <= tail[j] < |keep| - 1 && keep[1..][tail[j]] && rest[j] == texts[1..][tail[j]]
    requires |head| == 1 ==> head[0] == 0 && here[0] == texts[0] && keep[0]
    ensures var idx, sent := head + shifted, here + rest;
            forall j :: 0 <= j < |idx| ==> 0 <= idx[j] < |keep| && keep[idx[j]] && sent[j] == texts[idx[j]]
  {
    var idx, sent, d := head + shifted, here + rest, |head|;
    forall j | 0 <= j < |idx|
      ensures 0 <= idx[j] < |keep| && keep[idx[j]] && sent[j] == texts[idx[j]]
    {
      if j >= d {
        assert idx[j] == tail[j - d] + 1 && sent[j] == rest[j - d];
        assert keep[idx[j]] == keep[1..][tail[j - d]] && texts[idx[j]] == texts[1..][tail[j - d]];
      }
    }
  }

  lemma PicksConsOrdered(tail: seq<int>, shifted: seq<int>, head: seq<int>)
    requires |shifted| == |tail| && |head| <= 1 && (|head| == 1 ==> head[0] == 0)
    requires forall j :: 0 <= j < |tail| ==> 0 <= tail[j] && shifted[j] == tail[j] + 1
    requires forall j, k :: 0 <= j < k < |tail| ==> tail[j] < tail[k]
    ensures var idx := head + shifted;
            forall j, k :: 0 <= j < k < |idx| ==> idx[j] < idx[k]
  {
    var idx, d := head + shifted, |head|;
    forall j, k | 0 <= j < k < |idx|
      ensures idx[j] < idx[k]
    {
      assert idx[k] == tail[k - d] + 1;
      if j >= d {
        assert idx[j] == tail[j - d] + 1;
      }
    }
  }

  lemma PicksConsComplete(keep: seq<bool>, tail: seq<int>, shifted: seq<int>, head: seq<int>)
    requires |keep| > 0 && |shifted| == |tail| && |head| <= 1
    requires keep[0] ==> head == [0]
    requires forall j :: 0 <= j < |tail| ==> shifted[j] == tail[j] + 1
    requires forall i :: 0 <= i < |keep| - 1 && keep[1..][i] ==> i in tail
    ensures forall i :: 0 <= i < |keep| && keep[i] ==> i in head + shifted
  {
    var idx, d := head + shifted, |head|;
    forall i | 0 <= i < |keep| && keep[i]
      ensures i in idx
    {
      if i > 0 {
        assert keep[1..][i - 1];
        var j :| 0 <= j < |tail| && tail[j] == i - 1;
        assert idx[j + d] == i;
      }
    }
  }

  /** One endpoint: its proposal fetch either ends the run or yields the
      alerts for its proposals. */
  function AtEndpoint(env: Env, v: Validator, endpoint: string): (o: Outcome)
    ensures o.err.None? <==> FetchProposals(env, endpoint).Ok?
    ensures o.err.Some? ==> o.sent == [] && FetchProposals(env, endpoint) == Err(o.err.value)
    ensures forall m :: m in o.sent ==> AlertedAt(env, v, endpoint, m)
    ensures forall p :: Due(env, v, endpoint, p) ==> AlertText(p.proposalID, v.address) in o.sent
  {
    match FetchProposals(env, endpoint)
    case Err(e) => Outcome([], Some(e))
    case Ok(ps) => Outcome(AlertsForProposals(env, v, endpoint, ps), None)
  }

  /** An endpoint whose proposal list comes back sends one alert per
      qualifying position of that list, in list order, and nothing else. */
  lemma AtEndpointIsOrderedFilter(env: Env, v: Validator, endpoint: string) returns (idx: seq<int>)
    requires FetchProposals(env, endpoint).Ok?
    ensures IsOrderedFilter(env, v, endpoint, FetchProposals(env, endpoint).value, AtEndpoint(env, v, endpoint).sent, idx)
  {
    idx := AlertsForProposalsIsOrderedFilter(env, v, endpoint, FetchProposals(env, endpoint).value);
  }

  /** Lines 54-83: the endpoints of one validator, in order. */
  function AlertsForEndpoints(env: Env, v: Validator, endpoints: seq<string>): (o: Outcome)
    ensures o.err.None? <==> forall k :: 0 <= k < |endpoints| ==> FetchProposals(env, endpoints[k]).Ok?
    ensures o.err.Some? ==> exists k :: FirstFailure(env, endpoints, k, o.err.value)
    ensures forall m :: m in o.sent ==> exists endpoint :: endpoint in endpoints && AlertedAt(env, v, endpoint, m)
    ensures o.err.None? ==> forall endpoint, p :: endpoint in endpoints && Due(env, v, endpoint, p) ==>
                              AlertText(p.proposalID, v.address) in o.sent
  {
    if |endpoints| == 0 then Outcome([], None)
    else
      var first := AtEndpoint(env, v, endpoints[0]);
      var rest := AlertsForEndpoints(env, v, endpoints[1..]);
      EndpointStepErrors(env, v, endpoints, first, rest);
      EndpointStepAlerts(env, v, endpoints, first, rest);
      Then(first, rest)
  }

  /** The error half of the endpoint loop's contract is kept by trying one
      more endpoint in front. */
  lemma EndpointStepErrors(env: Env, v: Validator, endpoints: seq<string>, first: Outcome, rest: Outcome)
    requires |endpoints| > 0 && first == AtEndpoint(env, v, endpoints[0])
    requires rest.err.None? <==> forall k :: 0 <= k < |endpoints| - 1 ==> FetchProposals(env, endpoints[1..][k]).Ok?
    requires rest.err.Some? ==> exists k :: FirstFailure(env, endpoints[1..], k, rest.err.value)
    ensures var o := Then(first, rest);
            && (o.err.None? <==> forall k :: 0 <= k < |endpoints| ==> FetchProposals(env, endpoints[k]).Ok?)
            && (o.err.Some? ==> exists k :: FirstFailure(env, endpoints, k, o.err.value))
  {
    var o := Then(first, rest);
    assert forall k :: 0 < k < |endpoints| ==> endpoints[k] == endpoints[1..][k - 1];
    if first.err.Some? {
      assert FirstFailure(env, endpoints, 0, o.err.value);
    } else if rest.err.Some? {
      var k :| FirstFailure(env, endpoints[1..], k, rest.err.value);
      assert FirstFailure(env, endpoints, k + 1, o.err.value);
    }
  }

  /** The alert half of the endpoint loop's contract is kept by trying one
      more endpoint in front. */
  lemma EndpointStepAlerts(env: Env, v: Validator, endpoints: seq<string>, first: Outcome, rest: Outcome)
    requires |endpoints| > 0 && first == AtEndpoint(env, v, endpoints[0])
    requires forall m :: m in rest.sent ==> exists endpoint :: endpoint in endpoints[1..] && AlertedAt(env, v, endpoint, m)
    requires rest.err.None? ==> forall endpoint, p :: endpoint in endpoints[1..] && Due(env, v, endpoint, p) ==>
                                  AlertText(p.proposalID, v.address) in rest.sent
    ensures var o := Then(first, rest);
            && (forall m :: m in o.sent ==> exists endpoint :: endpoint in endpoints && AlertedAt(env, v, endpoint, m))
            && (o.err.None? ==> forall endpoint, p :: endpoint in endpoints && Due(env, v, endpoint, p) ==>
                                  AlertText(p.proposalID, v.address) in o.sent)
  {
    var o := Then(first, rest);
    forall m | m in o.sent
      ensures exists endpoint :: endpoint in endpoints && AlertedAt(env, v, endpoint, m)
    {
      if m in first.sent {
        assert endpoints[0] in endpoints && AlertedAt(env, v, endpoints[0], m);
      } else {
        var endpoint :| endpoint in endpoints[1..] && AlertedAt(env, v, endpoint, m);
        assert endpoint in endpoints;
      }
    }
    if o.err.None? {
      forall endpoint, p | endpoint in endpoints && Due(env, v, endpoint, p)
        ensures AlertText(p.proposalID, v.address) in o.sent
      {
        if endpoint != endpoints[0] {
          assert endpoint in endpoints[1..];
        }
      }
    }
  }

  /** Lines 49-84: the validators, in record order. */
  function AlertsForValidators(env: Env, vals: seq<Validator>): (o: Outcome)
    ensures o.err.None? <==> forall v, endpoint :: v in vals && endpoint in Endpoints(env, v) ==>
                               FetchProposals(env, endpoint).Ok?
    ensures o.err.Some? ==> exists k :: FirstFailure(env, Traversal(env, vals), k, o.err.value)
    ensures forall m :: m in o.sent ==> exists v :: v in vals && Alerted(env, v, m)
    ensures o.err.None? ==> forall v, endpoint, p :: v in vals && endpoint in Endpoints(env, v) && Due(env, v, endpoint, p) ==>
                              AlertText(p.proposalID, v.address) in o.sent
  {
    if |vals| == 0 then Outcome([], None)
    else
      var first := AlertsForEndpoints(env, vals[0], Endpoints(env, vals[0]));
      var rest := AlertsForValidators(env, vals[1..]);
      ValidatorStepErrors(env, vals, first, rest);
      ValidatorStepAlerts(env, vals, first, rest);
      Then(first, rest)
  }

  /** The error half of the validator loop's contract is kept by running one
      more validator in front. */
  lemma ValidatorStepErrors(env: Env, vals: seq<Validator>, first: Outcome, rest: Outcome)
    requires |vals| > 0 && first == AlertsForEndpoints(env, vals[0], Endpoints(env, vals[0]))
    requires rest.err.None? <==> forall v, endpoint :: v in vals[1..] && endpoint in Endpoints(env, v) ==>
                                   FetchProposals(env, endpoint).Ok?
    requires rest.err.Some? ==> exists k :: FirstFailure(env, Traversal(env, vals[1..]), k, rest.err.value)
    ensures var o := Then(first, rest);
            && (o.err.None? <==> forall v, endpoint :: v in vals && endpoint in Endpoints(env, v) ==>
                                   FetchProposals(env, endpoint).Ok?)
            && (o.err.Some? ==> exists k :: FirstFailure(env, Traversal(env, vals), k, o.err.value))
  {
    var v := vals[0];
    var o := Then(first, rest);
    assert forall w :: w in vals ==> w == v || w in vals[1..];
    assert Traversal(env, vals) == Endpoints(env, v) + Traversal(env, vals[1..]);
    if first.err.Some? {
      var k :| FirstFailure(env, Endpoints(env, v), k, o.err.value);
      FirstFailureExtends(env, Endpoints(env, v), Traversal(env, vals[1..]), k, o.err.value);
    } else if rest.err.Some? {
      var k :| FirstFailure(env, Traversal(env, vals[1..]), k, rest.err.value);
      FirstFailureShifts(env, Endpoints(env, v), Traversal(env, vals[1..]), k, o.err.value);
    }
  }

  /** The alert half of the validator loop's contract is kept by running one
      more validator in front. */
  lemma ValidatorStepAlerts(env: Env, vals: seq<Validator>, first: Outcome, rest: Outcome)
    requires |vals| > 0 && first == AlertsForEndpoints(env, vals[0], Endpoints(env, vals[0]))
    requires forall m :: m in rest.sent ==> exists v :: v in vals[1..] && Alerted(env, v, m)
    requires rest.err.None? ==> forall v, endpoint, p :: v in vals[1..] && endpoint in Endpoints(env, v) && Due(env, v, endpoint, p) ==>
                                  AlertText(p.proposalID, v.address) in rest.sent
    ensures var o := Then(first, rest);
            && (forall m :: m in o.sent ==> exists v :: v in vals && Alerted(env, v, m))
            && (o.err.None? ==> forall v, endpoint, p :: v in vals && endpoint in Endpoints(env, v) && Due(env, v, endpoint, p) ==>
                                  AlertText(p.proposalID, v.address) in o.sent)
  {
    var o := Then(first, rest);
    forall m | m in o.sent
      ensures exists v :: v in vals && Alerted(env, v, m)
    {
      if m in first.sent {
        assert vals[0] in vals && Alerted(env, vals[0], m);
      } else {
        var v :| v in vals[1..] && Alerted(env, v, m);
        assert v in vals;
      }
    }
    if o.err.None? {
      forall v, endpoint, p | v in vals && endpoint in Endpoints(env, v) && Due(env, v, endpoint, p)
        ensures AlertText(p.proposalID, v.address) in o.sent
      {
        if v != vals[0] {
          assert v in vals[1..];
        }
      }
    }
  }

  lemma FirstFailureExtends(env: Env, a: seq<string>, b: seq<string>, k: int, e: Error)
    requires FirstFailure(env, a, k, e)
    ensures FirstFailure(env, a + b, k, e)
  {
    assert forall i :: 0 <= i <= k ==> (a + b)[i] == a[i];
  }

  lemma FirstFailureShifts(env: Env, a: seq<string>, b: seq<string>, k: int, e: Error)
    requires forall i :: 0 <= i < |a| ==> FetchProposals(env, a[i]).Ok?
    requires FirstFailure(env, b, k, e)
    ensures FirstFailure(env, a + b, |a| + k, e)
  {
    assert forall i :: 0 <= i < |a| ==> (a + b)[i] == a[i];
    assert forall i :: 0 <= i <= k ==> (a + b)[|a| + i] == b[i];
  }

  /** `AlertOnProposals`: read the validator table, then run the loop. The
      `networks` argument is not consulted. */
  function AlertOnProposals(env: Env, networks: seq<string>): (o: Outcome)
    ensures env.validators.Err? ==> o == Outcome([], Some(env.validators.error))
    ensures env.validators.Ok? ==>
              (o.err.None? <==> forall v, endpoint :: v in env.validators.value && endpoint in Endpoints(env, v) ==>
                                  FetchProposals(env, endpoint).Ok?)
    ensures env.validators.Ok? ==> forall m :: m in o.sent ==> exists v :: v in env.validators.value && Alerted(env, v, m)
    ensures env.validators.Ok? && o.err.None? ==>
              forall v, endpoint, p :: v in env.validators.value && endpoint in Endpoints(env, v) && Due(env, v, endpoint, p) ==>
                AlertText(p.proposalID, v.address) in o.sent
  {
    match env.validators
    case Err(e) => Outcome([], Some(e))
    case Ok(vals) => AlertsForValidators(env, vals)
  }
}
