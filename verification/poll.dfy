/** `GetProposals` (targets/proposals.go:25-41): read the validator table,
    build the list of chain names, and start the alert loop. */
module Poll {
  import opened Types
  import opened Engine

  /** A Go map read: a missing key reads as `false`, as it does on the nil
      map `networksMap`. */
  function MapGet(m: map<string, bool>, key: string): (r: bool)
    ensures key !in m ==> !r
    ensures key in m ==> r == m[key]
  {
    key in m && m[key]
  }

  /** The loop of lines 34-38 from a given state: a chain name is appended
      unless `seen` marks it. The loop never writes to `seen`. */
  function CollectNetworks(vals: seq<Validator>, seen: map<string, bool>, networks: seq<string>): (r: seq<string>)
    ensures (forall c :: c in seen ==> !seen[c]) ==>
              && |r| == |networks| + |vals|
              && r[..|networks|] == networks
              && forall i :: 0 <= i < |vals| ==> r[|networks| + i] == vals[i].chainName
  {
    if |vals| == 0 then networks
    else if !MapGet(seen, vals[0].chainName) then
      CollectNetworks(vals[1..], seen, networks + [vals[0].chainName])
    else
      CollectNetworks(vals[1..], seen, networks)
  }

  /** The list handed to `AlertOnProposals`: started from the nil map and
      the nil slice. One entry per validator record, in record order,
      repeated chains included. */
  function Networks(vals: seq<Validator>): (r: seq<string>)
    ensures |r| == |vals|
    ensures forall i :: 0 <= i < |vals| ==> r[i] == vals[i].chainName
  {
    CollectNetworks(vals, map[], [])
  }

  /** Two validator records on one chain put that chain in the list twice:
      the list is not free of repeats. */
  lemma DuplicateChainsAreKept(vals: seq<Validator>, i: nat, j: nat)
    requires i < j < |vals|
    requires vals[i].chainName == vals[j].chainName
    ensures Networks(vals)[i] == Networks(vals)[j] == vals[i].chainName
    ensures exists a, b :: 0 <= a < b < |Networks(vals)| && Networks(vals)[a] == Networks(vals)[b]
  {
    assert 0 <= i < j < |Networks(vals)|;
  }

  /** What one poll leaves behind: a panic when the validator table cannot
      be read, otherwise the chain list and the alerts handed to the sink
      (the loop's returned error is discarded). */
  datatype PollResult = Panicked(error: Error) | Polled(networks: seq<string>, alerts: seq<string>)

  function GetProposals(env: Env): (r: PollResult)
    ensures env.validators.Err? <==> r.Panicked?
    ensures r.Panicked? ==> r.error == env.validators.error
    ensures r.Polled? ==> |r.networks| == |env.validators.value|
                          && (forall i :: 0 <= i < |r.networks| ==> r.networks[i] == env.validators.value[i].chainName)
                          && r.alerts == AlertOnProposals(env, r.networks).sent
  {
    match env.validators
    case Err(e) => Panicked(e)
    case Ok(vals) =>
      var networks := Networks(vals);
      Polled(networks, AlertOnProposals(env, networks).sent)
  }
}
