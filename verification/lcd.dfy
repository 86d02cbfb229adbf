/** The two governance REST requests the engine issues against an LCD
    endpoint (targets/proposals.go:55-59 and 94-97). */
module Lcd {
  import opened Types

  const ProposalsPath: string := "/cosmos/gov/v1beta1/proposals"

  /** `proposal_status=2` selects proposals in their voting period. */
  const VotingPeriodStatus: string := "2"

  /** The list of proposals in their voting period. */
  function ProposalsRequest(endpoint: string): Request
  {
    Request(endpoint + ProposalsPath, map["proposal_status" := VotingPeriodStatus])
  }

  /** The proposal-list URL is the endpoint followed by the proposals path,
      and its only query parameter selects the voting period. */
  lemma ProposalsRequestLayout(endpoint: string)
    ensures var r := ProposalsRequest(endpoint);
            && |r.url| == |endpoint| + |ProposalsPath|
            && r.url[..|endpoint|] == endpoint
            && r.url[|endpoint|..] == ProposalsPath
            && r.query.Keys == {"proposal_status"} && r.query["proposal_status"] == VotingPeriodStatus
  {
  }

  /** The vote an account cast on one proposal; no query parameters. */
  function VoteRequest(endpoint: string, proposalID: string, account: string): (r: Request)
    ensures r.url == ProposalsRequest(endpoint).url + "/" + proposalID + "/votes/" + account
    ensures r.query == map[]
  {
    Request(endpoint + "/cosmos/gov/v1beta1/proposals/" + proposalID + "/votes/" + account, map[])
  }

  /** No vote request coincides with a proposal-list request, so the
      transport can answer the two kinds independently. */
  lemma RequestsAreDistinct(endpoint: string, other: string, proposalID: string, account: string)
    ensures ProposalsRequest(endpoint) != VoteRequest(other, proposalID, account)
  {
    ProposalsRequestLayout(endpoint);
  }

  /** Distinct endpoints are asked distinct proposal-list requests. */
  lemma ProposalsRequestIsInjective(endpoint1: string, endpoint2: string)
    requires ProposalsRequest(endpoint1) == ProposalsRequest(endpoint2)
    ensures endpoint1 == endpoint2
  {
    var url := ProposalsRequest(endpoint1).url;
    ProposalsRequestLayout(endpoint1);
    ProposalsRequestLayout(endpoint2);
    assert |endpoint1| == |endpoint2|;
    assert endpoint1 == url[..|endpoint1|] == endpoint2;
  }
}
