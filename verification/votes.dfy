/** The vote lookup of targets/proposals.go:90-116: ask an endpoint for the
    validator's vote on a proposal and reduce the answer to one option
    string, the empty string meaning "not voted". */
module Votes {
  import opened Types
  import opened Lcd

  /** The loop that walks `Vote.Options`, overwriting the result with each
      option in turn, started from `voted`. */
  function LastOption(options: seq<WeightedOption>, voted: string): (r: string)
    ensures |options| == 0 ==> r == voted
    ensures |options| > 0 ==> r == options[|options| - 1].option
  {
    if |options| == 0 then voted
    else LastOption(options[1..], options[0].option)
  }

  /** The tail of the lookup: whatever the decoder left in the vote record
      is read, whether or not the fetch or the decode reported an error. */
  function VoteFromReply(reply: HttpReply, decode: Body -> Decoded<VoteResponse>): (voted: string)
    ensures var options := decode(reply.body).value.vote.options;
            voted == if |options| == 0 then "" else options[|options| - 1].option
  {
    LastOption(decode(reply.body).value.vote.options, "")
  }

  /** `GetValidatorVote`: the operator address is converted to an account
      address (conversion errors discarded), the vote resource is fetched
      from `endpoint`, and the last option of the decoded vote is returned. */
  function GetValidatorVote(env: Env, endpoint: string, proposalID: string, valAddr: string): (voted: string)
    ensures var reply := env.http(VoteRequest(endpoint, proposalID, env.accountAddress(valAddr)));
            var options := env.decodeVote(reply.body).value.vote.options;
            (voted == "" <==> |options| == 0 || options[|options| - 1].option == "")
            && (voted != "" ==> voted == options[|options| - 1].option)
  {
    VoteFromReply(env.http(VoteRequest(endpoint, proposalID, env.accountAddress(valAddr))), env.decodeVote)
  }

  /** Neither the transport error nor the decoder's error has any bearing on
      the answer: a failed lookup cannot be told apart from a successful one
      that yields the same decoded record. */
  lemma LookupErrorsAreInvisible(body: Body, fetchErr1: Option<Error>, fetchErr2: Option<Error>,
                                 decode1: Body -> Decoded<VoteResponse>,
                                 decode2: Body -> Decoded<VoteResponse>)
    requires forall b :: decode1(b).value == decode2(b).value
    ensures VoteFromReply(HttpReply(body, fetchErr1), decode1)
            == VoteFromReply(HttpReply(body, fetchErr2), decode2)
  {
  }

  /** A lookup whose fetch failed, leaving a body the decoder could not read
      (so the vote record keeps its zero value), reads as "not voted". */
  lemma FailedLookupReadsAsNotVoted(reply: HttpReply, decode: Body -> Decoded<VoteResponse>)
    requires reply.err.Some?
    requires decode(reply.body).err.Some?
    requires decode(reply.body).value == VoteResponse(VoteRecord([]))
    ensures VoteFromReply(reply, decode) == ""
  {
  }
}
