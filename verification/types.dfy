/** The records the voting-alert engine reads and the abstract interface to
    everything it cannot compute itself: the validator table, the LCD endpoint
    lookup, the HTTP transport, the JSON decoder, the bech32 address
    conversion, the clock, the RFC 3339 parser and the Slack sink.
    Every external call becomes a pure function stored in `Env`. */
module Types {

  datatype Option<+T> = None | Some(value: T)

  /** An error value as returned by a Go call; only its identity matters. */
  datatype Error = Error(message: string)

  datatype Result<+T> = Ok(value: T) | Err(error: Error)

  /** A byte of an HTTP response body. */
  newtype byte = b: int | 0 <= b < 256

  type Body = seq<byte>

  /** One row of the validator table: the chain it lives on and its
      operator (valoper) address as stored. */
  datatype Validator = Validator(chainName: string, address: string)

  /** One entry of the decoded `proposals` list. */
  datatype Proposal = Proposal(proposalID: string, votingEndTime: string)

  /** The decoded proposals resource. */
  datatype Proposals = Proposals(proposals: seq<Proposal>)

  /** One weighted option of a decoded vote. */
  datatype WeightedOption = WeightedOption(option: string, weight: string)

  /** The decoded vote resource: `vote.options`. */
  datatype VoteRecord = VoteRecord(options: seq<WeightedOption>)
  datatype VoteResponse = VoteResponse(vote: VoteRecord)

  /** A GET request: full URL and query parameters. */
  datatype Request = Request(url: string, query: map<string, string>)

  /** What the HTTP helper hands back: a body and an error, both always
      present as in Go's two return values (the body may be empty). */
  datatype HttpReply = HttpReply(body: Body, err: Option<Error>)

  /** What `json.Unmarshal` leaves behind: the value it managed to fill in,
      and its error. Go's decoder leaves a value even when it fails. */
  datatype Decoded<+T> = Decoded(value: T, err: Option<Error>)

  /** The endpoint lookup's two return values. */
  datatype EndpointReply = EndpointReply(urls: seq<string>, err: Option<Error>)

  /** The world one poll cycle sees. Times are nanoseconds on one time line. */
  datatype Env = Env(
    validators: Result<seq<Validator>>,
    lcdEndpoints: string -> EndpointReply,
    http: Request -> HttpReply,
    decodeProposals: Body -> Decoded<Proposals>,
    decodeVote: Body -> Decoded<VoteResponse>,
    accountAddress: string -> string,
    parseTime: string -> int,
    now: int,
    send: string -> Option<Error>)

  /** The result of one run of the alert loop: the alert texts handed to the
      sink, in order, and the error that ended the run early, if any. */
  datatype Outcome = Outcome(sent: seq<string>, err: Option<Error>)
}
