/** The deadline decision and the alert itself,
    `SendVotingPeriodProposalAlerts` (targets/proposals.go:119-134). */
module Alerts {
  import opened Types
  import opened Clock

  const AlertPrefix: string := "you have not voted on proposal "
  const AlertMiddle: string := " with address "

  /** The text handed to the sink. Its layout is `AlertTextLayout`. */
  function AlertText(proposalID: string, address: string): (s: string)
    ensures |s| == |AlertPrefix| + |proposalID| + |AlertMiddle| + |address|
  {
    AlertPrefix + proposalID + AlertMiddle + address
  }

  /** The alert is the fixed prefix, the proposal id, the fixed middle and
      the address, in that order. */
  lemma AlertTextLayout(proposalID: string, address: string)
    ensures var s := AlertText(proposalID, address);
            && s[..|AlertPrefix|] == AlertPrefix
            && s[|AlertPrefix|..|AlertPrefix| + |proposalID|] == proposalID
            && s[|AlertPrefix| + |proposalID|..|s| - |address|] == AlertMiddle
            && s[|s| - |address|..] == address
  {
  }

  /** For a given address, the alert text determines the proposal. */
  lemma {:induction false} AlertTextNamesOneProposal(id1: string, id2: string, address: string)
    requires AlertText(id1, address) == AlertText(id2, address)
    ensures id1 == id2
  {
    var s := AlertText(id1, address);
    AlertTextLayout(id1, address);
    AlertTextLayout(id2, address);
    assert |id1| == |id2|;
    assert id1 == s[|AlertPrefix|..|AlertPrefix| + |id1|] == id2;
  }

  /** What one call did: the message handed to the sink, if any, and the
      error the call returned. */
  datatype SendResult = SendResult(message: Option<string>, err: Option<Error>)

  /** Parse the voting end time, compare it with the clock, and on a
      qualifying deadline hand the alert to the sink, returning the sink's
      error unchanged. */
  function SendVotingPeriodProposalAlerts(env: Env, address: string, proposalID: string,
                                          votingEndTime: string): (r: SendResult)
    ensures r.message.Some? <==> env.now - env.parseTime(votingEndTime) <= AlertWindowHours * Hour
    ensures r.message.Some? ==> r.message.value == AlertText(proposalID, address)
                                && r.err == env.send(r.message.value)
    ensures r.message.None? ==> r.err == None
  {
    var endTime := env.parseTime(votingEndTime);
    if WithinAlertWindow(env.now, endTime) then
      var text := AlertText(proposalID, address);
      SendResult(Some(text), env.send(text))
    else
      SendResult(None, None)
  }
}
