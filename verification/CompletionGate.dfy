/** The single acceptance predicate both coding engines use (completion_gate.py). */
module CompletionGate {

  /** Summary of the test runs recorded while one subtask was being worked. */
  datatype Evidence = Evidence(ran: bool, lastFailed: bool)

  /** What the record-and-tree gates answer for one subtask over the merged tree. */
  datatype GateInputs = GateInputs(enabled: bool, pipelineGap: bool, testingGap: bool, deliverableGap: bool,
                                   isVerification: bool)

  datatype Refusal = Allowed | PipelineGap | TestingGap | DeliverableGap | NoTestsRan | TestsFailed

  function CompletionRefusal(g: GateInputs, evidence: Evidence): (r: Refusal)
    ensures r.Allowed? <==>
              g.enabled ==>
                && !g.pipelineGap && !g.testingGap && !g.deliverableGap
                && (g.isVerification ==> evidence.ran && !evidence.lastFailed)
  {
    if !g.enabled then Allowed
    else if g.pipelineGap then PipelineGap
    else if g.testingGap then TestingGap
    else if g.deliverableGap then DeliverableGap
    else if g.isVerification && !evidence.ran then NoTestsRan
    else if g.isVerification && evidence.lastFailed then TestsFailed
    else Allowed
  }
}
