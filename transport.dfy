/** The firmware transport, seen from the controller: one synchronous (submethod,
    argument) call that answers with a status and a 32-bit word. Which of the two
    transports answers, and what it answers, is outside the model: the answers are an
    arbitrary sequence fixed in advance, one per request, and every request is logged. */
module Transport {
  import opened Types

  class Firmware {
    /** Every request issued so far, oldest first. */
    var calls: seq<Call>
    /** The answer to the request at each position of the log. */
    const answer: nat -> Reply

    constructor (answer: nat -> Reply)
      ensures calls == [] && this.answer == answer
    {
      calls := [];
      this.answer := answer;
    }

    /** Issues one request and returns the firmware's answer to it. */
    method Evaluate(cmd: u8, arg: u32) returns (status: u32, value: u32)
      modifies this
      ensures calls == old(calls) + [Call(cmd, arg)]
      ensures Reply(status, value) == answer(|old(calls)|)
    {
      status, value := answer(|calls|).status, answer(|calls|).value;
      calls := calls + [Call(cmd, arg)];
    }
  }
}
