/**
  DNS messages and answers as the forwarder's own code sees them. The wire codec is not modelled:
  serialising a message and parsing it again gives the same message.
 */
module Messages {
  import opened Prelude

  const OPCODE_QUERY := 0
  const CLASS_IN := 1
  const NOERROR := 0
  const FORMERR := 1
  const SERVFAIL := 2
  const NXDOMAIN := 3
  const TYPE_CNAME := 5
  const TYPE_OPT := 41
  const TYPE_HTTPS := 65
  const TYPE_TSIG := 250

  datatype Question = Question(name: string, rdtype: nat, rdclass: nat)
  datatype RRset = RRset(name: string, rdtype: nat, rdclass: nat, ttl: int, rdatas: seq<string>)
  datatype Message = Message(
    id: nat, opcode: nat, rcode: nat, question: seq<Question>,
    answer: seq<RRset>, authority: seq<RRset>, additional: seq<RRset>)

  /** A resolver answer: the query it belongs to, its response, and the rrset selected from it. */
  datatype Answer = Answer(
    qname: string, rdtype: nat, rdclass: nat, response: Message, rrset: Option<RRset>, expiration: real)

  /** A copy of the response that carries the request's id. */
  function CloneFor(response: Message, request: Message): (m: Message)
    ensures m.id == request.id && m.(id := response.id) == response
  {
    response.(id := request.id)
  }

  function ErrorResponse(request: Message, rcode: nat): (m: Message)
    ensures m.id == request.id && m.rcode == rcode && m.question == request.question && m.opcode == request.opcode
    ensures m.answer == m.authority == m.additional == []
  {
    Message(request.id, request.opcode, rcode, request.question, [], [], [])
  }
}
