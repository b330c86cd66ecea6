/**
 * The ICMP Echo Request that every probe sends: the message fields of the
 * "Echo or Echo Reply Message" of RFC 792 (type 8 for a request, 0 for a
 * reply, code 0, a 16-bit identifier and a sequence number, opaque data).
 * The wire encoding and its checksum are not part of this model.
 */
module Icmp {

  newtype byte = x: int | 0 <= x < 0x100

  /** IP protocol number of ICMP for IPv4, handed to the reply parser. */
  const PROTOCOL_ICMP: int := 1

  /** The text every request carries as its data. */
  const ECHO_MESSAGE: string := "hello-from-goping"

  /** ICMPv4 message types (RFC 792): Echo Reply and Echo Request. */
  const ECHO_REPLY: byte := 0
  const ECHO_REQUEST: byte := 8

  /** The body of an Echo message. */
  datatype Echo = Echo(id: int, sequence: int, data: seq<byte>)

  /** An ICMP message together with its Echo body. */
  datatype Message = Message(msgType: byte, code: byte, body: Echo)

  predicate IsAscii(s: string)
  {
    forall i :: 0 <= i < |s| ==> s[i] < 128 as char
  }

  /** The bytes of a string of ASCII characters, one byte per character. */
  function AsciiBytes(s: string): (b: seq<byte>)
    requires IsAscii(s)
    ensures |b| == |s|
  {
    seq(|s|, i requires 0 <= i < |s| => s[i] as int as byte)
  }

  /** The characters that a sequence of bytes stands for, one per byte. */
  function BytesText(b: seq<byte>): (s: string)
    ensures |s| == |b|
  {
    seq(|b|, i requires 0 <= i < |b| => b[i] as int as char)
  }

  /** Decoding the bytes of an ASCII string gives the string back. */
  lemma AsciiRoundTrip(s: string)
    requires IsAscii(s)
    ensures BytesText(AsciiBytes(s)) == s
  {
  }

  /** The request data: the bytes of ECHO_MESSAGE, written out. */
  const ECHO_PAYLOAD: seq<byte> := [104, 101, 108, 108, 111, 45, 102, 114, 111, 109, 45, 103, 111, 112, 105, 110, 103]

  /**
   * The identifier of the requests of process `pid`: its low 16 bits, as
   * `pid & 0xffff` computes them on two's-complement integers. Dafny's `%`
   * is Euclidean, so this also holds for a negative `pid`.
   */
  function Identifier(pid: int): (id: int)
    ensures 0 <= id <= 0xffff
  {
    pid % 0x1_0000
  }

  /** A process identifier that already fits in 16 bits is its own identifier. */
  lemma IdentifierOfSmallPid(pid: int)
    requires 0 <= pid <= 0xffff
    ensures Identifier(pid) == pid
  {
  }

  /** Identifiers of processes 65536 apart coincide; only the low 16 bits matter. */
  lemma IdentifierPeriodic(pid: int, k: int)
    ensures Identifier(pid + k * 0x1_0000) == Identifier(pid)
  {
  }

  /** The Echo Request of probe `sequence`, sent by process `pid`. */
  function NewMsg(sequence: int, pid: int): (m: Message)
    ensures m.msgType == ECHO_REQUEST && m.code == 0
    ensures m.body.sequence == sequence && 0 <= m.body.id <= 0xffff
  {
    Message(ECHO_REQUEST, 0, Echo(Identifier(pid), sequence, ECHO_PAYLOAD))
  }

  /**
   * A request is an Echo Request (type 8, code 0) carrying the given
   * sequence number, a 16-bit identifier equal to the process identifier
   * modulo 65536, and the 17 bytes of the text "hello-from-goping".
   */
  lemma NewMsgIsEchoRequest(sequence: int, pid: int)
    ensures NewMsg(sequence, pid).msgType == ECHO_REQUEST == 8
    ensures NewMsg(sequence, pid).code == 0
    ensures NewMsg(sequence, pid).body.sequence == sequence
    ensures 0 <= NewMsg(sequence, pid).body.id <= 0xffff
    ensures NewMsg(sequence, pid).body.id == pid - (pid / 0x1_0000) * 0x1_0000
    ensures NewMsg(sequence, pid).body.data == ECHO_PAYLOAD
  {
  }

  /** The request data is the 17 bytes of ECHO_MESSAGE and decodes back to that text. */
  lemma EchoPayloadIsMessage()
    ensures |ECHO_PAYLOAD| == |ECHO_MESSAGE| == 17
    ensures ECHO_PAYLOAD == AsciiBytes(ECHO_MESSAGE)
    ensures BytesText(ECHO_PAYLOAD) == ECHO_MESSAGE
  {
    AsciiRoundTrip(ECHO_MESSAGE);
  }

  /** Two requests of one process differ exactly when their sequence numbers do. */
  lemma NewMsgDistinguishesProbes(a: int, b: int, pid: int)
    ensures NewMsg(a, pid) == NewMsg(b, pid) <==> a == b
  {
  }
}
