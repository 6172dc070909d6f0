/** The XMODEM-1K receiver as a function of what arrives (src/dev/xmodem_dw_uart.c,
    xmodem_receive_1k), and its safety against a stop-and-wait sender. */
module XmodemSpec {
  import opened Bits
  import opened Checksum

  const SOH: byte := 0x01
  const STX: byte := 0x02
  const EOT: byte := 0x04
  const ACK: byte := 0x06
  const NAK: byte := 0x15
  const CAN: byte := 0x18
  const CHAR_C: byte := 0x43
  const MAX_INIT_RETRIES: nat := 16

  /** One attempt to read a character: a byte, or nothing within the time limit. */
  datatype Got = Timeout | Char(b: byte)

  /** The line falls silent where the script ends. */
  function Head(rx: seq<Got>): Got { if rx == [] then Timeout else rx[0] }
  function Tail(rx: seq<Got>): seq<Got> { if rx == [] then [] else rx[1..] }

  /** Every one of the next n attempts yields a byte. */
  predicate Ready(rx: seq<Got>, n: nat) { n <= |rx| && forall i :: 0 <= i < n ==> rx[i].Char? }

  function Bytes(rx: seq<Got>, n: nat): (r: seq<byte>)
    requires Ready(rx, n)
    ensures |r| == n
  {
    seq(n, i requires 0 <= i < n => rx[i].b)
  }

  /** What follows a start byte: silence, a bad header, or a complete block. */
  datatype Read = Silent | BadHeader | Block(blk: byte, data: seq<byte>, crc: bv16)

  /** The second header byte is the complement of the first. */
  predicate HeaderOk(blk: byte, comp: byte) { blk + comp == 0xFF }

  function Parse(rx: seq<Got>, n: nat): Read {
    if !Ready(rx, 2) then Silent
    else if !HeaderOk(rx[0].b, rx[1].b) then BadHeader
    else if !Ready(rx[2..], n) then Silent
    else if !Ready(rx[n + 2..], 2) then Silent
    else Block(rx[0].b, Bytes(rx[2..], n), Join(rx[n + 2].b, rx[n + 3].b))
  }

  lemma ParsedLength(rx: seq<Got>, n: nat)
    ensures Parse(rx, n).BadHeader? ==> |rx| >= 2
    ensures Parse(rx, n).Block? ==> |rx| >= n + 4 && |Parse(rx, n).data| == n
  {
  }

  /** The next block number and what has been stored. */
  datatype Receiver = Receiver(expected: byte, data: seq<byte>)

  /** What a run sends, stores and returns. */
  datatype Outcome = Outcome(result: int, tx: seq<byte>, data: seq<byte>)

  function Say(b: byte, o: Outcome): Outcome { o.(tx := [b] + o.tx) }

  function Join(hi: byte, lo: byte): bv16 { High(hi) | (lo as bv16) }

  datatype Reaction = Reply(b: byte, r: Receiver) | Overflow

  /** A complete block with a valid header. */
  function React(r: Receiver, blk: byte, data: seq<byte>, crc: bv16, maxLen: nat): Reaction {
    if blk != r.expected then
      if blk == r.expected - 1 then Reply(ACK, r) else Reply(NAK, r)
    else if Crc(0, data) != crc then Reply(NAK, r)
    else if |r.data| + |data| <= maxLen then Reply(ACK, Receiver(r.expected + 1, r.data + data))
    else Overflow
  }

  function Size(c: byte): nat { if c == SOH then 128 else 1024 }

  /** The main loop, from character c on. */
  function Loop(r: Receiver, c: Got, rx: seq<Got>, maxLen: nat): Outcome
    decreases |rx|, c.Char?
  {
    if c == Char(EOT) then Outcome(|r.data|, [ACK], r.data)
    else if c == Char(CAN) then Outcome(-1, [], r.data)
    else if c == Char(SOH) || c == Char(STX) then
      var n := Size(c.b);
      ParsedLength(rx, n);
      match Parse(rx, n)
      case Silent => Outcome(-1, [NAK], r.data)
      case BadHeader => Say(NAK, Loop(r, Head(rx[2..]), Tail(rx[2..]), maxLen))
      case Block(blk, data, crc) =>
        var rest := rx[n + 4..];
        match React(r, blk, data, crc, maxLen)
        case Reply(b, r') => Say(b, Loop(r', Head(rest), Tail(rest), maxLen))
        case Overflow => Outcome(-1, [CAN, CAN], r.data)
    else if Head(rx) == Timeout then Outcome(-1, [CAN, CAN], r.data)
    else Loop(r, Head(rx), Tail(rx), maxLen)
  }

  /** Asking for the first block, up to the given number of times. */
  function Start(rx: seq<Got>, maxLen: nat, tries: nat): Outcome
    decreases tries
  {
    if tries == 0 then Outcome(-1, [], [])
    else if Head(rx).Char? then Say(CHAR_C, Loop(Receiver(1, []), Head(rx), Tail(rx), maxLen))
    else Say(CHAR_C, Start(Tail(rx), maxLen, tries - 1))
  }
}
