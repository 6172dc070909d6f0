/** The XMODEM-1K receive loop over a scripted line (src/dev/xmodem_dw_uart.c). */
module Xmodem {
  import opened Bits
  import opened Checksum
  import opened XmodemSpec
  import opened XmodemSafety

  /** The line: what the next read attempts will see, and what has been sent. */
  class Uart {
    var rx: seq<Got>
    var tx: seq<byte>

    constructor (script: seq<Got>)
      ensures rx == script && tx == []
    {
      rx := script;
      tx := [];
    }

    method Putc(b: byte)
      modifies this`tx
      ensures tx == old(tx) + [b]
    {
      tx := tx + [b];
    }

    /** uart_getc_timeout */
    method Getc() returns (c: Got)
      modifies this`rx
      ensures c == Head(old(rx)) && rx == Tail(old(rx))
    {
      if rx == [] {
        c := Timeout;
      } else {
        c := rx[0];
        rx := rx[1..];
      }
    }
  }

  method ReadData(uart: Uart, buf: array<byte>, n: nat) returns (ok: bool)
    requires n <= buf.Length
    modifies uart`rx, buf
    ensures ok == Ready(old(uart.rx), n)
    ensures ok ==> uart.rx == old(uart.rx)[n..] && buf[..n] == Bytes(old(uart.rx), n)
  {
    ghost var script := uart.rx;
    for i := 0 to n
      invariant Ready(script, i) && uart.rx == script[i..] && buf[..i] == Bytes(script, i)
    {
      var ch := uart.Getc();
      if ch == Timeout {
        return false;
      }
      buf[i] := ch.b;
    }
    return true;
  }

  /** How reading a block ended; its data is in the buffer. */
  datatype Ended = Dead | Refused | Complete(blk: byte, crc: bv16)

  ghost predicate Agrees(e: Ended, r: Read, buf: seq<byte>) {
    match r
    case Silent => e == Dead
    case BadHeader => e == Refused
    case Block(blk, data, crc) => e == Complete(blk, crc) && data <= buf
  }

  /** Two characters read one after the other. */
  lemma TwoReady(rx: seq<Got>)
    ensures Ready(rx, 2) <==> Head(rx) != Timeout && Head(Tail(rx)) != Timeout
    ensures Ready(rx, 2) ==>
      |rx| >= 2 && rx[0].Char? && rx[1].Char? && Head(rx) == rx[0] && Head(Tail(rx)) == rx[1] && Tail(Tail(rx)) == rx[2..]
  {
  }

  /** Header, data and checksum of a block of n bytes. */
  method ReadBlock(uart: Uart, buf: array<byte>, n: nat) returns (e: Ended)
    requires n <= buf.Length
    modifies uart`rx, buf
    ensures Agrees(e, Parse(old(uart.rx), n), buf[..])
    ensures e == Refused ==> 2 <= |old(uart.rx)| && uart.rx == old(uart.rx)[2..]
    ensures e.Complete? ==> n + 4 <= |old(uart.rx)| && uart.rx == old(uart.rx)[n + 4..]
  {
    hide Join, HeaderOk, Head, Tail, Bytes;
    ghost var rx := uart.rx;
    TwoReady(rx);
    var b1 := uart.Getc();
    var b2 := uart.Getc();
    if b1 == Timeout || b2 == Timeout {
      return Dead;
    }
    if !HeaderOk(b1.b, b2.b) {
      return Refused;
    }
    var ok := ReadData(uart, buf, n);
    if !ok {
      return Dead;
    }
    assert uart.rx == rx[n + 2..];
    TwoReady(uart.rx);
    var hi := uart.Getc();
    var lo := uart.Getc();
    if hi == Timeout || lo == Timeout {
      return Dead;
    }
    e := Complete(b1.b, Join(hi.b, lo.b));
  }

  /** What was sent already, and what a continuation sends. */
  ghost function After(sent: seq<byte>, o: Outcome): Outcome { o.(tx := sent + o.tx) }

  lemma AfterSay(sent: seq<byte>, b: byte, o: Outcome)
    ensures After(sent, Say(b, o)) == After(sent + [b], o)
  {
    assert sent + ([b] + o.tx) == sent + [b] + o.tx;
  }

  /** A step of the loop from receiver r reads rx, sends `sent` and goes on as receiver r2
      with the rest of the line. */
  ghost predicate GoesOn(r: Receiver, start: byte, rx: seq<Got>, maxLen: nat, sent: seq<byte>, r2: Receiver, rest: seq<Got>) {
    Loop(r, Char(start), rx, maxLen) == After(sent, LoopOn(r2, rest, maxLen)) && |rest| < |rx|
  }

  /** target_write */
  method TargetWrite(dst: array<byte>, at: nat, buf: array<byte>, n: nat)
    requires at + n <= dst.Length && n <= buf.Length && dst != buf
    modifies dst
    ensures dst[..at + n] == old(dst[..at]) + buf[..n] && dst[at + n..] == old(dst[at + n..])
  {
    forall i | 0 <= i < n {
      dst[at + i] := buf[i];
    }
  }

  /** The expected block, intact: stored, or the transfer cancelled when it is too much. */
  method Accept(uart: Uart, buf: array<byte>, n: nat, dst: array<byte>, maxLen: nat, expected: byte, offset: nat)
    returns (alive: bool, expected': byte, offset': nat, ghost sent: seq<byte>)
    requires n <= buf.Length && buf != dst && offset <= maxLen <= dst.Length
    modifies uart`tx, dst
    ensures uart.tx == old(uart.tx) + sent && alive == (offset + n <= maxLen)
    ensures alive ==> sent == [ACK] && expected' == expected + 1 && offset' == offset + n
    ensures alive ==> dst[..offset'] == old(dst[..offset]) + buf[..n] && dst[offset'..] == old(dst[offset'..])
    ensures !alive ==> sent == [CAN, CAN] && offset' == offset && dst[..] == old(dst[..])
  {
    if offset + n > maxLen {
      uart.Putc(CAN);
      uart.Putc(CAN);
      return false, expected, offset, [CAN, CAN];
    }
    TargetWrite(dst, offset, buf, n);
    uart.Putc(ACK);
    return true, expected + 1, offset + n, [ACK];
  }

  /** A complete block: answered, and stored if it is the expected one. */
  method Answer(uart: Uart, buf: array<byte>, n: nat, dst: array<byte>, maxLen: nat, blk: byte, crc: bv16, expected: byte, offset: nat)
    returns (alive: bool, expected': byte, offset': nat, ghost sent: seq<byte>)
    requires n <= buf.Length && buf != dst && offset <= maxLen <= dst.Length
    modifies uart`tx, dst
    ensures offset <= offset' <= maxLen && uart.tx == old(uart.tx) + sent && dst[offset'..] == old(dst[offset'..])
    ensures
      match React(Receiver(expected, old(dst[..offset])), blk, buf[..n], crc, maxLen)
      case Reply(b, r) => alive && sent == [b] && r == Receiver(expected', dst[..offset'])
      case Overflow => !alive && sent == [CAN, CAN] && offset' == offset && dst[..offset] == old(dst[..offset])
  {
    hide Crc;
    if blk != expected {
      var reply := if blk == expected - 1 then ACK else NAK;
      uart.Putc(reply);
      return true, expected, offset, [reply];
    }
    var crcCalc := Crc16(buf[..n]);
    if crcCalc != crc {
      uart.Putc(NAK);
      return true, expected, offset, [NAK];
    }
    alive, expected', offset', sent := Accept(uart, buf, n, dst, maxLen, expected, offset);
  }

  /** Everything after a start byte. */
  method HandleBlock(uart: Uart, buf: array<byte>, dst: array<byte>, maxLen: nat, start: byte, expected: byte, offset: nat)
    returns (alive: bool, expected': byte, offset': nat, ghost sent: seq<byte>)
    requires buf.Length == 1024 && buf != dst && offset <= maxLen <= dst.Length && (start == SOH || start == STX)
    modifies uart, buf, dst
    ensures offset <= offset' <= maxLen && uart.tx == old(uart.tx) + sent && dst[offset'..] == old(dst[offset'..])
    ensures alive ==> GoesOn(Receiver(expected, old(dst[..offset])), start, old(uart.rx), maxLen, sent, Receiver(expected', dst[..offset']), uart.rx)
    ensures !alive ==> Loop(Receiver(expected, old(dst[..offset])), Char(start), old(uart.rx), maxLen) == Outcome(-1, sent, dst[..offset'])
  {
    hide Parse, React;
    var n := if start == SOH then 128 else 1024;
    ParsedLength(uart.rx, n);
    var e := ReadBlock(uart, buf, n);
    if !e.Complete? {
      uart.Putc(NAK);
      return e == Refused, expected, offset, [NAK];
    }
    assert buf[..n] == Parse(old(uart.rx), n).data;
    alive, expected', offset', sent := Answer(uart, buf, n, dst, maxLen, e.blk, e.crc, expected, offset);
  }

  /** Asking with 'C' until something arrives. */
  method Ask(uart: Uart, maxLen: nat) returns (c: Got, ghost sent: seq<byte>)
    modifies uart
    ensures uart.tx == old(uart.tx) + sent
    ensures
      var o := Start(old(uart.rx), maxLen, MAX_INIT_RETRIES);
      o == if c == Timeout then Outcome(-1, sent, []) else After(sent, Loop(Receiver(1, []), c, uart.rx, maxLen))
  {
    ghost var goal := Start(uart.rx, maxLen, MAX_INIT_RETRIES);
    sent := [];
    for i := 0 to MAX_INIT_RETRIES
      invariant uart.tx == old(uart.tx) + sent && goal == After(sent, Start(uart.rx, maxLen, MAX_INIT_RETRIES - i))
    {
      uart.Putc(CHAR_C);
      c := uart.Getc();
      AfterSay(sent, CHAR_C, if c == Timeout then Start(uart.rx, maxLen, MAX_INIT_RETRIES - i - 1)
                             else Loop(Receiver(1, []), c, uart.rx, maxLen));
      sent := sent + [CHAR_C];
      if c != Timeout {
        return;
      }
    }
    c := Timeout;
  }

  /** The main loop, from character c on; `goal` is the outcome to reach, `before` what was
      sent already. */
  method MainLoop(uart: Uart, dst: array<byte>, maxLen: nat, first: Got, ghost goal: Outcome, ghost before: seq<byte>)
    returns (r: int, ghost sent: seq<byte>, ghost stored: nat)
    requires maxLen <= dst.Length && goal == After(before, Loop(Receiver(1, []), first, uart.rx, maxLen))
    modifies uart, dst
    ensures stored <= maxLen && uart.tx == old(uart.tx) + sent && dst[stored..] == old(dst[stored..])
    ensures goal == Outcome(r, before + sent, dst[..stored])
  {
    hide Loop;
    var buf := new byte[1024];
    var c, expected: byte, offset: nat := first, 1, 0;
    sent := [];
    assert dst[..0] == [];
    while true
      invariant offset <= maxLen && uart.tx == old(uart.tx) + sent && dst[offset..] == old(dst[offset..])
      invariant goal == After(before + sent, Loop(Receiver(expected, dst[..offset]), c, uart.rx, maxLen))
      decreases |uart.rx|, c.Char?
    {
      stored := offset;
      if c == Char(EOT) || c == Char(CAN) {
        LoopEnds(Receiver(expected, dst[..offset]), c, uart.rx, maxLen);
        if c == Char(CAN) {
          return -1, sent, offset;
        }
        uart.Putc(ACK);
        return offset, sent + [ACK], offset;
      } else if c == Char(SOH) || c == Char(STX) {
        var alive;
        ghost var more;
        ghost var was, bytes, at := sent, dst[..], offset;
        alive, expected, offset, more := HandleBlock(uart, buf, dst, maxLen, c.b, expected, offset);
        SuffixKept(old(dst[..]), bytes, dst[..], at, offset);
        sent := sent + more;
        assert before + was + more == before + sent;
        if !alive {
          return -1, sent, offset;
        }
        c := uart.Getc();
      } else {
        LoopSkips(Receiver(expected, dst[..offset]), c, uart.rx, maxLen);
        c := uart.Getc();
        if c == Timeout {
          uart.Putc(CAN);
          uart.Putc(CAN);
          return -1, sent + [CAN, CAN], offset;
        }
      }
    }
  }

  lemma SuffixKept(a: seq<byte>, b: seq<byte>, c: seq<byte>, at: nat, at2: nat)
    requires at <= at2 <= |a| == |b| == |c| && b[at..] == a[at..] && c[at2..] == b[at2..]
    ensures c[at2..] == a[at2..]
  {
    assert b[at2..] == b[at..][at2 - at..] && a[at2..] == a[at..][at2 - at..];
  }

  lemma LoopEnds(r: Receiver, c: Got, rx: seq<Got>, maxLen: nat)
    requires c == Char(EOT) || c == Char(CAN)
    ensures Loop(r, c, rx, maxLen) == if c == Char(EOT) then Outcome(|r.data|, [ACK], r.data) else Outcome(-1, [], r.data)
  {
  }

  lemma LoopSkips(r: Receiver, c: Got, rx: seq<Got>, maxLen: nat)
    requires c != Char(EOT) && c != Char(CAN) && c != Char(SOH) && c != Char(STX)
    ensures Loop(r, c, rx, maxLen) == if Head(rx) == Timeout then Outcome(-1, [CAN, CAN], r.data) else Loop(r, Head(rx), Tail(rx), maxLen)
  {
  }

  /** xmodem_receive_1k.  The first clause says what it does with any line at all, the last
      what that means when the line carries a sender's transmissions. */
  method Receive(uart: Uart, dst: array<byte>, maxLen: nat) returns (r: int)
    requires maxLen <= dst.Length
    modifies uart, dst
    ensures
      var o := Start(old(uart.rx), maxLen, MAX_INIT_RETRIES);
      && r == o.result && uart.tx == old(uart.tx) + o.tx
      && |o.data| <= maxLen && dst[..|o.data|] == o.data && dst[|o.data|..] == old(dst[|o.data|..])
    ensures forall p: seq<seq<byte>>, tries: seq<Try>, last: nat :: File(p) && old(uart.rx) == Wire(p, INITIAL, tries, last, maxLen) ==>
      && (r >= 0 <==> Delivered(p, tries, last, maxLen)) && (r >= 0 ==> r == |Concat(p)| <= maxLen && dst[..r] == Concat(p))
      && uart.tx == old(uart.tx) + Transcript(p, tries, last, maxLen)
  {
    hide Loop, Start, Transcript, Delivered, Wire;
    ghost var script := uart.rx;
    ghost var goal := Start(script, maxLen, MAX_INIT_RETRIES);
    ghost var before, sent, stored;
    var c;
    c, before := Ask(uart, maxLen);
    if c == Timeout {
      r, stored := -1, 0;
      assert dst[..0] == [];
    } else {
      r, sent, stored := MainLoop(uart, dst, maxLen, c, goal, before);
    }
    forall p: seq<seq<byte>>, tries: seq<Try>, last: nat | File(p) && script == Wire(p, INITIAL, tries, last, maxLen)
      ensures (r >= 0 <==> Delivered(p, tries, last, maxLen)) && (r >= 0 ==> r == |Concat(p)| <= maxLen && dst[..r] == Concat(p))
      ensures goal.tx == Transcript(p, tries, last, maxLen)
    {
      TransferSafe(p, tries, last, maxLen);
    }
  }
}
