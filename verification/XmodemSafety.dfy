/** The receiver against a stop-and-wait sender, over a channel that may damage payloads,
    lose replies and fall silent between frames, but keeps frame boundaries
    (src/dev/xmodem_dw_uart.c, xmodem_receive_1k). */
module XmodemSafety {
  import opened Bits
  import opened Checksum
  import opened XmodemSpec

  // ---------------------------------------------------------------- frames

  function Chars(s: seq<byte>): (r: seq<Got>)
    ensures |r| == |s| && forall i :: 0 <= i < |s| ==> r[i] == Char(s[i])
  {
    seq(|s|, i requires 0 <= i < |s| => Char(s[i]))
  }

  function Kind(n: nat): byte { if n == 128 then SOH else STX }

  function Upper(crc: bv16): byte { (crc >> 8) as byte }
  function Lower(crc: bv16): byte { (crc & 0xFF) as byte }

  lemma JoinSplit(crc: bv16)
    ensures Join(Upper(crc), Lower(crc)) == crc
  {
  }

  lemma Complement(blk: byte)
    ensures HeaderOk(blk, 0xFF - blk)
  {
  }

  /** Payload and checksum as they follow one another on the wire. */
  function Sealed(data: seq<byte>, crc: bv16): seq<byte> { data + [Upper(crc), Lower(crc)] }

  /** Header, payload and checksum on the wire. */
  function Frame(blk: byte, data: seq<byte>, crc: bv16): seq<Got> {
    Chars([Kind(|data|), blk, 0xFF - blk] + Sealed(data, crc))
  }

  function LoopOn(r: Receiver, script: seq<Got>, maxLen: nat): Outcome { Loop(r, Head(script), Tail(script), maxLen) }

  lemma BytesParsed(bytes: seq<byte>, data: seq<byte>, rest: seq<Got>)
    requires |bytes| == |data| + 5 && bytes[3..|data| + 3] == data && HeaderOk(bytes[1], bytes[2])
    ensures
      var (n, script) := (|data|, Chars(bytes) + rest);
      && Head(script) == Char(bytes[0])
      && Parse(Tail(script), n) == Block(bytes[1], data, Join(bytes[n + 3], bytes[n + 4])) && Tail(script)[n + 4..] == rest
  {
    hide Join, HeaderOk;
    var n := |data|;
    var rx := Tail(Chars(bytes) + rest);
    assert forall i :: 0 <= i < n + 4 ==> rx[i] == Char(bytes[i + 1]);
    assert forall i :: 0 <= i < n ==> rx[2..][i] == Char(bytes[3..n + 3][i]);
    assert Bytes(rx[2..], n) == data;
    assert rx[n + 4..] == rest;
  }

  /** A frame is read back as the block it carries. */
  lemma FrameParsed(blk: byte, data: seq<byte>, crc: bv16, rest: seq<Got>)
    requires |data| == 128 || |data| == 1024
    ensures
      var script := Frame(blk, data, crc) + rest;
      && |script| >= |data| + 5 && Head(script) == Char(Kind(|data|))
      && Parse(Tail(script), |data|) == Block(blk, data, crc) && Tail(script)[|data| + 4..] == rest
  {
    hide Upper, Lower, Join, HeaderOk, Kind, Sealed, Parse, Chars, Head, Tail;
    var bytes := [Kind(|data|), blk, 0xFF - blk] + Sealed(data, crc);
    FrameBytes(Kind(|data|), blk, 0xFF - blk, data, crc);
    Complement(blk);
    JoinSplit(crc);
    BytesParsed(bytes, data, rest);
  }

  lemma FrameBytes(kind: byte, blk: byte, comp: byte, data: seq<byte>, crc: bv16)
    ensures
      var (n, bytes) := (|data|, [kind, blk, comp] + Sealed(data, crc));
      && |bytes| == n + 5 && bytes[0] == kind && bytes[1] == blk && bytes[2] == comp
      && bytes[3..n + 3] == data && bytes[n + 3] == Upper(crc) && bytes[n + 4] == Lower(crc)
  {
    hide Upper, Lower;
  }

  /** A header whose two bytes do not belong together is refused, with whatever follows
      them still to be read. */
  lemma BadHeaderRefused(r: Receiver, kind: byte, blk: byte, comp: byte, rest: seq<Got>, maxLen: nat)
    requires (kind == SOH || kind == STX) && comp != 0xFF - blk
    ensures LoopOn(r, Chars([kind, blk, comp]) + rest, maxLen) == Say(NAK, LoopOn(r, rest, maxLen))
  {
    OnlyComplement(blk, comp);
    var rx := Tail(Chars([kind, blk, comp]) + rest);
    assert rx[0] == Char(blk) && rx[1] == Char(comp) && rx[2..] == rest;
    hide HeaderOk;
  }

  lemma OnlyComplement(blk: byte, comp: byte)
    ensures HeaderOk(blk, comp) <==> comp == 0xFF - blk
  {
  }

  /** A block that is neither the expected one nor the one before is refused and not stored. */
  lemma ForeignRefused(r: Receiver, blk: byte, data: seq<byte>, crc: bv16, rest: seq<Got>, maxLen: nat)
    requires (|data| == 128 || |data| == 1024) && blk != r.expected && blk != r.expected - 1
    ensures LoopOn(r, Frame(blk, data, crc) + rest, maxLen) == Say(NAK, LoopOn(r, rest, maxLen))
  {
    FrameStep(r, blk, data, crc, rest, maxLen);
    hide Frame, Loop;
  }

  /** A frame of a block with a good header gets exactly one reply. */
  lemma FrameStep(r: Receiver, blk: byte, data: seq<byte>, crc: bv16, rest: seq<Got>, maxLen: nat)
    requires |data| == 128 || |data| == 1024
    ensures LoopOn(r, Frame(blk, data, crc) + rest, maxLen)
         == match React(r, blk, data, crc, maxLen)
            case Reply(b, r') => Say(b, LoopOn(r', rest, maxLen))
            case Overflow => Outcome(-1, [CAN, CAN], r.data)
  {
    FrameParsed(blk, data, crc, rest);
    hide Parse, Frame, React;
    assert Size(Kind(|data|)) == |data|;
  }

  /** A frame that falls silent anywhere after its first byte is answered NAK and ends the
      transfer, what was stored before it kept. */
  lemma CutFrame(r: Receiver, blk: byte, data: seq<byte>, crc: bv16, n: nat, rest: seq<Got>, maxLen: nat)
    requires (|data| == 128 || |data| == 1024) && 1 <= n < |data| + 5
    ensures |Frame(blk, data, crc)| == |data| + 5
    ensures LoopOn(r, Frame(blk, data, crc)[..n] + [Timeout] + rest, maxLen) == Outcome(-1, [NAK], r.data)
  {
    hide Upper, Lower, Join, HeaderOk, Loop;
    var script := Frame(blk, data, crc)[..n] + [Timeout] + rest;
    var rx := Tail(script);
    Complement(blk);
    assert rx[n - 1] == Timeout && Head(script) == Char(Kind(|data|));
    if n >= 3 { assert rx[0] == Char(blk) && rx[1] == Char(0xFF - blk); }
    CutParse(rx, |data|, n - 1, blk);
    EndsSilent(r, Kind(|data|), rx, maxLen);
  }

  lemma CutParse(rx: seq<Got>, n: nat, at: nat, blk: byte)
    requires at < |rx| && at < n + 4 && rx[at] == Timeout
    requires at >= 2 ==> rx[0] == Char(blk) && rx[1] == Char(0xFF - blk) && HeaderOk(blk, 0xFF - blk)
    ensures Parse(rx, n) == Silent
  {
    hide HeaderOk, Join;
    if at >= 2 && at < n + 2 { assert rx[2..][at - 2] == Timeout; }
    if at >= n + 2 && |rx| >= n + 2 { assert rx[n + 2..][at - n - 2] == Timeout; }
  }

  lemma EndsSilent(r: Receiver, kind: byte, rx: seq<Got>, maxLen: nat)
    requires (kind == SOH || kind == STX) && Parse(rx, Size(kind)) == Silent
    ensures Loop(r, Char(kind), rx, maxLen) == Outcome(-1, [NAK], r.data)
  {
    hide Parse, React;
  }

  /** Bytes that start nothing are skipped between frames; a CAN ends the transfer without an
      answer. */
  lemma BetweenFrames(r: Receiver, b: byte, script: seq<Got>, maxLen: nat)
    requires Head(script).Char? && b !in {SOH, STX, EOT}
    ensures LoopOn(r, [Char(b)] + script, maxLen) == if b == CAN then Outcome(-1, [], r.data) else LoopOn(r, script, maxLen)
  {
    hide Parse, React;
    assert ([Char(b)] + script)[1..] == script;
  }

  // ---------------------------------------------------------------- sender and channel

  /** One transmission: the read attempts that find nothing before it, what the channel does
      to payload and checksum, and whether the reply gets lost. */
  datatype Try = Try(gap: nat, noise: seq<byte>, check: bv16, replyLost: bool)

  /** Payload and checksum arrive as anything of the right length that does not agree; else
      as the sender's. */
  predicate Damaged(block: seq<byte>, t: Try) { |t.noise| == |block| && Crc(0, t.noise) != t.check }

  function Arrives(block: seq<byte>, t: Try): (r: seq<byte>)
    ensures |r| == |block|
  {
    if Damaged(block, t) then t.noise else block
  }

  function ArrivesCrc(block: seq<byte>, t: Try): bv16 { if Damaged(block, t) then t.check else Crc(0, block) }

  lemma AcceptedIsSent(block: seq<byte>, t: Try)
    ensures Crc(0, Arrives(block, t)) == ArrivesCrc(block, t) <==> !Damaged(block, t)
    ensures !Damaged(block, t) ==> Arrives(block, t) == block && ArrivesCrc(block, t) == Crc(0, block)
  {
  }

  /** Number of block k, counting blocks from 0 and numbers from 1, in eight bits. */
  function Num(k: nat): byte { if k == 0 then 1 else Num(k - 1) + 1 }

  /** Blocks the sender knows were received, and the receiver. */
  datatype System = System(k: nat, r: Receiver)

  datatype Next = Going(s: System) | Cancelled

  predicate File(p: seq<seq<byte>>) { forall i :: 0 <= i < |p| ==> |p[i]| == 128 || |p[i]| == 1024 }

  /** What a reply tells the sender; one that gets lost, or is none of the three, leaves it
      waiting, and it repeats the block. */
  datatype Order = MoveOn | Repeat | GiveUp

  function Meaning(b: byte): Order { if b == ACK then MoveOn else if b == CAN then GiveUp else Repeat }

  function Heeds(b: byte, lost: bool): Order { if lost then Repeat else Meaning(b) }

  /** The sender transmits the block it is at and does what the reply says. */
  function Step(p: seq<seq<byte>>, s: System, t: Try, maxLen: nat): Next
    requires s.k < |p|
  {
    match React(s.r, Num(s.k), Arrives(p[s.k], t), ArrivesCrc(p[s.k], t), maxLen)
    case Reply(b, r') => (
      match Heeds(b, t.replyLost)
      case MoveOn => Going(System(s.k + 1, r'))
      case Repeat => Going(System(s.k, r'))
      case GiveUp => Cancelled)
    case Overflow => Cancelled
  }

  function Concat(p: seq<seq<byte>>): seq<byte> { if p == [] then [] else Concat(p[..|p| - 1]) + p[|p| - 1] }

  /** The receiver holds the first j payloads and expects the next; the sender knows of all
      of them or of all but the last. */
  predicate Synced(p: seq<seq<byte>>, s: System, j: nat, maxLen: nat) {
    s.k <= j <= s.k + 1 && j <= |p| && s.r.expected == Num(j) && s.r.data == Concat(p[..j]) && |s.r.data| <= maxLen
  }

  function Value(b: byte): nat { b as int }

  /** The block number is k + 1 modulo 256, for files of any length. */
  lemma {:induction false} NumModular(k: nat)
    ensures Value(Num(k)) == (k + 1) % 256
  {
    if k > 0 {
      hide Value, Num;
      NumModular(k - 1);
      NextValue(k - 1);
      ModNext(k);
    } else {
      FirstNumber();
    }
  }

  lemma NextValue(k: nat)
    ensures Value(Num(k + 1)) == (Value(Num(k)) + 1) % 256
  {
    NumNext(k);
    hide Value, Num;
    Increment(Num(k));
  }

  lemma ModNext(k: nat)
    ensures (k % 256 + 1) % 256 == (k + 1) % 256
  {
  }

  lemma FirstNumber()
    ensures Value(Num(0)) == 1
  {
  }

  lemma Increment(b: byte)
    ensures Value(b + 1) == (Value(b) + 1) % 256
  {
    if b < 0xFF { NoCarry(b); } else { Carry(); }
    ValueFits(b);
    hide Value;
  }

  lemma NoCarry(b: byte)
    requires b < 0xFF
    ensures Value(b + 1) == Value(b) + 1 < 256
  {
  }

  lemma Carry()
    ensures Value(0xFF) == 255 && Value(0) == 0
  {
  }

  lemma ValueFits(b: byte)
    ensures Value(b) < 256
  {
  }

  lemma NumNext(k: nat)
    ensures Num(k + 1) == Num(k) + 1 && Num(k) == Num(k + 1) - 1 && Num(k) != Num(k + 1)
  {
  }

  /** A block the receiver already has is acknowledged again and not stored. */
  lemma StepDuplicate(p: seq<seq<byte>>, s: System, t: Try, maxLen: nat)
    requires s.k < |p| && s.r.expected == Num(s.k + 1)
    ensures Step(p, s, t, maxLen) == Going(System(if t.replyLost then s.k else s.k + 1, s.r))
  {
    NumNext(s.k);
    hide Num, Crc, Arrives, ArrivesCrc;
  }

  /** A damaged block the receiver expects is sent again; an intact one is stored as sent, or
      cancels the transfer when it is too much. */
  lemma StepFresh(p: seq<seq<byte>>, s: System, t: Try, maxLen: nat)
    requires s.k < |p| && s.r.expected == Num(s.k)
    ensures Step(p, s, t, maxLen) ==
      if Damaged(p[s.k], t) then Going(s)
      else if |s.r.data| + |p[s.k]| <= maxLen then
        Going(System(if t.replyLost then s.k else s.k + 1, Receiver(Num(s.k + 1), s.r.data + p[s.k])))
      else Cancelled
  {
    NumNext(s.k);
    AcceptedIsSent(p[s.k], t);
    Orders();
    hide Num, Crc, Arrives, ArrivesCrc, Meaning, Damaged;
  }

  lemma Orders()
    ensures Meaning(ACK) == MoveOn && Meaning(NAK) == Repeat && Meaning(CAN) == GiveUp
  {
  }

  // ---------------------------------------------------------------- the answers

  /** The answer to one transmission when j blocks have arrived and the sender is at block k:
      ACK to a repeated block, NAK to a damaged one, ACK to one that fits, CAN twice else. */
  function AnswerTo(p: seq<seq<byte>>, k: nat, j: nat, t: Try, maxLen: nat): seq<byte>
    requires k < |p| && j <= |p|
  {
    if j > k then [ACK]
    else if Damaged(p[k], t) then [NAK]
    else if |Concat(p[..j])| + |p[k]| <= maxLen then [ACK]
    else [CAN, CAN]
  }

  /** Blocks arrived, and the sender's place, once it was given. */
  function Arrived(p: seq<seq<byte>>, k: nat, j: nat, t: Try, maxLen: nat): (j': nat)
    requires k < |p| && j <= |p|
    ensures j' <= |p|
  {
    if AnswerTo(p, k, j, t, maxLen) == [ACK] then k + 1 else j
  }

  function Place(p: seq<seq<byte>>, k: nat, j: nat, t: Try, maxLen: nat): (k': nat)
    requires k < |p| && j <= |p|
    ensures k' <= |p|
  {
    if AnswerTo(p, k, j, t, maxLen) == [ACK] && !t.replyLost then k + 1 else k
  }

  /** All answers from there on, if silences of `limit` attempts are waited out now and of one
      later: one to each transmission, ACK to the end, CAN twice to a silence too long. */
  function Session(p: seq<seq<byte>>, k: nat, j: nat, tries: seq<Try>, last: nat, limit: nat, maxLen: nat): seq<byte>
    requires j <= |p|
    decreases |tries|
  {
    if k >= |p| then if last <= limit then [ACK] else [CAN, CAN]
    else if tries == [] || tries[0].gap > limit then [CAN, CAN]
    else
      var answer := AnswerTo(p, k, j, tries[0], maxLen);
      if answer == [CAN, CAN] then answer
      else answer + Session(p, Place(p, k, j, tries[0], maxLen), Arrived(p, k, j, tries[0], maxLen), tries[1..], last, 1, maxLen)
  }

  /** The receiver's reply is the answer. */
  lemma ReplyIsAnswer(p: seq<seq<byte>>, s: System, j: nat, t: Try, maxLen: nat)
    requires Synced(p, s, j, maxLen) && s.k < |p|
    ensures
      match React(s.r, Num(s.k), Arrives(p[s.k], t), ArrivesCrc(p[s.k], t), maxLen)
      case Reply(b, r') => AnswerTo(p, s.k, j, t, maxLen) == [b]
      case Overflow => AnswerTo(p, s.k, j, t, maxLen) == [CAN, CAN]
  {
    NumNext(s.k);
    AcceptedIsSent(p[s.k], t);
    hide Num, Crc, Arrives, ArrivesCrc, Concat;
    assert j > s.k ==> j == s.k + 1;
  }

  /** One transmission keeps sender and receiver in step, and only an overflow ends it. */
  lemma StepSynced(p: seq<seq<byte>>, s: System, j: nat, t: Try, maxLen: nat)
    requires Synced(p, s, j, maxLen) && s.k < |p|
    ensures
      var n := Step(p, s, t, maxLen);
      if AnswerTo(p, s.k, j, t, maxLen) == [CAN, CAN] then n == Cancelled
      else n.Going? && n.s.k == Place(p, s.k, j, t, maxLen) && Synced(p, n.s, Arrived(p, s.k, j, t, maxLen), maxLen)
  {
    hide Step, Num;
    if j == s.k {
      StepFresh(p, s, t, maxLen);
      assert p[..j + 1][..j] == p[..j];
    } else {
      StepDuplicate(p, s, t, maxLen);
    }
  }

  /** Damage confined to two adjacent bytes of payload and checksum is always noticed: the
      block is refused, nothing is stored and the sender stays where it is. */
  lemma TwoByteDamageRefused(p: seq<seq<byte>>, s: System, t: Try, i: nat, maxLen: nat)
    requires s.k < |p| && s.r.expected == Num(s.k) && i < |p[s.k]| + 2 == |t.noise| + 2
    requires
      var (was, now) := (Sealed(p[s.k], Crc(0, p[s.k])), Sealed(t.noise, t.check));
      now != was && forall j :: 0 <= j < |now| && j != i && j != i + 1 ==> now[j] == was[j]
    ensures Step(p, s, t, maxLen) == Going(s)
  {
    hide Num, Crc, Sealed;
    DamageShows(p[s.k], t.noise, t.check, i);
    AcceptedIsSent(p[s.k], t);
  }

  lemma DamageShows(data: seq<byte>, noise: seq<byte>, check: bv16, i: nat)
    requires |noise| == |data| && i < |data| + 2
    requires
      var (was, now) := (Sealed(data, Crc(0, data)), Sealed(noise, check));
      now != was && forall j :: 0 <= j < |now| && j != i && j != i + 1 ==> now[j] == was[j]
    ensures Crc(0, noise) != check
  {
    var (was, now) := (Sealed(data, Crc(0, data)), Sealed(noise, check));
    hide Crc, Upper, Lower;
    SealedIsZero(data, Crc(0, data));
    SealedIsZero(noise, check);
    NearbyErrorsDetected(now, was, i);
  }

  /** Two bytes more bring a checksum to 0 exactly when they spell it. */
  lemma OwnChecksum(c: bv16, hi: byte, lo: byte)
    ensures Absorb(Absorb(c, hi), lo) == 0 <==> Join(hi, lo) == c
  {
    JoinIsXor(hi, lo);
    hide Shifts, Xor, High, Join;
    var w := Xor(c, High(hi));
    LowShifts(lo);
    ShiftsLinear(w, lo as bv16, 8);
    ShiftsInvertible(Xor(w, lo as bv16), 8);
    ShiftsInvertible(Shifts(Xor(w, lo as bv16), 8), 8);
    XorAssociates(c, High(hi), lo as bv16);
    XorZero(c, Join(hi, lo));
  }

  lemma JoinIsXor(hi: byte, lo: byte)
    ensures Join(hi, lo) == Xor(High(hi), lo as bv16)
  {
  }

  /** A block with the right checksum behind it has checksum 0, and only then. */
  lemma SealedIsZero(data: seq<byte>, crc: bv16)
    ensures Crc(0, Sealed(data, crc)) == 0 <==> Crc(0, data) == crc
  {
    hide Crc, Upper, Lower, Absorb, Join;
    CrcConcat(0, data, [Upper(crc), Lower(crc)]);
    AfterTwo(Crc(0, data), Upper(crc), Lower(crc));
    OwnChecksum(Crc(0, data), Upper(crc), Lower(crc));
    JoinSplit(crc);
  }

  /** The sender's state after a number of transmissions, if nothing cancelled the transfer. */
  function Run(p: seq<seq<byte>>, s: System, tries: seq<Try>, maxLen: nat): Next
    decreases |tries|
  {
    if s.k >= |p| || tries == [] then Going(s)
    else
      match Step(p, s, tries[0], maxLen)
      case Going(s') => Run(p, s', tries[1..], maxLen)
      case Cancelled => Cancelled
  }

  const INITIAL: System := System(0, Receiver(1, []))

  /** Every reachable state is synced. */
  lemma {:induction false} ReachableSynced(p: seq<seq<byte>>, s: System, j: nat, tries: seq<Try>, maxLen: nat) returns (j': nat)
    requires Synced(p, s, j, maxLen) && Run(p, s, tries, maxLen).Going?
    ensures Synced(p, Run(p, s, tries, maxLen).s, j', maxLen)
    decreases |tries|
  {
    hide Step;
    if s.k >= |p| || tries == [] {
      j' := j;
    } else {
      StepSynced(p, s, j, tries[0], maxLen);
      var s' := Step(p, s, tries[0], maxLen).s;
      j' := ReachableSynced(p, s', Arrived(p, s.k, j, tries[0], maxLen), tries[1..], maxLen);
    }
  }

  // ---------------------------------------------------------------- what the wire carries

  function Gap(n: nat): seq<Got> { seq(n, _ => Timeout) }

  /** All that arrives at the receiver: the frames of the transmissions, and the end of the
      transfer, after `last` silent attempts, once every block is known to be received. */
  function Wire(p: seq<seq<byte>>, s: System, tries: seq<Try>, last: nat, maxLen: nat): seq<Got>
    decreases |tries|, 1
  {
    if s.k >= |p| then Gap(last) + [Char(EOT)]
    else if tries == [] then []
    else Gap(tries[0].gap) + Sent(p, s, tries, last, maxLen)
  }

  /** The next frame and all that follows it. */
  function Sent(p: seq<seq<byte>>, s: System, tries: seq<Try>, last: nat, maxLen: nat): seq<Got>
    requires s.k < |p| && tries != []
    decreases |tries|, 0
  {
    var t := tries[0];
    Frame(Num(s.k), Arrives(p[s.k], t), ArrivesCrc(p[s.k], t))
    + match Step(p, s, t, maxLen) case Going(s') => Wire(p, s', tries[1..], last, maxLen) case Cancelled => []
  }

  /** No silence is longer than the receiver waits: `limit` attempts now, one later on. */
  predicate Heard(p: seq<seq<byte>>, s: System, tries: seq<Try>, last: nat, limit: nat, maxLen: nat)
    decreases |tries|
  {
    if s.k >= |p| then last <= limit
    else if tries == [] then true
    else
      && tries[0].gap <= limit
      && match Step(p, s, tries[0], maxLen) case Going(s') => Heard(p, s', tries[1..], last, 1, maxLen) case Cancelled => true
  }

  /** Every block reached the receiver and every last ACK the sender. */
  predicate Finished(p: seq<seq<byte>>, s: System, tries: seq<Try>, maxLen: nat) {
    var n := Run(p, s, tries, maxLen);
    n.Going? && n.s.k >= |p|
  }

  /** The sender finished, and the receiver was still listening: up to 15 silent attempts at
      the very start, up to one later on. */
  predicate Delivered(p: seq<seq<byte>>, tries: seq<Try>, last: nat, maxLen: nat) {
    Finished(p, INITIAL, tries, maxLen) && Heard(p, INITIAL, tries, last, MAX_INIT_RETRIES - 1, maxLen)
  }

  function Calls(n: nat): seq<byte> { seq(n, _ => CHAR_C) }

  /** Silent attempts before anything arrives; as many as are tried if nothing ever does. */
  function Opening(p: seq<seq<byte>>, tries: seq<Try>, last: nat): nat {
    if p == [] then last else if tries == [] then MAX_INIT_RETRIES else tries[0].gap
  }

  /** All that the receiver transmits: a call for each attempt of the opening, then the
      answers. */
  function Transcript(p: seq<seq<byte>>, tries: seq<Try>, last: nat, maxLen: nat): seq<byte> {
    var n := Opening(p, tries, last);
    if n < MAX_INIT_RETRIES then Calls(n + 1) + Session(p, 0, 0, tries, last, MAX_INIT_RETRIES - 1, maxLen)
    else Calls(MAX_INIT_RETRIES)
  }

  /** What a run of the receiver must look like. */
  ghost predicate Safe(p: seq<seq<byte>>, o: Outcome, complete: bool, maxLen: nat) {
    && (exists j: nat :: j <= |p| && o.data == Concat(p[..j]))
    && |o.data| <= maxLen
    && (o.result >= 0 <==> complete)
    && (o.result >= 0 ==> o.data == Concat(p) && o.result == |Concat(p)|)
  }

  /** In mid-transfer one silent attempt is waited out; a second one ends the transfer. */
  lemma GapStep(r: Receiver, n: nat, script: seq<Got>, maxLen: nat)
    requires Head(script).Char?
    ensures LoopOn(r, Gap(n) + script, maxLen) == if n <= 1 then LoopOn(r, script, maxLen) else Outcome(-1, [CAN, CAN], r.data)
  {
    if n == 0 {
      assert Gap(n) + script == script;
    } else {
      GapTail(n, script);
      if n == 1 { assert Gap(0) + script == script; } else { GapTail(n - 1, script); }
    }
  }

  lemma GapTail(n: nat, script: seq<Got>)
    requires n > 0
    ensures Head(Gap(n) + script) == Timeout && Tail(Gap(n) + script) == Gap(n - 1) + script
  {
    assert (Gap(n) + script)[1..] == Gap(n - 1) + script;
  }

  /** At the start fewer silent attempts than there are tries are waited out; otherwise the
      receiver gives up with nothing stored. */
  lemma {:induction false} StartGap(n: nat, script: seq<Got>, maxLen: nat, tries: nat)
    requires Head(script).Char?
    ensures
      var o := Start(Gap(n) + script, maxLen, tries);
      if n < tries then
        var o' := LoopOn(Receiver(1, []), script, maxLen);
        o == Outcome(o'.result, Calls(n + 1) + o'.tx, o'.data)
      else o == Outcome(-1, Calls(tries), [])
    decreases tries
  {
    hide Loop, Gap, Calls;
    CallMore(n, LoopOn(Receiver(1, []), script, maxLen).tx);
    if n == 0 {
      NoGap(script);
    } else if tries > 0 {
      GapTail(n, script);
      StartGap(n - 1, script, maxLen, tries - 1);
      CallFirst(tries - 1);
    }
  }

  lemma NoGap(script: seq<Got>)
    ensures Gap(0) + script == script
  {
  }

  lemma CallFirst(n: nat)
    ensures [CHAR_C] + Calls(n) == Calls(n + 1) && Calls(0) == []
  {
  }

  lemma CallMore(n: nat, tx: seq<byte>)
    ensures [CHAR_C] + (Calls(n) + tx) == Calls(n + 1) + tx && Calls(0) == [] && [] + tx == tx && [CHAR_C] + tx == Calls(1) + tx
  {
    CallFirst(n);
    CallFirst(0);
  }

  /** One transmission seen from the receiver's loop. */
  lemma WireStep(p: seq<seq<byte>>, s: System, j: nat, tries: seq<Try>, last: nat, maxLen: nat)
    requires File(p) && Synced(p, s, j, maxLen) && s.k < |p| && tries != []
    ensures
      var (n, o) := (Step(p, s, tries[0], maxLen), LoopOn(s.r, Wire(p, s, tries, last, maxLen), maxLen));
      var answer := AnswerTo(p, s.k, j, tries[0], maxLen);
      if tries[0].gap > 1 then o == Outcome(-1, [CAN, CAN], s.r.data)
      else if n.Cancelled? then o == Outcome(-1, answer, s.r.data)
      else
        var o' := LoopOn(n.s.r, Wire(p, n.s, tries[1..], last, maxLen), maxLen);
        o == Outcome(o'.result, answer + o'.tx, o'.data)
  {
    hide Num, Crc, Arrives, ArrivesCrc, Frame, Loop, Concat, AnswerTo, Synced;
    var t := tries[0];
    var (blk, data, crc) := (Num(s.k), Arrives(p[s.k], t), ArrivesCrc(p[s.k], t));
    var rest := match Step(p, s, t, maxLen) case Going(s') => Wire(p, s', tries[1..], last, maxLen) case Cancelled => [];
    assert Sent(p, s, tries, last, maxLen) == Frame(blk, data, crc) + rest;
    FrameHead(blk, data, crc, rest);
    GapStep(s.r, t.gap, Frame(blk, data, crc) + rest, maxLen);
    FrameStep(s.r, blk, data, crc, rest, maxLen);
    StepSynced(p, s, j, t, maxLen);
    ReplyIsAnswer(p, s, j, t, maxLen);
  }

  lemma FrameHead(blk: byte, data: seq<byte>, crc: bv16, rest: seq<Got>)
    ensures Head(Frame(blk, data, crc) + rest).Char?
  {
    hide Upper, Lower;
  }

  lemma {:induction false} LoopSafe(p: seq<seq<byte>>, s: System, j: nat, tries: seq<Try>, last: nat, maxLen: nat)
    requires File(p) && Synced(p, s, j, maxLen)
    ensures Safe(p, LoopOn(s.r, Wire(p, s, tries, last, maxLen), maxLen),
                 Finished(p, s, tries, maxLen) && Heard(p, s, tries, last, 1, maxLen), maxLen)
    ensures LoopOn(s.r, Wire(p, s, tries, last, maxLen), maxLen).tx == Session(p, s.k, j, tries, last, 1, maxLen)
    decreases |tries|
  {
    hide Num, Step, Loop, AnswerTo;
    if s.k >= |p| {
      assert p[..j] == p;
      AtEnd(s.r, last, maxLen);
    } else if tries == [] {
      AtSilence(s.r, maxLen);
    } else {
      hide Wire;
      var n := Step(p, s, tries[0], maxLen);
      WireStep(p, s, j, tries, last, maxLen);
      StepSynced(p, s, j, tries[0], maxLen);
      CancelIsLast(p, s, j, tries[0], maxLen);
      if n.Going? {
        LoopSafe(p, n.s, Arrived(p, s.k, j, tries[0], maxLen), tries[1..], last, maxLen);
      }
    }
  }

  lemma CancelIsLast(p: seq<seq<byte>>, s: System, j: nat, t: Try, maxLen: nat)
    requires Synced(p, s, j, maxLen) && s.k < |p|
    ensures Step(p, s, t, maxLen).Cancelled? <==> AnswerTo(p, s.k, j, t, maxLen) == [CAN, CAN]
  {
    hide Step, AnswerTo;
    StepSynced(p, s, j, t, maxLen);
  }

  lemma AtEnd(r: Receiver, last: nat, maxLen: nat)
    ensures LoopOn(r, Gap(last) + [Char(EOT)], maxLen)
         == if last <= 1 then Outcome(|r.data|, [ACK], r.data) else Outcome(-1, [CAN, CAN], r.data)
  {
    GapStep(r, last, [Char(EOT)], maxLen);
  }

  lemma AtSilence(r: Receiver, maxLen: nat)
    ensures LoopOn(r, [], maxLen) == Outcome(-1, [CAN, CAN], r.data)
  {
  }

  /** For any file, any damage, any lost replies, any silences and any limit: what is stored
      is a prefix of the blocks and within the limit; the receiver reports success exactly
      when the sender finished and no silence was too long, having stored the whole file; and
      it transmits one answer to each transmission, CAN only when it gives up. */
  lemma TransferSafe(p: seq<seq<byte>>, tries: seq<Try>, last: nat, maxLen: nat)
    requires File(p)
    ensures
      var o := Start(Wire(p, INITIAL, tries, last, maxLen), maxLen, MAX_INIT_RETRIES);
      Safe(p, o, Delivered(p, tries, last, maxLen), maxLen) && o.tx == Transcript(p, tries, last, maxLen)
  {
    if p == [] {
      EmptyFile(p, tries, last, maxLen);
    } else if tries == [] {
      NeverSent(p, tries, last, maxLen);
    } else {
      SomeSent(p, tries, last, maxLen);
    }
  }

  lemma EmptyFile(p: seq<seq<byte>>, tries: seq<Try>, last: nat, maxLen: nat)
    requires p == []
    ensures
      var o := Start(Wire(p, INITIAL, tries, last, maxLen), maxLen, MAX_INIT_RETRIES);
      Safe(p, o, Delivered(p, tries, last, maxLen), maxLen) && o.tx == Transcript(p, tries, last, maxLen)
  {
    hide Loop, Start, Session;
    NothingStored(p);
    StartGap(last, [Char(EOT)], maxLen, MAX_INIT_RETRIES);
    assert Gap(0) + [Char(EOT)] == [Char(EOT)];
    AtEnd(Receiver(1, []), 0, maxLen);
    EndAnswer(p, tries, last, maxLen);
  }

  lemma NeverSent(p: seq<seq<byte>>, tries: seq<Try>, last: nat, maxLen: nat)
    requires p != [] && tries == []
    ensures
      var o := Start(Wire(p, INITIAL, tries, last, maxLen), maxLen, MAX_INIT_RETRIES);
      Safe(p, o, Delivered(p, tries, last, maxLen), maxLen) && o.tx == Transcript(p, tries, last, maxLen)
  {
    hide Loop, Start, Session;
    NothingStored(p);
    Silence(maxLen, MAX_INIT_RETRIES);
  }

  lemma SomeSent(p: seq<seq<byte>>, tries: seq<Try>, last: nat, maxLen: nat)
    requires File(p) && p != [] && tries != []
    ensures
      var o := Start(Wire(p, INITIAL, tries, last, maxLen), maxLen, MAX_INIT_RETRIES);
      Safe(p, o, Delivered(p, tries, last, maxLen), maxLen) && o.tx == Transcript(p, tries, last, maxLen)
  {
    NothingStored(p);
    hide Loop, Start, Session, Sent, Finished, Heard, Concat, Synced, Calls;
    var n := tries[0].gap;
    SentHead(p, INITIAL, tries, last, maxLen);
    StartGap(n, Sent(p, INITIAL, tries, last, maxLen), maxLen, MAX_INIT_RETRIES);
    Prompt(p, INITIAL, tries, last, maxLen);
    if n < MAX_INIT_RETRIES { PromptAnswers(p, 0, 0, tries, last, MAX_INIT_RETRIES - 1, maxLen); }
    LoopSafe(p, INITIAL, 0, [tries[0].(gap := 0)] + tries[1..], last, maxLen);
    if n >= MAX_INIT_RETRIES { NotHeard(p, tries, last, maxLen); }
  }

  lemma NotHeard(p: seq<seq<byte>>, tries: seq<Try>, last: nat, maxLen: nat)
    requires p != [] && tries != [] && tries[0].gap >= MAX_INIT_RETRIES
    ensures !Delivered(p, tries, last, maxLen) && Safe(p, Outcome(-1, Calls(MAX_INIT_RETRIES), []), false, maxLen)
  {
    NothingStored(p);
    hide Step, Concat;
  }

  lemma EndAnswer(p: seq<seq<byte>>, tries: seq<Try>, last: nat, maxLen: nat)
    requires p == []
    ensures last < MAX_INIT_RETRIES ==> Session(p, 0, 0, tries, last, MAX_INIT_RETRIES - 1, maxLen) == [ACK]
  {
  }

  lemma PromptAnswers(p: seq<seq<byte>>, k: nat, j: nat, tries: seq<Try>, last: nat, limit: nat, maxLen: nat)
    requires k < |p| && j <= |p| && tries != [] && tries[0].gap <= limit
    ensures Session(p, k, j, [tries[0].(gap := 0)] + tries[1..], last, 1, maxLen) == Session(p, k, j, tries, last, limit, maxLen)
  {
    var t := tries[0];
    var prompt := [t.(gap := 0)] + tries[1..];
    assert prompt[0] == t.(gap := 0) && prompt[1..] == tries[1..];
    assert Damaged(p[k], prompt[0]) == Damaged(p[k], t);
    hide Damaged, Concat;
  }

  lemma AnswerKinds(p: seq<seq<byte>>, k: nat, j: nat, t: Try, maxLen: nat)
    requires k < |p| && j <= |p|
    ensures CAN in AnswerTo(p, k, j, t, maxLen) <==> AnswerTo(p, k, j, t, maxLen) == [CAN, CAN]
  {
    hide Damaged, Concat;
    assert [CAN, CAN][0] == CAN && CAN != ACK && CAN != NAK;
  }

  /** The receiver completes exactly the transfers in whose answers no CAN occurs. */
  lemma {:induction false} CancelsIff(p: seq<seq<byte>>, s: System, j: nat, tries: seq<Try>, last: nat, limit: nat, maxLen: nat)
    requires Synced(p, s, j, maxLen)
    ensures CAN !in Session(p, s.k, j, tries, last, limit, maxLen)
       <==> Finished(p, s, tries, maxLen) && Heard(p, s, tries, last, limit, maxLen)
    decreases |tries|
  {
    hide Step, Num;
    if s.k < |p| && tries != [] && tries[0].gap <= limit {
      StepSynced(p, s, j, tries[0], maxLen);
      AnswerKinds(p, s.k, j, tries[0], maxLen);
      hide AnswerTo;
      var n := Step(p, s, tries[0], maxLen);
      if n.Going? { CancelsIff(p, n.s, Arrived(p, s.k, j, tries[0], maxLen), tries[1..], last, 1, maxLen); }
    }
  }

  /** So a file is delivered exactly when something arrives in time and no CAN is sent. */
  lemma DeliveredIff(p: seq<seq<byte>>, tries: seq<Try>, last: nat, maxLen: nat)
    ensures Delivered(p, tries, last, maxLen) <==> Opening(p, tries, last) < MAX_INIT_RETRIES && CAN !in Transcript(p, tries, last, maxLen)
  {
    NothingStored(p);
    CancelsIff(p, INITIAL, 0, tries, last, MAX_INIT_RETRIES - 1, maxLen);
    hide Step, Session, Num, Concat;
    var n := Opening(p, tries, last);
    if n < MAX_INIT_RETRIES {
      assert CAN !in Calls(n + 1);
    }
  }

  lemma NothingStored(p: seq<seq<byte>>)
    ensures p[..0] == [] && Concat(p[..0]) == [] && forall maxLen: nat :: Synced(p, INITIAL, 0, maxLen)
  {
  }

  lemma SentHead(p: seq<seq<byte>>, s: System, tries: seq<Try>, last: nat, maxLen: nat)
    requires s.k < |p| && tries != []
    ensures Head(Sent(p, s, tries, last, maxLen)).Char?
  {
    hide Num, Crc, Arrives, ArrivesCrc, Frame;
    var t := tries[0];
    FrameHead(Num(s.k), Arrives(p[s.k], t), ArrivesCrc(p[s.k], t),
              match Step(p, s, t, maxLen) case Going(s') => Wire(p, s', tries[1..], last, maxLen) case Cancelled => []);
  }

  /** The same transmissions without the silence before the first. */
  lemma Prompt(p: seq<seq<byte>>, s: System, tries: seq<Try>, last: nat, maxLen: nat)
    requires s.k < |p| && tries != []
    ensures
      var prompt := [tries[0].(gap := 0)] + tries[1..];
      && Wire(p, s, prompt, last, maxLen) == Sent(p, s, tries, last, maxLen)
      && Finished(p, s, prompt, maxLen) == Finished(p, s, tries, maxLen)
      && forall limit: nat :: tries[0].gap <= limit ==>
           Heard(p, s, prompt, last, 1, maxLen) == Heard(p, s, tries, last, limit, maxLen)
  {
    hide Num, Crc, Frame, React;
    var t := tries[0];
    var prompt := [t.(gap := 0)] + tries[1..];
    assert prompt[0] == t.(gap := 0) && prompt[1..] == tries[1..];
    assert Arrives(p[s.k], prompt[0]) == Arrives(p[s.k], t) && ArrivesCrc(p[s.k], prompt[0]) == ArrivesCrc(p[s.k], t);
    assert Gap(0) + Sent(p, s, prompt, last, maxLen) == Sent(p, s, prompt, last, maxLen);
  }

  lemma {:induction false} Silence(maxLen: nat, n: nat)
    ensures Start([], maxLen, n) == Outcome(-1, Calls(n), [])
    decreases n
  {
    if n > 0 {
      Silence(maxLen, n - 1);
      CallFirst(n - 1);
    } else {
      CallFirst(0);
    }
  }

  /** An empty file whose end comes after two silent attempts is received when they open the
      transfer; with one block before them it is not. */
  lemma LateEndFails(block: seq<byte>)
    requires |block| == 128
    ensures Delivered([], [], 2, 128)
    ensures
      var tries := [Try(0, [], 0, false)];
      Finished([block], INITIAL, tries, 128) && !Delivered([block], tries, 2, 128)
  {
    var (p, t) := ([block], Try(0, [], 0, false));
    FirstNumber();
    AcceptedIsSent(block, t);
    assert Arrives(block, t) == block && ArrivesCrc(block, t) == Crc(0, block);
    hide Crc, Arrives, ArrivesCrc;
    assert Step(p, INITIAL, t, 128) == Going(System(1, Receiver(2, [] + block)));
    assert [t][1..] == [];
  }
}
