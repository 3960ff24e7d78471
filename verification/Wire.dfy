/** Messages on a connection: length-prefixed frames, the queue they are written from, and how they are read back. */
module Wires {
  import opened RoutingTables
  import opened Storages

  const HEADER_SIZE: nat := 4
  const UNSIGNED: nat := 0x1_0000_0000

  /* ---------- Frames ---------- */

  /** What `header` says: its bytes as the digits of a number in base 256, kept to 32 bits. */
  function Decoded(header: Bytes): (size: nat)
    ensures size < UNSIGNED
  {
    if header == [] then 0 else (Decoded(header[..|header| - 1]) * 256 + header[|header| - 1] as nat) % UNSIGNED
  }

  function Digit(size: nat, unit: nat): byte
    requires unit > 0
  {
    (size / unit % 256) as byte
  }

  function Header(size: nat): (header: Bytes)
    ensures |header| == HEADER_SIZE
  {
    [Digit(size, 0x100_0000), Digit(size, 0x1_0000), Digit(size, 0x100), Digit(size, 1)]
  }

  lemma DigitsMakeUpNumber(size: nat)
    requires size < UNSIGNED
    ensures (((size / 0x100_0000 % 256) * 256 + size / 0x1_0000 % 256) * 256 + size / 0x100 % 256) * 256 + size % 256
         == size
  {
    var a, b, c := size / 0x100, size / 0x1_0000, size / 0x100_0000;
    assert b == a / 256 && c == b / 256;
  }

  lemma DecodedDigits(h: Bytes)
    requires |h| == HEADER_SIZE
    ensures Decoded(h) == ((h[0] as nat * 256 + h[1] as nat) * 256 + h[2] as nat) * 256 + h[3] as nat
  {
    assert h[..1] == [h[0]] && h[..2][..1] == h[..1] && h[..3][..2] == h[..2];
    assert Decoded(h[..1]) == h[0] as nat;
    assert Decoded(h[..2]) == h[0] as nat * 256 + h[1] as nat;
    assert Decoded(h[..3]) == (h[0] as nat * 256 + h[1] as nat) * 256 + h[2] as nat;
  }

  /** A header holds every length that fits into 32 bits, and of longer ones what is left modulo 2^32. */
  lemma HeaderKeepsLowBits(size: nat)
    ensures Decoded(Header(size)) == size % UNSIGNED
  {
    LowDigits(size);
    DecodedDigits(Header(size % UNSIGNED));
    DigitsMakeUpNumber(size % UNSIGNED);
  }

  lemma FirstDigit(low: nat, q: nat)
    ensures (low + q * UNSIGNED) / 0x100_0000 % 256 == low / 0x100_0000 % 256
  {
    assert (low + q * UNSIGNED) / 0x100_0000 == low / 0x100_0000 + q * 256;
  }

  lemma SecondDigit(low: nat, q: nat)
    ensures (low + q * UNSIGNED) / 0x1_0000 % 256 == low / 0x1_0000 % 256
  {
    assert (low + q * UNSIGNED) / 0x1_0000 == low / 0x1_0000 + q * 0x100 * 256;
  }

  lemma ThirdDigit(low: nat, q: nat)
    ensures (low + q * UNSIGNED) / 0x100 % 256 == low / 0x100 % 256
  {
    assert (low + q * UNSIGNED) / 0x100 == low / 0x100 + q * 0x1_0000 * 256;
  }

  lemma LastDigit(low: nat, q: nat)
    ensures (low + q * UNSIGNED) % 256 == low % 256
  {
    assert low + q * UNSIGNED == low + q * 0x100_0000 * 256;
  }

  lemma LowDigits(size: nat)
    ensures Header(size) == Header(size % UNSIGNED)
  {
    var low, q := size % UNSIGNED, size / UNSIGNED;
    FirstDigit(low, q);
    SecondDigit(low, q);
    ThirdDigit(low, q);
    LastDigit(low, q);
  }

  /** The first byte of a header weighs most. */
  lemma MostSignificantFirst(size: nat)
    ensures var h := Header(size);
            h[0] as nat * 0x100_0000 + h[1] as nat * 0x1_0000 + h[2] as nat * 0x100 + h[3] as nat == size % UNSIGNED
  {
    LowDigits(size);
    DigitsMakeUpNumber(size % UNSIGNED);
  }

  function Frame(payload: Bytes): Bytes {
    Header(|payload|) + payload
  }

  method EncodeHeader(buf: array<byte>, size: nat)
    requires buf.Length >= HEADER_SIZE && size < UNSIGNED
    modifies buf
    ensures buf[..] == Header(size) + old(buf[HEADER_SIZE..])
  {
    buf[0] := Digit(size, 0x100_0000);
    buf[1] := Digit(size, 0x1_0000);
    buf[2] := Digit(size, 0x100);
    buf[3] := Digit(size, 1);
  }

  method DecodeHeader(buf: seq<byte>) returns (size: nat)
    ensures size == if |buf| < HEADER_SIZE then 0 else Decoded(buf[..HEADER_SIZE])
  {
    if |buf| < HEADER_SIZE { return 0; }
    size := 0;
    for i := 0 to HEADER_SIZE
      invariant size == Decoded(buf[..i])
    {
      assert buf[..i + 1][..i] == buf[..i];
      size := (size * 256 + buf[i] as nat) % UNSIGNED;
    }
  }

  /** The length is passed on as a 32-bit number. */
  method MakeFrame(payload: Bytes) returns (frame: Bytes)
    ensures frame == Frame(payload)
  {
    var buf := new byte[HEADER_SIZE];
    EncodeHeader(buf, |payload| % UNSIGNED);
    LowDigits(|payload|);
    frame := buf[..] + payload;
  }

  /* ---------- Reading ---------- */

  /** One `read()` on what the connection still delivers: a message and what follows it, or an early end. */
  function ReadMessage(stream: Bytes): (r: Option<(Bytes, Bytes)>)
    ensures r.Some? ==> |r.value.1| < |stream|
  {
    if |stream| < HEADER_SIZE then None
    else
      var end := HEADER_SIZE + Decoded(stream[..HEADER_SIZE]);
      if |stream| < end then None else Some((stream[HEADER_SIZE..end], stream[end..]))
  }

  /** All messages obtained by reading until the connection gives no more. */
  function Received(stream: Bytes): seq<Bytes>
    decreases |stream|
  {
    var r := ReadMessage(stream);
    if r.None? then [] else [r.value.0] + Received(r.value.1)
  }

  function Stream(payloads: seq<Bytes>): Bytes {
    if payloads == [] then [] else Frame(payloads[0]) + Stream(payloads[1..])
  }

  lemma ReadByHeader(header: Bytes, payload: Bytes, rest: Bytes)
    requires |header| == HEADER_SIZE
    ensures ReadMessage(header + payload + rest) == Some((payload, rest)) <==> Decoded(header) == |payload|
  {
    var stream, end := header + payload + rest, HEADER_SIZE + Decoded(header);
    assert stream[..HEADER_SIZE] == header;
    if Decoded(header) == |payload| {
      assert stream[HEADER_SIZE..end] == payload && stream[end..] == rest;
    } else if end <= |stream| {
      assert |stream[HEADER_SIZE..end]| != |payload|;
    }
  }

  /** A message is read back whole exactly when its length fits into the header. */
  lemma ReadBackIffItFits(payload: Bytes, rest: Bytes)
    ensures ReadMessage(Frame(payload) + rest) == Some((payload, rest)) <==> |payload| < UNSIGNED
  {
    HeaderKeepsLowBits(|payload|);
    ReadByHeader(Header(|payload|), payload, rest);
  }

  lemma CutFrameIsNotRead(payload: Bytes, n: nat)
    requires |payload| < UNSIGNED && n < |Frame(payload)|
    ensures ReadMessage(Frame(payload)[..n]).None?
  {
    HeaderKeepsLowBits(|payload|);
    if n >= HEADER_SIZE {
      assert Frame(payload)[..n][..HEADER_SIZE] == Header(|payload|);
    }
  }

  /** Repeated reads give back exactly the messages written, in order, and nothing of one cut short. */
  lemma {:induction false} StreamIsReadBack(payloads: seq<Bytes>, cut: Bytes)
    requires (forall p | p in payloads :: |p| < UNSIGNED) && ReadMessage(cut).None?
    ensures Received(Stream(payloads) + cut) == payloads
    decreases |payloads|
  {
    if payloads == [] {
      assert Stream(payloads) + cut == cut;
    } else {
      var rest := Stream(payloads[1..]) + cut;
      assert Stream(payloads) + cut == Frame(payloads[0]) + rest;
      ReadBackIffItFits(payloads[0], rest);
      StreamIsReadBack(payloads[1..], cut);
    }
  }

  /** The reading half of a session. */
  class Reader {
    var incoming: Bytes
    var readbuf: Bytes
    var stopped: bool
    var messages: seq<Bytes>

    constructor (incoming: Bytes)
      ensures this.incoming == incoming && !stopped && messages == []
    {
      this.incoming, readbuf, stopped, messages := incoming, [], false, [];
    }

    /** `async_read` of exactly `n` bytes; when the connection ends first, what there was is gone. */
    method ReadExactly(n: nat) returns (failed: bool, data: Bytes)
      modifies this`incoming
      ensures failed == (n > |old(incoming)|)
      ensures if failed then incoming == [] && data == []
              else data == old(incoming)[..n] && incoming == old(incoming)[n..]
    {
      if n > |incoming| {
        incoming := [];
        return true, [];
      }
      data := incoming[..n];
      incoming := incoming[n..];
      failed := false;
    }

    /** A header, then as many bytes as it says; a message cut short makes the session wait for another header. */
    method Read()
      modifies this
      ensures match ReadMessage(old(incoming))
              case Some((payload, rest)) =>
                messages == old(messages) + [payload] && incoming == rest && stopped == old(stopped)
              case None => messages == old(messages) && incoming == [] && stopped
    {
      ghost var stream := incoming;
      var failed, data := ReadExactly(HEADER_SIZE);
      if failed {
        stopped := true;
        return;
      }
      readbuf := data;
      var length := DecodeHeader(readbuf);
      assert readbuf[..HEADER_SIZE] == readbuf;
      failed, data := ReadExactly(length);
      if failed {
        failed, data := ReadExactly(HEADER_SIZE);
        stopped := true;
        return;
      }
      assert data == stream[HEADER_SIZE..HEADER_SIZE + length] && incoming == stream[HEADER_SIZE + length..];
      readbuf := readbuf + data;
      assert readbuf[HEADER_SIZE..] == data;
      messages := messages + [readbuf[HEADER_SIZE..]];
    }
  }

  /* ---------- Writing ---------- */

  datatype WriteResult =
    | Success
    /** An error after `partial` bytes of the frame; `aborted` when the operation was cancelled. */
    | Error(partial: nat, aborted: bool)

  /** `wire` is what has been written, `writes` how many asynchronous writes are outstanding. */
  datatype Sender = Sender(queue: seq<Bytes>, writes: nat, failed: bool, stopped: bool, wire: Bytes)

  function Enqueued(s: Sender, frame: Bytes): Sender {
    s.(queue := s.queue + [frame], writes := if s.queue == [] then s.writes + 1 else s.writes)
  }

  predicate CanComplete(s: Sender, r: WriteResult) {
    s.writes > 0 && s.queue != [] && (r.Error? ==> r.partial < |s.queue[0]|)
  }

  function Completed(s: Sender, r: WriteResult): Sender
    requires CanComplete(s, r)
  {
    match r
    case Success =>
      s.(queue := s.queue[1..], writes := if |s.queue| == 1 then s.writes - 1 else s.writes,
         wire := s.wire + s.queue[0])
    case Error(partial, aborted) =>
      s.(writes := s.writes - 1, failed := true, stopped := s.stopped || !aborted,
         wire := s.wire + s.queue[0][..partial])
  }

  class Session {
    var sendPacketQueue: seq<Bytes>
    var stopped: bool
    ghost var writes: nat
    ghost var failed: bool
    ghost var wire: Bytes

    ghost function View(): Sender
      reads this
    {
      Sender(sendPacketQueue, writes, failed, stopped, wire)
    }

    constructor ()
      ensures View() == Sender([], 0, false, false, [])
    {
      sendPacketQueue, stopped, writes, failed, wire := [], false, 0, false, [];
    }

    method QueueMessage(message: Bytes)
      modifies this
      ensures View() == Enqueued(old(View()), message)
    {
      var writeInProgress := sendPacketQueue != [];
      sendPacketQueue := sendPacketQueue + [message];
      if !writeInProgress {
        StartPacketSend();
      }
    }

    method StartPacketSend()
      requires sendPacketQueue != []
      modifies this`writes
      ensures writes == old(writes) + 1
    {
      writes := writes + 1;
    }

    /** Called when an asynchronous write is over. */
    method PacketSendDone(r: WriteResult)
      requires CanComplete(View(), r)
      modifies this
      ensures View() == Completed(old(View()), r)
    {
      writes := writes - 1;
      match r
      case Success =>
        wire := wire + sendPacketQueue[0];
        sendPacketQueue := sendPacketQueue[1..];
        if sendPacketQueue != [] {
          StartPacketSend();
        }
      case Error(partial, aborted) =>
        wire := wire + sendPacketQueue[0][..partial];
        failed := true;
        if !aborted {
          stopped := true;
        }
    }
  }

  datatype Event = Send(payload: Bytes) | Done(result: WriteResult)

  predicate CanHappen(s: Sender, e: Event) {
    e.Done? ==> CanComplete(s, e.result)
  }

  function After(s: Sender, e: Event): Sender
    requires CanHappen(s, e)
  {
    match e
    case Send(payload) => Enqueued(s, Frame(payload))
    case Done(result) => Completed(s, result)
  }

  predicate CanRun(s: Sender, events: seq<Event>)
    decreases |events|, 0
  {
    events == [] ||
    (CanRun(s, events[..|events| - 1]) && CanHappen(Run(s, events[..|events| - 1]), events[|events| - 1]))
  }

  function Run(s: Sender, events: seq<Event>): Sender
    requires CanRun(s, events)
    decreases |events|, 1
  {
    if events == [] then s else After(Run(s, events[..|events| - 1]), events[|events| - 1])
  }

  function Payloads(events: seq<Event>): seq<Bytes> {
    if events == [] then []
    else
      var last := events[|events| - 1];
      Payloads(events[..|events| - 1]) + if last.Send? then [last.payload] else []
  }

  /** Of `payloads`, those not in the queue any more have been written, and perhaps the beginning of one more. */
  ghost predicate IsInOrder(s: Sender, payloads: seq<Bytes>) {
    && |s.queue| <= |payloads|
    && var k := |payloads| - |s.queue|;
    && (forall i | 0 <= i < |s.queue| :: s.queue[i] == Frame(payloads[k + i]))
    && Stream(payloads[..k]) <= s.wire
    && var cut := s.wire[|Stream(payloads[..k])|..];
       if s.failed then s.queue != [] && |cut| < |s.queue[0]| && cut == s.queue[0][..|cut|] else cut == []
  }

  predicate IsSingleWriter(s: Sender) {
    s.writes == if s.failed || s.queue == [] then 0 else 1
  }

  lemma {:induction false} StreamOfOneMore(payloads: seq<Bytes>, p: Bytes)
    ensures Stream(payloads + [p]) == Stream(payloads) + Frame(p)
    decreases |payloads|
  {
    if payloads == [] {
      assert [p][1..] == [];
    } else {
      StreamOfOneMore(payloads[1..], p);
      assert (payloads + [p])[1..] == payloads[1..] + [p];
    }
  }

  lemma SendKeepsOrder(s: Sender, payloads: seq<Bytes>, p: Bytes)
    requires IsInOrder(s, payloads) && IsSingleWriter(s)
    ensures IsInOrder(After(s, Send(p)), payloads + [p]) && IsSingleWriter(After(s, Send(p)))
  {
    var k := |payloads| - |s.queue|;
    assert (payloads + [p])[..k] == payloads[..k];
  }

  lemma DoneKeepsOrder(s: Sender, payloads: seq<Bytes>, r: WriteResult)
    requires IsInOrder(s, payloads) && IsSingleWriter(s) && CanComplete(s, r)
    ensures IsInOrder(Completed(s, r), payloads) && IsSingleWriter(Completed(s, r))
  {
    var k := |payloads| - |s.queue|;
    StreamOfOneMore(payloads[..k], payloads[k]);
    assert payloads[..k + 1] == payloads[..k] + [payloads[k]];
    assert s.wire == Stream(payloads[..k]);
  }

  const CONNECTED := Sender([], 0, false, false, [])

  lemma EventKeepsOrder(s: Sender, payloads: seq<Bytes>, e: Event)
    requires IsInOrder(s, payloads) && IsSingleWriter(s) && CanHappen(s, e)
    ensures IsInOrder(After(s, e), payloads + if e.Send? then [e.payload] else []) && IsSingleWriter(After(s, e))
  {
    match e
    case Send(p) => SendKeepsOrder(s, payloads, p);
    case Done(r) =>
      assert payloads + [] == payloads;
      DoneKeepsOrder(s, payloads, r);
  }

  lemma {:induction false} RunKeepsOrder(events: seq<Event>)
    requires CanRun(CONNECTED, events)
    ensures IsInOrder(Run(CONNECTED, events), Payloads(events)) && IsSingleWriter(Run(CONNECTED, events))
    decreases |events|
  {
    if events != [] {
      var last := |events| - 1;
      RunKeepsOrder(events[..last]);
      EventKeepsOrder(Run(CONNECTED, events[..last]), Payloads(events[..last]), events[last]);
    }
  }

  lemma CutIsNotRead(s: Sender, payload: Bytes, cut: Bytes)
    requires |payload| < UNSIGNED
    requires s.failed ==>
               s.queue != [] && s.queue[0] == Frame(payload) && |cut| < |s.queue[0]| && cut == s.queue[0][..|cut|]
    requires !s.failed ==> cut == []
    ensures ReadMessage(cut).None?
  {
    if s.failed { CutFrameIsNotRead(payload, |cut|); }
  }

  lemma OrderIsReadBack(s: Sender, payloads: seq<Bytes>)
    requires IsInOrder(s, payloads) && forall p | p in payloads :: |p| < UNSIGNED
    ensures Received(s.wire) == payloads[..|payloads| - |s.queue|]
  {
    var k := |payloads| - |s.queue|;
    var written := Stream(payloads[..k]);
    var cut := s.wire[|written|..];
    assert s.wire == written + cut;
    CutIsNotRead(s, if s.queue == [] then [] else payloads[k], cut);
    StreamIsReadBack(payloads[..k], cut);
  }

  /** An error stops the session, unless the write was cancelled; nothing else does. */
  lemma StopsOnErrorsOnly(s: Sender, e: Event)
    requires CanHappen(s, e)
    ensures var failing := e.Done? && e.result.Error?;
            && After(s, e).failed == (s.failed || failing)
            && After(s, e).stopped == (s.stopped || (failing && !e.result.aborted))
  {
  }

  /**
   * However sends and completions interleave: one write is outstanding exactly while messages wait and nothing
   * has failed, and the other side reads the messages that have left the queue, in the order they were sent.
   */
  lemma WireKeepsOrder(events: seq<Event>)
    requires CanRun(CONNECTED, events) && forall p | p in Payloads(events) :: |p| < UNSIGNED
    ensures var s := Run(CONNECTED, events);
            && s.writes == (if s.failed || s.queue == [] then 0 else 1)
            && |s.queue| <= |Payloads(events)|
            && Received(s.wire) == Payloads(events)[..|Payloads(events)| - |s.queue|]
            && (s.failed ==> s.queue != [])
  {
    RunKeepsOrder(events);
    OrderIsReadBack(Run(CONNECTED, events), Payloads(events));
  }
}
