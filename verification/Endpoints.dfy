/** How the endpoints hear datagrams, and whole runs of one endpoint over everything it hears. */
module Endpoints {
  import opened Basics
  import opened Window
  import opened Transfer
  import Blocks
  import Negotiation
  import Netascii
  import Options
  import Packets

  /** The outcome of one wait on the socket: nothing before the deadline, or a datagram from the
      expected peer. */
  datatype Event = Silence | Datagram(payload: bytes)

  function Hear(e: Event): Input {
    match e
    case Silence => Timeout
    case Datagram(payload) =>
      match Packets.Decode(payload)
      case Ok(Ack(block)) => GotAck(block)
      case Ok(Data(block, data)) => GotData(block, data)
      case Ok(ErrorPacket(_, _)) => GotError
      case _ => GotOther
  }

  /** Which datagrams are heard as what, for every string of bytes: only an ERROR is an error, and
      what does not decode, and what has no business in a transfer, is none of the others. */
  lemma HeardExactly(payload: bytes)
    ensures var p := Packets.Decode(payload);
            var input := Hear(Datagram(payload));
            && (input == GotError <==> Packets.IsError(payload))
            && (forall n :: input == GotAck(n) <==> p == Ok(Packets.Ack(n)))
            && (forall n, data :: input == GotData(n, data) <==> p == Ok(Packets.Data(n, data)))
            && (input == GotOther <==> p.Err? || p.value.Rrq? || p.value.Wrq? || p.value.Oack?)
            && input != Timeout
  {
  }

  /** A datagram that an end has no use for changes nothing there, and a receiver does not answer
      it: for a sender whatever is not an ACK or an ERROR, for a receiver whatever is not a DATA or an
      ERROR. */
  lemma StrayIgnored(c: Setup, s: SenderState, r: ReceiverState, payload: bytes)
    requires s.base <= s.sent && !Packets.IsError(payload)
    ensures !Packets.IsAck(payload) ==> SenderStep(c, s, Hear(Datagram(payload))) == s
    ensures !Packets.IsData(payload) ==> ReceiverStep(c, r, Hear(Datagram(payload))) == Reply(r, [])
  {
    HeardExactly(payload);
  }

  /** A repeated OACK is such a datagram at both ends, whatever it acknowledges. */
  lemma OackIsStray(options: seq<Options.OptionValue>)
    ensures var payload := Packets.Encode(Packets.Oack(options));
            !Packets.IsAck(payload) && !Packets.IsData(payload) && !Packets.IsError(payload)
  {
    Packets.DatagramKinds(Packets.Encode(Packets.Oack(options)));
    Packets.NegotiationBytes([], options);
  }

  /** An ERROR ends a transfer at either end, and nothing is sent in reply. */
  lemma ErrorEnds(c: Setup, s: SenderState, r: ReceiverState, payload: bytes)
    requires s.base <= s.sent && s.status == Running && r.status == Running && Packets.IsError(payload)
    ensures SenderStep(c, s, Hear(Datagram(payload))) == s.(status := Failed)
    ensures ReceiverStep(c, r, Hear(Datagram(payload))) == Reply(r.(status := Failed), [])
  {
    HeardExactly(payload);
  }

  function AckDatagram(number: u16): bytes {
    Packets.Encode(Packets.Ack(number))
  }

  function DataDatagram(number: u16, payload: bytes): bytes {
    Packets.Encode(Packets.Data(number, payload))
  }

  /** What one end encodes is what the other end hears. */
  lemma HeardAsSent(number: u16, payload: bytes)
    ensures Hear(Datagram(AckDatagram(number))) == GotAck(number)
    ensures Hear(Datagram(DataDatagram(number, payload))) == GotData(number, payload)
  {
    Packets.DecodePlain(Packets.Ack(number));
    Packets.DecodePlain(Packets.Data(number, payload));
  }

  // "timed out"
  const TIMED_OUT_TEXT: bytes := [116, 105, 109, 101, 100, 32, 111, 117, 116]

  function TimedOutDatagram(): bytes {
    Packets.Encode(Packets.ErrorPacket(Packets.NotDefined, TIMED_OUT_TEXT))
  }

  lemma TimedOutBytes()
    ensures TimedOutDatagram() == [0, 5, 0, 0] + Options.Ascii("timed out") + [0]
  {
    assert TIMED_OUT_TEXT == Options.Ascii("timed out");
    Packets.ErrorBytes(0, TIMED_OUT_TEXT);
  }

  // ---------- from negotiated parameters to a transfer ----------

  function WireOf(netascii: bool, source: bytes): bytes {
    if netascii then Netascii.Encode(source) else source
  }

  /** The transfer of `file` with the given parameters. */
  function SetupFor(mode: Options.Mode, file: bytes, neg: Negotiation.Negotiated, sendRetries: nat, recvRetries: nat): Setup
    requires neg.blksize > 0
  {
    var netascii := mode == Options.NetAscii;
    Setup(Blocks.Split(WireOf(netascii, file), neg.blksize), neg.blksize, neg.windowsize, netascii, sendRetries, recvRetries)
  }

  lemma SetupUsable(mode: Options.Mode, file: bytes, neg: Negotiation.Negotiated, sendRetries: nat, recvRetries: nat)
    requires neg.blksize > 0 && neg.windowsize > 0
    ensures Usable(SetupFor(mode, file, neg, sendRetries, recvRetries))
    ensures Blocks.Flatten(SetupFor(mode, file, neg, sendRetries, recvRetries).blocks) == WireOf(mode == Options.NetAscii, file)
  {
    Blocks.SplitShape(WireOf(mode == Options.NetAscii, file), neg.blksize);
  }

  // ---------- waiting for ACK(0) ----------

  /** A server that acknowledged options sends nothing but the OACK until ACK(0) arrives. */
  datatype Await = Waiting(attempt: nat) | Acked | Lost(status: Status)

  function AwaitHears(retries: nat, attempt: nat, input: Input): Await {
    match input
    case GotAck(number) =>
      if number == 0 then Acked else if attempt >= retries then Lost(TimedOut) else Waiting(attempt + 1)
    case GotError => Lost(Failed)
    case _ => if attempt >= retries then Lost(TimedOut) else Waiting(attempt + 1)
  }

  /** How the wait ends, how often the OACK went out, and the events left for the transfer. */
  datatype Awaited = Awaited(result: Await, sends: nat, rest: seq<Event>)

  function AwaitRun(retries: nat, attempt: nat, inbox: seq<Event>): Awaited
    decreases |inbox|
  {
    if inbox == [] then Awaited(Waiting(attempt), 1, [])
    else
      match AwaitHears(retries, attempt, Hear(inbox[0]))
      case Waiting(next) =>
        var later := AwaitRun(retries, next, inbox[1..]);
        later.(sends := later.sends + 1)
      case result => Awaited(result, 1, inbox[1..])
  }

  /** The same outcome after `n` more sends. */
  function LaterBy(wait: Awaited, n: nat): Awaited {
    wait.(sends := wait.sends + n)
  }

  /** One event of the wait. */
  lemma AwaitUnfolds(retries: nat, attempt: nat, inbox: seq<Event>, n: nat)
    ensures inbox == [] ==> LaterBy(AwaitRun(retries, attempt, inbox), n) == Awaited(Waiting(attempt), n + 1, [])
    ensures inbox != [] ==>
              var next := AwaitHears(retries, attempt, Hear(inbox[0]));
              LaterBy(AwaitRun(retries, attempt, inbox), n)
              == if next.Waiting? then LaterBy(AwaitRun(retries, next.attempt, inbox[1..]), n + 1)
                 else Awaited(next, n + 1, inbox[1..])
  {
  }

  /** What one datagram does to the wait: ACK(0) ends it, an ERROR fails it, anything else uses up an
      attempt. */
  lemma OneWait(retries: nat, attempt: nat, payload: bytes)
    ensures var next := AwaitHears(retries, attempt, Hear(Datagram(payload)));
            && (next == Acked <==> Packets.Decode(payload) == Ok(Packets.Ack(0)))
            && (next == Lost(Failed) <==> Packets.IsError(payload))
            && (next == Lost(TimedOut) <==>
                  attempt >= retries && !Packets.IsError(payload) && Packets.Decode(payload) != Ok(Packets.Ack(0)))
            && (next.Waiting? ==> next.attempt == attempt + 1)
  {
    HeardExactly(payload);
  }

  /** The `i`-th event ends the wait: it is the first ACK(0), and no ERROR came before it. */
  ghost predicate ConfirmedAt(inbox: seq<Event>, i: nat)
    requires i < |inbox|
  {
    Hear(inbox[i]) == GotAck(0) && forall j :: 0 <= j < i ==> Hear(inbox[j]) != GotAck(0) && Hear(inbox[j]) != GotError
  }

  /** The wait succeeds if and only if ACK(0), and no ERROR before it, is among the events the
      remaining attempts can see; then everything after it is left to the transfer. */
  lemma {:induction false} AwaitedIff(retries: nat, attempt: nat, inbox: seq<Event>)
    requires attempt <= retries
    ensures AwaitRun(retries, attempt, inbox).result == Acked
            <==> exists i: nat :: i < |inbox| && i <= retries - attempt && ConfirmedAt(inbox, i)
    ensures forall i: nat :: i < |inbox| && i <= retries - attempt && ConfirmedAt(inbox, i) ==>
              AwaitRun(retries, attempt, inbox) == Awaited(Acked, i + 1, inbox[i + 1..])
    decreases |inbox|
  {
    if inbox != [] {
      var first := Hear(inbox[0]);
      if first == GotAck(0) {
        assert ConfirmedAt(inbox, 0);
      } else if first != GotError && attempt < retries {
        AwaitedIff(retries, attempt + 1, inbox[1..]);
        AwaitUnfolds(retries, attempt, inbox, 0);
        AwaitedLater(retries - attempt, inbox, inbox[1..], AwaitRun(retries, attempt, inbox), AwaitRun(retries, attempt + 1, inbox[1..]));
      } else if first != GotError {
        forall i: nat | i < |inbox| ensures ConfirmedAt(inbox, i) ==> i > 0 {
          ConfirmedLater(inbox, i);
        }
      }
    }
  }

  /** From the rest of the wait to the whole of it. */
  lemma AwaitedLater(left: nat, inbox: seq<Event>, rest: seq<Event>, all: Awaited, later: Awaited)
    requires left > 0 && inbox != [] && rest == inbox[1..] && all == later.(sends := later.sends + 1)
    requires Hear(inbox[0]) != GotAck(0) && Hear(inbox[0]) != GotError
    requires later.result == Acked <==> exists i: nat :: i < |rest| && i <= left - 1 && ConfirmedAt(rest, i)
    requires forall i: nat :: i < |rest| && i <= left - 1 && ConfirmedAt(rest, i) ==> later == Awaited(Acked, i + 1, rest[i + 1..])
    ensures all.result == Acked <==> exists i: nat :: i < |inbox| && i <= left && ConfirmedAt(inbox, i)
    ensures forall i: nat :: i < |inbox| && i <= left && ConfirmedAt(inbox, i) ==> all == Awaited(Acked, i + 1, inbox[i + 1..])
  {
    forall i: nat | i < |inbox|
      ensures ConfirmedAt(inbox, i) <==> i > 0 && ConfirmedAt(rest, i - 1)
      ensures i > 0 ==> rest[i..] == inbox[i + 1..]
    {
      ConfirmedLater(inbox, i);
    }
    if i: nat :| i < |rest| && i <= left - 1 && ConfirmedAt(rest, i) {
      assert ConfirmedAt(inbox, i + 1);
    }
  }

  lemma ConfirmedLater(inbox: seq<Event>, i: nat)
    requires i < |inbox| && Hear(inbox[0]) != GotAck(0) && Hear(inbox[0]) != GotError
    ensures ConfirmedAt(inbox, i) <==> i > 0 && ConfirmedAt(inbox[1..], i - 1)
  {
    if i > 0 {
      forall j | 0 <= j < i - 1 ensures inbox[1..][j] == inbox[j + 1] {
      }
      if ConfirmedAt(inbox[1..], i - 1) {
        forall j | 0 <= j < i ensures Hear(inbox[j]) != GotAck(0) && Hear(inbox[j]) != GotError {
          if j > 0 {
            assert inbox[1..][j - 1] == inbox[j];
          }
        }
      }
    }
  }

  /** The confirmation is the datagram 00 04 00 00, and no other acknowledgement. */
  lemma OnlyAck0Confirms(retries: nat, n: u16)
    ensures AwaitRun(retries, 0, [Datagram(AckDatagram(n))]).result == Acked <==> n == 0
    ensures AckDatagram(0) == [0, 4, 0, 0]
  {
    HeardAsSent(n, []);
    Packets.TransferBytes(0, []);
    var inbox := [Datagram(AckDatagram(n))];
    if n == 0 {
      assert ConfirmedAt(inbox, 0);
    }
    AwaitedIff(retries, 0, inbox);
  }

  function Silences(n: nat): seq<Event> {
    if n == 0 then [] else [Silence] + Silences(n - 1)
  }

  /** With no answer the OACK goes out retries + 1 times, not more and not less. */
  lemma {:induction false} AwaitPatience(retries: nat, attempt: nat, k: nat)
    requires attempt <= retries
    ensures var wait := AwaitRun(retries, attempt, Silences(k));
            && wait.result == (if attempt + k <= retries then Waiting(attempt + k) else Lost(TimedOut))
            && wait.sends == Min(k, retries - attempt) + 1
    decreases k
  {
    if k > 0 {
      assert Silences(k)[1..] == Silences(k - 1);
      if attempt < retries {
        AwaitPatience(retries, attempt + 1, k - 1);
      }
    }
  }

  /** The OACK goes out at most retries + 1 times. */
  lemma {:induction false} AwaitBounded(retries: nat, attempt: nat, inbox: seq<Event>)
    requires attempt <= retries
    ensures AwaitRun(retries, attempt, inbox).sends <= retries + 1 - attempt
    decreases |inbox|
  {
    if inbox != [] && attempt < retries {
      AwaitBounded(retries, attempt + 1, inbox[1..]);
    }
  }

  function Repeated(datagram: bytes, n: nat): seq<bytes> {
    if n == 0 then [] else [datagram] + Repeated(datagram, n - 1)
  }

  lemma Regroup(a: seq<bytes>, b: seq<bytes>, d: seq<bytes>)
    ensures a + (b + d) == a + b + d
    ensures [] + a == a
  {
  }

  // ---------- the sender ----------

  function QueueOf(c: Setup, base: nat, sent: nat): (q: Queue)
    requires base <= sent <= |c.blocks|
    ensures |q| == sent - base
    ensures forall k :: 0 <= k < |q| ==> q[k] == (BlockNumber(base + k), c.blocks[base + k])
  {
    seq(sent - base, k requires 0 <= k < sent - base => (BlockNumber(base + k), c.blocks[base + k]))
  }

  lemma NumberShift(base: nat, i: nat)
    ensures BlockNumber(base + i) == (BlockNumber(base) + i) % 0x1_0000
  {
    DropTurns((base + 1) / 0x1_0000, (base + 1) % 0x1_0000 + i);
  }

  /** Full turns do not change a number. */
  lemma {:induction false} DropTurns(turns: nat, x: nat)
    ensures (turns * 0x1_0000 + x) % 0x1_0000 == x % 0x1_0000
  {
    if turns > 0 {
      DropTurns(turns - 1, x);
      OneTurn((turns - 1) * 0x1_0000 + x);
    }
  }

  lemma OneTurn(x: nat)
    ensures (x + 0x1_0000) % 0x1_0000 == x % 0x1_0000
  {
  }

  lemma QueueConsecutive(c: Setup, base: nat, sent: nat)
    requires base <= sent <= |c.blocks|
    ensures Consecutive(QueueOf(c, base, sent))
  {
    var q := QueueOf(c, base, sent);
    forall i | 0 <= i < |q|
      ensures q[i].0 == (q[0].0 + i) % 0x1_0000
    {
      NumberShift(base, i);
    }
  }

  lemma QueuePush(c: Setup, base: nat, sent: nat)
    requires base <= sent < |c.blocks|
    ensures QueueOf(c, base, sent) + [(BlockNumber(sent), c.blocks[sent])] == QueueOf(c, base, sent + 1)
    ensures WrapAdd(BlockNumber(sent), 1) == BlockNumber(sent + 1)
  {
  }

  lemma QueueDrop(c: Setup, base: nat, sent: nat, k: nat)
    requires base + k <= sent <= |c.blocks|
    ensures QueueOf(c, base, sent)[k..] == QueueOf(c, base + k, sent)
  {
  }

  function WindowDatagrams(q: Queue): (w: seq<bytes>)
    ensures |w| == |q|
    ensures forall k :: 0 <= k < |q| ==> w[k] == DataDatagram(q[k].0, q[k].1)
  {
    seq(|q|, k requires 0 <= k < |q| => DataDatagram(q[k].0, q[k].1))
  }

  /** The server, unlike the client, tells its peer that it gave up. */
  function Farewell(isServer: bool, status: Status): seq<bytes> {
    if isServer && status == TimedOut then [TimedOutDatagram()] else []
  }

  function SenderRun(c: Setup, s: SenderState, inbox: seq<Event>): SenderState
    requires s.base <= s.sent
    decreases |inbox|
  {
    if s.status != Running || inbox == [] then s
    else SenderRun(c, SenderStep(c, s, Hear(inbox[0])), inbox[1..])
  }

  function SenderSends(c: Setup, isServer: bool, s: SenderState, inbox: seq<Event>): seq<bytes>
    requires s.base <= s.sent
    decreases |inbox|
  {
    if s.status != Running || s.sent > |c.blocks| then Farewell(isServer, s.status)
    else
      WindowDatagrams(QueueOf(c, s.base, s.sent)) +
      (if inbox == [] then [] else SenderSends(c, isServer, SenderStep(c, s, Hear(inbox[0])), inbox[1..]))
  }

  /** The sender as it starts a round, before the queue is refilled. */
  function RoundStart(c: Setup, base: nat): SenderState {
    SenderState(base, Max(base, Min(base + c.window, |c.blocks|)), 0, if base >= |c.blocks| then Done else Running)
  }

  /** What the queue loop pops is what the step function prescribes. */
  lemma AckConsumes(c: Setup, base: nat, sent: nat, attempt: nat, ack: u16)
    requires base < sent == Min(base + c.window, |c.blocks|)
    ensures var k := PoppedFrom(QueueOf(c, base, sent), ack, c.window);
            && k <= sent - base
            && SenderStep(c, SenderState(base, sent, attempt, Running), GotAck(ack))
               == if k == 0 then SenderState(base, sent, attempt, Running) else RoundStart(c, base + k)
  {
    assert QueueOf(c, base, sent)[0].0 == BlockNumber(base);
  }

  /** After popping, the queue is the window from the new base on. */
  lemma QueueAfterAck(c: Setup, base: nat, sent: nat, q: Queue, k: nat, ack: u16)
    requires base <= sent <= |c.blocks| && q == QueueOf(c, base, sent) && k == PoppedFrom(q, ack, c.window)
    ensures Consecutive(q) && base + k <= sent && q[k..] == QueueOf(c, base + k, sent)
  {
    QueueConsecutive(c, base, sent);
    QueueDrop(c, base, sent, k);
  }

  /** One event of a run: the window goes out, then the event is handled. */
  lemma SenderUnfolds(c: Setup, isServer: bool, s: SenderState, inbox: seq<Event>, sent: seq<bytes>, sent': seq<bytes>)
    requires s.status == Running && s.base <= s.sent <= |c.blocks|
    requires sent' == sent + WindowDatagrams(QueueOf(c, s.base, s.sent))
    ensures inbox == [] ==> SenderRun(c, s, inbox) == s && sent + SenderSends(c, isServer, s, inbox) == sent'
    ensures inbox != [] ==>
              var s' := SenderStep(c, s, Hear(inbox[0]));
              && SenderRun(c, s, inbox) == SenderRun(c, s', inbox[1..])
              && sent + SenderSends(c, isServer, s, inbox) == sent' + SenderSends(c, isServer, s', inbox[1..])
  {
    var w := WindowDatagrams(QueueOf(c, s.base, s.sent));
    if inbox == [] {
      assert w + [] == w;
    } else {
      var rest := SenderSends(c, isServer, SenderStep(c, s, Hear(inbox[0])), inbox[1..]);
      assert sent + (w + rest) == (sent + w) + rest;
    }
  }

  lemma SenderStopped(c: Setup, isServer: bool, s: SenderState, inbox: seq<Event>)
    requires s.status != Running && s.base <= s.sent
    ensures SenderRun(c, s, inbox) == s
    ensures SenderSends(c, isServer, s, inbox) == Farewell(isServer, s.status)
  {
  }

  function Windows(w: seq<bytes>, n: nat): seq<bytes> {
    if n == 0 then [] else w + Windows(w, n - 1)
  }

  /** Without an answer a sender gives up after exactly the retries it has left. */
  lemma {:induction false} SenderPatience(c: Setup, s: SenderState, k: nat)
    requires s.status == Running && s.base <= s.sent && s.attempt <= c.sendRetries
    ensures var end := SenderRun(c, s, Silences(k));
            && end.base == s.base && end.sent == s.sent
            && end.status == if s.attempt + k <= c.sendRetries then Running else TimedOut
    decreases k
  {
    if k > 0 {
      assert Silences(k)[1..] == Silences(k - 1);
      if s.attempt < c.sendRetries {
        SenderPatience(c, s.(attempt := s.attempt + 1), k - 1);
      }
    }
  }

  /** Meanwhile it repeats its window once for every retry. */
  lemma SenderRepeats(c: Setup, isServer: bool, s: SenderState, k: nat)
    requires s.status == Running && s.base <= s.sent <= |c.blocks| && s.attempt <= c.sendRetries
    ensures SenderSends(c, isServer, s, Silences(k))
            == Windows(WindowDatagrams(QueueOf(c, s.base, s.sent)), Min(k, c.sendRetries - s.attempt) + 1)
               + Farewell(isServer, SenderRun(c, s, Silences(k)).status)
  {
    var w, n := WindowDatagrams(QueueOf(c, s.base, s.sent)), Min(k, c.sendRetries - s.attempt);
    var farewell := Farewell(isServer, SenderRun(c, s, Silences(k)).status);
    SenderPatience(c, s, k);
    RepeatsWindow(c, isServer, s, k, Silences(k), n, w, farewell, Windows(w, n + 1) + farewell);
  }

  lemma {:induction false} RepeatsWindow(c: Setup, isServer: bool, s: SenderState, k: nat, inbox: seq<Event>, n: nat,
                                         w: seq<bytes>, farewell: seq<bytes>, all: seq<bytes>)
    requires s.status == Running && s.base <= s.sent <= |c.blocks| && s.attempt <= c.sendRetries
    requires inbox == Silences(k) && n == Min(k, c.sendRetries - s.attempt)
    requires w == WindowDatagrams(QueueOf(c, s.base, s.sent)) && all == Windows(w, n + 1) + farewell
    requires farewell == Farewell(isServer, if s.attempt + k <= c.sendRetries then Running else TimedOut)
    ensures SenderSends(c, isServer, s, inbox) == all
    decreases k
  {
    if k == 0 {
      NothingHeard(c, isServer, s, w);
      WindowOnce(w, farewell);
    } else if n > 0 {
      RepeatsWindow(c, isServer, s.(attempt := s.attempt + 1), k - 1, Silences(k - 1), n - 1, w, farewell, Windows(w, n) + farewell);
      RepeatsOnce(c, isServer, s, s.(attempt := s.attempt + 1), inbox, Silences(k - 1), n, w, farewell);
    } else {
      SenderStopped(c, isServer, s.(status := TimedOut), Silences(k - 1));
      NoWindow(w, farewell);
      RepeatsOnce(c, isServer, s, s.(status := TimedOut), inbox, Silences(k - 1), n, w, farewell);
    }
  }

  lemma RepeatsOnce(c: Setup, isServer: bool, s: SenderState, s': SenderState, inbox: seq<Event>, rest: seq<Event>, n: nat,
                    w: seq<bytes>, farewell: seq<bytes>)
    requires s.status == Running && s.base <= s.sent <= |c.blocks| && inbox == [Silence] + rest
    requires w == WindowDatagrams(QueueOf(c, s.base, s.sent))
    requires s' == SenderStep(c, s, Timeout) && SenderSends(c, isServer, s', rest) == Windows(w, n) + farewell
    ensures SenderSends(c, isServer, s, inbox) == Windows(w, n + 1) + farewell
  {
    SendsThen(c, isServer, s, Silence, inbox, rest, w, Windows(w, n) + farewell);
    WindowsMore(w, n, Windows(w, n) + farewell, farewell);
  }

  lemma NothingHeard(c: Setup, isServer: bool, s: SenderState, w: seq<bytes>)
    requires s.status == Running && s.base <= s.sent <= |c.blocks|
    requires w == WindowDatagrams(QueueOf(c, s.base, s.sent))
    ensures SenderSends(c, isServer, s, []) == w + []
  {
  }

  lemma SendsThen(c: Setup, isServer: bool, s: SenderState, e: Event, inbox: seq<Event>, rest: seq<Event>,
                  w: seq<bytes>, later: seq<bytes>)
    requires s.status == Running && s.base <= s.sent <= |c.blocks| && inbox == [e] + rest
    requires w == WindowDatagrams(QueueOf(c, s.base, s.sent))
    requires later == SenderSends(c, isServer, SenderStep(c, s, Hear(e)), rest)
    ensures SenderSends(c, isServer, s, inbox) == w + later
  {
    assert inbox[1..] == rest;
  }

  lemma WindowsMore(w: seq<bytes>, n: nat, later: seq<bytes>, farewell: seq<bytes>)
    requires later == Windows(w, n) + farewell
    ensures w + later == Windows(w, n + 1) + farewell
  {
  }

  lemma WindowOnce(w: seq<bytes>, farewell: seq<bytes>)
    requires farewell == []
    ensures w + [] == Windows(w, 1) + farewell
  {
  }

  lemma NoWindow(w: seq<bytes>, farewell: seq<bytes>)
    ensures Windows(w, 0) + farewell == farewell
  {
  }

  /** The ERROR "timed out", after which nothing follows. */
  function Parting(isServer: bool, status: Status): seq<bytes> {
    if isServer && status == TimedOut then [[0, 5, 0, 0] + Options.Ascii("timed out") + [0]] else []
  }

  lemma WindowIsData(c: Setup, base: nat, sent: nat)
    requires base <= sent <= |c.blocks|
    ensures forall d :: d in WindowDatagrams(QueueOf(c, base, sent)) ==>
              Packets.Decode(d).Ok? && Packets.Decode(d).value.Data?
  {
    var w := WindowDatagrams(QueueOf(c, base, sent));
    forall d | d in w ensures Packets.Decode(d).Ok? && Packets.Decode(d).value.Data? {
      var k :| 0 <= k < |w| && w[k] == d;
      Packets.DecodePlain(Packets.Data(BlockNumber(base + k), c.blocks[base + k]));
    }
  }

  /** What leaves a sender is DATA, except that a server which gives up says so at the very end. */
  lemma {:induction false} SenderSendsOnly(c: Setup, isServer: bool, s: SenderState, inbox: seq<Event>) returns (blocks: seq<bytes>)
    requires s.base <= s.sent <= |c.blocks|
    ensures forall d :: d in blocks ==> Packets.Decode(d).Ok? && Packets.Decode(d).value.Data?
    ensures SenderSends(c, isServer, s, inbox) == blocks + Parting(isServer, SenderRun(c, s, inbox).status)
    decreases |inbox|
  {
    TimedOutBytes();
    blocks := [];
    if s.status == Running {
      var w := WindowDatagrams(QueueOf(c, s.base, s.sent));
      WindowIsData(c, s.base, s.sent);
      blocks := w;
      if inbox != [] {
        var later := SenderSendsOnly(c, isServer, SenderStep(c, s, Hear(inbox[0])), inbox[1..]);
        blocks := w + later;
        Regroup(w, later, Parting(isServer, SenderRun(c, s, inbox).status));
      }
    }
  }

  // ---------- the receiver ----------

  function AckDatagrams(numbers: seq<u16>): seq<bytes> {
    seq(|numbers|, k requires 0 <= k < |numbers| => AckDatagram(numbers[k]))
  }

  function ReceiverHears(c: Setup, r: ReceiverState, inbox: seq<Event>): ReceiverState
    decreases |inbox|
  {
    if r.status != Running || inbox == [] then r
    else ReceiverHears(c, ReceiverStep(c, r, Hear(inbox[0])).state, inbox[1..])
  }

  function ReceiverSends(c: Setup, isServer: bool, r: ReceiverState, inbox: seq<Event>): seq<bytes>
    decreases |inbox|
  {
    if r.status != Running then Farewell(isServer, r.status)
    else if inbox == [] then []
    else
      var reply := ReceiverStep(c, r, Hear(inbox[0]));
      AckDatagrams(reply.acks) + ReceiverSends(c, isServer, reply.state, inbox[1..])
  }

  /** One event of a receiver's run. */
  lemma ReceiverUnfolds(c: Setup, isServer: bool, r: ReceiverState, inbox: seq<Event>, sent: seq<bytes>)
    requires r.status == Running
    ensures inbox == [] ==> ReceiverHears(c, r, inbox) == r && sent + ReceiverSends(c, isServer, r, inbox) == sent
    ensures inbox != [] ==>
              var reply := ReceiverStep(c, r, Hear(inbox[0]));
              && ReceiverHears(c, r, inbox) == ReceiverHears(c, reply.state, inbox[1..])
              && sent + ReceiverSends(c, isServer, r, inbox)
                 == (sent + AckDatagrams(reply.acks)) + ReceiverSends(c, isServer, reply.state, inbox[1..])
  {
    if inbox != [] {
      var reply := ReceiverStep(c, r, Hear(inbox[0]));
      var rest := ReceiverSends(c, isServer, reply.state, inbox[1..]);
      assert sent + (AckDatagrams(reply.acks) + rest) == (sent + AckDatagrams(reply.acks)) + rest;
    }
  }

  lemma ReceiverStopped(c: Setup, isServer: bool, r: ReceiverState, inbox: seq<Event>)
    requires r.status != Running
    ensures ReceiverHears(c, r, inbox) == r
    ensures ReceiverSends(c, isServer, r, inbox) == Farewell(isServer, r.status)
  {
  }

  /** The steps of a receiver's run, in order. */
  function ReceiverReplies(c: Setup, r: ReceiverState, inbox: seq<Event>): seq<Reply>
    decreases |inbox|
  {
    if r.status != Running || inbox == [] then []
    else
      var reply := ReceiverStep(c, r, Hear(inbox[0]));
      [reply] + ReceiverReplies(c, reply.state, inbox[1..])
  }

  function AllAcks(replies: seq<Reply>): seq<u16> {
    if replies == [] then [] else replies[0].acks + AllAcks(replies[1..])
  }

  ghost predicate ReplyConsistent(c: Setup, reply: Reply) {
    Consistent(c, reply.state) && forall a :: a in reply.acks ==> a == AckNumber(reply.state.got)
  }

  lemma {:induction false} RepliesConsistent(c: Setup, r: ReceiverState, inbox: seq<Event>)
    requires c.window > 0 && Consistent(c, r)
    ensures forall reply :: reply in ReceiverReplies(c, r, inbox) ==> ReplyConsistent(c, reply)
    ensures Consistent(c, ReceiverHears(c, r, inbox))
    decreases |inbox|
  {
    if r.status == Running && inbox != [] {
      var reply := ReceiverStep(c, r, Hear(inbox[0]));
      ConsistentStep(c, r, Hear(inbox[0]));
      RepliesConsistent(c, reply.state, inbox[1..]);
    }
  }

  lemma AcksConcat(a: seq<u16>, b: seq<u16>)
    ensures AckDatagrams(a + b) == AckDatagrams(a) + AckDatagrams(b)
  {
  }

  /** What a receiver sends is the acknowledgements of its steps, and the parting error if any. */
  lemma {:induction false} RepliesSent(c: Setup, isServer: bool, r: ReceiverState, inbox: seq<Event>)
    ensures ReceiverSends(c, isServer, r, inbox)
            == AckDatagrams(AllAcks(ReceiverReplies(c, r, inbox))) + Farewell(isServer, ReceiverHears(c, r, inbox).status)
    decreases |inbox|
  {
    if r.status == Running && inbox != [] {
      var reply := ReceiverStep(c, r, Hear(inbox[0]));
      var later := ReceiverReplies(c, reply.state, inbox[1..]);
      RepliesSent(c, isServer, reply.state, inbox[1..]);
      assert ([reply] + later)[1..] == later;
      AcksConcat(reply.acks, AllAcks(later));
    }
  }

  /** The receiver's own invariant, over everything a network or a peer may send it: after every
      step the state is consistent, and every acknowledgement it puts on the wire names the last
      block it had accepted by then. */
  lemma ReceiverAlwaysConsistent(c: Setup, isServer: bool, inbox: seq<Event>)
    requires c.window > 0
    ensures var replies := ReceiverReplies(c, ReceiverStart(), inbox);
            var end := ReceiverHears(c, ReceiverStart(), inbox);
            && (forall reply :: reply in replies ==> ReplyConsistent(c, reply))
            && ReceiverSends(c, isServer, ReceiverStart(), inbox) == AckDatagrams(AllAcks(replies)) + Farewell(isServer, end.status)
            && Consistent(c, end)
  {
    RepliesConsistent(c, ReceiverStart(), inbox);
    RepliesSent(c, isServer, ReceiverStart(), inbox);
  }

  /** Without an answer a receiver repeats its last acknowledgement exactly once for every retry it
      has left and then gives up. */
  lemma {:induction false} ReceiverPatience(c: Setup, isServer: bool, r: ReceiverState, k: nat)
    requires r.status == Running && r.attempt <= c.recvRetries
    ensures var end := ReceiverHears(c, r, Silences(k));
            && (end.status == if r.attempt + k <= c.recvRetries then Running else TimedOut)
            && end.got == r.got && end.disk == r.disk && end.next == r.next && end.inWindow == r.inWindow
            && ReceiverSends(c, isServer, r, Silences(k))
               == Repeated(AckDatagram(r.lastAcked), Min(k, c.recvRetries - r.attempt)) + Farewell(isServer, end.status)
    decreases k
  {
    if k > 0 {
      var r' := ReceiverStep(c, r, Timeout).state;
      assert Silences(k)[1..] == Silences(k - 1);
      if r.attempt < c.recvRetries {
        ReceiverPatience(c, isServer, r', k - 1);
        OneAck(r.lastAcked);
        Regroup([AckDatagram(r.lastAcked)], Repeated(AckDatagram(r.lastAcked), Min(k, c.recvRetries - r.attempt) - 1),
                Farewell(isServer, ReceiverHears(c, r, Silences(k)).status));
      } else {
        ReceiverStopped(c, isServer, r', Silences(k - 1));
      }
    }
  }

  /** Any DATA datagram restores all retries: a receiver that goes on after it endures exactly
      `recvRetries` silences. */
  lemma DataRestoresPatience(c: Setup, r: ReceiverState, number: u16, payload: bytes, k: nat)
    requires r.status == Running
    ensures var r' := ReceiverHears(c, r, [Datagram(DataDatagram(number, payload))]);
            r'.status == Running ==>
              (ReceiverHears(c, r', Silences(k)).status == if k <= c.recvRetries then Running else TimedOut)
  {
    HeardAsSent(number, payload);
    var r' := ReceiverHears(c, r, [Datagram(DataDatagram(number, payload))]);
    OneHeard(c, r, Datagram(DataDatagram(number, payload)));
    if r'.status == Running {
      ReceiverPatience(c, false, r', k);
    }
  }

  lemma OneHeard(c: Setup, r: ReceiverState, e: Event)
    requires r.status == Running
    ensures ReceiverHears(c, r, [e]) == ReceiverStep(c, r, Hear(e)).state
  {
    assert [e][1..] == [];
  }

  // ---------- one acknowledgement per window ----------

  /** DATA datagrams numbered consecutively from `number` on. */
  function InOrder(number: u16, payloads: seq<bytes>): seq<Event>
    decreases |payloads|
  {
    if payloads == [] then []
    else [Datagram(DataDatagram(number, payloads[0]))] + InOrder(WrapAdd(number, 1), payloads[1..])
  }

  ghost predicate FullBlocks(c: Setup, payloads: seq<bytes>) {
    forall i :: 0 <= i < |payloads| ==> |payloads[i]| >= c.size
  }

  /** The number of the last of them. */
  function LastNumber(number: u16, payloads: seq<bytes>): u16
    decreases |payloads|
  {
    if |payloads| <= 1 then number else LastNumber(WrapAdd(number, 1), payloads[1..])
  }

  lemma {:induction false} LastNumberIs(number: u16, payloads: seq<bytes>)
    requires payloads != []
    ensures LastNumber(number, payloads) == (number + |payloads| - 1) % 0x1_0000
    decreases |payloads|
  {
    if |payloads| > 1 {
      LastNumberIs(WrapAdd(number, 1), payloads[1..]);
      NumberNext(number, |payloads| - 1);
    }
  }

  /** Expected full blocks are acknowledged exactly when they complete a window, by the number of
      the last of them, and not before. */
  lemma {:induction false} WindowAcked(c: Setup, r: ReceiverState, payloads: seq<bytes>, inbox: seq<Event>, acks: seq<bytes>)
    requires r.status == Running && r.inWindow + |payloads| <= c.window && r.inWindow < c.window
    requires FullBlocks(c, payloads) && inbox == InOrder(r.next, payloads)
    requires acks == if r.inWindow + |payloads| < c.window then [] else [AckDatagram(LastNumber(r.next, payloads))]
    ensures ReceiverSends(c, false, r, inbox) == acks
    decreases |payloads|
  {
    if payloads != [] {
      var more, next := payloads[1..], WrapAdd(r.next, 1);
      var rest := InOrder(next, more);
      if r.inWindow + 1 < c.window {
        var r' := Accepted(c, r, r.next, payloads[0]);
        assert r'.next == next;
        WindowAcked(c, r', more, rest, acks);
        WindowGrows(c, r, payloads[0], inbox, rest, acks);
      } else {
        WindowCompleted(c, r, payloads[0], inbox, rest);
      }
    }
  }

  lemma WindowGrows(c: Setup, r: ReceiverState, payload: bytes, inbox: seq<Event>, rest: seq<Event>, later: seq<bytes>)
    requires r.status == Running && |payload| >= c.size && r.inWindow + 1 < c.window
    requires inbox == [Datagram(DataDatagram(r.next, payload))] + rest
    requires later == ReceiverSends(c, false, Accepted(c, r, r.next, payload), rest)
    ensures ReceiverSends(c, false, r, inbox) == later
  {
    HeardAsSent(r.next, payload);
    OneAck(r.next);
    ReceiverSendsThen(c, r, Datagram(DataDatagram(r.next, payload)), rest, ReceiverStep(c, r, GotData(r.next, payload)), later);
    Regroup(later, [], []);
  }

  lemma WindowCompleted(c: Setup, r: ReceiverState, payload: bytes, inbox: seq<Event>, rest: seq<Event>)
    requires r.status == Running && |payload| >= c.size && r.inWindow + 1 >= c.window && rest == []
    requires inbox == [Datagram(DataDatagram(r.next, payload))] + rest
    ensures ReceiverSends(c, false, r, inbox) == [AckDatagram(r.next)]
  {
    HeardAsSent(r.next, payload);
    OneAck(r.next);
    ReceiverSendsThen(c, r, Datagram(DataDatagram(r.next, payload)), rest, ReceiverStep(c, r, GotData(r.next, payload)), []);
  }

  lemma NumberNext(number: u16, n: nat)
    requires n > 0
    ensures (WrapAdd(number, 1) + n - 1) % 0x1_0000 == (number + n) % 0x1_0000
  {
    if number == 0xFFFF {
      OneTurn(n - 1);
    }
  }

  lemma ReceiverSendsThen(c: Setup, r: ReceiverState, e: Event, rest: seq<Event>, reply: Reply, later: seq<bytes>)
    requires r.status == Running && reply == ReceiverStep(c, r, Hear(e)) && later == ReceiverSends(c, false, reply.state, rest)
    ensures ReceiverSends(c, false, r, [e] + rest) == AckDatagrams(reply.acks) + later
  {
    assert ([e] + rest)[1..] == rest;
  }

  /** An unexpected block is answered with the last acknowledgement and restarts the count: the
      next acknowledgement comes after a whole window of expected blocks. */
  lemma UnexpectedRestarts(c: Setup, r: ReceiverState, number: u16, payload: bytes, payloads: seq<bytes>)
    requires r.status == Running && c.window > 0 && number != r.next && |payloads| <= c.window
    requires FullBlocks(c, payloads)
    ensures ReceiverSends(c, false, r, [Datagram(DataDatagram(number, payload))] + InOrder(r.next, payloads))
            == [AckDatagram(r.lastAcked)] + if |payloads| < c.window then [] else [AckDatagram(LastNumber(r.next, payloads))]
  {
    var r' := r.(attempt := 0, inWindow := 0);
    var inbox, later := InOrder(r.next, payloads), if |payloads| < c.window then [] else [AckDatagram(LastNumber(r.next, payloads))];
    WindowAcked(c, r', payloads, inbox, later);
    UnexpectedHeard(c, r, r', number, payload, inbox, later);
  }

  lemma UnexpectedHeard(c: Setup, r: ReceiverState, r': ReceiverState, number: u16, payload: bytes, rest: seq<Event>, later: seq<bytes>)
    requires r.status == Running && number != r.next && r' == r.(attempt := 0, inWindow := 0)
    requires later == ReceiverSends(c, false, r', rest)
    ensures ReceiverSends(c, false, r, [Datagram(DataDatagram(number, payload))] + rest) == [AckDatagram(r.lastAcked)] + later
  {
    HeardAsSent(number, payload);
    OneAck(r.lastAcked);
    ReceiverSendsThen(c, r, Datagram(DataDatagram(number, payload)), rest, Reply(r', [r.lastAcked]), later);
  }

  /** What leaves a receiver is ACK, except that a server which gives up says so at the very end. */
  lemma {:induction false} ReceiverSendsOnly(c: Setup, isServer: bool, r: ReceiverState, inbox: seq<Event>) returns (acks: seq<bytes>)
    ensures forall d :: d in acks ==> Packets.Decode(d).Ok? && Packets.Decode(d).value.Ack?
    ensures ReceiverSends(c, isServer, r, inbox) == acks + Parting(isServer, ReceiverHears(c, r, inbox).status)
    decreases |inbox|
  {
    TimedOutBytes();
    acks := [];
    if r.status == Running && inbox != [] {
      var reply := ReceiverStep(c, r, Hear(inbox[0]));
      var later := ReceiverSendsOnly(c, isServer, reply.state, inbox[1..]);
      AcksAreAcks(reply.acks);
      acks := AckDatagrams(reply.acks) + later;
      Regroup(AckDatagrams(reply.acks), later, Parting(isServer, ReceiverHears(c, r, inbox).status));
    }
  }

  lemma AcksAreAcks(numbers: seq<u16>)
    ensures forall d :: d in AckDatagrams(numbers) ==> Packets.Decode(d).Ok? && Packets.Decode(d).value.Ack?
  {
    forall d | d in AckDatagrams(numbers) ensures Packets.Decode(d).Ok? && Packets.Decode(d).value.Ack? {
      var k :| 0 <= k < |numbers| && AckDatagrams(numbers)[k] == d;
      Packets.DecodePlain(Packets.Ack(numbers[k]));
    }
  }

  lemma OneAck(number: u16)
    ensures AckDatagrams([number]) == [AckDatagram(number)]
    ensures AckDatagrams([]) == []
  {
  }
}
