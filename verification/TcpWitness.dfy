/** Legal two-endpoint runs in which what is meant to hold does not. */
module TcpWitness {
  import opened Words
  import opened TcpTypes
  import opened TcpSpec
  import opened TcpRun
  import opened TcpNet
  import opened TcpStream
  import opened TcpTimer

  const LA := Endpoint(1, 1)
  const LB := Endpoint(2, 2)

  // ---------------------------------------------------------------- the handshake

  const SynP := Packet(LA, LB, 100, 0, SYN, 0, [])
  const SynAckP := Packet(LB, LA, 200, 101, SYNACK, BUFFER_SIZE, [])
  const AckP := Packet(LA, LB, 101, 201, ACK, 0, [])

  /** The active opener when the connection is established; its window is still 0. */
  function Active(): Tcb {
    Tcb(Established, LA, LB, Snd(100, 101, 101, BUFFER_SIZE, 200, 101, [], [SynP, AckP], [], {100, 101}),
        Fresh(LA, 0).rcv.(irs := 200, nxt := 201), 1000, 0, Measured(Unmeasured, 0), [Note(1, Done)])
  }

  /** The passive opener; the peer has offered it no window. */
  function Passive(): Tcb {
    Tcb(Established, LB, LA, Snd(200, 201, 201, 0, 101, 201, [], [SynAckP], [], {200, 201}),
        Fresh(LB, 0).rcv.(irs := 100, nxt := 101, wnd := BUFFER_SIZE), 1000, 0, Measured(Unmeasured, 0),
        [Note(0, Done)])
  }

  function Listening(): Tcb {
    Fresh(LB, 0).(timeout := 1000, state := Listen, log := [Note(0, Done)])
  }

  function Opening(): Tcb {
    Tcb(SynSent, LA, LB,
        Snd(100, 100, 101, 0, 0, 0, [Entry([], 100, SYN, 0, 0, 0, Some(1), OpenTrigger)], [SynP], [], {100, 101}),
        Fresh(LA, 0).rcv, 1000, 0, Unmeasured, [])
  }

  function Received(): Tcb {
    Tcb(SynReceived, LB, LA,
        Snd(200, 200, 201, 0, 0, 0, [Entry([], 200, SYNACK, 0, 0, 0, None, NoTrigger)], [SynAckP], [], {200, 201}),
        Fresh(LB, 0).rcv.(irs := 100, nxt := 101, wnd := BUFFER_SIZE), 1000, 0, Unmeasured, [Note(0, Done)])
  }

  lemma PassiveOpens()
    ensures Open(Fresh(LB, 0), 0, NOWHERE, false, 1000, 0, [true], 0) == Listening()
  {
  }

  lemma ActiveOpens()
    ensures Open(Fresh(LA, 0), 1, LB, true, 1000, 100, [true], 0) == Opening()
  {
    assert true in [true];
  }

  lemma SynArrives()
    ensures Arrive(Listening(), SynP, 200, 0, true) == Received()
  {
    var r := Synchronize(Listening().rcv, SynP);
    assert CopyAt(r.rx, 0, []) == r.rx;
  }

  lemma SynAckArrives()
    ensures Arrive(Opening(), SynAckP, 0, 0, true) == Active()
  {
  }

  lemma AckArrives()
    ensures Arrive(Received(), AckP, 0, 0, true) == Passive()
  {
  }

  /** A legal run from two fresh control blocks leads to `n`; the window is 0, as in the program. */
  predicate Reaches(ms: seq<Move>, n: Net) {
    LegalRun(Start2(LA, LB, 0), ms) && NetRun(Start2(LA, LB, 0), ms) == Some(n)
  }

  lemma OneMore(ms: seq<Move>, n: Net, m: Move, n': Net)
    requires Reaches(ms, n) && Legal(n, m) && NetStep(n, m) == Some(n')
    ensures Reaches(ms + [m], n')
  {
    assert (ms + [m])[..|ms|] == ms;
  }

  /** Both OPENs. */
  lemma OpensReach() returns (ms: seq<Move>)
    ensures Reaches(ms, Net(Opening(), Listening()))
  {
    var a, b := Fresh(LA, 0), Fresh(LB, 0);
    var passive := Move(false, OpenCall(0, NOWHERE, false, 1000, 0, [true]), 0);
    var active := Move(true, OpenCall(1, LB, true, 1000, 100, [true]), 0);
    PassiveOpens();
    ActiveOpens();
    ms := [];
    OneMore(ms, Net(a, b), passive, Net(a, Listening()));
    ms := ms + [passive];
    OneMore(ms, Net(a, Listening()), active, Net(Opening(), Listening()));
    ms := ms + [active];
  }

  /** And the three segments of the handshake. */
  lemma HandshakeReaches() returns (ms: seq<Move>)
    ensures Reaches(ms, Net(Active(), Passive()))
  {
    ms := OpensReach();
    var syn, synAck := Move(false, Segment(SynP, 200, true), 0), Move(true, Segment(SynAckP, 0, true), 0);
    var ack := Move(false, Segment(AckP, 0, true), 0);
    SynArrives();
    OneMore(ms, Net(Opening(), Listening()), syn, Net(Opening(), Received()));
    ms := ms + [syn];
    SynAckArrives();
    OneMore(ms, Net(Opening(), Received()), synAck, Net(Active(), Received()));
    ms := ms + [synAck];
    AckArrives();
    OneMore(ms, Net(Active(), Received()), ack, Net(Active(), Passive()));
    ms := ms + [ack];
  }

  // ---------------------------------------------------------------- overtaking

  function Text(sn: U32, data: seq<Byte>): Packet {
    Packet(LA, LB, sn, 201, ACK, 0, data)
  }

  function SentEntry(sn: U32, data: seq<Byte>, ch: Chan): Entry {
    Entry(data, sn, ACK, 0, 0, 0, Some(ch), SendTrigger)
  }

  const AckOfBoth := Packet(LB, LA, 201, 103, ACK, 65534, [])

  function Sent1(): Tcb {
    var d := Active().snd;
    Active().(snd := d.(nxt := 102, retx := [SentEntry(101, [1], 2)], out := d.out + [Text(101, [1])], sent := [1],
                        cuts := {100, 101, 102}))
  }

  function Sent2(): Tcb {
    var d := Sent1().snd;
    Sent1().(snd := d.(nxt := 103, retx := [SentEntry(101, [1], 2), SentEntry(102, [2], 3)],
                       out := d.out + [Text(102, [2])],
                       sent := [1, 2], cuts := {100, 101, 102, 103}))
  }

  function Overtook(): Tcb {
    var r := Passive().rcv;
    Passive().(rcv := r.(rx := CopyAt(r.rx, 0, [2]), rxLen := 1, nxt := 103, wnd := 65534),
               snd := Passive().snd.(out := [SynAckP, AckOfBoth]))
  }

  lemma SendsOne()
    ensures Send(Active(), 2, [1], [true], 0) == Sent1()
  {
    assert true in [true];
    assert {100, 101} + {102} == {100, 101, 102};
    assert [] + [1] == [1];
  }

  lemma SendsTwo()
    ensures Send(Sent1(), 3, [2], [true], 0) == Sent2()
  {
    assert true in [true];
    assert {100, 101, 102} + {103} == {100, 101, 102, 103};
    assert [1] + [2] == [1, 2];
  }

  lemma Overtakes()
    ensures Arrive(Passive(), Text(102, [2]), 0, 0, true) == Overtook()
  {
    var p := Text(102, [2]);
    assert [SynAckP] + [AckOfBoth] == [SynAckP, AckOfBoth];
    assert Accept(Passive().rcv, p) == Overtook().rcv;
    assert AckedState(Advance(Passive(), p, 0), p, 0) == Passive();
  }

  /** Two bytes are SENT, one by one; the second overtakes the first. */
  lemma OvertakingReaches() returns (ms: seq<Move>)
    ensures Reaches(ms, Net(Sent2(), Overtook()))
  {
    ms := HandshakeReaches();
    var one, two := Move(true, SendCall(2, [1], [true]), 0), Move(true, SendCall(3, [2], [true]), 0);
    var second := Move(false, Segment(Text(102, [2]), 0, true), 0);
    SendsOne();
    SendsTwo();
    OneMore(ms, Net(Active(), Passive()), one, Net(Sent1(), Passive()));
    ms := ms + [one];
    OneMore(ms, Net(Sent1(), Passive()), two, Net(Sent2(), Passive()));
    ms := ms + [two];
    Overtakes();
    OneMore(ms, Net(Sent2(), Passive()), second, Net(Sent2(), Overtook()));
    ms := ms + [second];
  }

  /** A legal run after which the bytes received are no prefix of the bytes sent. */
  lemma OvertakingLosesBytes() returns (ms: seq<Move>, n: Net)
    ensures Reaches(ms, n) && !(n.b.rcv.got + Buffered(n.b.rcv) <= n.a.snd.sent)
  {
    ms := OvertakingReaches();
    n := Net(Sent2(), Overtook());
    var bytes := n.b.rcv.got + Buffered(n.b.rcv);
    assert bytes == [2] && n.a.snd.sent[0] == 1;
  }

  /** One step on, the SEND whose byte was never received is answered "ok". */
  lemma AnsweredWithoutDelivery() returns (ms: seq<Move>, n: Net)
    ensures Reaches(ms, n) && n.a.snd.sent == [1, 2] && Note(2, Done) in n.a.log
    ensures n.b.rcv.got + Buffered(n.b.rcv) == [2]
  {
    ms := OvertakingReaches();
    var t := Arrive(Sent2(), AckOfBoth, 0, 0, true);
    var d := Sent2().snd;
    assert AckNotes(d.retx, 103) == [Note(2, Done), Note(3, Done)] by {
      assert d.retx[1..] == [SentEntry(102, [2], 3)] && d.retx[1..][1..] == [];
    }
    assert t.log == Sent2().log + [Note(2, Done), Note(3, Done)];
    assert t.log[1] == Note(2, Done) && t.snd.sent == [1, 2];
    var m := Move(true, Segment(AckOfBoth, 0, true), 0);
    n := Net(t, Overtook());
    OneMore(ms, Net(Sent2(), Overtook()), m, n);
    ms := ms + [m];
    assert n.b.rcv.got + Buffered(n.b.rcv) == [2];
  }

  // ---------------------------------------------------------------- a partial drain

  function SentThree(): Tcb {
    var d := Active().snd;
    Active().(snd := d.(nxt := 104, retx := [SentEntry(101, [1, 2, 3], 2)], out := d.out + [Text(101, [1, 2, 3])],
                        sent := [1, 2, 3], cuts := {100, 101, 104}))
  }

  function StoredThree(): Tcb {
    var r := Passive().rcv;
    Passive().(rcv := r.(rx := CopyAt(r.rx, 0, [1, 2, 3]), rxLen := 3, nxt := 104, wnd := 65532),
               snd := Passive().snd.(out := [SynAckP, Packet(LB, LA, 201, 104, ACK, 65532, [])]))
  }

  lemma ThreeSent()
    ensures Send(Active(), 2, [1, 2, 3], [true], 0) == SentThree()
  {
    assert true in [true];
    assert {100, 101} + {104} == {100, 101, 104};
    assert [] + [1, 2, 3] == [1, 2, 3];
  }

  lemma ThreeArrive()
    ensures Arrive(Passive(), Text(101, [1, 2, 3]), 0, 0, true) == StoredThree()
  {
    var ack := Packet(LB, LA, 201, 104, ACK, 65532, []);
    var r := Passive().rcv;
    assert [SynAckP] + [ack] == [SynAckP, ack];
    assert Accept(r, Text(101, [1, 2, 3])) == StoredThree().rcv;
    var s := AckedState(Advance(Passive(), Text(101, [1, 2, 3]), 0), Text(101, [1, 2, 3]), 0);
    assert s == Passive();
  }

  lemma OneHandedOver()
    ensures
      var r := Receive(StoredThree(), 4, 1).rcv;
      r.got == [1] && Buffered(r) == [3, 0]
  {
    var b, c := StoredThree().rcv, Receive(StoredThree(), 4, 1).rcv;
    assert b.rx[..1] == [1] && [] + [1] == [1];
    assert c.rxLen == 2 && c.rx == CopyAt(b.rx, 0, b.rx[2..]);
    ThreeShifted(b.rx, c.rx);
  }

  lemma ThreeShifted(rx: RxBuffer, shifted: RxBuffer)
    requires rx[2] == 3 && rx[3] == 0 && shifted == CopyAt(rx, 0, rx[2..])
    ensures shifted[..2] == [3, 0]
  {
    assert shifted[0] == rx[2] && shifted[1] == rx[3];
  }

  /** A RECEIVE of one byte out of three leaves the wrong two behind. */
  lemma PartialDrainLosesBytes() returns (ms: seq<Move>, n: Net)
    ensures Reaches(ms, n) && n.a.snd.sent == [1, 2, 3] && n.b.rcv.got == [1] && Buffered(n.b.rcv) == [3, 0]
  {
    ms := HandshakeReaches();
    var send := Move(true, SendCall(2, [1, 2, 3], [true]), 0);
    var text := Move(false, Segment(Text(101, [1, 2, 3]), 0, true), 0);
    var receive := Move(false, ReceiveCall(4, 1), 0);
    var a, b := SentThree(), StoredThree();
    ThreeSent();
    OneMore(ms, Net(Active(), Passive()), send, Net(a, Passive()));
    ms := ms + [send];
    ThreeArrive();
    OneMore(ms, Net(a, Passive()), text, Net(a, b));
    ms := ms + [text];
    OneHandedOver();
    n := Net(a, Receive(b, 4, 1));
    OneMore(ms, Net(a, b), receive, n);
    ms := ms + [receive];
  }

  // ---------------------------------------------------------------- two answers

  function SentBeyond(): Tcb {
    var d := Passive().snd;
    Passive().(snd := d.(nxt := 202, retx := [Entry([7], 201, ACK, 0, 0, 0, Some(6), SendTrigger)], sent := [7],
                         out := d.out + [Packet(LB, LA, 201, 101, ACK, BUFFER_SIZE, [7])], cuts := {200, 201, 202}),
               log := [Note(0, Done), Note(6, Fail(RESOURCES))])
  }

  lemma SendsBeyond()
    ensures Send(Passive(), 6, [7], [true], 0) == SentBeyond()
  {
    assert true in [true];
    assert {200, 201} + {202} == {200, 201, 202};
    assert [] + [7] == [7];
  }

  /**
   * A legal run in which the channel of a single call gets two answers: the passive opener, which has been
   * offered no window, SENDs a byte, and then ABORTs.
   */
  lemma SendAnsweredTwice() returns (ms: seq<Move>, n: Net)
    ensures Reaches(ms, n) && n.b.log == [Note(0, Done), Note(6, Fail(RESOURCES)), Note(6, Fail(RESET))]
  {
    ms := HandshakeReaches();
    var send, abort := Move(false, SendCall(6, [7], [true]), 0), Move(false, AbortCall(true), 0);
    var b := SentBeyond();
    SendsBeyond();
    OneMore(ms, Net(Active(), Passive()), send, Net(Active(), b));
    ms := ms + [send];
    assert FlushNotes(b.snd.retx, RESET) == [Note(6, Fail(RESET))] by {
      assert b.snd.retx[1..] == [];
    }
    n := Net(Active(), Abort(b, true));
    OneMore(ms, Net(Active(), b), abort, n);
    ms := ms + [abort];
  }

  // ---------------------------------------------------------------- an ABORT that forgets

  const FinP := Packet(LA, LB, 101, 201, FINACK, 0, [])
  const FinOfPassive := Packet(LB, LA, 201, 102, FINACK, BUFFER_SIZE, [])

  function ActiveClosed(): Tcb {
    var d := Active().snd;
    Active().(state := FinWait1,
              snd := d.(nxt := 102, retx := [Entry([], 101, FINACK, 0, 0, 0, Some(8), CloseTrigger)],
                        out := [SynP, AckP, FinP], cuts := {100, 101, 102}))
  }

  function FinReceived(): Tcb {
    Passive().(state := CloseWait, rcv := Passive().rcv.(nxt := 102),
               snd := Passive().snd.(out := [SynAckP, Packet(LB, LA, 201, 102, ACK, BUFFER_SIZE, [])]))
  }

  function BothClosed(): Tcb {
    var d := FinReceived().snd;
    FinReceived().(state := LastAck,
                   snd := d.(nxt := 202, retx := [Entry([], 201, FINACK, 0, 0, 0, Some(9), CloseTrigger)],
                             out := d.out + [FinOfPassive], cuts := {200, 201, 202}))
  }

  lemma ActiveCloses()
    ensures Close(Active(), 8, [true], 0) == ActiveClosed()
  {
    assert true in [true];
    assert {100, 101} + {102} == {100, 101, 102};
    assert [SynP, AckP] + [FinP] == [SynP, AckP, FinP];
  }

  lemma FinArrives()
    ensures Arrive(Passive(), FinP, 0, 0, true) == FinReceived()
  {
    var ack := Packet(LB, LA, 201, 102, ACK, BUFFER_SIZE, []);
    assert [SynAckP] + [ack] == [SynAckP, ack];
    assert AckedState(Advance(Passive(), FinP, 0), FinP, 0) == Passive();
  }

  lemma PassiveCloses()
    ensures Close(FinReceived(), 9, [true], 0) == BothClosed()
  {
    assert true in [true];
    assert {200, 201} + {202} == {200, 201, 202};
  }

  /** One side CLOSEs, and the other one does so when the FIN has arrived. */
  lemma BothCloseReaches() returns (ms: seq<Move>)
    ensures Reaches(ms, Net(ActiveClosed(), BothClosed()))
  {
    ms := HandshakeReaches();
    var close, fin := Move(true, CloseCall(8, [true]), 0), Move(false, Segment(FinP, 0, true), 0);
    var answer := Move(false, CloseCall(9, [true]), 0);
    var a := ActiveClosed();
    ActiveCloses();
    OneMore(ms, Net(Active(), Passive()), close, Net(a, Passive()));
    ms := ms + [close];
    FinArrives();
    OneMore(ms, Net(a, Passive()), fin, Net(a, FinReceived()));
    ms := ms + [fin];
    PassiveCloses();
    OneMore(ms, Net(a, FinReceived()), answer, Net(a, BothClosed()));
    ms := ms + [answer];
  }

  /** A legal run that ABORTs in LAST-ACK: the channel of the CLOSE never gets an answer. */
  lemma AbortForgetsClose() returns (ms: seq<Move>, n: Net)
    ensures Reaches(ms, n) && n.b.state == Closed && n.b.log == [Note(0, Done)]
    ensures n.b.snd.retx == [Entry([], 201, FINACK, 0, 0, 0, Some(9), CloseTrigger)]
  {
    ms := BothCloseReaches();
    var a, abort := ActiveClosed(), Move(false, AbortCall(true), 0);
    n := Net(a, Abort(BothClosed(), true));
    OneMore(ms, Net(a, BothClosed()), abort, n);
    ms := ms + [abort];
  }

  // ---------------------------------------------------------------- more than three transmissions

  const Patience := 1000 * SECOND

  /** An active OPEN whose SYN has been transmitted `k` times. */
  function Unanswered(k: nat): Tcb {
    Opening().(timeout := Patience, snd := Opening().snd.(out := Syns(k)))
  }

  function Syns(k: nat): seq<Packet> {
    if k == 0 then [] else Syns(k - 1) + [SynP]
  }

  lemma OpensPatiently()
    ensures Open(Fresh(LA, 0), 1, LB, true, Patience, 100, [true], 0) == Unanswered(1)
  {
    assert true in [true];
    assert Syns(1) == [SynP];
  }

  /** A pass in which the SYN is due transmits it, however often that has been done. */
  lemma TransmitsAgain(k: nat, now: int)
    requires 10 * SECOND < now <= Patience
    ensures TimerPass(Unanswered(k), now, [true]) == Some(Unanswered(k + 1))
  {
    var s, p := Unanswered(k), Pass(now, [true]);
    var e := s.snd.retx[0];
    assert Resting(s, now);
    PassResends(s, p);
    assert RttOf(s.rtts) == INITIAL && Power2(0) == 1;
    assert PacketOf(s, e) == SynP && Goes(s, s.snd.retx, 0, p);
    assert Resent(s, s.snd.retx, 1, p) == [];
    assert Resent(s, s.snd.retx, 0, p) == [SynP];
    assert Syns(k + 1) == Syns(k) + [SynP];
    assert Out(s, [SynP]) == Unanswered(k + 1);
  }

  /** The timer passes of a run, one second apart from 11 s on. */
  function Ticks(k: nat): seq<Timed> {
    if k == 0 then [Timed(OpenCall(1, LB, true, Patience, 100, [true]), 0)]
    else Ticks(k - 1) + [Timed(TimerTick([true]), (10 + k) * SECOND)]
  }

  lemma {:induction false} SynCount(k: nat)
    ensures |Syns(k)| == k && forall p :: p in Syns(k) ==> p == SynP
  {
    if k > 0 {
      SynCount(k - 1);
    }
  }

  lemma OneTick(s: Tcb, before: seq<Timed>, t: Tcb, now: int, u: Tcb)
    requires Run(s, before) == Some(t) && TimerPass(t, now, [true]) == Some(u)
    ensures Run(s, before + [Timed(TimerTick([true]), now)]) == Some(u)
  {
    var es := before + [Timed(TimerTick([true]), now)];
    assert es[..|es| - 1] == before;
    assert Step(t, TimerTick([true]), now) == Some(u);
  }

  lemma OpensRun(s: Tcb, e: Event, t: Tcb)
    requires Step(s, e, 0) == Some(t)
    ensures Run(s, [Timed(e, 0)]) == Some(t)
  {
    assert [Timed(e, 0)][..0] == [];
  }

  lemma FirstTick(s: Tcb, t: Tcb)
    requires s == Fresh(LA, 0) && t == Unanswered(1)
    ensures Run(s, Ticks(0)) == Some(t)
  {
    OpensPatiently();
    OpensRun(s, OpenCall(1, LB, true, Patience, 100, [true]), t);
  }

  lemma NextTick(k: nat, s: Tcb, before: seq<Timed>, t: Tcb, u: Tcb)
    requires 0 < k <= 990 && before == Ticks(k - 1) && Run(s, before) == Some(t)
    requires t == Unanswered(k) && u == Unanswered(k + 1)
    ensures Run(s, Ticks(k)) == Some(u)
  {
    var now := (10 + k) * SECOND;
    TransmitsAgain(k, now);
    OneTick(s, before, t, now, u);
  }

  lemma {:induction false} TicksReach(k: nat, s: Tcb, t: Tcb)
    requires k <= 990 && s == Fresh(LA, 0) && t == Unanswered(k + 1)
    ensures Run(s, Ticks(k)) == Some(t)
  {
    if k == 0 {
      FirstTick(s, t);
    } else {
      TicksReach(k - 1, s, Unanswered(k));
      NextTick(k, s, Ticks(k - 1), Unanswered(k), t);
    }
  }

  /** A run in which the same SYN goes out in each of `k` passes, for every `k` that the user timeout allows. */
  lemma SynTransmittedWithoutLimit(k: nat)
    requires k <= 990
    ensures
      exists t ::
        && Run(Fresh(LA, 0), Ticks(k)) == Some(t)
        && |t.snd.out| == k + 1 && forall p :: p in t.snd.out ==> p == SynP
  {
    TicksReach(k, Fresh(LA, 0), Unanswered(k + 1));
    SynCount(k + 1);
    assert Unanswered(k + 1).snd.out == Syns(k + 1);
  }
}
