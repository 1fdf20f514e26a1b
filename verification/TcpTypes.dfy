/** The TCP control block as a value, and the things it exchanges with its surroundings. */
module TcpTypes {
  import opened Words

  const BUFFER_SIZE := 65535
  const MAX_RETX := 3
  /** Durations are nanoseconds. */
  const SECOND := 1_000_000_000
  const MSL := 120 * SECOND

  datatype State =
    | Listen | SynSent | SynReceived | Established | FinWait1 | FinWait2
    | CloseWait | Closing | LastAck | TimeWait | Closed

  datatype Endpoint = Endpoint(addr: U32, port: U16)

  /** Address 0 and port 0: what an unset Go struct holds. */
  const NOWHERE := Endpoint(0, 0)

  /** The four control bits that the event processing tests. */
  datatype Flags = Flags(syn: bool, ack: bool, fin: bool, rst: bool)

  const SYN := Flags(true, false, false, false)
  const ACK := Flags(false, true, false, false)
  const SYNACK := Flags(true, true, false, false)
  const FINACK := Flags(false, true, true, false)
  const RST := Flags(false, false, false, true)
  const RSTACK := Flags(false, true, false, true)

  datatype Packet = Packet(
    src: Endpoint, dst: Endpoint, sn: U32, ack: U32, flag: Flags, wnd: U16, data: seq<Byte>)

  /** A user's error channel. */
  type Chan = nat

  datatype Outcome = Done | Got(bytes: seq<Byte>) | Fail(msg: string)

  /** One value sent on a channel. */
  datatype Note = Note(ch: Chan, outcome: Outcome)

  datatype Trigger = NoTrigger | OpenTrigger | CloseTrigger | ReceiveTrigger | SendTrigger

  /** An entry of the retransmission queue. */
  datatype Entry = Entry(
    data: seq<Byte>, sn: U32, flag: Flags, first: int, last: int,
    retxCount: nat, ch: Option<Chan>, trigger: Trigger)

  /** The pending RECEIVE: capacity of the user's buffer, and its channel. */
  datatype RcvCmd = RcvCmd(cap: nat, ch: Chan)

  /** Smoothed round-trip time and retransmission timeout. */
  datatype Rtt = Rtt(srtt: int, rto: int)

  /** The round-trip times measured so far. */
  datatype RttHistory = Unmeasured | Measured(before: RttHistory, sample: int)

  /** The fixed receive buffer. */
  type RxBuffer = b: seq<Byte> | |b| == BUFFER_SIZE witness seq(BUFFER_SIZE, i => 0)

  /**
   * The sending half. `out`, `sent` and `cuts` are history: everything transmitted, the bytes
   * accepted by SEND, and the sequence numbers at which segments that occupy sequence space
   * begin or end.
   */
  datatype Snd = Snd(
    iss: U32, una: U32, nxt: U32, wnd: U16, wl1: U32, wl2: U32, retx: seq<Entry>,
    out: seq<Packet>, sent: seq<Byte>, cuts: set<int>)

  /** The receiving half. `got` is history: the bytes handed to RECEIVE. */
  datatype Rcv = Rcv(
    irs: U32, nxt: U32, wnd: U16, rx: RxBuffer, rxLen: U16, cmd: Option<RcvCmd>, got: seq<Byte>)

  /**
   * The control block. `rtts` and `log` are history: the round-trip times measured, which
   * determine the retransmission timeout, and everything sent on channels.
   */
  datatype Tcb = Tcb(
    state: State, local: Endpoint, foreign: Endpoint, snd: Snd, rcv: Rcv,
    timeout: int, lastTx: int, rtts: RttHistory, log: seq<Note>)

  /** Sequence space occupied by text and control bits; SYN and FIN count one. */
  function Occupies(data: seq<Byte>, flag: Flags): nat {
    |data| + if flag.syn || flag.fin then 1 else 0
  }

  function SegLen(p: Packet): nat {
    Occupies(p.data, p.flag)
  }

  function EntryLen(e: Entry): nat {
    Occupies(e.data, e.flag)
  }
}
