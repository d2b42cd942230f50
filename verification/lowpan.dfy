/** The IEEE 802.15.4 (LoWPAN) convergence layer: the two-byte extended
    header that marks discovery frames, the classification of received
    frames, the list of per-peer connections, and the five-second timeout
    tick. Sockets, threads and the discovery-announcement serialisation stay
    outside; an announcement is an opaque byte string here. */
module Lowpan {

  import opened Wrappers

  type Byte = bv8

  /** Size of the buffer announcements are written into. */
  const BUFF_SIZE: nat := 115
  /** Header bit that announces an extended header. */
  const EXTENDED_MASK: Byte := 0x08
  /** Extended-header bit that marks a discovery frame. */
  const DISCOVERY_BIT: Byte := 0x80
  /** The largest announcement that fits behind the two header bytes. */
  const MAX_ANNOUNCEMENT: nat := BUFF_SIZE - 2

  // ---------------------------------------------------------------------
  // Discovery frames
  // ---------------------------------------------------------------------

  /** The bytes `sendAnnoucement` passes to the socket: the two header bytes
      followed by the serialised announcement. */
  function AnnouncementFrame(payload: seq<Byte>): (f: seq<Byte>)
    ensures |f| == |payload| + 2
    ensures f[0] == EXTENDED_MASK && f[1] == DISCOVERY_BIT && f[2..] == payload
  {
    [EXTENDED_MASK, DISCOVERY_BIT] + payload
  }

  /** The write into the fixed announcement buffer as written: an oversized
      announcement is only logged and then copied anyway. The result is the
      frame when every byte lands inside the buffer, and None when the copy
      runs past its end. */
  function AnnouncementWriteAsWritten(payload: seq<Byte>): (r: Option<seq<Byte>>)
    ensures r.Some? <==> 2 + |payload| <= BUFF_SIZE
    ensures r.Some? ==> r.value == AnnouncementFrame(payload)
  {
    var f := AnnouncementFrame(payload);
    if |f| <= BUFF_SIZE then Some(f) else None
  }

  /** An announcement of 114 bytes passes the length check with only a log
      message and is copied past the end of the 115-byte buffer. */
  lemma OversizedAnnouncementOverflows(payload: seq<Byte>)
    requires |payload| == MAX_ANNOUNCEMENT + 1
    ensures AnnouncementWriteAsWritten(payload).None?
    ensures 2 + |payload| > BUFF_SIZE
  {
  }

  /** The announcement as intended: sent only when it fits the buffer;
      an oversized announcement is dropped after the log message. */
  function Announcement(payload: seq<Byte>): (r: Option<seq<Byte>>)
    ensures r.Some? <==> |payload| <= MAX_ANNOUNCEMENT
    ensures r.Some? ==> |r.value| <= BUFF_SIZE && r.value == AnnouncementFrame(payload)
  {
    if |payload| > MAX_ANNOUNCEMENT then None else Some(AnnouncementFrame(payload))
  }

  /** The result of one `recvfrom`: a negative error code or the bytes of a
      frame (possibly none). */
  datatype Received = RecvError(code: int) | Frame(bytes: seq<Byte>)

  datatype FrameKind =
    | Skip                       // nothing was read
    | Discovery(payload: seq<Byte>)  // handed to the discovery agent
    | Data(bytes: seq<Byte>)     // queued on the sender's connection

  /** The receive buffer is freshly zeroed, so a one-byte frame reads a zero
      second byte. */
  function SecondByte(f: seq<Byte>): Byte
  {
    if |f| >= 2 then f[1] else 0
  }

  /** `componentRun`'s view of one received frame. */
  function Classify(r: Received): (k: FrameKind)
    ensures r.RecvError? || |r.bytes| == 0 <==> k == Skip
    ensures k.Discovery? ==> r.Frame? && |r.bytes| >= 2 && k.payload == r.bytes[2..]
    ensures k.Data? ==> r.Frame? && k.bytes == r.bytes
  {
    match r
    case RecvError(_) => Skip
    case Frame(f) =>
      if |f| == 0 then Skip
      else if f[0] & EXTENDED_MASK != 0 && SecondByte(f) & DISCOVERY_BIT != 0 then Discovery(f[2..])
      else Data(f)
  }

  /** Every frame `sendAnnoucement` sends is recognised as discovery and
      yields the announcement back. */
  lemma AnnouncementRoundTrip(payload: seq<Byte>)
    requires |payload| <= MAX_ANNOUNCEMENT
    ensures Classify(Frame(Announcement(payload).value)) == Discovery(payload)
  {
  }

  /** A frame is discovery exactly when both header bits are set. */
  lemma DiscoveryIffHeaderBits(f: seq<Byte>)
    requires |f| >= 2
    ensures Classify(Frame(f)).Discovery? <==> (f[0] & EXTENDED_MASK != 0 && f[1] & DISCOVERY_BIT != 0)
  {
  }

  // ---------------------------------------------------------------------
  // Connections
  // ---------------------------------------------------------------------

  /** An IEEE 802.15.4 address: short address and PAN id. */
  datatype Address = Address(short: string, pan: nat)

  /** A connection object; `id` stands for its identity (the pointer). */
  datatype Conn = Conn(id: nat, address: Address)

  /** The connection list and the next identity to hand out. */
  datatype Table = Table(conns: seq<Conn>, nextId: nat)

  /** No two connections share an address or an identity, and every identity
      was handed out before. */
  ghost predicate Valid(t: Table)
  {
    && (forall i, j :: 0 <= i < j < |t.conns| ==> t.conns[i].address != t.conns[j].address)
    && (forall i, j :: 0 <= i < j < |t.conns| ==> t.conns[i].id != t.conns[j].id)
    && (forall i :: 0 <= i < |t.conns| ==> t.conns[i].id < t.nextId)
  }

  /** The first position holding a connection to `addr`, if any. */
  function FindAddress(conns: seq<Conn>, addr: Address): (r: Option<nat>)
    ensures r.Some? ==> r.value < |conns| && conns[r.value].address == addr
    ensures r.Some? ==> forall i :: 0 <= i < r.value ==> conns[i].address != addr
    ensures r.None? ==> forall i :: 0 <= i < |conns| ==> conns[i].address != addr
  {
    if |conns| == 0 then None
    else if conns[0].address == addr then Some(0)
    else match FindAddress(conns[1..], addr)
      case None => None
      case Some(k) => Some(k + 1)
  }

  /** `getConnection`: the existing connection to `addr`, or a new one
      appended at the end. */
  function GetConnection(t: Table, addr: Address): (r: (Table, Conn))
    ensures r.1.address == addr && r.1 in r.0.conns
    ensures FindAddress(t.conns, addr).Some? ==> r.0 == t
    ensures FindAddress(t.conns, addr).None? ==>
      r.0.conns == t.conns + [r.1] && r.1.id == t.nextId && r.0.nextId == t.nextId + 1
    ensures Valid(t) ==> Valid(r.0)
  {
    match FindAddress(t.conns, addr)
    case Some(i) => (t, t.conns[i])
    case None =>
      var c := Conn(t.nextId, addr);
      (Table(t.conns + [c], t.nextId + 1), c)
  }

  /** The first position holding connection `id`, if any. */
  function FindId(conns: seq<Conn>, id: nat): (r: Option<nat>)
    ensures r.Some? ==> r.value < |conns| && conns[r.value].id == id
    ensures r.Some? ==> forall i :: 0 <= i < r.value ==> conns[i].id != id
    ensures r.None? ==> forall i :: 0 <= i < |conns| ==> conns[i].id != id
  {
    if |conns| == 0 then None
    else if conns[0].id == id then Some(0)
    else match FindId(conns[1..], id)
      case None => None
      case Some(k) => Some(k + 1)
  }

  /** `remove`: drops the first entry that is the given connection and keeps
      the others in order; an unknown connection changes nothing. */
  function Remove(t: Table, id: nat): (r: Table)
    ensures r.nextId == t.nextId
    ensures FindId(t.conns, id).None? ==> r == t
    ensures FindId(t.conns, id).Some? ==>
      var k := FindId(t.conns, id).value; r.conns == t.conns[..k] + t.conns[k + 1..]
  {
    match FindId(t.conns, id)
    case None => t
    case Some(k) => t.(conns := t.conns[..k] + t.conns[k + 1..])
  }

  /** Removing from a valid table keeps it valid and leaves no entry for the
      removed connection. */
  lemma RemovePreservesValid(t: Table, id: nat)
    requires Valid(t)
    ensures Valid(Remove(t, id))
    ensures forall c :: c in Remove(t, id).conns ==> c.id != id
  {
    var r := Remove(t, id);
    if FindId(t.conns, id).Some? {
      var k := FindId(t.conns, id).value;
      assert |r.conns| == |t.conns| - 1;
      assert forall j :: 0 <= j < |r.conns| ==> r.conns[j] == t.conns[if j < k then j else j + 1];
      forall c | c in r.conns ensures c.id != id {
        var j :| 0 <= j < |r.conns| && r.conns[j] == c;
      }
      forall i, j | 0 <= i < j < |r.conns|
        ensures r.conns[i].address != r.conns[j].address && r.conns[i].id != r.conns[j].id
      {
        var i' := if i < k then i else i + 1;
        var j' := if j < k then j else j + 1;
        assert r.conns[i] == t.conns[i'] && r.conns[j] == t.conns[j'];
      }
    } else {
      forall c | c in r.conns ensures c.id != id {
        var j :| 0 <= j < |r.conns| && r.conns[j] == c;
      }
    }
  }

  /** Looking up the same address twice yields the same connection and adds
      at most one entry. */
  lemma GetConnectionIdempotent(t: Table, addr: Address)
    ensures var (t1, c1) := GetConnection(t, addr);
      GetConnection(t1, addr) == (t1, c1) && |t1.conns| <= |t.conns| + 1
  {
    var (t1, c1) := GetConnection(t, addr);
    if FindAddress(t.conns, addr).None? {
      assert FindAddress(t1.conns, addr) == Some(|t.conns|) by {
        var r := FindAddress(t1.conns, addr);
        assert t1.conns[|t.conns|].address == addr;
      }
    }
  }

  /** One change to the connection list. */
  datatype TableOp = Lookup(addr: Address) | Drop(id: nat)

  /** The table after a run of lookups and removals. */
  function Apply(t: Table, ops: seq<TableOp>): (r: Table)
    ensures r.nextId >= t.nextId
    decreases |ops|
  {
    if |ops| == 0 then t
    else
      match ops[0]
      case Lookup(a) => Apply(GetConnection(t, a).0, ops[1..])
      case Drop(id) => Apply(Remove(t, id), ops[1..])
  }

  /** A table grown only through `getConnection` and shrunk only through
      `remove` never holds two connections to the same address. */
  lemma {:induction false} ApplyPreservesValid(t: Table, ops: seq<TableOp>)
    requires Valid(t)
    ensures Valid(Apply(t, ops))
    decreases |ops|
  {
    if |ops| > 0 {
      match ops[0]
      case Lookup(a) => ApplyPreservesValid(GetConnection(t, a).0, ops[1..]);
      case Drop(id) =>
        RemovePreservesValid(t, id);
        ApplyPreservesValid(Remove(t, id), ops[1..]);
    }
  }

  /** `queue`: a transfer for a node without a LoWPAN address is ignored;
      otherwise it goes to the connection for the first such address. */
  function Queue(t: Table, lowpanAddresses: seq<Address>): (r: (Table, Option<Conn>))
    ensures |lowpanAddresses| == 0 ==> r == (t, None)
    ensures |lowpanAddresses| > 0 ==>
      r.1.Some? && r.1.value.address == lowpanAddresses[0] && r.1.value in r.0.conns
    ensures |lowpanAddresses| > 0 ==> (r.0, r.1.value) == GetConnection(t, lowpanAddresses[0])
    ensures Valid(t) ==> Valid(r.0)
  {
    if |lowpanAddresses| == 0 then (t, None)
    else
      var (t1, c) := GetConnection(t, lowpanAddresses[0]);
      (t1, Some(c))
  }

  /** What the receive loop does with one frame from `peer`. */
  datatype Dispatch =
    | Ignored
    | ToDiscovery(payload: seq<Byte>)
    | ToConnection(conn: Conn, bytes: seq<Byte>)

  /** One iteration of `componentRun`: skip empty reads, hand discovery
      frames to the discovery agent, queue everything else on the sender's
      connection (created if needed). */
  function ReceiveFrame(t: Table, r: Received, peer: Address): (res: (Table, Dispatch))
    ensures !Classify(r).Data? ==> res.0 == t
    ensures Classify(r).Discovery? ==> res.1 == ToDiscovery(Classify(r).payload)
    ensures Classify(r).Data? ==>
      res.1.ToConnection? && res.1.conn.address == peer && res.1.bytes == r.bytes && res.1.conn in res.0.conns
    ensures Classify(r).Data? ==> res.1.ToConnection? && (res.0, res.1.conn) == GetConnection(t, peer)
    ensures Valid(t) ==> Valid(res.0)
  {
    match Classify(r)
    case Skip => (t, Ignored)
    case Discovery(p) => (t, ToDiscovery(p))
    case Data(bytes) =>
      var (t1, c) := GetConnection(t, peer);
      (t1, ToConnection(c, bytes))
  }

  // ---------------------------------------------------------------------
  // Timeouts
  // ---------------------------------------------------------------------

  datatype TimeAction = SecondTick | OtherTimeAction
  datatype Event = TimeEvent(action: TimeAction, timestamp: nat) | OtherEvent

  /** `raiseEvent`: the connections time out on every fifth second tick. */
  predicate FiresTimeout(e: Event)
  {
    e.TimeEvent? && e.action == SecondTick && e.timestamp % 5 == 0
  }

  /** Of any five consecutive second ticks exactly one fires the timeout. */
  lemma OneTimeoutInFiveTicks(t: nat)
    ensures |set k | t <= k < t + 5 && FiresTimeout(TimeEvent(SecondTick, k))| == 1
  {
    var m := t + (5 - t % 5) % 5;
    assert m % 5 == 0 && t <= m < t + 5;
    var s := set k | t <= k < t + 5 && FiresTimeout(TimeEvent(SecondTick, k));
    assert s == {m} by {
      forall k | k in s ensures k == m {
        assert k % 5 == 0;
      }
    }
  }
}
