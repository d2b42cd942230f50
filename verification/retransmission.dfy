/** The retransmission extension of the routing layer: a set of pending
    (bundle, peer) records and a FIFO queue of due retransmissions, driven by
    time ticks, requeue requests, completed / aborted transfers and expired
    bundles. Each call of `Notify` handles one event; everything the source
    does through the bundle core (storage lookup, transfer, raising events)
    shows up as an `Output`. */
module Retransmission {

  import opened Wrappers

  type Eid = string

  /** The identity of a bundle: source, creation timestamp, sequence number
      and, for fragments, offset and length. */
  datatype BundleId = BundleId(source: Eid, timestamp: nat, sequencenumber: nat, fragment: Option<(nat, nat)>)

  /** A requeued (bundle, peer) pair is dropped once its counter exceeds this. */
  const RETRY_LIMIT: nat := 8

  /** One pending retransmission: what to send, to whom, when it is due, how
      often it has been queued and the base of its exponential backoff. */
  datatype Data = Data(id: BundleId, destination: Eid, timestamp: nat, count: nat, retry: nat)

  /** What identifies a record in the set. */
  datatype Key = Key(id: BundleId, destination: Eid)

  function KeyOf(d: Data): Key
  {
    Key(d.id, d.destination)
  }

  function Pow(base: nat, e: nat): nat
  {
    if e == 0 then 1 else base * Pow(base, e - 1)
  }

  /** `operator++`: one more attempt, due `retry^(count-1)` seconds from now
      (with the new count). */
  function Increment(d: Data, now: nat): (r: Data)
    ensures r.count == d.count + 1
    ensures r.timestamp == now + Pow(d.retry, r.count - 1)
    ensures KeyOf(r) == KeyOf(d) && r.retry == d.retry
  {
    var count := d.count + 1;
    d.(count := count, timestamp := now + Pow(d.retry, count - 1))
  }

  /** The constructor: a zeroed record incremented once. */
  function NewData(id: BundleId, destination: Eid, retry: nat, now: nat): (r: Data)
    ensures r.count == 1 && r.timestamp == now + 1
    ensures KeyOf(r) == Key(id, destination) && r.retry == retry
  {
    Increment(Data(id, destination, 0, 0, retry), now)
  }

  /** `operator==`: bundle identity and destination only. */
  predicate SameRecord(a: Data, b: Data)
  {
    a.id == b.id && a.destination == b.destination
  }

  /** `operator!=`, written separately in the source. */
  predicate DifferentRecord(a: Data, b: Data)
  {
    a.id != b.id || a.destination != b.destination
  }

  /** Record equality is key equality: the counter and due time never take
      part, and `!=` is the negation of `==`. */
  lemma RecordEqualityByKey(a: Data, b: Data)
    ensures SameRecord(a, b) <==> KeyOf(a) == KeyOf(b)
    ensures DifferentRecord(a, b) <==> !SameRecord(a, b)
    ensures forall t, c :: SameRecord(a, b) ==> SameRecord(a.(timestamp := t, count := c), b)
  {
  }

  // ---------------------------------------------------------------------
  // Events and their effects
  // ---------------------------------------------------------------------

  /** How the retransmission attempted on a tick went. */
  datatype Attempt =
    | Transferred   // storage lookup and transfer succeeded
    | DialupFailed  // the transfer needs a dial-up link that is not available
    | Failed        // any other failure, e.g. the bundle is no longer stored

  datatype Event =
    | TimeTick(now: nat, attempt: Attempt)
    | TransferCompleted(id: BundleId, peer: Eid)
    | TransferAborted(id: BundleId, peer: Eid)
    | RequeueBundle(id: BundleId, peer: Eid)
    | BundleExpired(id: BundleId)
    | OtherEvent

  datatype Reason = RetryLimitReached | BundleDeleted

  datatype Output =
    | Transfer(destination: Eid, id: BundleId)
    | Requeue(destination: Eid, id: BundleId)
    | Abort(destination: Eid, id: BundleId, reason: Reason)

  datatype Ext = Ext(pending: map<Key, Data>, queue: seq<Data>, retry: nat)

  /** The records kept in the set are stored under their own key, have been
      queued between 1 and RETRY_LIMIT times and use the extension's backoff
      base. */
  ghost predicate Valid(e: Ext)
  {
    forall k :: k in e.pending ==>
      KeyOf(e.pending[k]) == k && 1 <= e.pending[k].count <= RETRY_LIMIT && e.pending[k].retry == e.retry
  }

  /** The queue entries that survive an expiry of bundle `id`, in order. */
  function Keep(q: seq<Data>, id: BundleId): (r: seq<Data>)
    ensures |r| <= |q|
    decreases |q|
  {
    if |q| == 0 then []
    else (if q[0].id == id then [] else [q[0]]) + Keep(q[1..], id)
  }

  /** One BUNDLE_DELETED abort per queue entry of bundle `id`, in order. */
  function ExpiredAborts(q: seq<Data>, id: BundleId): seq<Output>
    decreases |q|
  {
    if |q| == 0 then []
    else (if q[0].id == id then [Abort(q[0].destination, q[0].id, BundleDeleted)] else []) + ExpiredAborts(q[1..], id)
  }

  /** `notify`: the extension's reaction to one event at wall-clock `now`
      (used as the base of new due times). */
  function Notify(e: Ext, evt: Event, now: nat): (r: (Ext, seq<Output>))
    ensures r.0.retry == e.retry
    ensures evt.OtherEvent? ==> r == (e, [])
    ensures !evt.BundleExpired? ==> |r.1| <= 1
    ensures !evt.RequeueBundle? ==> r.0.pending.Keys <= e.pending.Keys
    ensures evt.RequeueBundle? ==> r.0.pending.Keys <= e.pending.Keys + {Key(evt.id, evt.peer)}
    ensures |r.0.queue| <= |e.queue| + 1
    ensures evt.TimeTick? || evt.BundleExpired? ==> r.0.pending == e.pending
  {
    match evt
    case TimeTick(t, attempt) =>
      if |e.queue| > 0 && e.queue[0].timestamp <= t then
        var d := e.queue[0];
        var out := match attempt
          case Transferred => Transfer(d.destination, d.id)
          case DialupFailed => Requeue(d.destination, d.id)
          case Failed => Abort(d.destination, d.id, BundleDeleted);
        (e.(queue := e.queue[1..]), [out])
      else (e, [])
    case TransferCompleted(id, peer) => (e.(pending := e.pending - {Key(id, peer)}), [])
    case TransferAborted(id, peer) => (e.(pending := e.pending - {Key(id, peer)}), [])
    case RequeueBundle(id, peer) =>
      var k := Key(id, peer);
      if k in e.pending then
        var d2 := Increment(e.pending[k], now);
        var rest := e.pending - {k};
        if d2.count <= RETRY_LIMIT then (e.(pending := rest[k := d2], queue := e.queue + [d2]), [])
        else (e.(pending := rest), [Abort(peer, id, RetryLimitReached)])
      else
        var d := NewData(id, peer, e.retry, now);
        (e.(pending := e.pending[k := d], queue := e.queue + [d]), [])
    case BundleExpired(id) => (e.(queue := Keep(e.queue, id)), ExpiredAborts(e.queue, id))
    case OtherEvent => (e, [])
  }

  // ---------------------------------------------------------------------
  // Properties of single events
  // ---------------------------------------------------------------------

  /** Every event keeps the set well formed. */
  lemma NotifyPreservesValid(e: Ext, evt: Event, now: nat)
    requires Valid(e)
    ensures Valid(Notify(e, evt, now).0)
    ensures Notify(e, evt, now).0.retry == e.retry
  {
  }

  /** A time tick looks only at the head of the queue and pops it exactly
      when it is due, whatever the outcome of the retransmission; the set is
      left alone. */
  lemma TickPopsDueHead(e: Ext, t: nat, attempt: Attempt, now: nat)
    ensures var (e', out) := Notify(e, TimeTick(t, attempt), now);
      && e'.pending == e.pending
      && (if |e.queue| > 0 && e.queue[0].timestamp <= t
          then e'.queue == e.queue[1..] && |out| == 1 && out[0].id == e.queue[0].id
               && out[0].destination == e.queue[0].destination
               && (out[0].Transfer? <==> attempt == Transferred)
               && (out[0].Requeue? <==> attempt == DialupFailed)
               && (out[0].Abort? <==> attempt == Failed)
               && (out[0].Abort? ==> out[0].reason == BundleDeleted)
          else e'.queue == e.queue && out == [])
  {
  }

  /** A requeue of an unknown (bundle, peer) pair records and enqueues it
      with count 1. */
  lemma RequeueUnknown(e: Ext, id: BundleId, peer: Eid, now: nat)
    requires Key(id, peer) !in e.pending
    ensures var (e', out) := Notify(e, RequeueBundle(id, peer), now);
      && out == []
      && Key(id, peer) in e'.pending
      && e'.pending[Key(id, peer)].count == 1
      && e'.queue == e.queue + [e'.pending[Key(id, peer)]]
      && e'.pending - {Key(id, peer)} == e.pending
  {
  }

  /** A requeue of a known pair bumps its counter; within the limit the new
      record replaces the old one and is enqueued, beyond it the pair is
      forgotten and one RETRY_LIMIT_REACHED abort is raised. */
  lemma RequeueKnown(e: Ext, id: BundleId, peer: Eid, now: nat)
    requires Key(id, peer) in e.pending
    ensures var (e', out) := Notify(e, RequeueBundle(id, peer), now);
      var c := e.pending[Key(id, peer)].count + 1;
      && e'.pending - {Key(id, peer)} == e.pending - {Key(id, peer)}
      && (c <= RETRY_LIMIT ==>
            && out == []
            && Key(id, peer) in e'.pending
            && e'.pending[Key(id, peer)].count == c
            && e'.queue == e.queue + [e'.pending[Key(id, peer)]])
      && (c > RETRY_LIMIT ==>
            && out == [Abort(peer, id, RetryLimitReached)]
            && Key(id, peer) !in e'.pending
            && e'.queue == e.queue)
  {
  }

  /** Completed and aborted transfers forget the pair and leave the queue
      untouched. */
  lemma FinishedTransferForgets(e: Ext, id: BundleId, peer: Eid, now: nat)
    ensures var (e1, out1) := Notify(e, TransferCompleted(id, peer), now);
      e1.pending == e.pending - {Key(id, peer)} && e1.queue == e.queue && out1 == []
    ensures var (e2, out2) := Notify(e, TransferAborted(id, peer), now);
      e2.pending == e.pending - {Key(id, peer)} && e2.queue == e.queue && out2 == []
  {
  }

  // ---------------------------------------------------------------------
  // Expiry: the filter and its loop
  // ---------------------------------------------------------------------

  lemma {:induction false} KeepAppend(a: seq<Data>, b: seq<Data>, id: BundleId)
    ensures Keep(a + b, id) == Keep(a, id) + Keep(b, id)
    decreases |a|
  {
    if |a| == 0 {
      assert a + b == b;
    } else {
      assert (a + b)[0] == a[0];
      assert (a + b)[1..] == a[1..] + b;
      KeepAppend(a[1..], b, id);
      var h := if a[0].id == id then [] else [a[0]];
      calc {
        Keep(a + b, id);
        h + Keep(a[1..] + b, id);
        h + (Keep(a[1..], id) + Keep(b, id));
        (h + Keep(a[1..], id)) + Keep(b, id);
      }
    }
  }

  lemma {:induction false} AbortsAppend(a: seq<Data>, b: seq<Data>, id: BundleId)
    ensures ExpiredAborts(a + b, id) == ExpiredAborts(a, id) + ExpiredAborts(b, id)
    decreases |a|
  {
    if |a| == 0 {
      assert a + b == b;
    } else {
      assert (a + b)[0] == a[0];
      assert (a + b)[1..] == a[1..] + b;
      AbortsAppend(a[1..], b, id);
      var h := if a[0].id == id then [Abort(a[0].destination, a[0].id, BundleDeleted)] else [];
      calc {
        ExpiredAborts(a + b, id);
        h + ExpiredAborts(a[1..] + b, id);
        h + (ExpiredAborts(a[1..], id) + ExpiredAborts(b, id));
        (h + ExpiredAborts(a[1..], id)) + ExpiredAborts(b, id);
      }
    }
  }

  /** The survivors are exactly the entries of other bundles, and every
      removed entry produced one abort. */
  lemma {:induction false} KeepContents(q: seq<Data>, id: BundleId)
    ensures forall d :: d in Keep(q, id) <==> d in q && d.id != id
    ensures |Keep(q, id)| + |ExpiredAborts(q, id)| == |q|
    ensures forall o :: o in ExpiredAborts(q, id) ==> o.Abort? && o.id == id && o.reason == BundleDeleted
    decreases |q|
  {
    if |q| > 0 {
      KeepContents(q[1..], id);
      assert q == [q[0]] + q[1..];
    }
  }

  /** Expiry keeps the relative order of the survivors: dropping the entries
      of a bundle commutes with splitting the queue anywhere. */
  lemma ExpiryKeepsOrder(e: Ext, id: BundleId, now: nat, i: nat)
    requires i <= |e.queue|
    ensures var (e', out) := Notify(e, BundleExpired(id), now);
      && e'.queue == Keep(e.queue[..i], id) + Keep(e.queue[i..], id)
      && e'.pending == e.pending
      && |out| == |e.queue| - |e'.queue|
  {
    assert e.queue == e.queue[..i] + e.queue[i..];
    KeepAppend(e.queue[..i], e.queue[i..], id);
    KeepContents(e.queue, id);
  }

  /** The expiry loop as written: each of the original entries is taken off
      the front once and either aborted or pushed back at the end. */
  method ExpireQueue(queue: seq<Data>, id: BundleId) returns (q: seq<Data>, aborts: seq<Output>)
    ensures q == Keep(queue, id)
    ensures aborts == ExpiredAborts(queue, id)
  {
    q := queue;
    aborts := [];
    var elements := |queue|;
    var i := 0;
    while i < elements
      invariant 0 <= i <= elements
      invariant q == queue[i..] + Keep(queue[..i], id)
      invariant aborts == ExpiredAborts(queue[..i], id)
    {
      var data := q[0];
      assert data == queue[i];
      KeepAppend(queue[..i], [queue[i]], id);
      AbortsAppend(queue[..i], [queue[i]], id);
      assert queue[..i + 1] == queue[..i] + [queue[i]];
      if data.id == id {
        aborts := aborts + [Abort(data.destination, data.id, BundleDeleted)];
      } else {
        q := q + [data];
      }
      q := q[1..];
      i := i + 1;
    }
    assert queue[..i] == queue;
  }
}
