/** The primary block of a bundle (RFC 5050 section 4.5.1): processing
    flags, the class-of-service priority kept in two of them, the bundle
    identity used for equality and ordering, and the creation-sequence
    counter that labels new bundles. */
module PrimaryBlock {

  import opened Wrappers

  /** Endpoint identifiers, compared by their textual form. */
  type Eid = string

  /** The null endpoint of RFC 5050 section 4.4, which a fresh block carries. */
  const NONE_EID: Eid := "dtn:none"

  /** Strict lexicographic order on endpoint identifiers. */
  predicate EidLess(a: Eid, b: Eid)
    decreases |a|
  {
    if |a| == 0 then |b| > 0
    else if |b| == 0 then false
    else a[0] < b[0] || (a[0] == b[0] && EidLess(a[1..], b[1..]))
  }

  lemma {:induction false} EidLessIrreflexive(a: Eid)
    ensures !EidLess(a, a)
    decreases |a|
  {
    if |a| > 0 {
      EidLessIrreflexive(a[1..]);
    }
  }

  lemma {:induction false} EidLessAsymmetric(a: Eid, b: Eid)
    ensures EidLess(a, b) ==> !EidLess(b, a)
    decreases |a|
  {
    if |a| > 0 && |b| > 0 && a[0] == b[0] {
      EidLessAsymmetric(a[1..], b[1..]);
    }
  }

  lemma {:induction false} EidLessConnected(a: Eid, b: Eid)
    ensures a != b ==> EidLess(a, b) || EidLess(b, a)
    decreases |a|
  {
    if |a| > 0 && |b| > 0 && a[0] == b[0] {
      assert a == [a[0]] + a[1..] && b == [b[0]] + b[1..];
      EidLessConnected(a[1..], b[1..]);
    }
  }

  // ---------------------------------------------------------------------
  // Processing flags (bit positions of RFC 5050 section 4.2)
  // ---------------------------------------------------------------------

  /** The set of processing-flag bits that are currently 1. */
  type Flags = set<nat>

  const FRAGMENT: nat := 0
  const DESTINATION_IS_SINGLETON: nat := 4
  const PRIORITY_BIT1: nat := 7
  const PRIORITY_BIT2: nat := 8

  datatype Block = Block(
    procflags: Flags,
    source: Eid,
    destination: Eid,
    timestamp: nat,
    sequencenumber: nat,
    lifetime: nat,
    fragmentoffset: nat,
    appdatalength: nat)

  predicate Get(b: Block, flag: nat)
  {
    flag in b.procflags
  }

  /** Sets or clears one processing flag and touches nothing else. */
  function Set(b: Block, flag: nat, value: bool): (r: Block)
    ensures Get(r, flag) <==> value
    ensures forall f :: f != flag ==> (Get(r, f) <==> Get(b, f))
    ensures r == b.(procflags := r.procflags)
  {
    b.(procflags := if value then b.procflags + {flag} else b.procflags - {flag})
  }

  // ---------------------------------------------------------------------
  // Priority (class of service)
  // ---------------------------------------------------------------------

  datatype Priority = Low | Medium | High

  /** Reads the class of service; bit 1 is tested first, so the reserved
      combination with both bits set reads as Medium. */
  function GetPriority(b: Block): (p: Priority)
    ensures p == Medium <==> Get(b, PRIORITY_BIT1)
    ensures p == High <==> !Get(b, PRIORITY_BIT1) && Get(b, PRIORITY_BIT2)
    ensures p == Low <==> !Get(b, PRIORITY_BIT1) && !Get(b, PRIORITY_BIT2)
  {
    if Get(b, PRIORITY_BIT1) then Medium
    else if Get(b, PRIORITY_BIT2) then High
    else Low
  }

  /** Writes the two class-of-service bits for the given priority. */
  function SetPriority(b: Block, p: Priority): (r: Block)
    ensures forall f :: f != PRIORITY_BIT1 && f != PRIORITY_BIT2 ==> (Get(r, f) <==> Get(b, f))
    ensures r == b.(procflags := r.procflags)
    ensures p == Low ==> !Get(r, PRIORITY_BIT1) && !Get(r, PRIORITY_BIT2)
    ensures p == Medium ==> Get(r, PRIORITY_BIT1) && !Get(r, PRIORITY_BIT2)
    ensures p == High ==> !Get(r, PRIORITY_BIT1) && Get(r, PRIORITY_BIT2)
  {
    match p
    case Low => Set(Set(b, PRIORITY_BIT1, false), PRIORITY_BIT2, false)
    case High => Set(Set(b, PRIORITY_BIT1, false), PRIORITY_BIT2, true)
    case Medium => Set(Set(b, PRIORITY_BIT1, true), PRIORITY_BIT2, false)
  }

  /** Writing a priority and reading it back yields that priority, whatever
      the two bits held before. */
  lemma PriorityRoundTrip(b: Block, p: Priority)
    ensures GetPriority(SetPriority(b, p)) == p
  {
  }

  /** The reserved class-of-service value (both bits set) reads as Medium. */
  lemma BothPriorityBitsReadMedium(b: Block)
    requires Get(b, PRIORITY_BIT1) && Get(b, PRIORITY_BIT2)
    ensures GetPriority(b) == Medium
  {
  }

  // ---------------------------------------------------------------------
  // Identity, equality and ordering
  // ---------------------------------------------------------------------

  /** Equality of bundles: same source, creation timestamp and sequence
      number, same FRAGMENT flag, and for fragments the same offset and
      application data length. Equality holds exactly when the identifying
      keys agree; in particular it ignores the destination, the lifetime and
      every other flag. */
  predicate Equal(a: Block, b: Block)
    ensures Equal(a, b) <==> Key(a) == Key(b)
  {
    && b.timestamp == a.timestamp
    && b.sequencenumber == a.sequencenumber
    && b.source == a.source
    && Get(b, FRAGMENT) == Get(a, FRAGMENT)
    && (Get(a, FRAGMENT) ==> b.fragmentoffset == a.fragmentoffset && b.appdatalength == a.appdatalength)
  }

  /** Inequality: the identifying keys differ. */
  predicate NotEqual(a: Block, b: Block)
    ensures NotEqual(a, b) <==> Key(a) != Key(b)
  {
    !Equal(a, b)
  }

  predicate Less(a: Block, b: Block)
  {
    if EidLess(a.source, b.source) then true
    else if a.source != b.source then false
    else if a.timestamp < b.timestamp then true
    else if a.timestamp != b.timestamp then false
    else if a.sequencenumber < b.sequencenumber then true
    else if a.sequencenumber != b.sequencenumber then false
    else if Get(b, FRAGMENT) then
      if !Get(a, FRAGMENT) then true else a.fragmentoffset < b.fragmentoffset
    else false
  }

  predicate Greater(a: Block, b: Block)
  {
    !(Less(a, b) || Equal(a, b))
  }

  /** The identity a bundle is compared by: fragment offset and length take
      part only for fragments. */
  datatype BundleKey = BundleKey(source: Eid, timestamp: nat, sequencenumber: nat, fragment: Option<(nat, nat)>)

  function Key(b: Block): BundleKey
  {
    BundleKey(b.source, b.timestamp, b.sequencenumber,
      if Get(b, FRAGMENT) then Some((b.fragmentoffset, b.appdatalength)) else None)
  }

  lemma EqualIsEquivalence(a: Block, b: Block, c: Block)
    ensures Equal(a, a)
    ensures Equal(a, b) ==> Equal(b, a)
    ensures Equal(a, b) && Equal(b, c) ==> Equal(a, c)
  {
  }

  lemma LessIrreflexive(a: Block)
    ensures !Less(a, a)
  {
    EidLessIrreflexive(a.source);
  }

  lemma LessAsymmetric(a: Block, b: Block)
    ensures Less(a, b) ==> !Less(b, a)
  {
    EidLessAsymmetric(a.source, b.source);
    EidLessAsymmetric(b.source, a.source);
  }

  /** Equal bundles are never ordered before one another. */
  lemma EqualNotLess(a: Block, b: Block)
    requires Equal(a, b)
    ensures !Less(a, b) && !Less(b, a)
  {
    EidLessIrreflexive(a.source);
  }

  /** Apart from fragments that share an offset, `>` is the converse of `<`. */
  lemma GreaterIsConverse(a: Block, b: Block)
    requires !(Get(a, FRAGMENT) && Get(b, FRAGMENT) && a.fragmentoffset == b.fragmentoffset)
    ensures Greater(a, b) <==> Less(b, a)
  {
    EidLessConnected(a.source, b.source);
    EidLessAsymmetric(a.source, b.source);
  }

  /** Two fragments with the same offset but different lengths are neither
      equal nor ordered by `<`, so each is `>` the other. */
  lemma GreaterNotAsymmetric(a: Block, b: Block)
    requires Get(a, FRAGMENT) && Get(b, FRAGMENT)
    requires a.source == b.source && a.timestamp == b.timestamp && a.sequencenumber == b.sequencenumber
    requires a.fragmentoffset == b.fragmentoffset && a.appdatalength != b.appdatalength
    ensures Greater(a, b) && Greater(b, a)
  {
    EidLessIrreflexive(a.source);
  }

  // ---------------------------------------------------------------------
  // Creation timestamp and sequence number
  // ---------------------------------------------------------------------

  /** The process-wide counter: the last timestamp seen and the next
      sequence number to hand out. */
  datatype SequenceState = SequenceState(lastTimestamp: nat, sequence: nat)

  /** The clock as relabelling sees it: a bad clock stamps bundles with 0. */
  datatype ClockReading = BadClock | GoodClock(now: nat)

  function Stamp(c: ClockReading): nat
  {
    match c
    case BadClock => 0
    case GoodClock(now) => now
  }

  datatype Label = Label(timestamp: nat, sequencenumber: nat)

  /** Labels a new bundle. A timestamp newer than any seen restarts the
      sequence at 0; otherwise the current counter value is used. The counter
      advances in both cases. */
  function Relabel(s: SequenceState, clock: ClockReading): (r: (Label, SequenceState))
    ensures r.0.timestamp == Stamp(clock)
    ensures Stamp(clock) > s.lastTimestamp ==> r.0.sequencenumber == 0 && r.1 == SequenceState(Stamp(clock), 1)
    ensures Stamp(clock) <= s.lastTimestamp ==>
      r.0.sequencenumber == s.sequence && r.1 == SequenceState(s.lastTimestamp, s.sequence + 1)
  {
    var ts := Stamp(clock);
    var s1 := if ts > s.lastTimestamp then SequenceState(ts, 0) else s;
    (Label(ts, s1.sequence), s1.(sequence := s1.sequence + 1))
  }

  /** A freshly constructed primary block. */
  function NewBlock(s: SequenceState, clock: ClockReading): (r: (Block, SequenceState))
    ensures r.0.lifetime == 3600 && r.0.fragmentoffset == 0 && r.0.appdatalength == 0
    ensures r.0.procflags == {DESTINATION_IS_SINGLETON}
    ensures clock == BadClock ==> r.0.timestamp == 0
    ensures Label(r.0.timestamp, r.0.sequencenumber) == Relabel(s, clock).0
    ensures r.1 == Relabel(s, clock).1
  {
    var (l, s') := Relabel(s, clock);
    var b := Block({}, NONE_EID, NONE_EID, l.timestamp, l.sequencenumber, 3600, 0, 0);
    (Set(b, DESTINATION_IS_SINGLETON, true), s')
  }

  /** Labels a run of bundles created one after another. */
  function RelabelAll(s: SequenceState, clocks: seq<ClockReading>): (seq<Label>, SequenceState)
    decreases |clocks|
  {
    if |clocks| == 0 then ([], s)
    else
      var (l, s1) := Relabel(s, clocks[0]);
      var (ls, s2) := RelabelAll(s1, clocks[1..]);
      ([l] + ls, s2)
  }

  lemma {:induction false} RelabelAllLength(s: SequenceState, clocks: seq<ClockReading>)
    ensures |RelabelAll(s, clocks).0| == |clocks|
    decreases |clocks|
  {
    if |clocks| > 0 {
      RelabelAllLength(Relabel(s, clocks[0]).1, clocks[1..]);
    }
  }

  ghost predicate NonDecreasing(clocks: seq<ClockReading>)
  {
    forall i, j :: 0 <= i < j < |clocks| ==> Stamp(clocks[i]) <= Stamp(clocks[j])
  }

  /** Every label already handed out is distinguishable from the next one:
      it is no newer than `floor` (the latest stamp used), and it either has
      a sequence number below the counter or a stamp below `floor`. */
  ghost predicate Issued(labels: set<Label>, s: SequenceState, floor: nat)
  {
    && floor <= s.lastTimestamp
    && forall l :: l in labels ==>
         l.timestamp <= floor && (l.sequencenumber < s.sequence || l.timestamp < floor)
  }

  lemma RelabelStep(labels: set<Label>, s: SequenceState, floor: nat, clock: ClockReading)
    requires Issued(labels, s, floor)
    requires Stamp(clock) >= floor
    ensures Relabel(s, clock).0 !in labels
    ensures Issued(labels + {Relabel(s, clock).0}, Relabel(s, clock).1, Stamp(clock))
  {
  }

  /** The labels of a run are pairwise distinct and none was issued before. */
  ghost predicate FreshRun(labels: set<Label>, ls: seq<Label>)
  {
    && (forall i :: 0 <= i < |ls| ==> ls[i] !in labels)
    && (forall i, j :: 0 <= i < j < |ls| ==> ls[i] != ls[j])
  }

  lemma {:induction false} RelabelRunFresh(labels: set<Label>, s: SequenceState, floor: nat, clocks: seq<ClockReading>)
    requires Issued(labels, s, floor)
    requires NonDecreasing(clocks)
    requires forall i :: 0 <= i < |clocks| ==> Stamp(clocks[i]) >= floor
    ensures FreshRun(labels, RelabelAll(s, clocks).0)
    decreases |clocks|
  {
    if |clocks| > 0 {
      var l := Relabel(s, clocks[0]).0;
      var s1 := Relabel(s, clocks[0]).1;
      RelabelStep(labels, s, floor, clocks[0]);
      var rest := clocks[1..];
      assert NonDecreasing(rest) by {
        forall i, j | 0 <= i < j < |rest| ensures Stamp(rest[i]) <= Stamp(rest[j]) {
          assert rest[i] == clocks[i + 1] && rest[j] == clocks[j + 1];
        }
      }
      assert forall i :: 0 <= i < |rest| ==> Stamp(rest[i]) >= Stamp(clocks[0]) by {
        forall i | 0 <= i < |rest| ensures Stamp(rest[i]) >= Stamp(clocks[0]) {
          assert rest[i] == clocks[i + 1];
        }
      }
      RelabelRunFresh(labels + {l}, s1, Stamp(clocks[0]), rest);
      var ls := RelabelAll(s, clocks).0;
      var tail := RelabelAll(s1, rest).0;
      assert ls == [l] + tail;
      assert FreshRun(labels + {l}, tail);
      forall i, j | 0 <= i < j < |ls| ensures ls[i] != ls[j] {
        if i == 0 {
          assert ls[j] == tail[j - 1];
        } else {
          assert ls[i] == tail[i - 1] && ls[j] == tail[j - 1];
        }
      }
      forall i | 0 <= i < |ls| ensures ls[i] !in labels {
        if i > 0 {
          assert ls[i] == tail[i - 1];
        }
      }
    }
  }

  /** With a clock that never runs backwards, the (timestamp, sequence
      number) labels of the bundles created are pairwise distinct. */
  lemma LabelsDistinct(s: SequenceState, clocks: seq<ClockReading>)
    requires NonDecreasing(clocks)
    ensures var ls := RelabelAll(s, clocks).0;
      forall i, j :: 0 <= i < j < |ls| ==> ls[i] != ls[j]
  {
    RelabelRunFresh({}, s, 0, clocks);
  }

  /** A bad clock after a good one falls back to timestamp 0 and repeats a
      label already handed out. */
  lemma BadClockRepeatsLabel()
    ensures var ls := RelabelAll(SequenceState(0, 0), [BadClock, BadClock, GoodClock(5), BadClock]).0;
      |ls| == 4 && ls[1] == ls[3] == Label(0, 1)
  {
  }
}
