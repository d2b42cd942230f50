/** The message store the Talkie service works against. Its implementation
    is not part of this model; what the service relies on is stated here as
    a list of messages in insertion order, each with a store-assigned id and
    a `marked` flag that is false for a newly inserted message. */
module Mailbox {

  import opened Wrappers

  datatype Folder = Inbox | Outbox

  datatype Message = Message(
    id: nat,
    folder: Folder,
    source: string,
    destination: string,
    created: int,
    received: int,
    file: string,
    marked: bool)

  datatype Store = Store(messages: seq<Message>, nextId: nat)

  /** No two messages share an id. */
  ghost predicate DistinctIds(ms: seq<Message>)
  {
    forall i, j :: 0 <= i < j < |ms| ==> ms[i].id != ms[j].id
  }

  /** Ids are distinct and every id was handed out before. */
  ghost predicate Valid(s: Store)
  {
    && DistinctIds(s.messages)
    && forall i :: 0 <= i < |s.messages| ==> s.messages[i].id < s.nextId
  }

  /** The store before anything was inserted. */
  function Empty(): (s: Store)
    ensures Valid(s) && |s.messages| == 0
  {
    Store([], 0)
  }

  /** Whether message `m` is message `id` of folder `f`. */
  predicate Is(m: Message, f: Folder, id: nat)
  {
    m.folder == f && m.id == id
  }

  /** The first message `id` of folder `f`. */
  function Find(ms: seq<Message>, f: Folder, id: nat): (r: Option<Message>)
    ensures r.Some? ==> r.value in ms && Is(r.value, f, id)
    ensures r.None? <==> forall i :: 0 <= i < |ms| ==> !Is(ms[i], f, id)
  {
    if |ms| == 0 then None
    else if Is(ms[0], f, id) then Some(ms[0])
    else Find(ms[1..], f, id)
  }

  /** `get(folder, id)`: the message, or None when there is none. */
  function Get(s: Store, f: Folder, id: nat): (r: Option<Message>)
    ensures r.Some? ==> r.value in s.messages && Is(r.value, f, id)
    ensures r.None? <==> forall i :: 0 <= i < |s.messages| ==> !Is(s.messages[i], f, id)
  {
    Find(s.messages, f, id)
  }

  /** `put(folder, message)`: appends an unmarked message under a fresh id. */
  function Put(s: Store, f: Folder, source: string, destination: string,
               created: int, received: int, file: string): (r: (Store, nat))
    ensures r.1 == s.nextId && r.0.nextId == s.nextId + 1
    ensures r.0.messages == s.messages + [Message(r.1, f, source, destination, created, received, file, false)]
    ensures Valid(s) ==> Valid(r.0)
  {
    var m := Message(s.nextId, f, source, destination, created, received, file, false);
    (Store(s.messages + [m], s.nextId + 1), s.nextId)
  }

  /** Sets the flag of every message `id` of folder `f`. */
  function MarkAll(ms: seq<Message>, f: Folder, id: nat, value: bool): (r: seq<Message>)
    ensures |r| == |ms|
    ensures forall i :: 0 <= i < |ms| ==>
      r[i] == if Is(ms[i], f, id) then ms[i].(marked := value) else ms[i]
  {
    if |ms| == 0 then []
    else [if Is(ms[0], f, id) then ms[0].(marked := value) else ms[0]] + MarkAll(ms[1..], f, id, value)
  }

  /** `mark(folder, id, value)`; marking a message that does not exist
      changes nothing. */
  function Mark(s: Store, f: Folder, id: nat, value: bool): (r: Store)
    ensures r.nextId == s.nextId && |r.messages| == |s.messages|
    ensures forall i :: 0 <= i < |s.messages| ==>
      r.messages[i] == if Is(s.messages[i], f, id) then s.messages[i].(marked := value) else s.messages[i]
    ensures Valid(s) ==> Valid(r)
  {
    Store(MarkAll(s.messages, f, id, value), s.nextId)
  }

  /** Whether `m` is in folder `f` with flag `value`. */
  predicate Counted(m: Message, f: Folder, value: bool)
  {
    m.folder == f && m.marked == value
  }

  /** The number of messages of folder `f` whose flag is `value`. */
  function CountMarked(ms: seq<Message>, f: Folder, value: bool): (n: nat)
    ensures n <= |ms|
    ensures n == 0 <==> forall i :: 0 <= i < |ms| ==> !Counted(ms[i], f, value)
  {
    if |ms| == 0 then 0
    else (if Counted(ms[0], f, value) then 1 else 0) + CountMarked(ms[1..], f, value)
  }

  /** `getMarkedMessageCount(folder, value)`. */
  function MarkedCount(s: Store, f: Folder, value: bool): (n: nat)
    ensures n <= |s.messages|
    ensures n == 0 <==> forall i :: 0 <= i < |s.messages| ==> !Counted(s.messages[i], f, value)
  {
    CountMarked(s.messages, f, value)
  }

  /** The first message of folder `f` with flag `value`. */
  function FirstMarked(ms: seq<Message>, f: Folder, value: bool): (r: Option<Message>)
    ensures r.Some? ==> r.value in ms && Counted(r.value, f, value)
    ensures r.None? <==> forall i :: 0 <= i < |ms| ==> !Counted(ms[i], f, value)
    ensures r.Some? ==> exists k :: (0 <= k < |ms| && ms[k] == r.value &&
      forall i :: 0 <= i < k ==> !Counted(ms[i], f, value))
  {
    if |ms| == 0 then None
    else if Counted(ms[0], f, value) then Some(ms[0])
    else
      var r := FirstMarked(ms[1..], f, value);
      if r.Some? then
        assert exists k :: (0 <= k < |ms| && ms[k] == r.value &&
          forall i :: 0 <= i < k ==> !Counted(ms[i], f, value)) by {
          var k :| 0 <= k < |ms[1..]| && ms[1..][k] == r.value &&
            forall i :: 0 <= i < k ==> !Counted(ms[1..][i], f, value);
          assert ms[k + 1] == r.value;
          assert forall i :: 0 <= i < k + 1 ==> !Counted(ms[i], f, value) by {
            forall i | 0 <= i < k + 1 ensures !Counted(ms[i], f, value) {
              if i > 0 {
                assert ms[i] == ms[1..][i - 1];
              }
            }
          }
        }
        r
      else r
  }

  /** `nextMarked(folder, value)`: the oldest message with that flag. */
  function NextMarked(s: Store, f: Folder, value: bool): (r: Option<Message>)
    ensures r.Some? ==> r.value in s.messages && Counted(r.value, f, value)
    ensures r.Some? ==> exists k :: (0 <= k < |s.messages| && s.messages[k] == r.value &&
      forall i :: 0 <= i < k ==> !Counted(s.messages[i], f, value))
  {
    FirstMarked(s.messages, f, value)
  }

  // ---------------------------------------------------------------------
  // Properties
  // ---------------------------------------------------------------------

  /** There is a next message with a flag exactly when the count for that
      flag is positive. */
  lemma NextMarkedIffCount(s: Store, f: Folder, value: bool)
    ensures NextMarked(s, f, value).Some? <==> MarkedCount(s, f, value) > 0
  {
  }

  lemma {:induction false} CountAppend(ms: seq<Message>, m: Message, f: Folder, value: bool)
    ensures CountMarked(ms + [m], f, value) == CountMarked(ms, f, value) + (if Counted(m, f, value) then 1 else 0)
    decreases |ms|
  {
    if |ms| == 0 {
      assert ms + [m] == [m];
      assert [m][1..] == [];
    } else {
      assert (ms + [m])[1..] == ms[1..] + [m];
      CountAppend(ms[1..], m, f, value);
    }
  }

  /** Reading a message back after inserting it returns what was inserted,
      unmarked. */
  lemma PutThenGet(s: Store, f: Folder, source: string, destination: string,
                   created: int, received: int, file: string)
    requires Valid(s)
    ensures var (s1, id) := Put(s, f, source, destination, created, received, file);
      Get(s1, f, id) == Some(Message(id, f, source, destination, created, received, file, false))
  {
    var (s1, id) := Put(s, f, source, destination, created, received, file);
    var m := Message(id, f, source, destination, created, received, file, false);
    var k := |s.messages|;
    assert s1.messages[k] == m;
    var r := Get(s1, f, id);
    assert r.Some?;
    assert forall j :: 0 <= j < k ==> s1.messages[j] == s.messages[j];
  }

  /** Inserting into a folder raises its unmarked count by one and leaves
      every other count alone. */
  lemma PutCounts(s: Store, f: Folder, source: string, destination: string,
                  created: int, received: int, file: string, g: Folder, value: bool)
    ensures var s1 := Put(s, f, source, destination, created, received, file).0;
      MarkedCount(s1, g, value) == MarkedCount(s, g, value) + (if g == f && !value then 1 else 0)
  {
    var s1 := Put(s, f, source, destination, created, received, file).0;
    CountAppend(s.messages, s1.messages[|s.messages|], g, value);
  }

  /** Marking twice is the same as the second marking alone. */
  lemma MarkLastWins(s: Store, f: Folder, id: nat, a: bool, b: bool)
    ensures Mark(Mark(s, f, id, a), f, id, b) == Mark(s, f, id, b)
  {
    var l := Mark(Mark(s, f, id, a), f, id, b);
    var r := Mark(s, f, id, b);
    assert l.messages == r.messages;
  }

  /** After marking an existing message, reading it back shows the new flag
      and nothing else about it changed. */
  lemma MarkThenGet(s: Store, f: Folder, id: nat, value: bool)
    requires Get(s, f, id).Some?
    ensures Get(Mark(s, f, id, value), f, id) == Some(Get(s, f, id).value.(marked := value))
  {
    MarkThenFind(s.messages, f, id, value);
  }

  lemma {:induction false} MarkThenFind(ms: seq<Message>, f: Folder, id: nat, value: bool)
    requires Find(ms, f, id).Some?
    ensures Find(MarkAll(ms, f, id, value), f, id) == Some(Find(ms, f, id).value.(marked := value))
    decreases |ms|
  {
    var r := MarkAll(ms, f, id, value);
    if !Is(ms[0], f, id) {
      assert r[1..] == MarkAll(ms[1..], f, id, value);
      MarkThenFind(ms[1..], f, id, value);
    }
  }

  lemma {:induction false} MarkAbsent(ms: seq<Message>, f: Folder, id: nat, value: bool)
    requires forall i :: 0 <= i < |ms| ==> !Is(ms[i], f, id)
    ensures MarkAll(ms, f, id, value) == ms
  {
  }

  /** Marking an unmarked message lowers the unmarked count of its folder by
      exactly one; marking a marked one leaves it unchanged. */
  lemma {:induction false} MarkCountSeq(ms: seq<Message>, f: Folder, id: nat)
    requires DistinctIds(ms)
    requires Find(ms, f, id).Some?
    ensures CountMarked(MarkAll(ms, f, id, true), f, false)
      == CountMarked(ms, f, false) - (if Find(ms, f, id).value.marked then 0 else 1)
    decreases |ms|
  {
    var r := MarkAll(ms, f, id, true);
    assert r[1..] == MarkAll(ms[1..], f, id, true);
    if Is(ms[0], f, id) {
      forall i | 0 <= i < |ms[1..]| ensures !Is(ms[1..][i], f, id) {
        assert ms[1..][i] == ms[i + 1];
      }
      MarkAbsent(ms[1..], f, id, true);
    } else {
      MarkCountSeq(ms[1..], f, id);
    }
  }

  /** The store-level form of `MarkCountSeq`. */
  lemma MarkReadCount(s: Store, f: Folder, id: nat)
    requires Valid(s)
    requires Get(s, f, id).Some?
    ensures MarkedCount(Mark(s, f, id, true), f, false)
      == MarkedCount(s, f, false) - (if Get(s, f, id).value.marked then 0 else 1)
  {
    MarkCountSeq(s.messages, f, id);
  }
}
