/** The statistics records of the Android daemon front-end: the column
    tables of the daemon statistics and of the per-convergence-layer
    statistics, the column maps used to read them back, the copy from the
    native statistics object, and the split of a convergence-layer tag
    `"layer|tag"` into its two parts with Java's `String.split`. */
module Stats {

  import opened Wrappers

  /** The position of `x` in `xs`, or |xs| when it does not occur. */
  function IndexOf(xs: seq<string>, x: string): (k: nat)
    ensures k <= |xs|
    ensures k < |xs| ==> xs[k] == x
    ensures forall i :: 0 <= i < k ==> xs[i] != x
  {
    if |xs| == 0 then 0
    else if xs[0] == x then 0
    else 1 + IndexOf(xs[1..], x)
  }

  /** No name occurs twice. */
  predicate Distinct(xs: seq<string>)
  {
    forall i, j :: 0 <= i < j < |xs| ==> xs[i] != xs[j]
  }

  /** The name of the row id column shared by every table. */
  const ID_COLUMN := "_id"

  // ---------------------------------------------------------------------
  // Daemon statistics
  // ---------------------------------------------------------------------

  datatype Column =
    | Id | Timestamp | Uptime | Neighbors | StorageSize
    | ClockOffset | ClockRating | ClockAdjustments
    | BundleAborted | BundleExpired | BundleGenerated | BundleQueued
    | BundleReceived | BundleRequeued | BundleStored | BundleTransmitted

  /** The name constant of each column. */
  function Name(c: Column): string
  {
    match c
    case Id => ID_COLUMN
    case Timestamp => "timestamp"
    case Uptime => "uptime"
    case Neighbors => "neighbors"
    case StorageSize => "storage_size"
    case ClockOffset => "clock_offset"
    case ClockRating => "clock_rating"
    case ClockAdjustments => "clock_adjustments"
    case BundleAborted => "bundle_aborted"
    case BundleExpired => "bundle_expired"
    case BundleGenerated => "bundle_generated"
    case BundleQueued => "bundle_queued"
    case BundleReceived => "bundle_received"
    case BundleRequeued => "bundle_requeued"
    case BundleStored => "bundle_stored"
    case BundleTransmitted => "bundle_transmitted"
  }

  /** The columns a query asks for, in order. */
  const PROJECTION: seq<string> := [
    ID_COLUMN, "timestamp", "uptime", "neighbors", "storage_size",
    "clock_offset", "clock_rating", "clock_adjustments",
    "bundle_aborted", "bundle_expired", "bundle_generated", "bundle_queued",
    "bundle_received", "bundle_requeued", "bundle_stored", "bundle_transmitted"]

  /** The `COLUMN_STATS_*` constants. */
  function ColumnIndex(c: Column): nat
  {
    match c
    case Id => 0
    case Timestamp => 1
    case Uptime => 2
    case Neighbors => 3
    case StorageSize => 4
    case ClockOffset => 5
    case ClockRating => 6
    case ClockAdjustments => 7
    case BundleAborted => 8
    case BundleExpired => 9
    case BundleGenerated => 10
    case BundleQueued => 11
    case BundleReceived => 12
    case BundleRequeued => 13
    case BundleStored => 14
    case BundleTransmitted => 15
  }

  /** Every column, in declaration order. */
  const ALL_COLUMNS: seq<Column> := [
    Id, Timestamp, Uptime, Neighbors, StorageSize, ClockOffset, ClockRating,
    ClockAdjustments, BundleAborted, BundleExpired, BundleGenerated, BundleQueued,
    BundleReceived, BundleRequeued, BundleStored, BundleTransmitted]

  /** The projection lists sixteen distinct names, every index constant
      points at the name of its own column, and the constants are exactly
      the positions 0 to 15, one per column. */
  lemma ProjectionConsistent()
    ensures |PROJECTION| == 16 && Distinct(PROJECTION)
    ensures forall c: Column :: ColumnIndex(c) < |PROJECTION| && PROJECTION[ColumnIndex(c)] == Name(c)
    ensures forall c: Column, d: Column :: ColumnIndex(c) == ColumnIndex(d) ==> c == d
    ensures |ALL_COLUMNS| == 16 && forall i :: 0 <= i < 16 ==> ColumnIndex(ALL_COLUMNS[i]) == i
  {
  }

  /** A `ColumnsMap`: the cursor position each field is read from. Fields
      the constructors do not set keep Java's default 0. */
  datatype ColumnsMap = ColumnsMap(index: Column -> int)

  /** The default `ColumnsMap`: every field the constructor sets holds the
      position of its own name in the projection; the id field is not set
      and stays 0, which is the id column's position. */
  function DefaultColumnsMap(): (m: ColumnsMap)
    ensures forall c: Column :: m.index(c) == IndexOf(PROJECTION, Name(c))
  {
    ProjectionConsistent();
    ColumnsMap(c => if c == Id then 0 else ColumnIndex(c))
  }

  /** `getColumnIndexOrThrow`: the position of a column in a cursor's column
      list, or None where the Java method throws. */
  function CursorIndex(columns: seq<string>, name: string): (r: Option<nat>)
    ensures r.Some? <==> name in columns
    ensures r.Some? ==> r.value < |columns| && columns[r.value] == name
  {
    var k := IndexOf(columns, name);
    if k < |columns| then Some(k) else None
  }

  /** `ColumnsMap(Cursor)`: only the id and timestamp fields are looked up,
      each left at 0 when the cursor lacks that column. */
  function CursorColumnsMap(columns: seq<string>): (m: ColumnsMap)
    ensures forall c: Column :: c != Id && c != Timestamp ==> m.index(c) == 0
    ensures forall c: Column :: (c == Id || c == Timestamp) && Name(c) !in columns ==> m.index(c) == 0
    ensures forall c: Column :: (c == Id || c == Timestamp) && Name(c) in columns ==>
      0 <= m.index(c) < |columns| && columns[m.index(c)] == Name(c)
  {
    ColumnsMap(c =>
      if c == Id || c == Timestamp then
        match CursorIndex(columns, Name(c))
        case Some(k) => k
        case None => 0
      else 0)
  }

  /** Over a cursor holding exactly the projection, the cursor map agrees
      with the default map on the two fields it sets. */
  lemma CursorMapOnProjection()
    ensures forall c: Column :: c == Id || c == Timestamp ==>
      CursorColumnsMap(PROJECTION).index(c) == DefaultColumnsMap().index(c)
  {
    ProjectionConsistent();
  }

  /** The native statistics object: the timestamp and the counters the
      daemon reports. */
  datatype NativeStats = NativeStats(
    timestamp: int,
    neighbors: int,
    uptime: int,
    storageSize: int,
    timeOffset: real,
    timeRating: real,
    timeAdjustments: int,
    bundlesAborted: int,
    bundlesExpired: int,
    bundlesGenerated: int,
    bundlesQueued: int,
    bundlesReceived: int,
    bundlesRequeued: int,
    bundlesStored: int,
    bundlesTransmitted: int)

  /** A value of a statistics field. */
  datatype Value = Whole(n: int) | Fraction(r: real)

  /** The native counter that belongs to each column; the id has none. */
  function NativeField(s: NativeStats, c: Column): (v: Option<Value>)
  {
    match c
    case Id => None
    case Timestamp => Some(Whole(s.timestamp))
    case Uptime => Some(Whole(s.uptime))
    case Neighbors => Some(Whole(s.neighbors))
    case StorageSize => Some(Whole(s.storageSize))
    case ClockOffset => Some(Fraction(s.timeOffset))
    case ClockRating => Some(Fraction(s.timeRating))
    case ClockAdjustments => Some(Whole(s.timeAdjustments))
    case BundleAborted => Some(Whole(s.bundlesAborted))
    case BundleExpired => Some(Whole(s.bundlesExpired))
    case BundleGenerated => Some(Whole(s.bundlesGenerated))
    case BundleQueued => Some(Whole(s.bundlesQueued))
    case BundleReceived => Some(Whole(s.bundlesReceived))
    case BundleRequeued => Some(Whole(s.bundlesRequeued))
    case BundleStored => Some(Whole(s.bundlesStored))
    case BundleTransmitted => Some(Whole(s.bundlesTransmitted))
  }

  /** A `StatsEntry`: every field may be null. */
  datatype StatsEntry = StatsEntry(
    id: Option<int>,
    timestamp: Option<int>,
    uptime: Option<int>,
    neighbors: Option<int>,
    storageSize: Option<int>,
    clockOffset: Option<real>,
    clockRating: Option<real>,
    clockAdjustments: Option<int>,
    bundleAborted: Option<int>,
    bundleExpired: Option<int>,
    bundleGenerated: Option<int>,
    bundleQueued: Option<int>,
    bundleReceived: Option<int>,
    bundleRequeued: Option<int>,
    bundleStored: Option<int>,
    bundleTransmitted: Option<int>)

  function Whole?(x: Option<int>): Option<Value>
  {
    match x
    case None => None
    case Some(n) => Some(Whole(n))
  }

  function Fraction?(x: Option<real>): Option<Value>
  {
    match x
    case None => None
    case Some(r) => Some(Fraction(r))
  }

  /** The field of an entry that belongs to each column. */
  function EntryField(e: StatsEntry, c: Column): Option<Value>
  {
    match c
    case Id => Whole?(e.id)
    case Timestamp => Whole?(e.timestamp)
    case Uptime => Whole?(e.uptime)
    case Neighbors => Whole?(e.neighbors)
    case StorageSize => Whole?(e.storageSize)
    case ClockOffset => Fraction?(e.clockOffset)
    case ClockRating => Fraction?(e.clockRating)
    case ClockAdjustments => Whole?(e.clockAdjustments)
    case BundleAborted => Whole?(e.bundleAborted)
    case BundleExpired => Whole?(e.bundleExpired)
    case BundleGenerated => Whole?(e.bundleGenerated)
    case BundleQueued => Whole?(e.bundleQueued)
    case BundleReceived => Whole?(e.bundleReceived)
    case BundleRequeued => Whole?(e.bundleRequeued)
    case BundleStored => Whole?(e.bundleStored)
    case BundleTransmitted => Whole?(e.bundleTransmitted)
  }

  /** `StatsEntry(NativeStats)`: every field is copied from the native
      counter of the same name; the id stays null. The timestamp is kept in
      the daemon's own representation. */
  function FromNative(s: NativeStats): (e: StatsEntry)
    ensures forall c: Column :: EntryField(e, c) == NativeField(s, c)
  {
    StatsEntry(
      None,
      Some(s.timestamp),
      Some(s.uptime),
      Some(s.neighbors),
      Some(s.storageSize),
      Some(s.timeOffset),
      Some(s.timeRating),
      Some(s.timeAdjustments),
      Some(s.bundlesAborted),
      Some(s.bundlesExpired),
      Some(s.bundlesGenerated),
      Some(s.bundlesQueued),
      Some(s.bundlesReceived),
      Some(s.bundlesRequeued),
      Some(s.bundlesStored),
      Some(s.bundlesTransmitted))
  }

  // ---------------------------------------------------------------------
  // Convergence-layer statistics
  // ---------------------------------------------------------------------

  datatype ClColumn = ClId | ClTimestamp | ConvergenceLayer | DataTag | DataValue

  function ClName(c: ClColumn): string
  {
    match c
    case ClId => ID_COLUMN
    case ClTimestamp => "timestamp"
    case ConvergenceLayer => "convergence_layer"
    case DataTag => "data_tag"
    case DataValue => "data_value"
  }

  const CL_PROJECTION: seq<string> := [ID_COLUMN, "timestamp", "convergence_layer", "data_tag", "data_value"]

  /** The `COLUMN_STATS_*` constants of the convergence-layer table. */
  function ClColumnIndex(c: ClColumn): nat
  {
    match c
    case ClId => 0
    case ClTimestamp => 1
    case ConvergenceLayer => 2
    case DataTag => 3
    case DataValue => 4
  }

  /** The convergence-layer projection lists five distinct names and every
      index constant points at its own column's name. */
  lemma ClProjectionConsistent()
    ensures |CL_PROJECTION| == 5 && Distinct(CL_PROJECTION)
    ensures forall c: ClColumn :: ClColumnIndex(c) < |CL_PROJECTION| && CL_PROJECTION[ClColumnIndex(c)] == ClName(c)
    ensures forall c: ClColumn, d: ClColumn :: ClColumnIndex(c) == ClColumnIndex(d) ==> c == d
  {
  }

  datatype ClColumnsMap = ClColumnsMap(index: ClColumn -> int)

  /** The default convergence-layer `ColumnsMap`: each field holds the
      position of its own name in the projection (the id, unset, stays 0). */
  function DefaultClColumnsMap(): (m: ClColumnsMap)
    ensures forall c: ClColumn :: m.index(c) == IndexOf(CL_PROJECTION, ClName(c))
  {
    ColumnsMapHelper();
    ClColumnsMap(c => if c == ClId then 0 else ClColumnIndex(c))
  }

  lemma ColumnsMapHelper()
    ensures forall c: ClColumn :: IndexOf(CL_PROJECTION, ClName(c)) == ClColumnIndex(c)
  {
    ClProjectionConsistent();
  }

  /** `ColumnsMap(Cursor)` of the convergence-layer table: only id and
      timestamp are looked up; everything else stays 0. */
  function CursorClColumnsMap(columns: seq<string>): (m: ClColumnsMap)
    ensures forall c: ClColumn :: c != ClId && c != ClTimestamp ==> m.index(c) == 0
    ensures forall c: ClColumn :: (c == ClId || c == ClTimestamp) && ClName(c) !in columns ==> m.index(c) == 0
    ensures forall c: ClColumn :: (c == ClId || c == ClTimestamp) && ClName(c) in columns ==>
      0 <= m.index(c) < |columns| && columns[m.index(c)] == ClName(c)
  {
    ClColumnsMap(c =>
      if c == ClId || c == ClTimestamp then
        match CursorIndex(columns, ClName(c))
        case Some(k) => k
        case None => 0
      else 0)
  }

  // ---------------------------------------------------------------------
  // Java String.split on "|"
  // ---------------------------------------------------------------------

  const BAR: char := '|'

  /** The text between the separators, every piece kept: one more piece
      than there are separators. */
  function Pieces(s: string): (r: seq<string>)
    ensures |r| >= 1
    decreases |s|
  {
    if |s| == 0 then [""]
    else
      var rest := Pieces(s[1..]);
      if s[0] == BAR then [""] + rest
      else [[s[0]] + rest[0]] + rest[1..]
  }

  /** The pieces joined again with separators between them. */
  function Join(ps: seq<string>): string
    requires |ps| >= 1
    decreases |ps|
  {
    if |ps| == 1 then ps[0] else ps[0] + [BAR] + Join(ps[1..])
  }

  /** The list without its trailing empty strings. */
  function DropTrailingEmpty(ps: seq<string>): (r: seq<string>)
    ensures |r| <= |ps| && r == ps[..|r|]
    ensures |r| > 0 ==> r[|r| - 1] != ""
    ensures forall j :: |r| <= j < |ps| ==> ps[j] == ""
  {
    if |ps| == 0 then []
    else if ps[|ps| - 1] == "" then DropTrailingEmpty(ps[..|ps| - 1])
    else ps
  }

  /** `s.split("\\|")`: with no separator the string itself; otherwise the
      pieces without the trailing empty ones. */
  function JavaSplit(s: string): (r: seq<string>)
    ensures BAR !in s ==> r == [s]
    ensures BAR in s ==> |r| <= |Pieces(s)| && r == Pieces(s)[..|r|]
    ensures BAR in s ==> |r| > 0 ==> r[|r| - 1] != ""
    ensures BAR in s ==> forall j :: |r| <= j < |Pieces(s)| ==> Pieces(s)[j] == ""
  {
    if BAR !in s then [s] else DropTrailingEmpty(Pieces(s))
  }

  /** The position of the first separator, or |s|. */
  function FirstBar(s: string): (k: nat)
    ensures k <= |s|
    ensures k < |s| ==> s[k] == BAR
    ensures forall i :: 0 <= i < k ==> s[i] != BAR
  {
    if |s| == 0 then 0
    else if s[0] == BAR then 0
    else 1 + FirstBar(s[1..])
  }

  /** Splitting and joining again gives back the string, and no piece holds
      a separator. */
  lemma {:induction false} PiecesJoin(s: string)
    ensures Join(Pieces(s)) == s
    ensures forall k :: 0 <= k < |Pieces(s)| ==> BAR !in Pieces(s)[k]
    decreases |s|
  {
    if |s| > 0 {
      var rest := Pieces(s[1..]);
      PiecesJoin(s[1..]);
      if s[0] == BAR {
        assert Pieces(s)[1..] == rest;
      } else {
        JoinConsHead([s[0]], rest);
        assert s == [s[0]] + s[1..];
        forall k | 0 <= k < |Pieces(s)| ensures BAR !in Pieces(s)[k] {
          if k > 0 { assert Pieces(s)[k] == rest[k]; }
        }
      }
    }
  }

  lemma {:induction false} JoinConsHead(x: string, ps: seq<string>)
    requires |ps| >= 1
    ensures Join([x + ps[0]] + ps[1..]) == x + Join(ps)
  {
    var qs := [x + ps[0]] + ps[1..];
    if |ps| > 1 {
      assert qs[1..] == ps[1..];
      calc {
        Join(qs);
        qs[0] + [BAR] + Join(qs[1..]);
        (x + ps[0]) + [BAR] + Join(ps[1..]);
        x + (ps[0] + [BAR] + Join(ps[1..]));
        x + Join(ps);
      }
    } else {
      assert qs == [x + ps[0]];
    }
  }

  /** The first piece runs up to the first separator, and the remaining
      pieces are those of the text after it. */
  lemma {:induction false} PiecesAtFirstBar(s: string)
    ensures Pieces(s)[0] == s[..FirstBar(s)]
    ensures FirstBar(s) < |s| ==> Pieces(s)[1..] == Pieces(s[FirstBar(s) + 1..])
    decreases |s|
  {
    if |s| > 0 && s[0] != BAR {
      PiecesAtFirstBar(s[1..]);
      assert s[..FirstBar(s)] == [s[0]] + s[1..][..FirstBar(s[1..])];
      if FirstBar(s) < |s| {
        assert s[FirstBar(s) + 1..] == s[1..][FirstBar(s[1..]) + 1..];
      }
    }
  }

  /** Some piece is non-empty exactly when some character is not a
      separator. */
  lemma {:induction false} NonEmptyPiece(t: string)
    ensures (exists j :: 0 <= j < |Pieces(t)| && Pieces(t)[j] != "") <==> (exists i :: 0 <= i < |t| && t[i] != BAR)
    decreases |t|
  {
    if |t| > 0 {
      NonEmptyPiece(t[1..]);
      var rest := Pieces(t[1..]);
      if t[0] == BAR {
        assert Pieces(t) == [""] + rest;
        if exists i :: 0 <= i < |t| && t[i] != BAR {
          var i :| 0 <= i < |t| && t[i] != BAR;
          assert t[1..][i - 1] != BAR;
          var j :| 0 <= j < |rest| && rest[j] != "";
          assert Pieces(t)[j + 1] != "";
        }
        if exists j :: 0 <= j < |Pieces(t)| && Pieces(t)[j] != "" {
          var j :| 0 <= j < |Pieces(t)| && Pieces(t)[j] != "";
          assert rest[j - 1] != "";
          var i :| 0 <= i < |t[1..]| && t[1..][i] != BAR;
          assert t[i + 1] != BAR;
        }
      } else {
        assert Pieces(t)[0] != "";
      }
    }
  }

  /** Why a tag cannot be split into layer and data tag: the split has no
      element at that position. */
  datatype SplitError = IndexOutOfBounds(index: nat)

  /** The layer and data tag of `tag` as the convergence-layer statistics
      entry reads them: the first and second element of the split. */
  function SplitTag(tag: string): (r: Result<(string, string), SplitError>)
    ensures r.Err? <==> |JavaSplit(tag)| < 2
    ensures r.Err? ==> r.error == IndexOutOfBounds(|JavaSplit(tag)|)
    ensures r.Ok? ==> r.value == (JavaSplit(tag)[0], JavaSplit(tag)[1])
  {
    var parts := JavaSplit(tag);
    if |parts| == 0 then Err(IndexOutOfBounds(0))
    else if |parts| == 1 then Err(IndexOutOfBounds(1))
    else Ok((parts[0], parts[1]))
  }

  /** After dropping the trailing empty strings at least two elements are
      left exactly when some element after the first is non-empty. */
  lemma {:induction false} DropKeepsTwo(ps: seq<string>)
    ensures |DropTrailingEmpty(ps)| >= 2 <==> exists j :: 1 <= j < |ps| && ps[j] != ""
  {
    var r := DropTrailingEmpty(ps);
    if |r| >= 2 {
      assert ps[|r| - 1] == r[|r| - 1];
    }
  }

  /** A tag splits exactly when some character after its first separator
      is not a separator. */
  lemma {:induction false} SplitTagOk(tag: string)
    ensures SplitTag(tag).Ok? <==> exists i :: FirstBar(tag) < i < |tag| && tag[i] != BAR
  {
    var p := FirstBar(tag);
    if p < |tag| {
      assert BAR in tag;
      var rest := tag[p + 1..];
      var ps := Pieces(tag);
      PiecesAtFirstBar(tag);
      NonEmptyPiece(rest);
      DropKeepsTwo(ps);
      if exists i :: p < i < |tag| && tag[i] != BAR {
        var i :| p < i < |tag| && tag[i] != BAR;
        assert rest[i - p - 1] != BAR;
        var j :| 0 <= j < |Pieces(rest)| && Pieces(rest)[j] != "";
        assert ps[j + 1] != "";
      }
      if exists j :: 1 <= j < |ps| && ps[j] != "" {
        var j :| 1 <= j < |ps| && ps[j] != "";
        assert Pieces(rest)[j - 1] != "";
        var i :| 0 <= i < |rest| && rest[i] != BAR;
        assert tag[p + 1 + i] != BAR;
      }
    } else {
      assert BAR !in tag;
    }
  }

  /** A tag that splits names as layer the text before its first separator
      and as data tag the text from there to the next one; further parts
      are ignored. */
  lemma {:induction false} SplitTagParts(tag: string)
    requires SplitTag(tag).Ok?
    ensures var p := FirstBar(tag);
      && p < |tag|
      && var rest := tag[p + 1..];
      SplitTag(tag).value == (tag[..p], rest[..FirstBar(rest)])
  {
    var p := FirstBar(tag);
    SplitTagOk(tag);
    PiecesAtFirstBar(tag);
    var rest := tag[p + 1..];
    PiecesAtFirstBar(rest);
    var ps := Pieces(tag);
    assert ps[1] == Pieces(rest)[0];
  }

  /** A convergence-layer statistics entry built from native data. */
  datatype ClEntry = ClEntry(timestamp: int, convergenceLayer: string, dataTag: string, dataValue: int)

  /** `ConvergenceLayerStatsEntry(NativeStats, tag, index)`: the layer and
      data tag from the split tag, the value from the native data at
      `index`; a tag without two parts fails with the index that was out of
      bounds. */
  function FromNativeTagged(timestamp: int, getData: int -> int, tag: string, index: int): (r: Result<ClEntry, SplitError>)
    ensures r.Err? <==> SplitTag(tag).Err?
    ensures r.Err? ==> r.error == SplitTag(tag).error
    ensures r.Ok? ==>
      && r.value.timestamp == timestamp
      && r.value.dataValue == getData(index)
      && (r.value.convergenceLayer, r.value.dataTag) == SplitTag(tag).value
  {
    match SplitTag(tag)
    case Err(e) => Err(e)
    case Ok((layer, dataTag)) => Ok(ClEntry(timestamp, layer, dataTag, getData(index)))
  }

  /** The first separator of `a + [BAR] + b` is the one after `a` when `a`
      holds none. */
  lemma {:induction false} FirstBarAfter(a: string, b: string)
    requires BAR !in a
    ensures FirstBar(a + [BAR] + b) == |a|
  {
    var s := a + [BAR] + b;
    var k := FirstBar(s);
    assert s[|a|] == BAR;
    assert forall i :: 0 <= i < |a| ==> s[i] == a[i];
  }

  /** A tag made of a layer, a separator and a text that does not start
      with a separator names that layer and the text up to its next
      separator. */
  lemma {:induction false} SplitTagOfParts(layer: string, rest: string)
    requires BAR !in layer && |rest| > 0 && rest[0] != BAR
    ensures SplitTag(layer + [BAR] + rest) == Ok((layer, rest[..FirstBar(rest)]))
  {
    var t := layer + [BAR] + rest;
    var p := |layer|;
    FirstBarAfter(layer, rest);
    assert t[p + 1..] == rest;
    assert t[..p] == layer;
    assert t[p + 1] == rest[0];
    SplitTagOk(t);
    SplitTagParts(t);
  }

  /** Joining a layer and a non-empty data tag with a separator and
      splitting again gives both back, whatever follows a further
      separator. */
  lemma {:induction false} SplitTagRoundTrip(layer: string, dataTag: string, extra: string)
    requires BAR !in layer && BAR !in dataTag && |dataTag| > 0
    ensures SplitTag(layer + [BAR] + dataTag) == Ok((layer, dataTag))
    ensures SplitTag(layer + [BAR] + dataTag + [BAR] + extra) == Ok((layer, dataTag))
  {
    var more := dataTag + [BAR] + extra;
    assert layer + [BAR] + dataTag + [BAR] + extra == layer + [BAR] + more;
    assert more[0] == dataTag[0];
    SplitTagOfParts(layer, dataTag);
    SplitTagOfParts(layer, more);
    FirstBarAfter(dataTag, extra);
    assert FirstBar(dataTag) == |dataTag|;
    assert dataTag[..FirstBar(dataTag)] == dataTag;
    assert more[..FirstBar(more)] == dataTag;
  }

  /** A tag with no separator, or whose only separator ends it, does not
      split. */
  lemma {:induction false} SplitTagFails(layer: string)
    requires BAR !in layer
    ensures SplitTag(layer).Err?
    ensures SplitTag(layer + [BAR]).Err?
  {
    FirstBarAfter(layer, []);
    SplitTagOk(layer + [BAR]);
  }
}
