/** The Talkie walkie-talkie service: the per-bundle receive handler that
    stores an incoming voice message in a temporary file, and the command
    dispatcher that stores, plays, sends and announces messages. Commands
    the service sends to itself are returned as effects; playback is one
    atomic step whose outcome is an input; the preferences, the proximity
    sensor reading and the results of file and session calls are
    parameters. */
module Talkie {

  import opened Wrappers
  import opened Mailbox

  /** A crash of the service thread: a dereferenced null reference. */
  datatype Fault = NullReference

  // ---------------------------------------------------------------------
  // Receive handler
  // ---------------------------------------------------------------------

  /** The parts of an incoming bundle the handler forwards. */
  datatype BundleInfo = BundleInfo(id: nat, source: string, destination: string, created: int)

  /** The handler's fields: current bundle, temporary file, open descriptor. */
  datatype Handler = Handler(bundle: Option<BundleInfo>, file: Option<string>, fdOpen: bool)

  datatype TransferMode = FileDescriptor | NullMode

  /** Commands the service sends to itself. */
  datatype Command =
    | Receive
    | MarkDelivered(bundle: nat)
    | Play(folder: Folder, message: nat)
    | PlayNext
    | Recorded(recfile: string, destination: string)
    | Received(source: string, destination: string, created: int, received: int, file: string)

  /** The handler before any bundle arrived. */
  function Idle(): (h: Handler)
    ensures h.bundle.None? && h.file.None? && !h.fdOpen
  {
    Handler(None, None, false)
  }

  /** `startBundle`: remembers the bundle. */
  function StartBundle(h: Handler, b: BundleInfo): (r: Handler)
    ensures r.bundle == Some(b) && r.file == h.file && r.fdOpen == h.fdOpen
  {
    h.(bundle := Some(b))
  }

  /** `startBlock`: asks for the payload through a file descriptor when the
      block is a payload block (type 1), no file is held yet and a temporary
      file could be created (`tempFile` is None when creation failed). */
  function StartBlock(h: Handler, blockType: nat, tempFile: Option<string>): (r: (Handler, TransferMode))
    ensures r.1 == FileDescriptor <==> blockType == 1 && h.file.None? && tempFile.Some?
    ensures r.1 == FileDescriptor ==> r.0.file == tempFile
    ensures r.1 == NullMode ==> r.0.file == h.file
    ensures r.0.bundle == h.bundle && r.0.fdOpen == h.fdOpen
  {
    if blockType == 1 && h.file.None? then
      match tempFile
      case Some(f) => (h.(file := Some(f)), FileDescriptor)
      case None => (h.(file := None), NullMode)
    else (h, NullMode)
  }

  /** `fd`: opens a descriptor on the temporary file (`openOk` says whether
      the open succeeded; a failure is only logged and yields no
      descriptor). Opening without a file dereferences null. */
  function OpenFd(h: Handler, openOk: bool): (r: Result<(Handler, bool), Fault>)
    ensures r.Err? <==> h.file.None?
    ensures r.Ok? ==> r.value.1 == openOk && r.value.0.file == h.file && r.value.0.bundle == h.bundle
    ensures r.Ok? ==> r.value.0.fdOpen == (openOk || h.fdOpen)
  {
    if h.file.None? then Err(NullReference)
    else if openOk then Ok((h.(fdOpen := true), true))
    else Ok((h, false))
  }

  /** `endBlock`: closes an open descriptor (`closeOk` says whether the close
      succeeded); the file is kept for `endBundle`. */
  function EndBlock(h: Handler, closeOk: bool): (r: Handler)
    ensures r.file == h.file && r.bundle == h.bundle
    ensures r.fdOpen <==> h.fdOpen && !closeOk
  {
    if h.fdOpen && closeOk then h.(fdOpen := false) else h
  }

  /** `endBundle`: when a file was received, passes it on as a RECEIVED
      command stamped with the local time `now` and then asks for the bundle
      to be marked delivered; afterwards neither bundle nor file is held.
      A file without a bundle dereferences null. */
  function EndBundle(h: Handler, now: int): (r: Result<(Handler, seq<Command>), Fault>)
    ensures r.Err? <==> h.file.Some? && h.bundle.None?
    ensures r.Ok? ==> r.value.0.bundle.None? && r.value.0.file.None? && r.value.0.fdOpen == h.fdOpen
    ensures r.Ok? && h.file.None? ==> r.value.1 == []
    ensures r.Ok? && h.file.Some? ==>
      var b := h.bundle.value;
      r.value.1 == [Received(b.source, b.destination, b.created, now, h.file.value), MarkDelivered(b.id)]
  {
    match h.file
    case None => Ok((h.(bundle := None), []))
    case Some(f) =>
      match h.bundle
      case None => Err(NullReference)
      case Some(b) =>
        Ok((Handler(None, None, h.fdOpen),
            [Received(b.source, b.destination, b.created, now, f), MarkDelivered(b.id)]))
  }

  /** One block of an incoming bundle as the session delivers it: its type,
      the temporary file that could be created for it, and whether opening
      and closing its descriptor succeed. */
  datatype BlockDelivery = BlockDelivery(blockType: nat, tempFile: Option<string>, openOk: bool, closeOk: bool)

  /** Whether the block would be taken as the message payload. */
  predicate Payload(d: BlockDelivery)
  {
    d.blockType == 1 && d.tempFile.Some?
  }

  /** The handler after one block: `startBlock`, then `fd` when a descriptor
      was requested, then `endBlock`. */
  function DeliverBlock(h: Handler, d: BlockDelivery): (r: Result<Handler, Fault>)
    ensures h.file.Some? ==> r.Ok? && r.value.file == h.file
    ensures h.file.None? ==> r.Ok? && r.value.file == (if Payload(d) then d.tempFile else None)
    ensures r.Ok? ==> r.value.bundle == h.bundle
  {
    var (h1, mode) := StartBlock(h, d.blockType, d.tempFile);
    if mode == FileDescriptor then
      match OpenFd(h1, d.openOk)
      case Err(e) => Err(e)
      case Ok((h2, _)) => Ok(EndBlock(h2, d.closeOk))
    else Ok(EndBlock(h1, d.closeOk))
  }

  /** The handler after a run of blocks. */
  function DeliverBlocks(h: Handler, ds: seq<BlockDelivery>): (r: Result<Handler, Fault>)
    ensures r.Ok? ==> r.value.bundle == h.bundle
    decreases |ds|
  {
    if |ds| == 0 then Ok(h)
    else match DeliverBlock(h, ds[0])
      case Err(e) => Err(e)
      case Ok(h1) => DeliverBlocks(h1, ds[1..])
  }

  /** The index of the first payload block, or |ds| when there is none. */
  function FirstPayload(ds: seq<BlockDelivery>): (k: nat)
    ensures k <= |ds|
    ensures k < |ds| ==> Payload(ds[k])
    ensures forall i :: 0 <= i < k ==> !Payload(ds[i])
  {
    if |ds| == 0 then 0
    else if Payload(ds[0]) then 0
    else 1 + FirstPayload(ds[1..])
  }

  /** The file held after the blocks is the one made for the first payload
      block, and is kept once held: a later payload block never replaces
      it. */
  lemma {:induction false} BlocksKeepFirstFile(h: Handler, ds: seq<BlockDelivery>)
    ensures DeliverBlocks(h, ds).Ok?
    ensures h.file.Some? ==> DeliverBlocks(h, ds).value.file == h.file
    ensures h.file.None? ==>
      DeliverBlocks(h, ds).value.file
        == (if FirstPayload(ds) < |ds| then ds[FirstPayload(ds)].tempFile else None)
    decreases |ds|
  {
    if |ds| > 0 {
      var h1 := DeliverBlock(h, ds[0]).value;
      BlocksKeepFirstFile(h1, ds[1..]);
      if h.file.None? && !Payload(ds[0]) {
        assert FirstPayload(ds) == 1 + FirstPayload(ds[1..]);
      }
    }
  }

  /** A whole bundle through a clean handler: `startBundle`, the blocks,
      `endBundle`. */
  function ReceiveBundle(h: Handler, b: BundleInfo, ds: seq<BlockDelivery>, now: int): (r: Result<(Handler, seq<Command>), Fault>)
    ensures r.Ok? ==> r.value.0.bundle.None? && r.value.0.file.None?
  {
    match DeliverBlocks(StartBundle(h, b), ds)
    case Err(e) => Err(e)
    case Ok(h1) => EndBundle(h1, now)
  }

  /** A bundle arriving at a clean handler produces RECEIVED and then
      MARK_DELIVERED exactly when one of its blocks is a payload block whose
      temporary file could be created, carrying that first file; otherwise
      it produces nothing. Either way the handler is clean again. */
  lemma BundleOutcome(b: BundleInfo, ds: seq<BlockDelivery>, now: int, fdOpen: bool)
    ensures var r := ReceiveBundle(Handler(None, None, fdOpen), b, ds, now);
      && r.Ok?
      && r.value.0.bundle.None? && r.value.0.file.None?
      && (FirstPayload(ds) == |ds| ==> r.value.1 == [])
      && (FirstPayload(ds) < |ds| ==>
            r.value.1 == [Received(b.source, b.destination, b.created, now, ds[FirstPayload(ds)].tempFile.value),
                          MarkDelivered(b.id)])
  {
    BlocksKeepFirstFile(StartBundle(Handler(None, None, fdOpen), b), ds);
  }

  // ---------------------------------------------------------------------
  // Command dispatcher
  // ---------------------------------------------------------------------

  datatype Stream = VoiceCall | Music
  datatype Sound = Beep | Confirm

  /** The preferences the dispatcher reads. */
  datatype Prefs = Prefs(autoplay: bool, vibrateOnMessage: bool)

  /** The service state the dispatcher changes. */
  datatype Service = Service(store: Store, onEar: bool, files: set<string>)

  /** Observable effects of one command. */
  datatype Effect =
    | Emit(command: Command)
    | QueryBundles
    | Delivered(bundle: nat)
    | PlayFile(path: string, stream: Stream)
    | PlaySound(stream: Stream, sound: Sound)
    | SendFile(destination: string, lifetime: nat, path: string)
    | PostNotification(count: nat, vibrate: bool)
    | CancelNotification

  /** The lifetime, in seconds, of a sent recording. */
  const RECORDING_LIFETIME: nat := 1800

  /** How playback of one message ends: setting the data source failed, the
      wait was interrupted after playback had started, or the recording
      played to its end. */
  datatype PlaybackOutcome = SourceFailed | Interrupted | Completed

  /** How sending a recording ends: `send` returned (with or without a
      bundle id), the file could not be opened, or `send` threw. */
  datatype SendOutcome = SendReturned(id: Option<nat>) | OpenFailed | SendThrew

  /** The results of calls outside the service for one command. */
  datatype Environment = Environment(playback: PlaybackOutcome, send: SendOutcome)

  /** The audio stream used for cues and playback. */
  function StreamFor(onEar: bool): (s: Stream)
    ensures s == VoiceCall <==> onEar
  {
    if onEar then VoiceCall else Music
  }

  /** `createNotification`: posts the unmarked-inbox count unless autoplay
      is on or there is nothing unmarked. */
  function CreateNotification(s: Store, p: Prefs): (e: seq<Effect>)
    ensures |e| <= 1
    ensures e != [] <==> !p.autoplay && MarkedCount(s, Inbox, false) > 0
    ensures e != [] ==> e[0] == PostNotification(MarkedCount(s, Inbox, false), p.vibrateOnMessage)
  {
    if p.autoplay then []
    else
      var count := MarkedCount(s, Inbox, false);
      if count <= 0 then [] else [PostNotification(count, p.vibrateOnMessage)]
  }

  /** `removeNotification`: cancels the notification once nothing in the
      inbox is unmarked. */
  function RemoveNotification(s: Store): (e: seq<Effect>)
    ensures e == [CancelNotification] <==> MarkedCount(s, Inbox, false) == 0
    ensures e == [] <==> MarkedCount(s, Inbox, false) != 0
  {
    if MarkedCount(s, Inbox, false) == 0 then [CancelNotification] else []
  }

  /** What playing a file looks like from outside, by outcome. */
  function PlaybackEffects(path: string, stream: Stream, outcome: PlaybackOutcome): (e: seq<Effect>)
    ensures outcome == SourceFailed <==> e == []
    ensures outcome != SourceFailed ==> |e| >= 2 && e[..2] == [PlayFile(path, stream), PlaySound(stream, Beep)]
    ensures Emit(PlayNext) in e <==> outcome == Completed
  {
    match outcome
    case SourceFailed => []
    case Interrupted => [PlayFile(path, stream), PlaySound(stream, Beep)]
    case Completed => [PlayFile(path, stream), PlaySound(stream, Beep), PlaySound(stream, Confirm), Emit(PlayNext)]
  }

  /** `onHandleIntent`: one command against the service. */
  function Handle(sv: Service, c: Command, p: Prefs, env: Environment): (r: Result<(Service, seq<Effect>), Fault>)
    ensures r.Err? <==> c.Play? && Get(sv.store, c.folder, c.message).None?
    ensures r.Ok? && !c.Play? && !c.Received? ==> r.value.0.store == sv.store
    ensures r.Ok? ==> r.value.0.onEar == sv.onEar
  {
    match c
    case Receive => Ok((sv, [QueryBundles]))
    case MarkDelivered(id) => Ok((sv, [Delivered(id)]))
    case Play(f, id) =>
      var s1 := Mark(sv.store, f, id, false);
      (match Get(s1, f, id)
       case None => Err(NullReference)
       case Some(m) =>
         var stream := StreamFor(sv.onEar);
         var s2 := Mark(s1, f, id, true);
         Ok((sv.(store := s2), PlaybackEffects(m.file, stream, env.playback) + RemoveNotification(s2))))
    case PlayNext =>
      if p.autoplay then
        (match NextMarked(sv.store, Inbox, false)
         case Some(m) => Ok((sv, [Emit(Play(Inbox, m.id))]))
         case None => Ok((sv, [])))
      else Ok((sv, []))
    case Recorded(recfile, destination) =>
      (match env.send
       case SendReturned(_) =>
         Ok((sv.(files := sv.files - {recfile}), [SendFile(destination, RECORDING_LIFETIME, recfile)]))
       case OpenFailed => Ok((sv, []))
       case SendThrew => Ok((sv, [SendFile(destination, RECORDING_LIFETIME, recfile)])))
    case Received(source, destination, created, received, file) =>
      var (s1, _) := Put(sv.store, Inbox, source, destination, created, received, file);
      Ok((sv.(store := s1), CreateNotification(s1, p) + [Emit(PlayNext)]))
  }

  /** `mSensorListener`: a non-empty proximity sample sets `onEar` to whether
      the reading differs from the sensor's maximum range. */
  function OnSensorChanged(sv: Service, values: seq<real>, maxRange: real): (r: Service)
    ensures r.store == sv.store && r.files == sv.files
    ensures |values| == 0 ==> r.onEar == sv.onEar
    ensures |values| > 0 ==> (r.onEar <==> values[0] != maxRange)
  {
    if |values| > 0 then sv.(onEar := !(values[0] == maxRange)) else sv
  }

  /** `mPrefListener`: switching autoplay on asks for the next message. */
  function OnPreferenceChanged(key: string, p: Prefs): (e: seq<Effect>)
    ensures e == [Emit(PlayNext)] <==> key == "autoplay" && p.autoplay
    ensures e == [] <==> !(key == "autoplay" && p.autoplay)
  {
    if key == "autoplay" && p.autoplay then [Emit(PlayNext)] else []
  }

  // ---------------------------------------------------------------------
  // Properties of the dispatcher
  // ---------------------------------------------------------------------

  /** The outcome of PLAY for an existing message, spelled out. */
  lemma PlayUnfolds(sv: Service, f: Folder, id: nat, p: Prefs, env: Environment)
    requires Get(sv.store, f, id).Some?
    ensures var s2 := Mark(sv.store, f, id, true);
      Handle(sv, Play(f, id), p, env)
        == Ok((sv.(store := s2),
               PlaybackEffects(Get(sv.store, f, id).value.file, StreamFor(sv.onEar), env.playback)
                 + RemoveNotification(s2)))
  {
    MarkThenGet(sv.store, f, id, false);
    MarkLastWins(sv.store, f, id, false, true);
  }

  /** PLAY leaves an existing message marked whatever the playback outcome,
      uses the stream chosen by the proximity sensor, and cancels the
      notification exactly when nothing unmarked is left. */
  lemma PlayMarks(sv: Service, f: Folder, id: nat, p: Prefs, env: Environment)
    requires Get(sv.store, f, id).Some?
    ensures var r := Handle(sv, Play(f, id), p, env);
      && r.Ok?
      && r.value.0.store == Mark(sv.store, f, id, true)
      && Get(r.value.0.store, f, id) == Some(Get(sv.store, f, id).value.(marked := true))
      && (env.playback != SourceFailed ==>
            r.value.1[0] == PlayFile(Get(sv.store, f, id).value.file, StreamFor(sv.onEar)))
      && (CancelNotification in r.value.1 <==> MarkedCount(r.value.0.store, Inbox, false) == 0)
  {
    PlayUnfolds(sv, f, id, p, env);
    MarkThenGet(sv.store, f, id, true);
    var s2 := Mark(sv.store, f, id, true);
    var e := PlaybackEffects(Get(sv.store, f, id).value.file, StreamFor(sv.onEar), env.playback);
    var n := RemoveNotification(s2);
    assert CancelNotification !in e;
    assert CancelNotification in e + n <==> CancelNotification in n;
    if env.playback != SourceFailed {
      assert (e + n)[0] == e[..2][0];
    }
  }

  /** Playing an unmarked inbox message lowers the unmarked count by one. */
  lemma PlayLowersCount(sv: Service, id: nat, p: Prefs, env: Environment)
    requires Valid(sv.store)
    requires Get(sv.store, Inbox, id).Some? && !Get(sv.store, Inbox, id).value.marked
    ensures var r := Handle(sv, Play(Inbox, id), p, env);
      r.Ok? && MarkedCount(r.value.0.store, Inbox, false) == MarkedCount(sv.store, Inbox, false) - 1
  {
    PlayMarks(sv, Inbox, id, p, env);
    MarkReadCount(sv.store, Inbox, id);
  }

  /** PLAY_NEXT asks to play the oldest unmarked inbox message exactly when
      autoplay is on and such a message exists, and does nothing else. */
  lemma PlayNextEmitsPlay(sv: Service, p: Prefs, env: Environment)
    ensures var r := Handle(sv, PlayNext, p, env);
      && r.Ok? && r.value.0 == sv
      && (r.value.1 != [] <==> p.autoplay && MarkedCount(sv.store, Inbox, false) > 0)
      && (r.value.1 != [] ==> r.value.1 == [Emit(Play(Inbox, NextMarked(sv.store, Inbox, false).value.id))])
  {
    NextMarkedIffCount(sv.store, Inbox, false);
  }

  /** RECEIVED stores the message unmarked in the inbox, always asks for the
      next message, and posts a notification exactly when autoplay is off,
      then with the raised count. */
  lemma ReceivedStoresAndNotifies(sv: Service, source: string, destination: string,
                                  created: int, received: int, file: string, p: Prefs, env: Environment)
    requires Valid(sv.store)
    ensures var r := Handle(sv, Received(source, destination, created, received, file), p, env);
      && r.Ok?
      && MarkedCount(r.value.0.store, Inbox, false) == MarkedCount(sv.store, Inbox, false) + 1
      && Get(r.value.0.store, Inbox, sv.store.nextId)
           == Some(Message(sv.store.nextId, Inbox, source, destination, created, received, file, false))
      && r.value.1[|r.value.1| - 1] == Emit(PlayNext)
      && (!p.autoplay <==> |r.value.1| == 2)
      && (!p.autoplay ==>
            r.value.1[0] == PostNotification(MarkedCount(sv.store, Inbox, false) + 1, p.vibrateOnMessage))
  {
    PutCounts(sv.store, Inbox, source, destination, created, received, file, Inbox, false);
    PutThenGet(sv.store, Inbox, source, destination, created, received, file);
  }

  /** RECORDED sends the recording with a lifetime of 1800 seconds whenever
      the file could be opened, and deletes it exactly when `send`
      returned, even without a bundle id. */
  lemma RecordedDeletesOnlyAfterSend(sv: Service, recfile: string, destination: string, p: Prefs, env: Environment)
    ensures var r := Handle(sv, Recorded(recfile, destination), p, env);
      && r.Ok?
      && (env.send.SendReturned? ==> r.value.0.files == sv.files - {recfile})
      && (!env.send.SendReturned? ==> r.value.0.files == sv.files)
      && (r.value.1 != [] <==> env.send != OpenFailed)
      && (r.value.1 != [] ==> r.value.1 == [SendFile(destination, RECORDING_LIFETIME, recfile)])
  {
  }

  /** The service after a run of RECEIVED commands. */
  function ReceiveAll(sv: Service, msgs: seq<Command>, p: Prefs, env: Environment): (r: Service)
    requires forall i :: 0 <= i < |msgs| ==> msgs[i].Received?
    ensures r.store.nextId == sv.store.nextId + |msgs|
    decreases |msgs|
  {
    if |msgs| == 0 then sv
    else ReceiveAll(Handle(sv, msgs[0], p, env).value.0, msgs[1..], p, env)
  }

  /** Each RECEIVED command of a run adds one unmarked inbox message. */
  lemma {:induction false} ReceiveAllCount(sv: Service, msgs: seq<Command>, p: Prefs, env: Environment)
    requires Valid(sv.store)
    requires forall i :: 0 <= i < |msgs| ==> msgs[i].Received?
    ensures MarkedCount(ReceiveAll(sv, msgs, p, env).store, Inbox, false)
      == MarkedCount(sv.store, Inbox, false) + |msgs|
    ensures Valid(ReceiveAll(sv, msgs, p, env).store)
    decreases |msgs|
  {
    if |msgs| > 0 {
      var c := msgs[0];
      ReceivedStoresAndNotifies(sv, c.source, c.destination, c.created, c.received, c.file, p, env);
      ReceiveAllCount(Handle(sv, c, p, env).value.0, msgs[1..], p, env);
    }
  }
}
