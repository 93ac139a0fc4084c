/** What every reachable state of the protocol satisfies, part by part, and that every step keeps it. */
module Invariant {
  import opened Channels
  import opened Protocol

  /** How far the reader has come; the whole loop is one stage. */
  function ReaderStage(pc: ReaderPc): (n: nat) {
    match pc
    case RHandshake => 0
    case RReady(_) => 1
    case RStore => 3
    case RSignal => 4
    case RDropProcess => 5
    case RDropAlive => 6
    case RDropOut => 7
    case RDropSecond => 8
    case RDone => 9
    case RPanicked => 10
    case _ => 2
  }

  /** How far the owner has come; spawning is one stage, and so is the wait for the reader with its retries. */
  function OwnerStage(pc: OwnerPc): (n: nat) {
    match pc
    case OIdle => 0
    case ODropMessage => 2
    case ODropThread => 3
    case ODropProcess => 4
    case ODropLock => 5
    case ODropCheck => 6
    case ODropClose => 7
    case ODropMark => 8
    case ODropUnlock => 9
    case OReady => 10
    case OSendNobody => 10
    case OSendStop(retry) => if retry then 13 else 11
    case OCancel(retry) => if retry then 13 else 12
    case OWait => 13
    case OJoinReader => 14
    case OCloseIn => 15
    case OCloseOut => 16
    case OCloseProcess => 17
    case OJoinWatcher => 18
    case OCloseEvent => 19
    case ODropFields => 20
    case ODropRelease => 21
    case ODropCleanup => 22
    case ODone => 23
    case OPanicked => 24
    case _ => 1
  }

  lemma BoolCases(x: Optional<bool>)
    ensures x.None? || x == Some(true) || x == Some(false)
  {
    if x.Some? {
      if x.value { assert x == Some(true); } else { assert x == Some(false); }
    }
  }

  lemma ThreadCases(x: Optional<Thread>)
    ensures x.None? || x == Some(Owner) || x == Some(Cleaner)
  {
    if x.Some? {
      if x.value == Owner { assert x == Some(Owner); } else { assert x == Some(Cleaner); }
    }
  }

  predicate Owned(k: Link) { k.got == Some(Process) }

  predicate Polling(pc: ReaderPc) {
    pc.RPoll? || pc.RPeek? || pc.RAlive? || pc.RIssue? || pc.RReading? || pc.RGot?
  }

  /** The reader's flags and channel ends follow its progress, and no `unwrap` of it has failed. */
  predicate Flags(mode: Mode, k: Link) {
    var r := ReaderStage(k.reader);
    && (k.ready <==> r >= 2)
    && (k.running <==> r <= 3)
    && (k.exitEvent <==> r >= 5)
    && (k.process.receiver <==> r <= 5)
    && (k.alive.receiver <==> r <= 6)
    && k.second.senders == (if mode == Async && r <= 8 then 1 else 0)
    && r <= 9
    && (mode == Sync ==> !k.reader.RForward? && !k.reader.RDropSecond?)
    && (mode == Async ==> !k.reader.RPoll? && !k.reader.RPeek? && !k.reader.RAlive? && !k.reader.RSendEof?)
  }

  /** The handshake: one message is taken, the process if and only if there is one. */
  predicate Handshakes(k: Link, spawned: bool, o: nat) {
    var r := ReaderStage(k.reader);
    && k.process.senders == (if o <= 20 then 1 else 0)
    && k.handshakes == (if r == 0 then 0 else 1)
    && (k.got.Some? <==> r > 0)
    && (r > 0 ==> (Owned(k) <==> spawned))
    && (k.reader.RReady? ==> k.reader.owned == Owned(k))
    && (r == 2 ==> Owned(k))
    && (o < 10 ==> k.process.queue == if spawned && r == 0 then [Process] else [])
    && (o < 10 && r > 0 ==> spawned)
    && (r == 0 && spawned ==> k.process.queue != [] && k.process.queue[0] == Process)
    && (r == 0 && !spawned ==> Process !in k.process.queue)
    && (o >= 11 ==> k.ready)
    && (o >= 14 ==> k.exitEvent)
    && (o >= 15 ==> k.reader == RDone)
  }

  /** Only stops are sent on the alive channel, and after the first a polling synchronous reader will find one. */
  predicate Stops(mode: Mode, k: Link, o: nat) {
    && true !in k.alive.queue
    && (o <= 11 ==> k.alive.queue == [])
    && (o >= 12 && mode == Sync && Polling(k.reader) ==> k.alive.queue != [])
  }

  /** The reader holds the sender of the output to its end, and the owner the receiver to its own. */
  predicate OutputEnds(k: Link, out: Channel<Item>, o: nat) {
    && out.senders == (if ReaderStage(k.reader) <= 7 then 1 else 0)
    && (out.receiver <==> o <= 20)
  }

  predicate Watching(pc: WatcherPc) { pc.WFirst? || pc.WCancel? || pc.WAgain? || pc.WSend? }

  predicate WatcherOver(pc: WatcherPc) { pc.WEnd? || pc.WDone? }

  predicate Forwarded(k: Link) { Owned(k) && !k.reader.RReady? && !k.reader.RForward? }

  /** The watcher hears of the process once, waits for the child, then for the reader. */
  predicate Watch(mode: Mode, k: Link, watcher: WatcherPc, childWait: Optional<bool>, exited: bool,
                  first: Optional<bool>, o: nat)
  {
    && (mode == Sync <==> watcher.WAbsent?)
    && (mode == Async && !Forwarded(k) && k.reader != RDone ==> watcher.WRecv?)
    && (watcher.WRecv? ==> |k.second.queue| == if Forwarded(k) then 1 else 0)
    && (k.second.receiver <==> mode == Async && !watcher.WDone?)
    && (watcher.WChild? || Watching(watcher) ==> Forwarded(k))
    && (childWait.Some? <==> Watching(watcher) || Told(k, watcher))
    && (watcher.WSend? || Told(k, watcher) ==> k.exitEvent)
    && (WatcherOver(watcher) && !Owned(k) ==> k.reader == RDone)
    && (childWait == Some(true) ==> exited)
    && (childWait == Some(false) ==> first == Some(false))
    && (o >= 19 ==> watcher.WDone? || watcher.WAbsent?)
  }

  /** The watcher has sent `true`. */
  predicate Told(k: Link, watcher: WatcherPc) { WatcherOver(watcher) && Owned(k) }

  predicate Deciding(pc: CleanerPc) { pc.CLock? || pc.CCheck? || pc.CClose? || pc.CMark? || pc.CUnlock? }

  /** The cleanup thread has been told of a spawn. */
  predicate Released(mode: Mode, spawned: bool, owner: OwnerPc) { mode == Async && spawned && !owner.OSendRelease? }

  /** The cleanup thread acts on the first message only. */
  predicate Messages(mode: Mode, c: Console, told: bool, o: nat) {
    && (mode == Sync <==> c.cleaner.CAbsent?)
    && (c.first.Some? <==> told || (mode == Async && o >= 3))
    && (c.first == Some(true) ==> told)
    && (c.first == Some(false) ==> o >= 3)
    && (c.clean.receiver <==> mode == Async && !c.cleaner.CDone?)
    && (c.cleaner.CRelease? || c.cleaner.CMessage? ==> (c.first.None? <==> c.clean.queue == []))
    && ((c.cleaner.CRelease? || c.cleaner.CMessage?) && c.first.Some? ==> c.clean.queue[0] == c.first.value)
    && (Deciding(c.cleaner) || c.closer == Some(Cleaner) ==> c.first == Some(true))
  }

  /** It acts only after a spawn was announced. */
  predicate Releases(mode: Mode, c: Console, released: bool, o: nat) {
    && (c.release.receiver <==> mode == Async && !c.cleaner.CDone?)
    && c.release.senders == (if mode == Async && o <= 21 then 1 else 0)
    && (c.cleaner.CRelease? ==> |c.release.queue| == if released then 1 else 0)
    && (c.cleaner.CMessage? || Deciding(c.cleaner) || c.closer == Some(Cleaner) ==> released)
    && ((c.cleaner.CEnd? || c.cleaner.CDone?) && !released ==> o >= 22)
    && (mode == Sync <==> c.cleaner.CAbsent?)
  }

  /** The owner is between taking and releasing the mutex of the pseudoconsole. */
  predicate Holding(pc: OwnerPc) {
    (OwnerStage(pc) == 1 && !pc.OSpawnLock?) || 6 <= OwnerStage(pc) <= 9
  }

  /** The mutex has one holder, and the pseudoconsole is closed once, by whoever finds it open. */
  predicate Ownership(mode: Mode, c: Console, holding: bool, o: nat) {
    var marking := c.cleaner.CMark? || o == 8;
    && (c.lock == Some(Cleaner) <==> Deciding(c.cleaner) && !c.cleaner.CLock?)
    && (c.lock == Some(Owner) <==> mode == Async && holding)
    && (c.open ==> mode == Async && c.closes == if marking then 1 else 0)
    && (!c.open ==> c.closes == if mode == Async then 1 else 0)
    && (c.cleaner.CClose? || o == 7 || marking ==> c.open)
    && (c.cleaner.CUnlock? || (mode == Async && o >= 9) ==> !c.open)
    && (c.closes == 0 <==> c.closer.None?)
    && (c.cleaner.CMark? ==> c.closer == Some(Cleaner))
    && (c.closer == Some(Owner) ==> o >= 8)
  }

  /** The owner's program counter fits the mode and the spawn, and no `unwrap` of it has failed. */
  predicate OwnerFits(mode: Mode, owner: OwnerPc, spawned: bool) {
    var o := OwnerStage(owner);
    && o <= 23
    && (mode == Sync && o == 1 ==> owner.OSetProcess?)
    && (mode == Sync ==> !(2 <= o <= 9) && o != 21 && o != 22)
    && (owner.OSpawnLock? || owner.OSpawnCreate? || owner.OSetProcess? ==> !spawned)
    && (owner.OSendRelease? || owner.OSpawnUnlock? ==> spawned)
  }

  function Once(b: bool): (n: nat) { if b then 1 else 0 }

  /** The handles closed when the owner has reached stage `o`. */
  predicate Handles(mode: Mode, spawned: bool, closeProcess: bool, closed: Closed, o: nat) {
    && closed.pipe == Once(mode == Async && o >= 16)
    && closed.conin == Once(mode == Sync && o >= 16)
    && closed.conout == Once(mode == Sync && o >= 17)
    && closed.thread == Once(mode == Async && spawned && o >= 4)
    && closed.process == Once(spawned && o >= if mode == Async then 5 else 18)
    && closed.exitEvent == Once(o >= 20)
    && (spawned ==> closeProcess == (mode == Sync))
  }

  /** The reader's side of the control state. */
  predicate Linked(s: State) {
    var o := OwnerStage(s.owner);
    && Flags(s.mode, s.link)
    && Handshakes(s.link, s.spawned, o)
    && Stops(s.mode, s.link, o)
    && OutputEnds(s.link, s.io.out, o)
  }

  /** The side of the watcher, the cleanup thread and the handles. */
  predicate Guarded(s: State) {
    var o := OwnerStage(s.owner);
    && Watch(s.mode, s.link, s.watcher, s.childWait, s.exited, s.console.first, o)
    && Messages(s.mode, s.console, Told(s.link, s.watcher), o)
    && Releases(s.mode, s.console, Released(s.mode, s.spawned, s.owner), o)
    && Ownership(s.mode, s.console, Holding(s.owner), o)
    && OwnerFits(s.mode, s.owner, s.spawned)
    && Handles(s.mode, s.spawned, s.closeProcess, s.closed, o)
  }

  /** Everything but the contents of the output. */
  predicate Control(s: State) { Linked(s) && Guarded(s) }

  lemma InitControl(mode: Mode)
    ensures Control(Init(mode))
  {
  }

  lemma LinkNextKeepsFlags(mode: Mode, k: Link, spawned: bool, o: nat)
    requires Flags(mode, k) && Handshakes(k, spawned, o) && ReaderEnabled(k)
    ensures Flags(mode, LinkNext(mode, k, true))
  {
  }

  lemma LinkNextKeepsHandshakes(mode: Mode, k: Link, spawned: bool, o: nat)
    requires Flags(mode, k) && Handshakes(k, spawned, o) && ReaderEnabled(k)
    ensures Handshakes(LinkNext(mode, k, true), spawned, o)
  {
  }

  lemma LinkNextKeepsStops(mode: Mode, k: Link, spawned: bool, o: nat)
    requires Flags(mode, k) && Handshakes(k, spawned, o) && Stops(mode, k, o) && ReaderEnabled(k)
    ensures Stops(mode, LinkNext(mode, k, true), o)
  {
  }

  lemma LinkNextKeepsEnds(mode: Mode, k: Link, io: Io, o: nat)
    requires OutputEnds(k, io.out, o) && ReaderEnabled(k)
    ensures OutputEnds(LinkNext(mode, k, true), IoNext(k.reader, io).out, o)
  {
    ReaderDropsOutput(k.reader, io);
    DroppingOutputIsAStage(mode, k);
  }

  lemma ReaderDropsOutput(pc: ReaderPc, io: Io)
    ensures IoNext(pc, io).out.receiver == io.out.receiver
    ensures IoNext(pc, io).out.senders == if pc == RDropOut then io.out.DropSender().senders else io.out.senders
  {
  }

  lemma DroppingOutputIsAStage(mode: Mode, k: Link)
    requires ReaderEnabled(k)
    ensures ReaderStage(LinkNext(mode, k, true).reader) <= 7 <==> ReaderStage(k.reader) <= 6
    ensures k.reader == RDropOut <==> ReaderStage(k.reader) == 7
  {
  }

  lemma LinkNextKeepsWatch(mode: Mode, k: Link, watcher: WatcherPc, childWait: Optional<bool>, exited: bool,
                           first: Optional<bool>, spawned: bool, o: nat)
    requires Watch(mode, k, watcher, childWait, exited, first, o)
    requires Flags(mode, k) && Handshakes(k, spawned, o) && ReaderEnabled(k)
    ensures Watch(mode, LinkNext(mode, k, true), watcher, childWait, exited, first, o)
    ensures Told(LinkNext(mode, k, true), watcher) == Told(k, watcher)
  {
  }

  lemma ReaderKeepsControl(s: State)
    requires Control(s) && ReaderEnabled(s.link)
    ensures Control(ReaderNext(s))
  {
    var o := OwnerStage(s.owner);
    LinkNextKeepsFlags(s.mode, s.link, s.spawned, o);
    LinkNextKeepsHandshakes(s.mode, s.link, s.spawned, o);
    LinkNextKeepsStops(s.mode, s.link, s.spawned, o);
    LinkNextKeepsEnds(s.mode, s.link, s.io, o);
    LinkNextKeepsWatch(s.mode, s.link, s.watcher, s.childWait, s.exited, s.console.first, s.spawned, o);
  }

  /** The owner's stage moves from that of `pc` to `o'`. */
  predicate Moves(mode: Mode, pc: OwnerPc, ready: bool, open: bool, o': nat) {
    var o := OwnerStage(pc);
    match o
    case 0 => o' == 0
    case 1 => o' <= 1
    case 6 => o' == if open then 7 else 9
    case 10 => o' == if pc == OReady && ready then 11 else 10
    case 13 => o' == if pc == OWait then 14 else 13
    case 20 => o' == if mode == Async then 21 else 23
    case 23 => o' == 23
    case _ => o' == o + 1
  }

  /** The receivers of the two sends of a spawn are alive. */
  lemma SpawnIsHeard(mode: Mode, k: Link, c: Console, spawned: bool, pc: OwnerPc)
    requires OwnerFits(mode, pc, spawned) && Flags(mode, k) && Handshakes(k, spawned, OwnerStage(pc))
    requires Releases(mode, c, Released(mode, spawned, pc), OwnerStage(pc))
    ensures pc == OSetProcess ==> k.process.receiver
    ensures pc == OSendRelease ==> c.release.receiver
  {
  }

  lemma OwnerKeepsFitting(mode: Mode, k: Link, c: Console, spawned: bool, pc: OwnerPc)
    requires OwnerFits(mode, pc, spawned)
    requires (pc == OSetProcess ==> k.process.receiver) && (pc == OSendRelease ==> c.release.receiver)
    ensures OwnerFits(mode, OwnerPcNext(mode, pc, k, c), spawned || pc == OSetProcess)
  {
  }

  lemma OwnerMoves(mode: Mode, k: Link, c: Console, spawned: bool, pc: OwnerPc)
    requires OwnerFits(mode, pc, spawned)
    requires (pc == OSetProcess ==> k.process.receiver) && (pc == OSendRelease ==> c.release.receiver)
    ensures Moves(mode, pc, k.ready, c.open, OwnerStage(OwnerPcNext(mode, pc, k, c)))
  {
  }

  lemma OwnerKeepsFlags(mode: Mode, k: Link, pc: OwnerPc)
    requires Flags(mode, k)
    ensures Flags(mode, OwnerLink(pc, k))
  {
  }

  /** What the handshake depends on is the same, but for the queue. */
  predicate SameToHandshake(k: Link, k': Link) {
    && k' == k.(reader := k'.reader, process := k'.process, alive := k'.alive)
    && (k'.reader == k.reader || (k'.reader.RReading? && k.reader.RReading?))
  }

  lemma HandshakesSurvive(k: Link, k': Link, spawned: bool, o: nat, o': nat)
    requires Handshakes(k, spawned, o) && SameToHandshake(k, k') && k'.process.queue == k.process.queue
    requires k'.process.senders == (if o' <= 20 then 1 else 0)
    requires (o < 10 <==> o' < 10) || (o == 9 && o' == 10)
    requires (o' >= 11 ==> k.ready) && (o' >= 14 ==> k.exitEvent) && (o' >= 15 ==> k.reader == RDone)
    ensures Handshakes(k', spawned, o')
  {
  }

  lemma SetProcessKeepsHandshakes(mode: Mode, k: Link, o': nat)
    requires Flags(mode, k) && Handshakes(k, false, OwnerStage(OSetProcess)) && o' <= 1
    ensures Handshakes(OwnerLink(OSetProcess, k), true, o')
  {
  }

  lemma SendNobodyKeepsHandshakes(k: Link, spawned: bool)
    requires Handshakes(k, spawned, OwnerStage(OSendNobody))
    ensures Handshakes(OwnerLink(OSendNobody, k), spawned, OwnerStage(OReady))
  {
  }

  lemma OthersSendNoHandshake(pc: OwnerPc, k: Link)
    requires pc != OSetProcess && pc != OSendNobody
    ensures SameToHandshake(k, OwnerLink(pc, k)) && OwnerLink(pc, k).process.queue == k.process.queue
    ensures OwnerLink(pc, k).process.senders ==
            if pc == ODropFields then k.process.DropSender().senders else k.process.senders
  {
  }

  lemma OwnerKeepsHandshakes(mode: Mode, k: Link, open: bool, pc: OwnerPc, spawned: bool, o': nat)
    requires Moves(mode, pc, k.ready, open, o') && Flags(mode, k) && Handshakes(k, spawned, OwnerStage(pc))
    requires pc == OSetProcess ==> !spawned
    requires (pc == OWait ==> k.exitEvent) && (pc == OJoinReader ==> k.reader == RDone)
    ensures Handshakes(OwnerLink(pc, k), spawned || pc == OSetProcess, o')
  {
    if pc == OSetProcess {
      SetProcessKeepsHandshakes(mode, k, o');
    } else if pc == OSendNobody {
      SendNobodyKeepsHandshakes(k, spawned);
    } else {
      OthersSendNoHandshake(pc, k);
      HandshakesSurvive(k, OwnerLink(pc, k), spawned, OwnerStage(pc), o');
    }
  }

  lemma OwnerKeepsStops(mode: Mode, k: Link, open: bool, pc: OwnerPc, o': nat)
    requires Moves(mode, pc, k.ready, open, o') && Flags(mode, k) && Stops(mode, k, OwnerStage(pc))
    ensures Stops(mode, OwnerLink(pc, k), o')
  {
  }

  /** Nothing the watcher looks at differs between the two links. */
  predicate SameToWatcher(k: Link, k': Link) {
    && k'.got == k.got && k'.exitEvent == k.exitEvent && k'.second == k.second
    && (k'.reader == k.reader || (k'.reader.RReading? && k.reader.RReading?))
  }

  lemma WatchSurvives(mode: Mode, k: Link, k': Link, watcher: WatcherPc, childWait: Optional<bool>, exited: bool,
                      first: Optional<bool>, first': Optional<bool>, o: nat, o': nat)
    requires Watch(mode, k, watcher, childWait, exited, first, o) && SameToWatcher(k, k')
    requires first.Some? ==> first' == first
    requires o' >= 19 ==> o >= 19 || watcher.WDone? || watcher.WAbsent?
    ensures Watch(mode, k', watcher, childWait, exited, first', o')
  {
  }

  lemma OwnerKeepsWatch(mode: Mode, k: Link, c: Console, watcher: WatcherPc, childWait: Optional<bool>, exited: bool,
                        pc: OwnerPc, o': nat)
    requires Moves(mode, pc, k.ready, c.open, o') && Watch(mode, k, watcher, childWait, exited, c.first, OwnerStage(pc))
    requires pc == OJoinWatcher ==> watcher.WDone? || watcher.WAbsent?
    ensures Watch(mode, OwnerLink(pc, k), watcher, childWait, exited, OwnerConsole(pc, c).first, o')
  {
    assert SameToWatcher(k, OwnerLink(pc, k));
    WatchSurvives(mode, k, OwnerLink(pc, k), watcher, childWait, exited,
                  c.first, OwnerConsole(pc, c).first, OwnerStage(pc), o');
  }

  /** Nothing the cleanup thread decides by differs between the two consoles. */
  predicate SameToMessages(c: Console, c': Console) {
    && c'.cleaner == c.cleaner && c'.first == c.first
    && c'.clean.queue == c.clean.queue && c'.clean.receiver == c.clean.receiver
    && (c'.closer == Some(Cleaner) ==> c.closer == Some(Cleaner))
  }

  lemma MessagesSurvive(mode: Mode, c: Console, c': Console, told: bool, o: nat, o': nat)
    requires Messages(mode, c, told, o) && SameToMessages(c, c')
    requires (mode == Async ==> (o >= 3 <==> o' >= 3)) && (o >= 3 ==> o' >= 3)
    ensures Messages(mode, c', told, o')
  {
  }

  lemma StopKeepsMessages(mode: Mode, c: Console, told: bool)
    requires mode == Async && Messages(mode, c, told, OwnerStage(ODropMessage))
    ensures Messages(mode, OwnerConsole(ODropMessage, c), told, OwnerStage(ODropThread))
  {
  }

  lemma OwnerKeepsMessages(mode: Mode, ready: bool, c: Console, told: bool, pc: OwnerPc, o': nat)
    requires Moves(mode, pc, ready, c.open, o') && Messages(mode, c, told, OwnerStage(pc))
    requires mode == Sync ==> !pc.ODropMessage?
    ensures Messages(mode, OwnerConsole(pc, c), told, o')
  {
    if pc == ODropMessage {
      StopKeepsMessages(mode, c, told);
    } else {
      assert SameToMessages(c, OwnerConsole(pc, c));
      MessagesSurvive(mode, c, OwnerConsole(pc, c), told, OwnerStage(pc), o');
    }
  }

  /** A spawn is announced by the one send that does so. */
  lemma OwnerReleases(mode: Mode, k: Link, c: Console, spawned: bool, pc: OwnerPc)
    requires OwnerFits(mode, pc, spawned) && OwnerFits(mode, OwnerPcNext(mode, pc, k, c), spawned || pc == OSetProcess)
    ensures Released(mode, spawned || pc == OSetProcess, OwnerPcNext(mode, pc, k, c)) <==>
            Released(mode, spawned, pc) || (mode == Async && pc == OSendRelease)
  {
  }

  lemma OwnerKeepsReleases(mode: Mode, ready: bool, c: Console, pc: OwnerPc, released: bool, o': nat)
    requires Moves(mode, pc, ready, c.open, o') && Releases(mode, c, released, OwnerStage(pc))
    requires pc == OSendRelease ==> !released
    ensures Releases(mode, OwnerConsole(pc, c), released || (mode == Async && pc == OSendRelease), o')
  {
  }

  lemma OwnerHolds(mode: Mode, k: Link, c: Console, spawned: bool, pc: OwnerPc)
    requires OwnerFits(mode, pc, spawned) && OwnerFits(mode, OwnerPcNext(mode, pc, k, c), spawned || pc == OSetProcess)
    ensures mode == Async ==>
            (Holding(OwnerPcNext(mode, pc, k, c)) <==>
             pc == OSpawnLock || pc == ODropLock || (Holding(pc) && pc != OSpawnUnlock && pc != ODropUnlock))
  {
  }

  lemma OwnerKeepsOwnership(mode: Mode, ready: bool, c: Console, pc: OwnerPc, holding': bool, o': nat)
    requires Moves(mode, pc, ready, c.open, o') && Ownership(mode, c, Holding(pc), OwnerStage(pc))
    requires pc == OSpawnLock || pc == ODropLock ==> c.lock.None?
    requires mode == Async ==>
             (holding' <==>
              pc == OSpawnLock || pc == ODropLock || (Holding(pc) && pc != OSpawnUnlock && pc != ODropUnlock))
    requires mode == Sync ==> !(2 <= OwnerStage(pc) <= 9) && (OwnerStage(pc) == 1 ==> pc == OSetProcess)
    ensures Ownership(mode, OwnerConsole(pc, c), holding', o')
  {
  }

  lemma OwnerKeepsHandles(mode: Mode, ready: bool, open: bool, closeProcess: bool, closed: Closed,
                          pc: OwnerPc, spawned: bool, o': nat)
    requires Moves(mode, pc, ready, open, o') && Handles(mode, spawned, closeProcess, closed, OwnerStage(pc))
    requires mode == Sync ==> !(2 <= OwnerStage(pc) <= 9)
    ensures Handles(mode, spawned || pc == OSetProcess, if pc == OSetProcess then mode == Sync else closeProcess,
                    OwnerCloses(mode, pc, spawned, closeProcess, closed), o')
  {
  }

  lemma OwnerKeepsEnds(mode: Mode, k: Link, open: bool, io: Io, pc: OwnerPc, o': nat)
    requires Moves(mode, pc, k.ready, open, o') && OutputEnds(k, io.out, OwnerStage(pc))
    ensures OutputEnds(OwnerLink(pc, k), OwnerIo(pc, io).out, o')
  {
  }

  lemma OwnerTellsNothing(k: Link, watcher: WatcherPc, pc: OwnerPc)
    ensures Told(OwnerLink(pc, k), watcher) == Told(k, watcher)
  {
  }

  lemma OwnerAdvances(s: State) returns (o': nat)
    requires Control(s) && OwnerEnabled(s)
    ensures o' == OwnerStage(OwnerNext(s).owner) && Moves(s.mode, s.owner, s.link.ready, s.console.open, o')
    ensures OwnerFits(s.mode, OwnerNext(s).owner, OwnerNext(s).spawned)
  {
    SpawnIsHeard(s.mode, s.link, s.console, s.spawned, s.owner);
    OwnerKeepsFitting(s.mode, s.link, s.console, s.spawned, s.owner);
    OwnerMoves(s.mode, s.link, s.console, s.spawned, s.owner);
    o' := OwnerStage(OwnerNext(s).owner);
  }

  lemma OwnerKeepsLinked(s: State)
    requires Control(s) && OwnerEnabled(s)
    ensures Linked(OwnerNext(s))
  {
    var o' := OwnerAdvances(s);
    OwnerKeepsFlags(s.mode, s.link, s.owner);
    OwnerKeepsHandshakes(s.mode, s.link, s.console.open, s.owner, s.spawned, o');
    OwnerKeepsStops(s.mode, s.link, s.console.open, s.owner, o');
    OwnerKeepsEnds(s.mode, s.link, s.console.open, s.io, s.owner, o');
  }

  lemma OwnerKeepsConsole(s: State, o': nat)
    requires Guarded(s) && OwnerEnabled(s)
    requires Moves(s.mode, s.owner, s.link.ready, s.console.open, o') && o' == OwnerStage(OwnerNext(s).owner)
    requires OwnerFits(s.mode, OwnerNext(s).owner, OwnerNext(s).spawned)
    ensures var t := OwnerNext(s);
            Releases(t.mode, t.console, Released(t.mode, t.spawned, t.owner), o') &&
            Ownership(t.mode, t.console, Holding(t.owner), o')
  {
    OwnerReleases(s.mode, s.link, s.console, s.spawned, s.owner);
    OwnerKeepsReleases(s.mode, s.link.ready, s.console, s.owner, Released(s.mode, s.spawned, s.owner), o');
    OwnerHolds(s.mode, s.link, s.console, s.spawned, s.owner);
    OwnerKeepsOwnership(s.mode, s.link.ready, s.console, s.owner, Holding(OwnerNext(s).owner), o');
  }

  lemma OwnerKeepsWatching(s: State, o': nat)
    requires Guarded(s) && OwnerEnabled(s)
    requires Moves(s.mode, s.owner, s.link.ready, s.console.open, o')
    ensures var t := OwnerNext(s);
            Watch(t.mode, t.link, t.watcher, t.childWait, t.exited, t.console.first, o') &&
            Messages(t.mode, t.console, Told(t.link, t.watcher), o')
  {
    OwnerTellsNothing(s.link, s.watcher, s.owner);
    OwnerKeepsWatch(s.mode, s.link, s.console, s.watcher, s.childWait, s.exited, s.owner, o');
    OwnerKeepsMessages(s.mode, s.link.ready, s.console, Told(s.link, s.watcher), s.owner, o');
  }

  lemma OwnerKeepsGuarded(s: State)
    requires Control(s) && OwnerEnabled(s)
    ensures Guarded(OwnerNext(s))
  {
    var o' := OwnerAdvances(s);
    OwnerKeepsWatching(s, o');
    OwnerKeepsConsole(s, o');
    OwnerKeepsHandles(s.mode, s.link.ready, s.console.open, s.closeProcess, s.closed, s.owner, s.spawned, o');
  }

  lemma WatcherKeepsLinked(s: State)
    requires Control(s) && WatcherEnabled(s)
    ensures Linked(WatcherNext(s))
  {
  }

  lemma WatcherKeepsWatch(s: State)
    requires Linked(s) && WatcherEnabled(s)
    requires Watch(s.mode, s.link, s.watcher, s.childWait, s.exited, s.console.first, OwnerStage(s.owner))
    ensures var t := WatcherNext(s);
            Watch(t.mode, t.link, t.watcher, t.childWait, t.exited, t.console.first, OwnerStage(t.owner))
  {
  }

  lemma TellingKeepsMessages(mode: Mode, c: Console, o: nat)
    requires mode == Async && Messages(mode, c, false, o)
    ensures Messages(mode, Message(c, true), true, o)
  {
  }

  lemma WatcherKeepsGuarded(s: State)
    requires Control(s) && WatcherEnabled(s)
    ensures Guarded(WatcherNext(s))
  {
    WatcherKeepsWatch(s);
    if s.watcher == WSend {
      TellingKeepsMessages(s.mode, s.console, OwnerStage(s.owner));
    }
  }

  lemma CleanerKeepsControl(s: State)
    requires Control(s) && CleanerEnabled(s.console)
    ensures Control(s.(console := CleanerNext(s.console)))
  {
  }

  lemma AnswersKeepControl(s: State, l: Label)
    requires Control(s) && Enabled(s, l) && (l.PeekAnswer? || l.AliveAnswer? || l.ReadAnswer?)
    ensures Control(Next(s, l))
  {
  }

  lemma ChildWaitKeepsControl(s: State, dead: bool)
    requires Control(s) && Enabled(s, ChildWaitReturns(dead))
    ensures Control(Next(s, ChildWaitReturns(dead)))
  {
    if !dead {
      assert s.console.first.Some?;
      BoolCases(s.console.first);
    }
  }

  lemma SpawnChoicesKeepControl(s: State, l: Label)
    requires Control(s) && Enabled(s, l) && (l.BeginSpawn? || l.SpawnFails?)
    ensures Control(Next(s, l))
  {
  }

  lemma DropChoicesKeepControl(s: State, l: Label)
    requires Control(s) && Enabled(s, l) && (l.OwnerTimesOut? || l.BeginDrop?)
    ensures Control(Next(s, l))
  {
    if l.OwnerTimesOut? {
      RetryKeepsControl(s);
    }
  }

  lemma RetryKeepsControl(s: State)
    requires Control(s) && Enabled(s, OwnerTimesOut)
    ensures Control(Next(s, OwnerTimesOut))
  {
  }

  lemma OutsideKeepsControl(s: State, l: Label)
    requires Control(s) && Enabled(s, l)
    requires l.WatcherTimesOut? || l.OwnerRead? || l.Feed? || l.Break? || l.ChildExits?
    ensures Control(Next(s, l))
  {
  }

  predicate ThreadActs(l: Label) { l.ReaderStep? || l.WatcherStep? || l.CleanerStep? || l.OwnerStep? }

  lemma EventKeepsControl(s: State, l: Label)
    requires Control(s) && Enabled(s, l) && !ThreadActs(l)
    ensures Control(Next(s, l))
  {
    match l
    case PeekAnswer(_) => AnswersKeepControl(s, l);
    case AliveAnswer(_) => AnswersKeepControl(s, l);
    case ReadAnswer(_) => AnswersKeepControl(s, l);
    case ChildWaitReturns(dead) => ChildWaitKeepsControl(s, dead);
    case BeginSpawn => SpawnChoicesKeepControl(s, l);
    case SpawnFails => SpawnChoicesKeepControl(s, l);
    case OwnerTimesOut => DropChoicesKeepControl(s, l);
    case BeginDrop => DropChoicesKeepControl(s, l);
    case _ => OutsideKeepsControl(s, l);
  }

  lemma ThreadKeepsControl(s: State, l: Label)
    requires Control(s) && Enabled(s, l) && ThreadActs(l)
    ensures Control(Next(s, l))
  {
    match l
    case ReaderStep => ReaderKeepsControl(s);
    case WatcherStep => WatcherKeepsLinked(s); WatcherKeepsGuarded(s);
    case CleanerStep => CleanerKeepsControl(s);
    case OwnerStep => OwnerKeepsLinked(s); OwnerKeepsGuarded(s);
  }

  lemma StepKeepsControl(s: State, l: Label)
    requires Control(s) && Enabled(s, l)
    ensures Control(Next(s, l))
  {
    if ThreadActs(l) {
      ThreadKeepsControl(s, l);
    } else {
      EventKeepsControl(s, l);
    }
  }
}
