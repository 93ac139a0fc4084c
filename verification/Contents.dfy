/** What every reachable state says about the output: conservation, the shape of the item sequence, and the text. */
module Contents {
  import opened Sequences
  import opened Unicode
  import opened ReadPath
  import opened Protocol
  import opened Invariant

  /** The units of the chunks among the items. */
  function TextOfItems(items: seq<Item>): (t: seq<CodeUnit>) {
    if items == [] then [] else TextOfItems(items[..|items| - 1]) + TextOf(items[|items| - 1])
  }

  function TextOf(item: Item): (t: seq<CodeUnit>) { if item.Chunk? then item.text else [] }

  /** The items of successive reads. */
  function Items(results: seq<Answer>): (items: seq<Item>)
    ensures |items| == |results|
  {
    if results == [] then [] else Items(results[..|results| - 1]) + [ItemOf(results[|results| - 1])]
  }

  /** The bytes of those that got any. */
  function Pieces(results: seq<Answer>): (p: seq<seq<Byte>>) {
    if results == [] then []
    else
      var last := results[|results| - 1];
      Pieces(results[..|results| - 1]) + if last.Data? then [last.bytes] else []
  }

  function DataOf(a: Answer): (b: seq<Byte>) { if a.Data? then a.bytes else [] }

  /** All bytes the reads got. */
  function Delivered(results: seq<Answer>): (b: seq<Byte>) {
    if results == [] then [] else Delivered(results[..|results| - 1]) + DataOf(results[|results| - 1])
  }

  lemma {:induction false} DeliveredInPieces(results: seq<Answer>)
    ensures Flatten(Pieces(results)) == Delivered(results)
  {
    if results != [] {
      var init, last := results[..|results| - 1], results[|results| - 1];
      DeliveredInPieces(init);
      NothingAppended(Pieces(init));
      NothingAppended(Delivered(init));
      if last.Data? { FlattenSnoc(Pieces(init), last.bytes); }
    }
  }

  predicate AllData(results: seq<Answer>) {
    results == [] || (results[|results| - 1].Data? && AllData(results[..|results| - 1]))
  }

  lemma {:induction false} AllDataAt(results: seq<Answer>, i: nat)
    requires AllData(results) && i < |results|
    ensures results[i].Data?
  {
    if i < |results| - 1 {
      AllDataAt(results[..|results| - 1], i);
    }
  }

  /** Reads that got bytes, then exactly one that did not. */
  predicate Ended(results: seq<Answer>) {
    results != [] && AllData(results[..|results| - 1]) && !results[|results| - 1].Data?
  }

  lemma {:induction false} ItemAt(results: seq<Answer>, i: nat)
    requires i < |results|
    ensures Items(results)[i] == ItemOf(results[i])
  {
    if i < |results| - 1 {
      ItemAt(results[..|results| - 1], i);
    }
  }

  lemma ItemsAreNotEof(results: seq<Answer>)
    ensures Eof !in Items(results)
  {
    if Eof in Items(results) {
      var i :| 0 <= i < |results| && Items(results)[i] == Eof;
      ItemAt(results, i);
    }
  }

  lemma ResultsSnoc(results: seq<Answer>, a: Answer)
    ensures Items(results + [a]) == Items(results) + [ItemOf(a)]
    ensures Delivered(results + [a]) == Delivered(results) + DataOf(a)
    ensures AllFit(results) && |DataOf(a)| <= BUFFER_SIZE ==> AllFit(results + [a])
    ensures AllData(results) ==> if a.Data? then AllData(results + [a]) else Ended(results + [a])
  {
    assert (results + [a])[..|results|] == results;
  }

  /** What matters of the reader: its stage, whether it has a process, and a result it holds but has not sent. */
  datatype View = View(stage: nat, owned: bool, held: Optional<Answer>)

  function ViewOf(k: Link): (v: View) {
    View(ReaderStage(k.reader), Owned(k), if k.reader.RGot? then Some(k.reader.answer) else None)
  }

  function Held(v: View): (b: seq<Byte>) { if v.held.Some? then DataOf(v.held.value) else [] }

  /** Items sent are items received, then items queued. */
  predicate ItemsKept(io: Io) { io.sent == io.received + io.out.queue }

  /** Bytes ever put in the pipe are bytes delivered, then bytes held, then bytes waiting. */
  predicate BytesKept(v: View, io: Io) {
    io.fed == Delivered(io.results) + Held(v) + io.pipe && |Held(v)| <= BUFFER_SIZE && AllFit(io.results)
  }

  predicate AllFit(results: seq<Answer>) {
    results == [] || (|DataOf(results[|results| - 1])| <= BUFFER_SIZE && AllFit(results[..|results| - 1]))
  }

  /** The items are those of the reads, one by one; a synchronous reader may send `None` after the last. */
  predicate Itemised(mode: Mode, v: View, io: Io) {
    io.sent == Items(io.results) || (mode == Sync && v.stage >= 3 && io.sent == Items(io.results) + [Eof])
  }

  /** Only an owned reader reads, and an overlapped one ends with the first read that gets no bytes. */
  predicate Grammar(mode: Mode, v: View, io: Io) {
    && (v.stage <= 1 || !v.owned ==> io.results == [] && io.sent == [])
    && (mode == Async && v.stage == 2 ==> AllData(io.results))
    && (mode == Async && v.stage >= 3 && v.owned ==> Ended(io.results))
  }

  predicate AtEnd(io: Io) { io.pipe == [] && io.broken }

  /** A read of zero bytes is the end of the stream. */
  predicate Ending(mode: Mode, v: View, io: Io) {
    && (v.held == Some(Nothing) ==> AtEnd(io))
    && (mode == Async && v.stage >= 3 && io.results != [] && io.results[|io.results| - 1] == Nothing ==> AtEnd(io))
  }

  predicate Contents(mode: Mode, v: View, io: Io) {
    && ItemsKept(io) && BytesKept(v, io) && Itemised(mode, v, io)
    && Grammar(mode, v, io) && Ending(mode, v, io)
  }

  lemma InitContents(mode: Mode)
    ensures Contents(mode, ViewOf(Init(mode).link), Init(mode).io)
  {
  }

  // ----- The reader

  lemma TextOfItemsSnoc(items: seq<Item>, item: Item)
    ensures TextOfItems(items + [item]) == TextOfItems(items) + TextOf(item)
  {
    assert (items + [item])[..|items|] == items;
  }

  lemma {:induction false} TextOfReadsSnoc(pieces: seq<seq<Byte>>, last: seq<Byte>)
    ensures TextOfReads(pieces + [last]) == TextOfReads(pieces) + Text(last)
  {
    if pieces == [] {
      assert pieces + [last] == [last];
    } else {
      TextOfReadsSnoc(pieces[1..], last);
      DropOfConcat(pieces, [last], 1);
      Associative(Text(pieces[0]), TextOfReads(pieces[1..]), Text(last));
    }
  }

  /** The items carry the text of the reads, in order. */
  lemma {:induction false} TextOfReadItems(results: seq<Answer>)
    ensures TextOfItems(Items(results)) == TextOfReads(Pieces(results))
  {
    if results != [] {
      var init, last := results[..|results| - 1], results[|results| - 1];
      TextOfReadItems(init);
      TextOfItemsSnoc(Items(init), ItemOf(last));
      NothingAppended(Pieces(init));
      NothingAppended(TextOfItems(Items(init)));
      if last.Data? { TextOfReadsSnoc(Pieces(init), last.bytes); }
    }
  }

  lemma SentItem(io: Io, item: Item)
    requires ItemsKept(io) && io.out.receiver
    ensures ItemsKept(Sent(io, item)) && Sent(io, item).sent == io.sent + [item]
  {
    Associative(io.received, io.out.queue, [item]);
  }

  /** The result of a read is sent. */
  lemma SendKeepsContents(mode: Mode, v: View, v': View, io: Io)
    requires Contents(mode, v, io) && io.out.receiver && v.held.Some? && v.stage == 2 && v.owned
    requires v' == View(if mode == Sync || v.held.value.Data? then 2 else 3, true, None)
    ensures Contents(mode, v', IoNext(RGot(v.held.value), io))
  {
    var a := v.held.value;
    SentItem(io.(results := io.results + [a]), ItemOf(a));
    ResultsSnoc(io.results, a);
    NothingAppended(Delivered(io.results + [a]));
  }

  /** `None` is sent. */
  lemma EofKeepsContents(v: View, io: Io)
    requires Contents(Sync, v, io) && io.out.receiver && v.held.None? && v.stage == 2 && v.owned
    ensures io.sent == Items(io.results)
    ensures Contents(Sync, v.(stage := 3), IoNext(RSendEof, io))
  {
    if io.sent == Items(io.results) {
      SentItem(io, Eof);
    }
  }

  /** The reader goes on without sending: an overlapped one leaves its loop only by sending. */
  predicate Quietly(mode: Mode, v: View, v': View) {
    && v.held.None? && v'.held.None? && v.stage <= v'.stage
    && (v.stage <= 1 || v'.owned == v.owned)
    && (v.stage <= 1 && v'.stage >= 3 ==> !v'.owned)
    && (v.stage == 2 && v'.stage >= 3 ==> mode == Sync)
  }

  lemma ReaderGoesQuietly(mode: Mode, k: Link, spawned: bool, o: nat)
    requires Flags(mode, k) && Handshakes(k, spawned, o) && ReaderEnabled(k) && !k.reader.RGot? && !k.reader.RSendEof?
    ensures Quietly(mode, ViewOf(k), ViewOf(LinkNext(mode, k, true)))
  {
  }

  lemma QuietReaderLeavesIo(pc: ReaderPc, io: Io)
    requires !pc.RGot? && !pc.RSendEof?
    ensures var io' := IoNext(pc, io); io' == io.(out := io'.out) && io'.out.queue == io.out.queue
  {
  }

  lemma QuietlyKeepsContents(mode: Mode, v: View, v': View, io: Io, io': Io)
    requires Contents(mode, v, io) && Quietly(mode, v, v')
    requires io' == io.(out := io'.out) && io'.out.queue == io.out.queue
    ensures Contents(mode, v', io')
  {
  }

  lemma ReaderKeepsContents(mode: Mode, k: Link, io: Io, spawned: bool, o: nat)
    requires Contents(mode, ViewOf(k), io) && Flags(mode, k) && Handshakes(k, spawned, o)
    requires ReaderEnabled(k) && io.out.receiver
    ensures Contents(mode, ViewOf(LinkNext(mode, k, true)), IoNext(k.reader, io))
  {
    var v, v' := ViewOf(k), ViewOf(LinkNext(mode, k, true));
    if k.reader.RGot? {
      SentView(mode, k, spawned, o);
      SendKeepsContents(mode, v, v', io);
    } else if k.reader.RSendEof? {
      EofView(mode, k, spawned, o);
      EofKeepsContents(v, io);
    } else {
      ReaderGoesQuietly(mode, k, spawned, o);
      QuietReaderLeavesIo(k.reader, io);
      QuietlyKeepsContents(mode, v, v', io, IoNext(k.reader, io));
    }
  }

  lemma SentView(mode: Mode, k: Link, spawned: bool, o: nat)
    requires Handshakes(k, spawned, o) && k.reader.RGot?
    ensures ViewOf(k) == View(2, true, Some(k.reader.answer))
    ensures ViewOf(LinkNext(mode, k, true)) == View(if mode == Sync || k.reader.answer.Data? then 2 else 3, true, None)
  {
  }

  lemma EofView(mode: Mode, k: Link, spawned: bool, o: nat)
    requires Flags(mode, k) && Handshakes(k, spawned, o) && k.reader.RSendEof?
    ensures mode == Sync && ViewOf(k) == View(2, true, None) && ViewOf(LinkNext(mode, k, true)) == View(3, true, None)
  {
  }

  // ----- A completed read

  /** A completed read moves bytes from the pipe to the reader. */
  lemma TakenKeepsBytes(v: View, io: Io, a: Answer)
    requires BytesKept(v, io) && v.held.None? && |DataOf(a)| <= BUFFER_SIZE && DataOf(a) <= io.pipe
    ensures BytesKept(v.(held := Some(a)), Taken(io, a))
  {
    NothingAppended(Delivered(io.results));
    if a.Data? {
      Associative(Delivered(io.results), a.bytes, io.pipe[|a.bytes|..]);
      assert io.pipe == a.bytes + io.pipe[|a.bytes|..];
    }
  }

  lemma TakenKeepsContents(mode: Mode, pc: ReaderPc, v: View, io: Io, a: Answer)
    requires Contents(mode, v, io) && v.held.None? && v.stage == 2 && ReadCompletes(pc, io, a)
    ensures Contents(mode, v.(held := Some(a)), Taken(io, a))
  {
    TakenKeepsBytes(v, io, a);
  }

  // ----- Everything else

  lemma FeedKeepsContents(mode: Mode, v: View, io: Io, bytes: seq<Byte>)
    requires Contents(mode, v, io) && !io.broken
    ensures Contents(mode, v, io.(pipe := io.pipe + bytes, fed := io.fed + bytes))
  {
    Associative(Delivered(io.results) + Held(v), io.pipe, bytes);
  }

  /** A receive takes the oldest item. */
  lemma ReceiveKeepsContents(mode: Mode, v: View, io: Io)
    requires Contents(mode, v, io) && io.out.queue != []
    ensures Contents(mode, v, io.(out := io.out.Pop(), received := io.received + [io.out.queue[0]]))
  {
    ReceiveKeepsItems(io);
    HistoryKeepsContents(mode, v, io, io.(out := io.out.Pop(), received := io.received + [io.out.queue[0]]));
  }

  /** Apart from what is queued and received, the contents are about the history. */
  lemma HistoryKeepsContents(mode: Mode, v: View, io: Io, io': Io)
    requires Contents(mode, v, io) && ItemsKept(io') && io' == io.(out := io'.out, received := io'.received)
    ensures Contents(mode, v, io')
  {
  }

  lemma ReceiveKeepsItems(io: Io)
    requires ItemsKept(io) && io.out.queue != []
    ensures ItemsKept(io.(out := io.out.Pop(), received := io.received + [io.out.queue[0]]))
  {
    var q := io.out.queue;
    assert q == [q[0]] + q[1..];
    Associative(io.received, [q[0]], q[1..]);
  }

  lemma EndsKeepContents(mode: Mode, v: View, io: Io, io': Io)
    requires Contents(mode, v, io) && io' == io.(out := io'.out, broken := io'.broken)
    requires io'.out.queue == io.out.queue && (io.broken ==> io'.broken)
    ensures Contents(mode, v, io')
  {
  }

  /** Everything the protocol keeps. */
  predicate Inv(s: State) { Control(s) && Contents(s.mode, ViewOf(s.link), s.io) }

  /** The receiver of the output outlives the reader, so no `unwrap` of a send can fail. */
  lemma ReaderOutputAlive(s: State)
    requires Control(s) && s.link.reader != RDone
    ensures s.io.out.receiver
  {
  }

  lemma OwnerLeavesOutput(pc: OwnerPc, k: Link, io: Io)
    ensures ViewOf(OwnerLink(pc, k)) == ViewOf(k)
    ensures var io' := OwnerIo(pc, io); io' == io.(out := io'.out) && io'.out.queue == io.out.queue
  {
  }

  lemma OwnerKeepsContents(s: State)
    requires Contents(s.mode, ViewOf(s.link), s.io) && OwnerEnabled(s)
    ensures var t := OwnerNext(s); Contents(t.mode, ViewOf(t.link), t.io)
  {
    OwnerLeavesOutput(s.owner, s.link, s.io);
    EndsKeepContents(s.mode, ViewOf(s.link), s.io, OwnerIo(s.owner, s.io));
  }

  predicate Quiet(l: Label) {
    !l.ReaderStep? && !l.ReadAnswer? && !l.OwnerStep? && !l.Feed? && !l.OwnerRead? && !l.Break?
  }

  lemma QuietStepsLeaveOutput(s: State, l: Label)
    requires Enabled(s, l) && Quiet(l)
    ensures var t := Next(s, l); t.io == s.io && t.mode == s.mode && ViewOf(t.link) == ViewOf(s.link)
  {
    if l.WatcherStep? { WatcherLeavesOutput(s); }
  }

  lemma WatcherLeavesOutput(s: State)
    requires WatcherEnabled(s)
    ensures var t := WatcherNext(s); t.io == s.io && t.mode == s.mode && ViewOf(t.link) == ViewOf(s.link)
  {
  }

  lemma StepKeepsContents(s: State, l: Label)
    requires Inv(s) && Enabled(s, l)
    ensures var t := Next(s, l); Contents(t.mode, ViewOf(t.link), t.io)
  {
    if Quiet(l) {
      QuietStepsLeaveOutput(s, l);
    } else {
      OutputStepKeepsContents(s, l);
    }
  }

  lemma ReaderStepKeepsContents(s: State)
    requires Inv(s) && ReaderEnabled(s.link)
    ensures var t := ReaderNext(s); Contents(t.mode, ViewOf(t.link), t.io)
  {
    ReaderOutputAlive(s);
    ReaderKeepsContents(s.mode, s.link, s.io, s.spawned, OwnerStage(s.owner));
  }

  lemma AnsweredView(k: Link, a: Answer)
    requires k.reader.RReading?
    ensures ViewOf(k).held.None? && ViewOf(k).stage == 2 && ViewOf(k.(reader := RGot(a))) == ViewOf(k).(held := Some(a))
  {
  }

  lemma ReadAnswerKeepsContents(s: State, a: Answer)
    requires Contents(s.mode, ViewOf(s.link), s.io) && Enabled(s, ReadAnswer(a))
    ensures var t := Next(s, ReadAnswer(a)); Contents(t.mode, ViewOf(t.link), t.io)
  {
    AnsweredView(s.link, a);
    TakenKeepsContents(s.mode, s.link.reader, ViewOf(s.link), s.io, a);
  }

  lemma OutputStepKeepsContents(s: State, l: Label)
    requires Inv(s) && Enabled(s, l) && !Quiet(l)
    ensures var t := Next(s, l); Contents(t.mode, ViewOf(t.link), t.io)
  {
    match l
    case ReaderStep => ReaderStepKeepsContents(s);
    case ReadAnswer(a) => ReadAnswerKeepsContents(s, a);
    case OwnerStep => OwnerKeepsContents(s);
    case _ => OutsideKeepsContents(s, l);
  }

  lemma OutsideKeepsContents(s: State, l: Label)
    requires Contents(s.mode, ViewOf(s.link), s.io) && Enabled(s, l) && (l.Feed? || l.OwnerRead? || l.Break?)
    ensures var t := Next(s, l); Contents(t.mode, ViewOf(t.link), t.io)
  {
    match l
    case Feed(bytes) => FeedKeepsContents(s.mode, ViewOf(s.link), s.io, bytes);
    case OwnerRead(_) => if s.io.out.queue != [] { ReceiveKeepsContents(s.mode, ViewOf(s.link), s.io); }
    case Break => EndsKeepContents(s.mode, ViewOf(s.link), s.io, s.io.(broken := true));
  }

  lemma StepKeepsInv(s: State, l: Label)
    requires Inv(s) && Enabled(s, l)
    ensures Inv(Next(s, l))
  {
    StepKeepsControl(s, l);
    StepKeepsContents(s, l);
  }

  lemma StepKeepsMode(s: State, l: Label)
    requires Enabled(s, l)
    ensures Next(s, l).mode == s.mode
  {
  }

  predicate Reached(mode: Mode, s: State) { Inv(s) && s.mode == mode }

  lemma FirstIsReached(mode: Mode, states: seq<State>, steps: seq<Label>)
    requires Run(mode, states, steps)
    ensures Reached(mode, states[0])
  {
    InitControl(mode);
    InitContents(mode);
  }

  lemma NextIsReached(mode: Mode, states: seq<State>, steps: seq<Label>, i: nat)
    requires Run(mode, states, steps) && 0 < i < |states| && Reached(mode, states[i - 1])
    ensures Reached(mode, states[i])
  {
    assert Joined(states, steps, i - 1);
    StepKeepsInv(states[i - 1], steps[i - 1]);
    StepKeepsMode(states[i - 1], steps[i - 1]);
  }

  lemma {:induction false} RunReaches(mode: Mode, states: seq<State>, steps: seq<Label>, i: nat)
    requires Run(mode, states, steps) && i < |states|
    ensures Reached(mode, states[i])
  {
    if i == 0 {
      FirstIsReached(mode, states, steps);
    } else {
      RunReaches(mode, states, steps, i - 1);
      NextIsReached(mode, states, steps, i);
    }
  }

  /** Everything the protocol keeps holds in every state of every run. */
  lemma InvHolds(mode: Mode, states: seq<State>, steps: seq<Label>, i: nat)
    requires Run(mode, states, steps) && i < |states|
    ensures Inv(states[i]) && states[i].mode == mode
  {
    RunReaches(mode, states, steps, i);
  }

  /** A step of a run, with the state before it and the state after. */
  lemma StepInRun(mode: Mode, states: seq<State>, steps: seq<Label>, i: nat) returns (s: State, l: Label, t: State)
    requires Run(mode, states, steps) && 0 < i < |states|
    ensures s == states[i - 1] && l == steps[i - 1] && t == states[i]
    ensures Control(s) && s.mode == mode && Enabled(s, l) && t == Next(s, l)
  {
    s, l, t := states[i - 1], steps[i - 1], states[i];
    InvHolds(mode, states, steps, i - 1);
    assert Joined(states, steps, i - 1);
  }

  // ----- What arrives

  lemma OnlyFeedFeeds(s: State, l: Label)
    requires Enabled(s, l)
    ensures |s.io.fed| <= |Next(s, l).io.fed|
    ensures !l.Feed? ==> Next(s, l).io.fed == s.io.fed
  {
  }

  lemma {:induction false} FedGrows(mode: Mode, states: seq<State>, steps: seq<Label>, i: nat, j: nat)
    requires Run(mode, states, steps) && i <= j < |states|
    ensures |states[i].io.fed| <= |states[j].io.fed|
    decreases j
  {
    if i < j {
      FedGrows(mode, states, steps, i, j - 1);
      assert Joined(states, steps, j - 1);
      OnlyFeedFeeds(states[j - 1], steps[j - 1]);
    }
  }

  /** What was delivered of the bytes fed by `fed` is all of those fed by `fed'`: none were left and none arrived. */
  lemma NoneLeftNoneArrived(delivered: seq<Byte>, left: seq<Byte>, fed: seq<Byte>, fed': seq<Byte>)
    requires fed == delivered + left && |fed| <= |fed'|
    ensures delivered == fed' <==> left == [] && fed' == fed
  {
    NothingAppended(delivered);
  }
}
