/**
 Calls of `PTYProcess::read`: `recv` or `try_recv` on the output channel, and what the caller is told. The
 queue is taken as it stands; items that arrive between two calls are further items of it.
 */
module ReadCalls {
  import opened Sequences
  import opened Unicode
  import opened ReadPath
  import opened Channels
  import opened Protocol
  import opened Invariant
  import opened Contents

  /** What a call returns: a text, an error, or nothing because it waits for an item. */
  datatype ReadCall = Returns(text: seq<CodeUnit>) | Fails | Hangs

  /** `None` is an error, a text or an error is itself, and no item is the empty text. */
  function CallResult(r: Receipt): (c: ReadCall) {
    match r
    case Received(item) => if item.Chunk? then Returns(item.text) else Fails
    case Empty => Returns([])
    case Blocks => Hangs
  }

  function Calls(c: Channel<Item>, blocking: seq<bool>): (r: seq<ReadCall>)
    decreases |blocking|
  {
    if blocking == [] then []
    else [CallResult(Receive(c, blocking[0]).0)] + Calls(Receive(c, blocking[0]).1, blocking[1..])
  }

  /** A text is told as it is, an error and `None` as an error. */
  predicate Tells(call: ReadCall, item: Item) {
    match item
    case Chunk(text) => call == Returns(text)
    case ReadError => call == Fails
    case Eof => call == Fails
  }

  /** The `i`-th call answers with the `i`-th item. When there is none, `recv` and `try_recv` differ. */
  predicate AnsweredAt(c: Channel<Item>, i: nat, blocks: bool, call: ReadCall) {
    if i < |c.queue| then Tells(call, c.queue[i])
    else call == if blocks && c.senders > 0 then Hangs else Returns([])
  }

  predicate Answered(c: Channel<Item>, blocking: seq<bool>, calls: seq<ReadCall>) {
    |calls| == |blocking| && forall i :: 0 <= i < |calls| ==> AnsweredAt(c, i, blocking[i], calls[i])
  }

  lemma FirstAnswer(c: Channel<Item>, blocks: bool)
    ensures AnsweredAt(c, 0, blocks, CallResult(Receive(c, blocks).0))
  {
  }

  lemma LaterAnswer(c: Channel<Item>, b: bool, i: nat, blocks: bool, call: ReadCall)
    requires AnsweredAt(Receive(c, b).1, i, blocks, call)
    ensures AnsweredAt(c, i + 1, blocks, call)
  {
  }

  /**
   The `i`-th call answers with the `i`-th item: its text, or an error for an error and for `None`. When the
   queue is used up, a call that does not block returns the empty text, and so does every call once the
   sender is gone; while there is a sender, a call that blocks hangs.
   */
  lemma {:induction false} CallsAnswer(c: Channel<Item>, blocking: seq<bool>)
    ensures Answered(c, blocking, Calls(c, blocking))
    decreases |blocking|
  {
    if blocking != [] {
      var rest := Receive(c, blocking[0]).1;
      var calls, later := Calls(c, blocking), Calls(rest, blocking[1..]);
      CallsAnswer(rest, blocking[1..]);
      FirstAnswer(c, blocking[0]);
      forall i | 0 <= i < |calls| ensures AnsweredAt(c, i, blocking[i], calls[i]) {
        if i > 0 {
          assert AnsweredAt(rest, i - 1, blocking[1..][i - 1], later[i - 1]);
          LaterAnswer(c, blocking[0], i - 1, blocking[i], later[i - 1]);
        }
      }
    }
  }

  /** The texts returned, one after the other. */
  function Texts(calls: seq<ReadCall>): (t: seq<CodeUnit>) {
    if calls == [] then []
    else Texts(calls[..|calls| - 1]) + if calls[|calls| - 1].Returns? then calls[|calls| - 1].text else []
  }

  /** The items that `n` calls take. */
  function TakenBy(c: Channel<Item>, n: nat): (items: seq<Item>) { if n < |c.queue| then c.queue[..n] else c.queue }

  lemma {:induction false} TextsOfAnswers(c: Channel<Item>, blocking: seq<bool>, calls: seq<ReadCall>, n: nat)
    requires Answered(c, blocking, calls) && n <= |calls|
    ensures Texts(calls[..n]) == TextOfItems(TakenBy(c, n))
  {
    if n > 0 {
      TextsOfAnswers(c, blocking, calls, n - 1);
      assert AnsweredAt(c, n - 1, blocking[n - 1], calls[n - 1]);
      assert calls[..n][..n - 1] == calls[..n - 1];
      NothingAppended(Texts(calls[..n - 1]));
      if n <= |c.queue| {
        assert TakenBy(c, n) == TakenBy(c, n - 1) + [c.queue[n - 1]];
        TextOfItemsSnoc(TakenBy(c, n - 1), c.queue[n - 1]);
      } else {
        assert TakenBy(c, n) == TakenBy(c, n - 1);
      }
    }
  }

  /** The texts that calls return are, in order, those of the items they take: nothing is lost or told twice. */
  lemma CallsReturnTexts(c: Channel<Item>, blocking: seq<bool>)
    ensures Texts(Calls(c, blocking)) == TextOfItems(TakenBy(c, |blocking|))
  {
    var calls := Calls(c, blocking);
    CallsAnswer(c, blocking);
    TextsOfAnswers(c, blocking, calls, |calls|);
    assert calls[..|calls|] == calls;
  }

  lemma TakenInRun(mode: Mode, states: seq<State>, steps: seq<Label>, i: nat)
    requires Run(mode, states, steps) && i < |states|
    ensures var s := states[i];
            && s.io.out.senders == (if ReaderStage(s.link.reader) <= 7 then 1 else 0)
            && s.io.sent == s.io.received + s.io.out.queue
  {
    InvHolds(mode, states, steps, i);
  }

  /**
   In any run, as soon as the reader has dropped its end of the channel, no call hangs: blocking and
   non-blocking calls alike answer with the queued items in order and then with the empty text.
   */
  lemma ReaderGoneReadsDrain(mode: Mode, states: seq<State>, steps: seq<Label>, i: nat, blocking: seq<bool>)
    requires Run(mode, states, steps) && i < |states| && ReaderStage(states[i].link.reader) >= 8
    ensures var c := states[i].io.out;
            var calls := Calls(c, blocking);
            && Answered(c, blocking, calls) && Hangs !in calls
            && (forall k :: |c.queue| <= k < |calls| ==> calls[k] == Returns([]))
            && Texts(calls) == TextOfItems(TakenBy(c, |blocking|))
  {
    var c := states[i].io.out;
    var calls := Calls(c, blocking);
    TakenInRun(mode, states, steps, i);
    CallsAnswer(c, blocking);
    CallsReturnTexts(c, blocking);
    forall k | 0 <= k < |calls| ensures calls[k] != Hangs && (k >= |c.queue| ==> calls[k] == Returns([])) {
      assert AnsweredAt(c, k, blocking[k], calls[k]);
    }
  }

  /**
   Once the reader is gone, enough calls return, together with the items received before, the text of all the
   reads.
   */
  lemma ReadsReturnEverything(mode: Mode, states: seq<State>, steps: seq<Label>, i: nat, blocking: seq<bool>)
    requires Run(mode, states, steps) && i < |states| && |blocking| >= |states[i].io.out.queue|
    ensures var io := states[i].io;
            TextOfItems(io.received) + Texts(Calls(io.out, blocking)) == TextOfReads(Pieces(io.results))
  {
    var io := states[i].io;
    InvHolds(mode, states, steps, i);
    CallsReturnTexts(io.out, blocking);
    assert TakenBy(io.out, |blocking|) == io.out.queue;
    TextOfItemsConcat(io.received, io.out.queue);
    TextOfReadItems(io.results);
    if io.sent != Items(io.results) {
      TextOfItemsSnoc(Items(io.results), Eof);
      NothingAppended(TextOfItems(Items(io.results)));
    }
  }

  lemma {:induction false} TextOfItemsConcat(a: seq<Item>, b: seq<Item>)
    ensures TextOfItems(a + b) == TextOfItems(a) + TextOfItems(b)
    decreases |b|
  {
    if b == [] {
      NothingAppended(a);
      NothingAppended(TextOfItems(a));
    } else {
      var n := |b| - 1;
      TextOfItemsConcat(a, b[..n]);
      TextOfItemsSnoc(a + b[..n], b[n]);
      assert a + b == (a + b[..n]) + [b[n]];
      Associative(TextOfItems(a), TextOfItems(b[..n]), TextOf(b[n]));
    }
  }
}
