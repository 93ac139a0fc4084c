/** Who holds the ends of the channels: when every thread has ended, every end of every channel has been dropped. */
module ChannelEnds {
  import opened Channels
  import opened Protocol
  import opened Invariant
  import opened Contents
  import opened Teardown

  /** The owner sends stops until its fields are dropped. */
  predicate StopsHeld(k: Link, o: nat) { k.alive.senders == if o <= 20 then 1 else 0 }

  /** The owner and the watcher send to the cleanup thread, each until it drops its sender. */
  predicate MessagesHeld(mode: Mode, c: Console, watcher: WatcherPc, o: nat) {
    c.clean.senders ==
    if mode == Sync then 0 else (if o <= 22 then 1 else 0) + (if watcher.WDone? then 0 else 1)
  }

  predicate EndsHeld(s: State) {
    StopsHeld(s.link, OwnerStage(s.owner)) && MessagesHeld(s.mode, s.console, s.watcher, OwnerStage(s.owner))
  }

  lemma ReaderKeepsHeld(mode: Mode, k: Link, o: nat)
    requires StopsHeld(k, o) && ReaderEnabled(k)
    ensures StopsHeld(LinkNext(mode, k, true), o)
  {
  }

  lemma ReaderStepKeepsHeld(s: State)
    requires Control(s) && ReaderEnabled(s.link) && EndsHeld(s)
    ensures EndsHeld(ReaderNext(s))
  {
    ReaderOutputAlive(s);
    ReaderKeepsHeld(s.mode, s.link, OwnerStage(s.owner));
  }

  lemma OwnerKeepsHeld(mode: Mode, k: Link, c: Console, watcher: WatcherPc, pc: OwnerPc, o': nat)
    requires StopsHeld(k, OwnerStage(pc)) && MessagesHeld(mode, c, watcher, OwnerStage(pc))
    requires Moves(mode, pc, k.ready, c.open, o')
    requires mode == Sync ==> OwnerStage(pc) != 21 && OwnerStage(pc) != 22
    ensures StopsHeld(OwnerLink(pc, k), o') && MessagesHeld(mode, OwnerConsole(pc, c), watcher, o')
  {
  }

  lemma OwnerStepKeepsHeld(s: State)
    requires Control(s) && OwnerEnabled(s) && EndsHeld(s)
    ensures EndsHeld(OwnerNext(s))
  {
    var o' := OwnerAdvances(s);
    OwnerKeepsHeld(s.mode, s.link, s.console, s.watcher, s.owner, o');
  }

  lemma WatcherKeepsHeld(s: State)
    requires WatcherEnabled(s) && EndsHeld(s) && s.mode == Async
    ensures EndsHeld(WatcherNext(s))
  {
  }

  lemma CleanerKeepsHeld(c: Console)
    requires CleanerEnabled(c)
    ensures CleanerNext(c).clean.senders == c.clean.senders
  {
  }

  lemma ThreadKeepsHeld(s: State, l: Label)
    requires Control(s) && Enabled(s, l) && ThreadActs(l) && EndsHeld(s)
    ensures EndsHeld(Next(s, l))
  {
    match l
    case ReaderStep => ReaderStepKeepsHeld(s);
    case OwnerStep => OwnerStepKeepsHeld(s);
    case WatcherStep => WatcherKeepsHeld(s);
    case CleanerStep => CleanerKeepsHeld(s.console);
  }

  lemma EventKeepsHeld(s: State, l: Label)
    requires Control(s) && Enabled(s, l) && !ThreadActs(l) && EndsHeld(s)
    ensures EndsHeld(Next(s, l))
  {
  }

  lemma StepKeepsHeld(s: State, l: Label, t: State)
    requires Control(s) && Enabled(s, l) && t == Next(s, l) && EndsHeld(s)
    ensures EndsHeld(t)
  {
    if ThreadActs(l) {
      ThreadKeepsHeld(s, l);
    } else {
      EventKeepsHeld(s, l);
    }
  }

  lemma StepOfRunKeepsHeld(mode: Mode, states: seq<State>, steps: seq<Label>, i: nat)
    requires Run(mode, states, steps) && 0 < i < |states| && EndsHeld(states[i - 1])
    ensures EndsHeld(states[i])
  {
    var s, l, t := StepInRun(mode, states, steps, i);
    StepKeepsHeld(s, l, t);
  }

  lemma {:induction false} EndsAreHeld(mode: Mode, states: seq<State>, steps: seq<Label>, i: nat)
    requires Run(mode, states, steps) && i < |states|
    ensures EndsHeld(states[i])
  {
    if i > 0 {
      EndsAreHeld(mode, states, steps, i - 1);
      StepOfRunKeepsHeld(mode, states, steps, i);
    }
  }

  predicate Dropped<T>(c: Channel<T>) { c.senders == 0 && !c.receiver }

  lemma FinishedIsDropped(s: State)
    requires Control(s) && EndsHeld(s) && Finished(s)
    ensures Dropped(s.link.process) && Dropped(s.link.alive) && Dropped(s.link.second)
    ensures Dropped(s.io.out) && Dropped(s.console.release) && Dropped(s.console.clean)
  {
  }

  /** When the owner and all threads of a run have ended, no end of any channel is held. */
  lemma EveryEndIsDropped(mode: Mode, states: seq<State>, steps: seq<Label>, i: nat)
    requires Run(mode, states, steps) && i < |states| && Finished(states[i])
    ensures var s := states[i];
            && Dropped(s.link.process) && Dropped(s.link.alive) && Dropped(s.link.second)
            && Dropped(s.io.out) && Dropped(s.console.release) && Dropped(s.console.clean)
  {
    InvHolds(mode, states, steps, i);
    EndsAreHeld(mode, states, steps, i);
    FinishedIsDropped(states[i]);
  }
}
