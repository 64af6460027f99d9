/** The bounded process collector as a protocol: two readers, a child, a channel and a collecting loop. */
module Process {
  import opened Words
  import opened Options
  import opened Sequences

  datatype Stream = StdOut | StdErr

  datatype Message = Data(stream: Stream, bytes: seq<Byte>) | Done

  /** A reader thread: between reads, holding a chunk it has read, past the end of its stream, or gone. */
  datatype ReaderPhase = Reading | Holding(chunk: seq<Byte>) | Ended | Gone

  /** Everything the reader has read, and where it is. A stream without a pipe has an absent reader. */
  datatype Reader = Absent | Reader(read: seq<Byte>, phase: ReaderPhase)

  datatype Child = Running | Exited(code: Option<int>)

  datatype RuntimeError = Cancelled | DeadlineExceeded | OutputLimit | Spawn

  datatype Outcome = Finished(code: Option<int>, stdout: seq<Byte>, stderr: seq<Byte>) | Failed(error: RuntimeError)

  /** The collector's position in its loop. */
  datatype Control =
    | CheckCancel
    | CheckDeadline
    | Receive
    | Store(stream: Stream, chunk: seq<Byte>)
    | Poll
    | Kill(error: RuntimeError)
    | AwaitExit(error: RuntimeError)
    | Returned(outcome: Outcome)

  datatype State = State(
    out: Reader, err: Reader,
    channel: seq<Message>,
    child: Child, killed: bool, waited: bool,
    cancel: bool, expired: bool,
    control: Control,
    stdout: seq<Byte>, stderr: seq<Byte>,
    doneReaders: nat)

  datatype ReaderAct = Read(chunk: seq<Byte>) | EndOfStream | Send | SendDone

  datatype CollectorAct = Look | Take | TimeOut | Disconnect | Append | TryWait | TryWaitFails | KillChild | WaitChild

  datatype Step = Thread(stream: Stream, act: ReaderAct) | ChildExits(code: Option<int>) | RaiseCancel | Expire
                | Collect(move: CollectorAct)

  function ReaderOf(s: State, stream: Stream): Reader {
    if stream.StdOut? then s.out else s.err
  }

  function WithReader(s: State, stream: Stream, r: Reader): State {
    if stream.StdOut? then s.(out := r) else s.(err := r)
  }

  function Present(r: Reader): nat {
    if r.Absent? then 0 else 1
  }

  function ExpectedReaders(s: State): nat {
    Present(s.out) + Present(s.err)
  }

  /** No thread can send any more. */
  predicate SendersGone(s: State) {
    (s.out.Absent? || s.out.phase.Gone?) && (s.err.Absent? || s.err.phase.Gone?)
  }

  predicate CanAct(r: Reader, act: ReaderAct) {
    r.Reader? &&
    match act
    case Read(chunk) => r.phase.Reading? && 0 < |chunk| <= 4096
    case EndOfStream => r.phase.Reading?
    case Send => r.phase.Holding?
    case SendDone => r.phase.Ended?
  }

  predicate CanCollect(s: State, move: CollectorAct) {
    match move
    case Look => s.control.CheckCancel? || s.control.CheckDeadline?
    case Take => s.control.Receive? && s.channel != []
    case TimeOut => s.control.Receive? && s.channel == [] && !SendersGone(s)
    case Disconnect => s.control.Receive? && s.channel == [] && SendersGone(s)
    case Append => s.control.Store?
    case TryWait => s.control.Poll?
    case TryWaitFails => s.control.Poll?
    case KillChild => s.control.Kill?
    case WaitChild => s.control.AwaitExit? && s.child.Exited?
  }

  predicate Enabled(s: State, step: Step) {
    match step
    case Thread(x, act) => CanAct(ReaderOf(s, x), act)
    case ChildExits(_) => s.child.Running?
    case RaiseCancel => true
    case Expire => true
    case Collect(move) => CanCollect(s, move)
  }

  /** What a reader puts on the channel, if anything. */
  function Sent(r: Reader, x: Stream, act: ReaderAct): seq<Message>
    requires CanAct(r, act)
  {
    match act
    case Send => [Data(x, r.phase.chunk)]
    case SendDone => [Done]
    case _ => []
  }

  function ReaderNext(r: Reader, act: ReaderAct): Reader
    requires CanAct(r, act)
  {
    match act
    case Read(chunk) => Reader(r.read + chunk, Holding(chunk))
    case EndOfStream => r.(phase := Ended)
    case Send => r.(phase := Reading)
    case SendDone => r.(phase := Gone)
  }

  function CollectorNext(s: State, move: CollectorAct, max: nat): State
    requires CanCollect(s, move)
  {
    match move
    case Look =>
      if s.control.CheckCancel? then s.(control := if s.cancel then Kill(Cancelled) else CheckDeadline)
      else s.(control := if s.expired then Kill(DeadlineExceeded) else Receive)
    case Take =>
      var m := s.channel[0];
      s.(channel := s.channel[1..],
         control := if m.Done? then Poll else Store(m.stream, m.bytes),
         doneReaders := if m.Done? then Min(255, s.doneReaders + 1) else s.doneReaders)
    case TimeOut => s.(control := Poll)
    case Disconnect => s.(control := Poll, doneReaders := 2)
    case Append =>
      var chunk := s.control.chunk;
      if |s.stdout| + |s.stderr| + |chunk| > max then s.(control := Kill(OutputLimit))
      else if s.control.stream.StdOut? then s.(stdout := s.stdout + chunk, control := Poll)
      else s.(stderr := s.stderr + chunk, control := Poll)
    case TryWait =>
      if s.child.Exited? && s.doneReaders >= ExpectedReaders(s)
      then s.(control := Returned(Finished(s.child.code, s.stdout, s.stderr)))
      else s.(control := CheckCancel)
    case TryWaitFails => s.(control := Returned(Failed(Spawn)))
    case KillChild => s.(killed := true, control := AwaitExit(s.control.error))
    case WaitChild => s.(waited := true, control := Returned(Failed(s.control.error)))
  }

  function Next(s: State, step: Step, max: nat): State
    requires Enabled(s, step)
  {
    match step
    case Thread(x, act) => WithReader(s, x,
                                      ReaderNext(ReaderOf(s, x),
                                                 act)).(channel := s.channel + Sent(ReaderOf(s, x), x, act))
    case ChildExits(code) => s.(child := Exited(code))
    case RaiseCancel => s.(cancel := true)
    case Expire => s.(expired := true)
    case Collect(move) => CollectorNext(s, move, max)
  }

  /** Just after the spawn: pipes as taken, nothing read, nothing collected. */
  predicate Initial(s: State) {
    && (s.out.Reader? ==> s.out == Reader([], Reading))
    && (s.err.Reader? ==> s.err == Reader([], Reading))
    && s.channel == [] && s.child.Running? && !s.killed && !s.waited && !s.expired
    && s.control.CheckCancel? && s.stdout == [] && s.stderr == [] && s.doneReaders == 0
  }

  /** Some interleaving of enabled steps leads from s to t. */
  predicate Leads(s: State, steps: seq<Step>, t: State, max: nat)
    decreases |steps|
  {
    if steps == [] then s == t
    else Enabled(s, steps[0]) && Leads(Next(s, steps[0], max), steps[1..], t, max)
  }

  // ----- the invariant -----

  function BytesOf(m: Message, x: Stream): seq<Byte> {
    if m.Data? && m.stream == x then m.bytes else []
  }

  /** Bytes of one stream still in the channel. */
  function InChannel(channel: seq<Message>, x: Stream): seq<Byte> {
    if channel == [] then []
    else
      var n := |channel| - 1;
      InChannel(channel[..n], x) + BytesOf(channel[n], x)
  }

  function DonesIn(channel: seq<Message>): nat {
    if channel == [] then 0
    else DonesIn(channel[..|channel| - 1]) + if channel[|channel| - 1].Done? then 1 else 0
  }

  /** Bytes taken from the channel and about to be stored. */
  function InHand(c: Control, x: Stream): seq<Byte> {
    if c.Store? && c.stream == x then c.chunk else []
  }

  function Held(r: Reader): seq<Byte> {
    if r.Reader? && r.phase.Holding? then r.phase.chunk else []
  }

  function ReadBy(r: Reader): seq<Byte> {
    if r.Absent? then [] else r.read
  }

  function Collected(s: State, x: Stream): seq<Byte> {
    if x.StdOut? then s.stdout else s.stderr
  }

  function IsGone(r: Reader): nat {
    if r.Reader? && r.phase.Gone? then 1 else 0
  }

  /** Once the output limit is hit the chunk in hand is discarded; until then nothing is lost. */
  ghost predicate Conserves(s: State, x: Stream) {
    !Dropped(s.control) ==>
      ReadBy(ReaderOf(s, x)) == Collected(s, x) + InHand(s.control, x) + InChannel(s.channel, x) + Held(ReaderOf(s, x))
  }

  predicate Dropped(c: Control) {
    match c
    case Kill(e) => true
    case AwaitExit(e) => true
    case Returned(o) => o.Failed?
    case _ => false
  }

  /** Bytes of a gone reader in the channel are still followed by an end marker. */
  ghost predicate DoneFollows(s: State) {
    forall i :: 0 <= i < |s.channel| && s.channel[i].Data? ==>
      ReaderOf(s, s.channel[i].stream).Reader?
      && (ReaderOf(s, s.channel[i].stream).phase.Gone? ==> Followed(s, i))
  }

  /** Every end marker is sent once and counted once, unless the channel was found disconnected. */
  ghost predicate CountsDone(s: State) {
    || s.doneReaders + DonesIn(s.channel) == IsGone(s.out) + IsGone(s.err)
    || (s.doneReaders == 2 && s.channel == [] && SendersGone(s))
  }

  /**
   * A failed run has killed the child and waited for it before returning, unless polling failed; no
   * other run kills.
   */
  ghost predicate KillsFirst(s: State, max: nat) {
    match s.control
    case Kill(e) => !s.killed && !s.waited && Justified(s, e, max)
    case AwaitExit(e) => s.killed && Justified(s, e, max)
    case Returned(Failed(e)) =>
      if e.Spawn? then !s.killed && !s.waited else s.killed && s.waited && s.child.Exited? && Justified(s, e, max)
    case _ => !s.killed && !s.waited
  }

  /** Why a run may be stopped. */
  ghost predicate Justified(s: State, e: RuntimeError, max: nat) {
    match e
    case Cancelled => s.cancel
    case DeadlineExceeded => s.expired
    case OutputLimit => |ReadBy(s.out)| + |ReadBy(s.err)| > max
    case Spawn => false
  }

  ghost predicate Complete(s: State) {
    s.control.Returned? && s.control.outcome.Finished? ==>
      && s.child.Exited? && s.control.outcome == Finished(s.child.code, s.stdout, s.stderr)
      && SendersGone(s) && s.channel == []
  }

  ghost predicate Inv(s: State, max: nat) {
    && Conserves(s, StdOut) && Conserves(s, StdErr)
    && DoneFollows(s) && CountsDone(s)
    && |s.stdout| + |s.stderr| <= max
    && KillsFirst(s, max) && Complete(s)
  }

  lemma InChannelAppend(channel: seq<Message>, m: Message, x: Stream)
    ensures InChannel(channel + [m], x) == InChannel(channel, x) + BytesOf(m, x)
    ensures DonesIn(channel + [m]) == DonesIn(channel) + if m.Done? then 1 else 0
  {
    assert (channel + [m])[..|channel|] == channel;
  }

  lemma NothingInChannel(x: Stream)
    ensures InChannel([], x) == [] && DonesIn([]) == 0
  {
  }

  lemma {:induction false} InChannelTake(channel: seq<Message>, x: Stream)
    requires channel != []
    ensures InChannel(channel, x) == BytesOf(channel[0], x) + InChannel(channel[1..], x)
    ensures DonesIn(channel) == DonesIn(channel[1..]) + if channel[0].Done? then 1 else 0
  {
    hide BytesOf, InChannel, DonesIn;
    var n := |channel| - 1;
    var front, last := channel[..n], channel[n];
    assert channel == front + [last];
    InChannelAppend(front, last, x);
    if n == 0 {
      NothingInChannel(x);
      assert front == [] && channel[1..] == [];
    } else {
      InChannelTake(front, x);
      assert channel[1..] == front[1..] + [last];
      InChannelAppend(front[1..], last, x);
      ConcatAssociates(BytesOf(channel[0], x), InChannel(front[1..], x), BytesOf(last, x));
    }
  }

  lemma {:induction false} DonesCounted(channel: seq<Message>, j: nat)
    requires j < |channel| && channel[j].Done?
    ensures DonesIn(channel) > 0
  {
    if j < |channel| - 1 {
      DonesCounted(channel[..|channel| - 1], j);
    }
  }

  /** A reader's move adds its chunk, or its end marker, or nothing to the channel. */
  lemma ChannelGrows(channel: seq<Message>, r: Reader, x: Stream, act: ReaderAct, y: Stream)
    requires CanAct(r, act)
    ensures InChannel(channel + Sent(r, x, act), y) == InChannel(channel, y) + if act.Send? && x == y then r.phase.chunk
              else []
    ensures DonesIn(channel + Sent(r, x, act)) == DonesIn(channel) + if act.SendDone? then 1 else 0
  {
    hide InChannel;
    hide DonesIn;
    match act {
      case Send => InChannelAppend(channel, Data(x, r.phase.chunk), y);
      case SendDone => InChannelAppend(channel, Done, y);
      case _ => assert channel + [] == channel;
    }
  }

  /** A reader's own accounting: what it has read is what it sent before, sends now, and still holds. */
  lemma ReaderConserves(r: Reader, act: ReaderAct, before: seq<Byte>)
    requires CanAct(r, act) && r.read == before + Held(r)
    ensures ReaderNext(r, act).Reader?
    ensures ReaderNext(r, act).read == before + (if act.Send? then r.phase.chunk else []) + Held(ReaderNext(r, act))
  {
  }

  lemma ThreadFrame(s: State, y: Stream, act: ReaderAct, max: nat)
    requires Enabled(s, Thread(y, act))
    ensures var t := Next(s, Thread(y, act), max);
            && t.control == s.control && t.stdout == s.stdout && t.stderr == s.stderr && t.doneReaders == s.doneReaders
            && t.child == s.child && t.killed == s.killed && t.waited == s.waited && t.cancel == s.cancel
                && t.expired == s.expired
            && t.channel == s.channel + Sent(ReaderOf(s, y), y, act)
            && (forall x :: ReaderOf(t, x) == if x == y then ReaderNext(ReaderOf(s, y), act) else ReaderOf(s, x))
  {
  }

  lemma ConservesThread(s: State, y: Stream, act: ReaderAct, x: Stream, max: nat)
    requires Enabled(s, Thread(y, act)) && Conserves(s, x)
    ensures Conserves(Next(s, Thread(y, act), max), x)
  {
    var r, t := ReaderOf(s, y), Next(s, Thread(y, act), max);
    ThreadFrame(s, y, act, max);
    assert Collected(t, x) == Collected(s, x);
    assert r.Reader? && CanAct(r, act);
    hide Next, InChannel, ReaderOf, ReaderNext, Sent, Held, InHand, CanAct, Dropped;
    ChannelGrows(s.channel, r, y, act, x);
    var before := Collected(s, x) + InHand(s.control, x) + InChannel(s.channel, x);
    hide Collected;
    if !Dropped(s.control) {
      if x == y {
        ReaderConserves(r, act, before);
        var more := if act.Send? then r.phase.chunk else [];
        JoinMore(Collected(t, x), InHand(t.control, x), InChannel(s.channel, x), more);
      } else {
        JoinMore(Collected(t, x), InHand(t.control, x), InChannel(s.channel, x), []);
      }
    }
  }

  lemma JoinMore(a: seq<Byte>, b: seq<Byte>, c: seq<Byte>, d: seq<Byte>)
    ensures a + b + (c + d) == a + b + c + d
    ensures a + b + c + [] == a + b + c
  {
  }

  lemma TakeFrame(s: State, x: Stream, max: nat)
    requires CanCollect(s, Take)
    ensures var t := CollectorNext(s, Take, max);
            InHand(t.control, x) + InChannel(t.channel, x) == InChannel(s.channel, x)
    ensures DonesIn(s.channel) == DonesIn(s.channel[1..]) + if s.channel[0].Done? then 1 else 0
  {
    InChannelTake(s.channel, x);
    hide InChannel;
    hide DonesIn;
  }

  lemma AppendFrame(s: State, x: Stream, max: nat)
    requires CanCollect(s, Append) && |s.stdout| + |s.stderr| + |s.control.chunk| <= max
    ensures var t := CollectorNext(s, Append, max);
            t.channel == s.channel && Collected(t, x) + InHand(t.control, x) == Collected(s, x) + InHand(s.control, x)
  {
  }

  lemma QuietFrame(s: State, move: CollectorAct, x: Stream, max: nat)
    requires CanCollect(s, move) && !move.Take? && !move.Append?
    ensures var t := CollectorNext(s, move, max);
            t.channel == s.channel && t.stdout == s.stdout && t.stderr == s.stderr
            && InHand(t.control, x) == InHand(s.control, x) == []
            && (move.Disconnect? || t.doneReaders == s.doneReaders)
  {
  }

  lemma CollectFrame(s: State, move: CollectorAct, x: Stream, max: nat)
    requires CanCollect(s, move)
    ensures var t := CollectorNext(s, move, max);
            t.out == s.out && t.err == s.err && (!Dropped(t.control) ==> !Dropped(s.control))
  {
  }

  lemma ConservesCollect(s: State, move: CollectorAct, x: Stream, max: nat)
    requires CanCollect(s, move) && Conserves(s, x)
    ensures Conserves(CollectorNext(s, move, max), x)
  {
    var t := CollectorNext(s, move, max);
    CollectFrame(s, move, x, max);
    if move.Take? {
      TakeFrame(s, x, max);
      assert Collected(t, x) == Collected(s, x) && ReaderOf(t, x) == ReaderOf(s, x) && InHand(s.control, x) == [];
      NothingInHand(Collected(s, x), InHand(t.control, x), InChannel(t.channel, x));
    } else if move.Append? {
      if !Dropped(t.control) { AppendFrame(s, x, max); }
    } else {
      QuietFrame(s, move, x, max);
    }
    hide CollectorNext;
    hide InChannel;
    hide InHand;
    hide Collected;
  }

  lemma NothingInHand(a: seq<Byte>, b: seq<Byte>, c: seq<Byte>)
    ensures a + [] + (b + c) == a + b + c
  {
  }

  lemma ConservesStep(s: State, step: Step, x: Stream, max: nat)
    requires Enabled(s, step) && Conserves(s, x)
    ensures Conserves(Next(s, step, max), x)
  {
    match step {
      case Thread(y, act) => ConservesThread(s, y, act, x, max);
      case Collect(move) => ConservesCollect(s, move, x, max);
      case _ =>
    }
  }

  /** Message i of a gone reader is followed by an end marker. */
  ghost predicate Followed(s: State, i: nat)
    requires i < |s.channel|
  {
    exists j :: i < j < |s.channel| && s.channel[j].Done?
  }

  lemma DoneFollowsThread(s: State, y: Stream, act: ReaderAct, max: nat)
    requires Enabled(s, Thread(y, act)) && DoneFollows(s)
    ensures DoneFollows(Next(s, Thread(y, act), max))
  {
    var t := Next(s, Thread(y, act), max);
    forall i | 0 <= i < |t.channel| && t.channel[i].Data?
      ensures ReaderOf(t, t.channel[i].stream).Reader?
      ensures ReaderOf(t, t.channel[i].stream).phase.Gone? ==> Followed(t, i)
    {
      if i < |s.channel| {
        assert t.channel[i] == s.channel[i];
        if act.SendDone? {
          assert t.channel[|s.channel|].Done?;
        } else if ReaderOf(s, s.channel[i].stream).phase.Gone? {
          var j :| i < j < |s.channel| && s.channel[j].Done?;
          assert t.channel[j].Done?;
        }
      }
    }
  }

  lemma DoneFollowsTake(s: State, max: nat)
    requires CanCollect(s, Take) && DoneFollows(s)
    ensures DoneFollows(CollectorNext(s, Take, max))
  {
    var t := CollectorNext(s, Take, max);
    forall i | 0 <= i < |t.channel| && t.channel[i].Data?
      ensures ReaderOf(t, t.channel[i].stream).Reader?
      ensures ReaderOf(t, t.channel[i].stream).phase.Gone? ==> Followed(t, i)
    {
      assert t.channel[i] == s.channel[i + 1];
      if ReaderOf(s, t.channel[i].stream).phase.Gone? {
        var j :| i + 1 < j < |s.channel| && s.channel[j].Done?;
        assert t.channel[j - 1].Done?;
      }
    }
  }

  /** Only taking a message changes the channel, and no move of the collector changes a reader. */
  lemma DoneFollowsQuiet(s: State, t: State)
    requires DoneFollows(s) && t.channel == s.channel && t.out == s.out && t.err == s.err
    ensures DoneFollows(t)
  {
    assert forall x :: ReaderOf(t, x) == ReaderOf(s, x);
    hide ReaderOf;
  }

  lemma CollectorKeepsReaders(s: State, move: CollectorAct, max: nat)
    requires CanCollect(s, move)
    ensures var t := CollectorNext(s, move, max);
            t.out == s.out && t.err == s.err && (!move.Take? ==> t.channel == s.channel)
  {
  }

  lemma DoneFollowsStep(s: State, step: Step, max: nat)
    requires Enabled(s, step) && DoneFollows(s)
    ensures DoneFollows(Next(s, step, max))
  {
    hide DoneFollows, CollectorNext, CanCollect;
    match step {
      case Thread(y, act) => DoneFollowsThread(s, y, act, max);
      case Collect(move) =>
        if move.Take? {
          DoneFollowsTake(s, max);
        } else {
          CollectorKeepsReaders(s, move, max);
          DoneFollowsQuiet(s, CollectorNext(s, move, max));
        }
      case _ => DoneFollowsQuiet(s, Next(s, step, max));
    }
  }

  lemma GoneAfter(r: Reader, act: ReaderAct)
    requires CanAct(r, act)
    ensures IsGone(ReaderNext(r, act)) == IsGone(r) + if act.SendDone? then 1 else 0
    ensures IsGone(r) == 0
  {
  }

  lemma SenderRemains(s: State, y: Stream, act: ReaderAct)
    requires CanAct(ReaderOf(s, y), act)
    ensures !SendersGone(s)
  {
  }

  lemma CountsDoneThread(s: State, y: Stream, act: ReaderAct, max: nat)
    requires Enabled(s, Thread(y, act)) && CountsDone(s)
    ensures CountsDone(Next(s, Thread(y, act), max))
  {
    var t := Next(s, Thread(y, act), max);
    ThreadFrame(s, y, act, max);
    hide Next, DonesIn, ReaderNext, CanAct, IsGone, SendersGone, InChannel, Sent;
    ChannelGrows(s.channel, ReaderOf(s, y), y, act, y);
    GoneAfter(ReaderOf(s, y), act);
    SenderRemains(s, y, act);
    assert t.out == ReaderOf(t, StdOut) && t.err == ReaderOf(t, StdErr);
    assert s.out == ReaderOf(s, StdOut) && s.err == ReaderOf(s, StdErr);
  }

  lemma CountsDoneTake(s: State, max: nat)
    requires CanCollect(s, Take) && CountsDone(s)
    ensures CountsDone(CollectorNext(s, Take, max))
  {
    TakeFrame(s, StdOut, max);
    hide DonesIn, SendersGone, InChannel, InHand;
  }

  lemma CountsDoneQuiet(s: State, move: CollectorAct, max: nat)
    requires CanCollect(s, move) && !move.Take? && CountsDone(s)
    ensures CountsDone(CollectorNext(s, move, max))
  {
    hide DonesIn, IsGone;
    CollectorKeepsReaders(s, move, max);
  }

  lemma CountsDoneCollect(s: State, move: CollectorAct, max: nat)
    requires CanCollect(s, move) && CountsDone(s)
    ensures CountsDone(CollectorNext(s, move, max))
  {
    hide CountsDone, CollectorNext, CanCollect;
    if move.Take? { CountsDoneTake(s, max); } else { CountsDoneQuiet(s, move, max); }
  }

  lemma CountsDoneStep(s: State, step: Step, max: nat)
    requires Enabled(s, step) && CountsDone(s)
    ensures CountsDone(Next(s, step, max))
  {
    match step {
      case Thread(y, act) =>
        CountsDoneThread(s, y, act, max);
      case Collect(move) =>
        CountsDoneCollect(s, move, max);
      case _ =>
    }
  }

  /** Counting every end marker means every reader is gone and nothing it sent is left. */
  lemma AllDone(s: State)
    requires CountsDone(s) && DoneFollows(s) && s.doneReaders >= ExpectedReaders(s)
    ensures SendersGone(s) && s.channel == []
  {
    if s.channel != [] {
      var m := s.channel[0];
      if m.Done? {
        DonesCounted(s.channel, 0);
      } else if ReaderOf(s, m.stream).phase.Gone? {
        var j :| 0 < j < |s.channel| && s.channel[j].Done?;
        DonesCounted(s.channel, j);
      }
    }
  }

  /** A chunk that would cross the cap has really been read. */
  lemma OverflowIsReal(s: State, max: nat)
    requires Conserves(s, StdOut) && Conserves(s, StdErr) && s.control.Store?
    requires |s.stdout| + |s.stderr| + |s.control.chunk| > max
    ensures |ReadBy(s.out)| + |ReadBy(s.err)| > max
  {
    hide InChannel, Held;
  }

  lemma AppendStops(s: State, max: nat)
    requires CanCollect(s, Append) && Conserves(s, StdOut) && Conserves(s, StdErr) && KillsFirst(s, max)
    ensures KillsFirst(CollectorNext(s, Append, max), max) && Complete(CollectorNext(s, Append, max))
  {
    hide Conserves;
    if |s.stdout| + |s.stderr| + |s.control.chunk| > max { OverflowIsReal(s, max); }
  }

  lemma PollStops(s: State, max: nat)
    requires CanCollect(s, TryWait) && DoneFollows(s) && CountsDone(s) && KillsFirst(s, max)
    ensures KillsFirst(CollectorNext(s, TryWait, max), max) && Complete(CollectorNext(s, TryWait, max))
  {
    if s.child.Exited? && s.doneReaders >= ExpectedReaders(s) {
      AllDone(s);
    }
    hide DoneFollows, CountsDone, SendersGone;
  }

  lemma OtherStops(s: State, move: CollectorAct, max: nat)
    requires CanCollect(s, move) && !move.Append? && !move.TryWait? && KillsFirst(s, max)
    ensures KillsFirst(CollectorNext(s, move, max), max) && Complete(CollectorNext(s, move, max))
  {
    hide SendersGone;
  }

  lemma StopCollect(s: State, move: CollectorAct, max: nat)
    requires CanCollect(s, move) && Inv(s, max)
    ensures KillsFirst(CollectorNext(s, move, max), max) && Complete(CollectorNext(s, move, max))
  {
    hide DoneFollows, CountsDone, Conserves, KillsFirst, Complete, CollectorNext, CanCollect;
    match move {
      case Append => AppendStops(s, max);
      case TryWait => PollStops(s, max);
      case _ => OtherStops(s, move, max);
    }
  }

  lemma StopThread(s: State, y: Stream, act: ReaderAct, max: nat)
    requires Enabled(s, Thread(y, act)) && KillsFirst(s, max) && Complete(s)
    ensures KillsFirst(Next(s, Thread(y, act), max), max) && Complete(Next(s, Thread(y, act), max))
  {
    var t := Next(s, Thread(y, act), max);
    ThreadFrame(s, y, act, max);
    hide Next;
    assert t.out == ReaderOf(t, StdOut) && t.err == ReaderOf(t, StdErr);
    assert |ReadBy(s.out)| <= |ReadBy(t.out)| && |ReadBy(s.err)| <= |ReadBy(t.err)|;
  }

  lemma StopStep(s: State, step: Step, max: nat)
    requires Enabled(s, step) && Inv(s, max)
    ensures KillsFirst(Next(s, step, max), max) && Complete(Next(s, step, max))
  {
    match step {
      case Thread(y, act) => StopThread(s, y, act, max);
      case Collect(move) => StopCollect(s, move, max);
      case _ =>
        hide DoneFollows;
        hide CountsDone;
        hide Conserves;
    }
  }

  lemma CapStep(s: State, step: Step, max: nat)
    requires Enabled(s, step) && |s.stdout| + |s.stderr| <= max
    ensures |Next(s, step, max).stdout| + |Next(s, step, max).stderr| <= max
  {
    match step {
      case Thread(y, act) => ThreadFrame(s, y, act, max);
      case Collect(move) => if !move.Take? && !move.Append? { QuietFrame(s, move, StdOut, max); }
      case _ =>
    }
  }

  lemma InvStep(s: State, step: Step, max: nat)
    requires Enabled(s, step) && Inv(s, max)
    ensures Inv(Next(s, step, max), max)
  {
    ConservesStep(s, step, StdOut, max);
    ConservesStep(s, step, StdErr, max);
    DoneFollowsStep(s, step, max);
    CountsDoneStep(s, step, max);
    StopStep(s, step, max);
    CapStep(s, step, max);
    hide Next;
    hide Conserves;
    hide DoneFollows;
    hide CountsDone;
    hide KillsFirst;
    hide Complete;
  }

  lemma {:induction false} Reachable(s: State, steps: seq<Step>, t: State, max: nat)
    requires Inv(s, max) && Leads(s, steps, t, max)
    ensures Inv(t, max)
    decreases |steps|
  {
    if steps != [] {
      InvStep(s, steps[0], max);
      Reachable(Next(s, steps[0], max), steps[1..], t, max);
    }
  }

  lemma InitialInv(s: State, max: nat)
    requires Initial(s)
    ensures Inv(s, max)
  {
  }

  // ----- safety over every interleaving -----

  /** Success returns everything each reader ever read, in order and within the cap, and the child's own exit code. */
  lemma SuccessIsComplete(s: State, steps: seq<Step>, t: State, max: nat)
    requires Initial(s) && Leads(s, steps, t, max) && t.control.Returned? && t.control.outcome.Finished?
    ensures t.child.Exited? && t.control.outcome == Finished(t.child.code, ReadBy(t.out), ReadBy(t.err))
    ensures |ReadBy(t.out)| + |ReadBy(t.err)| <= max && SendersGone(t)
  {
    InitialInv(s, max);
    Reachable(s, steps, t, max);
  }

  /** A cancelled, late or overflowing run has killed the child and waited for it, and its reason is real. */
  lemma FailureKillsAndWaits(s: State, steps: seq<Step>, t: State, max: nat)
    requires Initial(s) && Leads(s, steps, t, max) && t.control.Returned? && t.control.outcome.Failed?
    requires t.control.outcome.error != Spawn
    ensures t.killed && t.waited && t.child.Exited?
    ensures match t.control.outcome.error
            case Cancelled => t.cancel
            case DeadlineExceeded => t.expired
            case OutputLimit => |ReadBy(t.out)| + |ReadBy(t.err)| > max
            case Spawn => true
  {
    InitialInv(s, max);
    Reachable(s, steps, t, max);
  }

  predicate PollFailed(s: State) {
    s.control == Returned(Failed(Spawn))
  }

  lemma PollFailsOnce(s: State, step: Step, max: nat)
    requires Enabled(s, step) && KillsFirst(s, max)
    ensures PollFailed(Next(s, step, max)) <==> PollFailed(s) || step == Collect(TryWaitFails)
  {
    hide SendersGone, ReadBy;
  }

  lemma {:induction false} PollFailedExactlyWhen(s: State, steps: seq<Step>, t: State, max: nat)
    requires Inv(s, max) && Leads(s, steps, t, max)
    ensures PollFailed(t) <==> PollFailed(s) || Collect(TryWaitFails) in steps
    decreases |steps|
  {
    if steps != [] {
      hide Next;
      InvStep(s, steps[0], max);
      PollFailsOnce(s, steps[0], max);
      PollFailedExactlyWhen(Next(s, steps[0], max), steps[1..], t, max);
      assert steps == [steps[0]] + steps[1..];
    }
  }

  ghost predicate SomeExit(steps: seq<Step>) {
    exists step :: step in steps && step.ChildExits?
  }

  lemma {:induction false} RunsUntilItExits(s: State, steps: seq<Step>, t: State, max: nat)
    requires Leads(s, steps, t, max)
    ensures t.child.Exited? <==> s.child.Exited? || SomeExit(steps)
    decreases |steps|
  {
    if steps != [] {
      RunsUntilItExits(Next(s, steps[0], max), steps[1..], t, max);
      assert steps == [steps[0]] + steps[1..];
      assert SomeExit(steps) <==> steps[0].ChildExits? || SomeExit(steps[1..]);
    }
  }

  /**
   * A failed run has killed the child and waited for it exactly when no poll of the child failed;
   * after a failed poll the child still runs unless it exited by itself.
   */
  lemma FailedRunKillsExactlyWhen(s: State, steps: seq<Step>, t: State, max: nat)
    requires Initial(s) && Leads(s, steps, t, max) && t.control.Returned? && t.control.outcome.Failed?
    ensures t.killed && t.waited <==> Collect(TryWaitFails) !in steps
    ensures Collect(TryWaitFails) in steps ==>
              t.control.outcome.error.Spawn? && !t.killed && !t.waited && (t.child.Running? <==> !SomeExit(steps))
  {
    hide Conserves, DoneFollows, CountsDone, Complete, Leads, Enabled, Next;
    InitialInv(s, max);
    Reachable(s, steps, t, max);
    PollFailedExactlyWhen(s, steps, t, max);
    RunsUntilItExits(s, steps, t, max);
  }

  // ----- what must happen -----

  /** Once a stop was decided on, nothing else comes of the run. */
  ghost predicate StopsWith(c: Control, e: RuntimeError) {
    c == Kill(e) || c == AwaitExit(e) || c == Returned(Failed(e))
  }

  lemma StopIsFinal(s: State, step: Step, max: nat, e: RuntimeError)
    requires Enabled(s, step) && StopsWith(s.control, e)
    ensures StopsWith(Next(s, step, max).control, e)
  {
    hide SendersGone;
  }

  lemma {:induction false} StopStays(s: State, steps: seq<Step>, t: State, max: nat, e: RuntimeError)
    requires Leads(s, steps, t, max) && StopsWith(s.control, e)
    ensures StopsWith(t.control, e)
    decreases |steps|
  {
    if steps != [] {
      hide Next, Enabled;
      StopIsFinal(s, steps[0], max, e);
      StopStays(Next(s, steps[0], max), steps[1..], t, max, e);
    }
  }

  /** Why the collector must stop when it looks next. */
  ghost predicate MustStop(s: State, e: RuntimeError, max: nat) {
    match e
    case Cancelled => s.control.CheckCancel? && s.cancel
    case DeadlineExceeded => s.control.CheckDeadline? && s.expired
    case OutputLimit => s.control.Store? && |s.stdout| + |s.stderr| + |s.control.chunk| > max
    case Spawn => false
  }

  lemma StopIsDecided(s: State, step: Step, max: nat, e: RuntimeError)
    requires Enabled(s, step) && MustStop(s, e, max)
    ensures MustStop(Next(s, step, max), e, max) || StopsWith(Next(s, step, max).control, e)
  {
    hide SendersGone;
  }

  /**
   * Whatever the others do meanwhile, a run that comes to the check of a raised cancel flag, of a
   * passed deadline, or of a chunk beyond the cap ends with exactly that error, if it ends.
   */
  lemma {:induction false} DueStopIsTaken(s: State, steps: seq<Step>, t: State, max: nat, e: RuntimeError)
    requires Leads(s, steps, t, max) && MustStop(s, e, max) && t.control.Returned?
    ensures t.control.outcome == Failed(e)
    decreases |steps|
  {
    if steps != [] {
      StopIsDecided(s, steps[0], max, e);
      var n := Next(s, steps[0], max);
      hide Next, Enabled;
      if MustStop(n, e, max) {
        DueStopIsTaken(n, steps[1..], t, max, e);
      } else {
        StopStays(n, steps[1..], t, max, e);
      }
    }
  }

  /** With the child gone and everything received, the next poll succeeds with what was collected. */
  lemma DoneRunFinishes(s: State, max: nat)
    requires Inv(s, max) && s.control.Poll? && s.child.Exited? && SendersGone(s) && s.channel == []
    ensures Enabled(s, Collect(TryWait))
    ensures Next(s, Collect(TryWait), max).control
         == Returned(Finished(s.child.code, ReadBy(s.out), ReadBy(s.err)))
  {
    NothingInChannel(StdOut);
    NothingInChannel(StdErr);
    assert s.doneReaders >= ExpectedReaders(s);
    assert s.stdout + [] + [] + [] == s.stdout && s.stderr + [] + [] + [] == s.stderr;
    hide DoneFollows, CountsDone, KillsFirst, InChannel;
  }

  /** Otherwise a poll goes on: before the exit of the child, and before every end marker was counted. */
  lemma EarlyPollGoesOn(s: State, max: nat)
    requires s.control.Poll? && (s.child.Running? || s.doneReaders < ExpectedReaders(s))
    ensures Next(s, Collect(TryWait), max) == s.(control := CheckCancel)
  {
  }

  /** Waiting for a message, or on the way from there to the next poll. */
  predicate BeforePoll(c: Control) {
    c.Receive? || c.Store? || c.Poll? || c.Kill? || c.AwaitExit? || (c.Returned? && c.outcome.Failed?)
  }

  lemma OnlyPollsPass(s: State, step: Step, max: nat)
    requires Enabled(s, step) && BeforePoll(s.control) && step != Collect(TryWait)
    ensures BeforePoll(Next(s, step, max).control)
  {
  }

  /** No round passes without a poll: whoever waits for a message polls before looking again or finishing. */
  lemma {:induction false} EveryRoundPolls(s: State, steps: seq<Step>, t: State, max: nat)
    requires Leads(s, steps, t, max) && BeforePoll(s.control) && !BeforePoll(t.control)
    ensures Collect(TryWait) in steps
    decreases |steps|
  {
    if steps[0] != Collect(TryWait) {
      OnlyPollsPass(s, steps[0], max);
      hide Next, Enabled, BeforePoll;
      EveryRoundPolls(Next(s, steps[0], max), steps[1..], t, max);
    }
  }

  /** The output cap is never exceeded by what is kept, at any moment of any run. */
  lemma KeptOutputWithinCap(s: State, steps: seq<Step>, t: State, max: nat)
    requires Initial(s) && Leads(s, steps, t, max)
    ensures |t.stdout| + |t.stderr| <= max
  {
    InitialInv(s, max);
    Reachable(s, steps, t, max);
  }

  lemma OneMore(s: State, step: Step, rest: seq<Step>, t: State, max: nat)
    requires Enabled(s, step) && Leads(Next(s, step, max), rest, t, max)
    ensures Leads(s, [step] + rest, t, max)
  {
    hide Enabled, Next;
    assert ([step] + rest)[1..] == rest;
  }

  const FRESH := State(Reader([], Reading), Reader([], Reading), [], Running, false, false, false, false, CheckCancel,
                       [], [], 0)

  lemma FailedPoll()
    ensures Leads(FRESH.(control := Poll), [Collect(TryWaitFails)] + [], FRESH.(control := Returned(Failed(Spawn))), 10)
  {
    OneMore(FRESH.(control := Poll), Collect(TryWaitFails), [], FRESH.(control := Returned(Failed(Spawn))), 10);
  }

  /** The one exit that leaves the child alone: polling it failed. */
  lemma PollFailureLeavesChildRunning()
    ensures exists s, steps, t :: Initial(s) && Leads(s, steps, t, 10)
              && t.control == Returned(Failed(Spawn)) && t.child.Running? && !t.killed
  {
    var t := FRESH.(control := Returned(Failed(Spawn)));
    FailedPoll();
    hide Leads;
    var fails := [Collect(TryWaitFails)] + [];
    OneMore(FRESH.(control := Receive), Collect(TimeOut), fails, t, 10);
    OneMore(FRESH.(control := CheckDeadline), Collect(Look), [Collect(TimeOut)] + fails, t, 10);
    OneMore(FRESH, Collect(Look), [Collect(Look)] + ([Collect(TimeOut)] + fails), t, 10);
    assert Initial(FRESH);
  }

  /** Until it returns, the collector can always move, or is waiting for a killed child to exit. */
  lemma CollectorNeverStuck(s: State)
    requires !s.control.Returned?
    ensures (exists move :: CanCollect(s, move)) || (s.control.AwaitExit? && s.child.Running?)
  {
    var move := match s.control
                case CheckCancel => Look
                case CheckDeadline => Look
                case Receive => if s.channel != [] then Take else if SendersGone(s) then Disconnect else TimeOut
                case Store(_, _) => Append
                case Poll => TryWait
                case Kill(_) => KillChild
                case AwaitExit(_) => WaitChild
                case Returned(_) => Look;
    assert CanCollect(s, move) || (s.control.AwaitExit? && s.child.Running?);
  }
}
