/**
 Several goroutines calling Send on one connection. A step system: a caller takes the connection's
 mutex, its encoded frame reaches the wire in pieces of any size, and the mutex is released when the
 write has completed or failed. A step that is not enabled leaves the state as it is, so every list
 of steps is a schedule.
 */
module SharedSend {
  import opened Codec

  type Caller = nat

  datatype Sent = Sent(caller: Caller, frame: Frame)

  datatype Mutex = Free | Writing(holder: Caller, written: nat) | Leaving(holder: Caller)

  datatype Step = Lock(caller: Caller) | Write(n: nat) | WriteError | Unlock

  /**
   `queues` holds what each caller still has to send, in program order; `torn` the bytes on the wire
   of the write in progress, or of the write that failed; `done` the completed writes in order.
   */
  datatype State = State(
    queues: map<Caller, seq<Frame>>, mutex: Mutex, broken: bool,
    wire: seq<byte>, torn: seq<byte>, done: seq<Sent>)
  {
    function Queue(c: Caller): seq<Frame> {
      if c in queues then queues[c] else []
    }

    function Pop(c: Caller): State
      requires Queue(c) != []
    {
      this.(queues := queues[c := queues[c][1..]], mutex := Leaving(c))
    }

    function Next(step: Step): State {
      match step
      case Lock(c) =>
        if mutex.Free? && Queue(c) != [] then this.(mutex := Writing(c, 0)) else this
      case Write(n) =>
        if mutex.Writing? && !broken && Queue(mutex.holder) != [] then
          var c, f := mutex.holder, Queue(mutex.holder)[0];
          if mutex.written + n < |Encode(f)| then
            var piece := Encode(f)[mutex.written..mutex.written + n];
            this.(wire := wire + piece, torn := torn + piece, mutex := Writing(c, mutex.written + n))
          else if mutex.written <= |Encode(f)| then
            Pop(c).(wire := wire + Encode(f)[mutex.written..], torn := [], done := done + [Sent(c, f)])
          else this
        else this
      case WriteError =>
        if mutex.Writing? && Queue(mutex.holder) != [] then Pop(mutex.holder).(broken := true) else this
      case Unlock =>
        if mutex.Leaving? then this.(mutex := Free) else this
    }

    function Run(steps: seq<Step>): State
      decreases |steps|
    {
      if steps == [] then this
      else Run(steps[..|steps| - 1]).Next(steps[|steps| - 1])
    }
  }

  function Start(queues: map<Caller, seq<Frame>>): State {
    State(queues, Free, false, [], [], [])
  }

  function Frames(done: seq<Sent>): seq<Frame> {
    seq(|done|, i requires 0 <= i < |done| => done[i].frame)
  }

  /** What one caller has completed, in the order of the wire. */
  function SentBy(done: seq<Sent>, c: Caller): seq<Frame> {
    if done == [] then []
    else
      var last := done[|done| - 1];
      SentBy(done[..|done| - 1], c) + if last.caller == c then [last.frame] else []
  }

  ghost predicate Bounded(queues: map<Caller, seq<Frame>>) {
    forall c, f | c in queues && f in queues[c] :: |f.value| <= MAX_VALUE
  }

  /** `b` is an encoding, within the bound, that stops before its end. */
  ghost predicate IsCut(b: seq<byte>) {
    exists f: Frame :: |f.value| <= MAX_VALUE && b < Encode(f)
  }

  ghost predicate Inv(s: State, queues: map<Caller, seq<Frame>>) {
    && Bounded(s.queues)
    && (forall x <- s.done :: |x.frame.value| <= MAX_VALUE)
    && s.wire == EncodeAll(Frames(s.done)) + s.torn
    && IsCut(s.torn)
    && (s.mutex.Writing? ==> s.Queue(s.mutex.holder) != [])
    && (!s.broken ==> s.torn ==
                      if s.mutex.Writing? && s.mutex.written < |Encode(s.Queue(s.mutex.holder)[0])|
                      then Encode(s.Queue(s.mutex.holder)[0])[..s.mutex.written] else [])
    && (!s.broken && s.mutex.Writing? ==> s.mutex.written < |Encode(s.Queue(s.mutex.holder)[0])|)
    && (forall c :: SentBy(s.done, c) <= Start(queues).Queue(c))
    && (!s.broken ==> forall c :: SentBy(s.done, c) + s.Queue(c) == Start(queues).Queue(c))
  }

  lemma {:induction false} EncodeAllSnoc(fs: seq<Frame>, f: Frame)
    ensures EncodeAll(fs + [f]) == EncodeAll(fs) + Encode(f)
  {
    hide Encode;
    if fs == [] {
      assert EncodeAll([f]) == Encode(f) + EncodeAll([]);
    } else {
      EncodeAllSnoc(fs[1..], f);
      assert (fs + [f])[1..] == fs[1..] + [f];
    }
  }

  lemma NothingIsCut()
    ensures IsCut([])
  {
    var f := Frame(0, 0, []);
    assert [] < Encode(f);
  }

  /** The write that reaches the end of its frame. */
  lemma CompletedWrite(s: State, queues: map<Caller, seq<Frame>>, n: nat)
    requires Inv(s, queues) && s.mutex.Writing? && !s.broken
    requires s.mutex.written + n >= |Encode(s.Queue(s.mutex.holder)[0])|
    ensures Inv(s.Next(Write(n)), queues)
  {
    hide Encode;
    var c, f, s' := s.mutex.holder, s.Queue(s.mutex.holder)[0], s.Next(Write(n));
    NothingIsCut();
    assert s'.done[..|s.done|] == s.done;
    assert s'.wire == EncodeAll(Frames(s'.done)) by {
      assert Frames(s'.done) == Frames(s.done) + [f];
      EncodeAllSnoc(Frames(s.done), f);
      assert s.torn + Encode(f)[s.mutex.written..] == Encode(f);
    }
    forall d
      ensures SentBy(s'.done, d) + s'.Queue(d) == Start(queues).Queue(d)
    {
      assert SentBy(s.done, d) + s.Queue(d) == Start(queues).Queue(d);
      if d == c {
        assert s.Queue(c) == [f] + s'.Queue(c);
        assert SentBy(s'.done, c) + s'.Queue(c) == SentBy(s.done, c) + s.Queue(c);
      }
    }
  }

  lemma CutOf(f: Frame, n: nat)
    requires |f.value| <= MAX_VALUE && n < |Encode(f)|
    ensures IsCut(Encode(f)[..n])
  {
    assert Encode(f)[..n] < Encode(f);
  }

  lemma PartialWrite(s: State, queues: map<Caller, seq<Frame>>, n: nat)
    requires Inv(s, queues) && s.mutex.Writing? && !s.broken
    requires s.mutex.written + n < |Encode(s.Queue(s.mutex.holder)[0])|
    ensures Inv(s.Next(Write(n)), queues)
  {
    hide Encode, EncodeAll, SentBy, Frames, IsCut;
    var f, s' := s.Queue(s.mutex.holder)[0], s.Next(Write(n));
    assert s'.torn == Encode(f)[..s.mutex.written + n];
    CutOf(f, s.mutex.written + n);
    assert s'.wire == EncodeAll(Frames(s.done)) + s'.torn;
  }

  lemma FailedWrite(s: State, queues: map<Caller, seq<Frame>>)
    requires Inv(s, queues)
    ensures Inv(s.Next(WriteError), queues)
  {
    hide Encode;
  }

  lemma TakeMutex(s: State, queues: map<Caller, seq<Frame>>, c: Caller)
    requires Inv(s, queues)
    ensures Inv(s.Next(Lock(c)), queues)
  {
    hide Encode;
    if s.mutex.Free? && s.Queue(c) != [] {
      HeaderOfEncoding(s.Queue(c)[0], []);
      assert Encode(s.Queue(c)[0])[..0] == [];
    }
  }

  lemma ReleaseMutex(s: State, queues: map<Caller, seq<Frame>>)
    requires Inv(s, queues)
    ensures Inv(s.Next(Unlock), queues)
  {
    hide Encode;
  }

  lemma HolderHasFrame(s: State, queues: map<Caller, seq<Frame>>)
    requires Inv(s, queues) && s.mutex.Writing?
    ensures s.Queue(s.mutex.holder) != []
  {
    hide Encode;
  }

  /** A caller that finds the mutex free gets its next frame through, in two pieces at any place. */
  lemma SendGetsThrough(s: State, c: Caller, n: nat)
    requires s.mutex.Free? && !s.broken && s.torn == [] && s.Queue(c) != []
    requires n < |Encode(s.Queue(c)[0])|
    ensures var f, rest := s.Queue(c)[0], |Encode(s.Queue(c)[0])| - n;
            var t := s.Next(Lock(c)).Next(Write(n)).Next(Write(rest)).Next(Unlock);
            && t.mutex.Free? && !t.broken && t.torn == []
            && t.wire == s.wire + Encode(f) && t.done == s.done + [Sent(c, f)]
            && t.Queue(c) == s.Queue(c)[1..] && forall d | d != c :: t.Queue(d) == s.Queue(d)
  {
    hide Encode;
    var f := s.Queue(c)[0];
    assert Encode(f)[0..n] + Encode(f)[n..] == Encode(f);
  }

  /** A failed write breaks the connection: the holder gives the frame up and nothing reaches the wire any more. */
  lemma {:induction false} FailureSilences(s: State, steps: seq<Step>)
    requires s.mutex.Writing? && s.Queue(s.mutex.holder) != []
    ensures var t := s.Next(WriteError).Run(steps);
            t.broken && t.wire == s.wire && t.done == s.done
    decreases |steps|
  {
    hide Encode;
    if steps != [] {
      FailureSilences(s, steps[..|steps| - 1]);
    }
  }

  lemma StepKeepsInv(s: State, queues: map<Caller, seq<Frame>>, step: Step)
    requires Inv(s, queues)
    ensures Inv(s.Next(step), queues)
  {
    hide Encode, Inv;
    match step
    case Lock(c) => TakeMutex(s, queues, c);
    case Unlock => ReleaseMutex(s, queues);
    case WriteError => FailedWrite(s, queues);
    case Write(n) =>
      if s.mutex.Writing? && !s.broken {
        HolderHasFrame(s, queues);
        if s.mutex.written + n < |Encode(s.Queue(s.mutex.holder)[0])| {
          PartialWrite(s, queues, n);
        } else {
          CompletedWrite(s, queues, n);
        }
      }
  }

  lemma {:induction false} RunKeepsInv(queues: map<Caller, seq<Frame>>, steps: seq<Step>)
    requires Bounded(queues)
    ensures Inv(Start(queues).Run(steps), queues)
    decreases |steps|
  {
    if steps == [] {
      NothingIsCut();
      assert Frames([]) == [];
    } else {
      RunKeepsInv(queues, steps[..|steps| - 1]);
      StepKeepsInv(Start(queues).Run(steps[..|steps| - 1]), queues, steps[|steps| - 1]);
    }
  }

  /**
   After every schedule, complete or not, the peer decodes exactly the completed frames in wire order;
   each caller's completed frames are the first ones of its queue, in order, and while no write has
   failed nothing but what is still queued is missing.
   */
  lemma {:induction false} PeerSeesWholeFrames(queues: map<Caller, seq<Frame>>, steps: seq<Step>)
    requires Bounded(queues)
    ensures var s := Start(queues).Run(steps);
            && DecodeAll(s.wire).frames == OnWireAll(Frames(s.done))
            && (forall c :: SentBy(s.done, c) <= Start(queues).Queue(c))
            && (!s.broken ==> forall c :: SentBy(s.done, c) + s.Queue(c) == Start(queues).Queue(c))
  {
    RunKeepsInv(queues, steps);
    var s := Start(queues).Run(steps);
    var f: Frame :| |f.value| <= MAX_VALUE && s.torn < Encode(f);
    CutIsRefused(f, |s.torn|);
    assert s.torn == Encode(f)[..|s.torn|];
    StreamRoundTrip(Frames(s.done), s.torn);
    assert OnWireAll(Frames(s.done)) + [] == OnWireAll(Frames(s.done));
  }
}
