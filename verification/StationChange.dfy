/**
 The handshake between the three processes of the radio: the fetcher announces a new
 station, the transcoder flushes what is left of the old one, tells the RTP server to do
 the same, and lets the fetcher go on. Pipes are sequences; every step of one process is
 an action, and a run is any interleaving of actions.
 */
module StationChange {
  import opened Basics

  datatype Command = Reset | Flush | Pause | Exit

  datatype Fetcher = Idle | Waiting | Streaming(paused: bool) | Gone

  /** Flushing and the two writes after it are separate steps; `reset` tells R from F. */
  datatype Transcoder = Ready | Flushing(reset: bool) | Flushed(reset: bool) | Acking | Stopped

  /** The server looks at its pipes first and acts on what it saw. */
  datatype Server = Watching | Looked(command: bool, available: nat) | Deciding(available: nat) | Draining | Halted

  /** A byte on its way out: the flushes written when it was, and those consumed when it left. */
  datatype SentByte = SentByte(epoch: nat, consumed: nat)

  datatype State = State(
    fetcher: Fetcher,
    transcoder: Transcoder,
    server: Server,
    station: nat,
    commands: seq<Command>,
    data: seq<nat>,
    acks: nat,
    serverCommands: seq<Command>,
    audio: seq<nat>,
    written: nat,
    consumed: nat,
    sent: seq<SentByte>)

  datatype Action =
    // the fetcher
    | Fetch | GetAck | Stream(n: nat) | PressPause | PressContinue | Leave | Quit
    // the transcoder
    | ReadCommands(n: nat) | FlushRead(n: nat) | FlushEnd | SendFlush | SendAck | Decode(n: nat, m: nat) | EndOfData
    // the RTP server
    | Look | TakeCommand | NoCommand | Send | DrainRead(n: nat) | DrainEnd

  const START: State := State(Idle, Ready, Watching, 0, [], [], 0, [], [], 0, 0, [])

  /** A flush reads at most this much at a time. */
  const CHUNK: nat := 100

  function Copies<T>(x: T, n: nat): seq<T> {
    seq(n, _ => x)
  }

  function Leaving(bytes: seq<nat>, consumed: nat): (r: seq<SentByte>)
    ensures |r| == |bytes| && forall i :: 0 <= i < |r| ==> r[i] == SentByte(bytes[i], consumed)
  {
    seq(|bytes|, i requires 0 <= i < |bytes| => SentByte(bytes[i], consumed))
  }

  // ---- Steps ----

  /** fetch_file: R, wait for the answer, then copy the stream until the user leaves. */
  function FetcherStep(s: State, a: Action): Option<State> {
    match a
    case Fetch =>
      if s.fetcher != Idle then None
      else Some(s.(fetcher := Waiting, station := s.station + 1, commands := s.commands + [Reset]))
    case GetAck =>
      if s.fetcher != Waiting || s.acks == 0 then None
      else Some(s.(fetcher := Streaming(false), acks := s.acks - 1))
    case Stream(n) =>
      if s.fetcher != Streaming(false) then None
      else Some(s.(data := s.data + Copies(s.station, n)))
    // The pause key writes the key itself, which no branch of the transcoder takes for a flush.
    case PressPause =>
      if !s.fetcher.Streaming? then None
      else Some(s.(fetcher := Streaming(true), commands := s.commands + [Pause]))
    case PressContinue =>
      if !s.fetcher.Streaming? then None else Some(s.(fetcher := Streaming(false)))
    case Leave =>
      if !s.fetcher.Streaming? then None else Some(s.(fetcher := Idle))
    case Quit =>
      if s.fetcher != Idle then None
      else Some(s.(fetcher := Gone, commands := s.commands + [Exit]))
    case _ => None
  }

  /** One read takes a batch of commands and looks at the first alone. */
  function ReadBatch(s: State, n: nat): Option<State>
    requires 0 < n <= |s.commands|
  {
    var r := s.(commands := s.commands[n..]);
    match s.commands[0]
    case Reset => Some(r.(transcoder := Flushing(true)))
    case Flush => Some(r.(transcoder := Flushing(false)))
    case Exit => Some(r.(transcoder := Stopped, serverCommands := r.serverCommands + [Exit]))
    case Pause => Some(r)
  }

  function TranscoderStep(s: State, a: Action): Option<State> {
    match a
    case ReadCommands(n) =>
      if s.transcoder != Ready || n == 0 || n > |s.commands| then None else ReadBatch(s, n)
    case FlushRead(n) =>
      if !s.transcoder.Flushing? || n == 0 || n > CHUNK || n > |s.data| then None
      else Some(s.(data := s.data[n..]))
    case FlushEnd =>
      if !s.transcoder.Flushing? || s.data != [] then None
      else Some(s.(transcoder := Flushed(s.transcoder.reset)))
    case SendFlush =>
      if !s.transcoder.Flushed? then None
      else Some(s.(transcoder := if s.transcoder.reset then Acking else Ready,
                   serverCommands := s.serverCommands + [Flush], written := s.written + 1))
    case SendAck =>
      if s.transcoder != Acking then None
      else Some(s.(transcoder := Ready, acks := s.acks + 1))
    // Decoding takes some prefix of the data and writes some samples.
    case Decode(n, m) =>
      if s.transcoder != Ready || n > |s.data| then None
      else Some(s.(data := s.data[n..], audio := s.audio + Copies(s.written, m)))
    case EndOfData =>
      if s.transcoder != Ready then None
      else Some(s.(transcoder := Stopped, serverCommands := s.serverCommands + [Exit]))
    case _ => None
  }

  function TakeServerCommand(s: State, available: nat): Option<State>
    requires s.serverCommands != []
  {
    var r := s.(serverCommands := s.serverCommands[1..]);
    match s.serverCommands[0]
    case Exit => Some(r.(server := Halted))
    case Flush => Some(r.(server := Draining, consumed := r.consumed + 1))
    case _ => Some(r.(server := Deciding(available)))
  }

  function ServerStep(s: State, a: Action, payload: nat): Option<State> {
    match a
    case Look =>
      if s.server != Watching then None
      else Some(s.(server := Looked(s.serverCommands != [], |s.audio|)))
    case TakeCommand =>
      if !s.server.Looked? || !s.server.command || s.serverCommands == [] then None
      else TakeServerCommand(s, s.server.available)
    case NoCommand =>
      if !s.server.Looked? || s.server.command then None
      else Some(s.(server := Deciding(s.server.available)))
    case Send =>
      if !s.server.Deciding? then None
      else if s.server.available < payload || |s.audio| < payload then Some(s.(server := Watching))
      else Some(s.(server := Watching, audio := s.audio[payload..],
                   sent := s.sent + Leaving(s.audio[..payload], s.consumed)))
    case DrainRead(n) =>
      if s.server != Draining || n == 0 || n > CHUNK || n > |s.audio| then None
      else Some(s.(audio := s.audio[n..]))
    case DrainEnd =>
      if s.server != Draining || s.audio != [] then None
      else Some(s.(server := Watching))
    case _ => None
  }

  function Next(s: State, a: Action, payload: nat): Option<State> {
    if a.Fetch? || a.GetAck? || a.Stream? || a.PressPause? || a.PressContinue? || a.Leave? || a.Quit? then FetcherStep(s, a)
    else if a.Look? || a.TakeCommand? || a.NoCommand? || a.Send? || a.DrainRead? || a.DrainEnd? then ServerStep(s, a, payload)
    else TranscoderStep(s, a)
  }

  /** The state after a run, if every action of it was possible. */
  function Run(s: State, run: seq<Action>, payload: nat): Option<State> {
    if run == [] then Some(s)
    else
      var r := Run(s, run[..|run| - 1], payload);
      if r.None? then None else Next(r.value, run[|run| - 1], payload)
  }

  // ---- What every run keeps ----

  function Resets(q: seq<Command>): nat {
    if q == [] then 0 else Resets(q[1..]) + (if q[0] == Reset then 1 else 0)
  }

  function Flushes(q: seq<Command>): nat {
    if q == [] then 0 else Flushes(q[1..]) + (if q[0] == Flush then 1 else 0)
  }

  predicate Resetting(t: Transcoder) {
    t == Flushing(true) || t == Flushed(true) || t == Acking
  }

  /** Announcements and answers under way: R unread, R being handled, or an answer unread. */
  function Outstanding(s: State): nat {
    Resets(s.commands) + (if Resetting(s.transcoder) then 1 else 0) + s.acks
  }

  /** At most one R or answer is under way, and only while the fetcher waits for it. */
  predicate OneOutstanding(s: State) {
    Outstanding(s) <= if s.fetcher == Waiting then 1 else 0
  }

  /** The old station is out of the data pipe. */
  predicate OldStationGone(s: State) {
    s.acks > 0 || s.transcoder == Flushed(true) || s.transcoder == Acking
  }

  /** While the fetcher streams, the data pipe holds bytes of the current station alone. */
  predicate CurrentOnly(s: State) {
    && (s.fetcher.Streaming? ==> forall i :: 0 <= i < |s.data| ==> s.data[i] == s.station)
    && (OldStationGone(s) ==> s.data == [])
  }

  /** What the server has not drained was written after the last flush command it took. */
  predicate AudioFresh(s: State) {
    && s.written == s.consumed + Flushes(s.serverCommands)
    && (s.server != Draining ==> forall i :: 0 <= i < |s.audio| ==> s.consumed <= s.audio[i])
    && (forall i :: 0 <= i < |s.sent| ==> s.sent[i].consumed <= s.sent[i].epoch)
  }

  predicate Safe(s: State) {
    OneOutstanding(s) && CurrentOnly(s) && AudioFresh(s)
  }

  lemma {:induction false} CountsAppend(q: seq<Command>, c: Command)
    ensures Resets(q + [c]) == Resets(q) + (if c == Reset then 1 else 0)
    ensures Flushes(q + [c]) == Flushes(q) + (if c == Flush then 1 else 0)
  {
    if q == [] {
      assert q + [c] == [c] && [c][1..] == [];
    } else {
      assert (q + [c])[1..] == q[1..] + [c];
      CountsAppend(q[1..], c);
    }
  }

  lemma {:induction false} ResetsDrop(q: seq<Command>, n: nat)
    requires n <= |q|
    ensures Resets(q[n..]) <= Resets(q)
    ensures Resets(q[n..]) < Resets(q) <==> Reset in q[..n]
  {
    if n > 0 {
      ResetsDrop(q[1..], n - 1);
      assert q[n..] == q[1..][n - 1..] && q[..n] == [q[0]] + q[1..][..n - 1];
    } else {
      assert q[0..] == q;
    }
  }

  lemma FetcherKeeps(s: State, a: Action)
    requires Safe(s) && FetcherStep(s, a).Some?
    ensures Safe(FetcherStep(s, a).value)
  {
    CountsAppend(s.commands, Reset);
    CountsAppend(s.commands, Pause);
    CountsAppend(s.commands, Exit);
  }

  lemma TranscoderKeepsChange(s: State, a: Action)
    requires OneOutstanding(s) && CurrentOnly(s) && TranscoderStep(s, a).Some?
    ensures OneOutstanding(TranscoderStep(s, a).value) && CurrentOnly(TranscoderStep(s, a).value)
  {
    if a.ReadCommands? {
      ResetsDrop(s.commands, a.n);
      assert s.commands[0] in s.commands[..a.n];
    }
  }

  lemma TranscoderKeepsAudio(s: State, a: Action)
    requires AudioFresh(s) && TranscoderStep(s, a).Some?
    ensures AudioFresh(TranscoderStep(s, a).value)
  {
    CountsAppend(s.serverCommands, Flush);
    CountsAppend(s.serverCommands, Exit);
  }

  lemma ServerKeepsChange(s: State, a: Action, payload: nat)
    requires OneOutstanding(s) && CurrentOnly(s) && ServerStep(s, a, payload).Some?
    ensures OneOutstanding(ServerStep(s, a, payload).value) && CurrentOnly(ServerStep(s, a, payload).value)
  {
  }

  lemma ServerKeepsAudio(s: State, a: Action, payload: nat)
    requires AudioFresh(s) && ServerStep(s, a, payload).Some?
    ensures AudioFresh(ServerStep(s, a, payload).value)
  {
    hide Resets;
    if a.Send? {
      SendKeepsAudio(s, payload);
    } else if a.DrainRead? {
      hide Flushes;
    } else if a.TakeCommand? {
      FlushesFirst(s.serverCommands);
      hide Flushes;
    } else {
      hide Flushes;
    }
  }

  lemma FlushesFirst(q: seq<Command>)
    requires q != []
    ensures Flushes(q) == Flushes(q[1..]) + (if q[0] == Flush then 1 else 0)
  {
  }

  lemma SendKeepsAudio(s: State, payload: nat)
    requires AudioFresh(s) && ServerStep(s, Send, payload).Some?
    ensures AudioFresh(ServerStep(s, Send, payload).value)
  {
    hide Resets, Flushes;
    var r := ServerStep(s, Send, payload).value;
    forall i | 0 <= i < |r.sent| ensures r.sent[i].consumed <= r.sent[i].epoch {
      if i >= |s.sent| {
        assert r.sent[i] == SentByte(s.audio[i - |s.sent|], s.consumed);
      }
    }
    forall i | 0 <= i < |r.audio| ensures r.consumed <= r.audio[i] {
      assert r.audio == s.audio || r.audio[i] == s.audio[payload + i];
    }
  }

  /** Every reachable state is safe, whatever the interleaving of the three processes. */
  lemma {:induction false} RunsAreSafe(run: seq<Action>, payload: nat)
    requires Run(START, run, payload).Some?
    ensures Safe(Run(START, run, payload).value)
  {
    hide OneOutstanding, CurrentOnly, AudioFresh, FetcherStep, TranscoderStep, ServerStep;
    if run == [] {
      StartIsSafe();
    } else {
      var a := run[|run| - 1];
      RunsAreSafe(run[..|run| - 1], payload);
      var s := Run(START, run[..|run| - 1], payload).value;
      if FetcherStep(s, a) == Next(s, a, payload) {
        FetcherKeeps(s, a);
      } else if ServerStep(s, a, payload) == Next(s, a, payload) {
        ServerKeepsChange(s, a, payload);
        ServerKeepsAudio(s, a, payload);
      } else {
        TranscoderKeepsChange(s, a);
        TranscoderKeepsAudio(s, a);
      }
    }
  }

  lemma StartIsSafe()
    ensures Safe(START)
  {
  }

  // ---- The end of the transcoder ----

  /** The server is told to end, or has ended, exactly when the transcoder has. */
  predicate EndsTogether(s: State) {
    s.transcoder == Stopped <==> Exit in s.serverCommands || s.server == Halted
  }

  lemma EndStaysTogether(s: State, a: Action, payload: nat)
    requires EndsTogether(s) && Next(s, a, payload).Some?
    ensures EndsTogether(Next(s, a, payload).value)
  {
    hide Resets, Flushes;
    if a.TakeCommand? {
      assert s.serverCommands == [s.serverCommands[0]] + s.serverCommands[1..];
    }
  }

  /** In every run the server ends only after the transcoder, and a transcoder that ends tells it. */
  lemma {:induction false} ServerEndsWithTranscoder(run: seq<Action>, payload: nat)
    requires Run(START, run, payload).Some?
    ensures EndsTogether(Run(START, run, payload).value)
  {
    hide EndsTogether, Next;
    if run == [] {
      assert EndsTogether(START) by { StartRuns(); }
    } else {
      ServerEndsWithTranscoder(run[..|run| - 1], payload);
      EndStaysTogether(Run(START, run[..|run| - 1], payload).value, run[|run| - 1], payload);
    }
  }

  lemma StartRuns()
    ensures EndsTogether(START)
  {
  }

  // ---- Pausing does not flush ----

  /** Every flush the server is told of answers an announcement of its own; none comes from pausing. */
  predicate FlushesAnswerChanges(s: State) {
    && Flush !in s.commands
    && s.transcoder != Flushing(false) && s.transcoder != Flushed(false)
    && s.written + Resets(s.commands)
       + (if s.transcoder == Flushing(true) || s.transcoder == Flushed(true) then 1 else 0) <= s.station
  }

  lemma FetcherAddsNoFlush(s: State, a: Action)
    requires FlushesAnswerChanges(s) && FetcherStep(s, a).Some?
    ensures FlushesAnswerChanges(FetcherStep(s, a).value)
  {
    CountsAppend(s.commands, Reset);
    CountsAppend(s.commands, Pause);
    CountsAppend(s.commands, Exit);
  }

  lemma TranscoderAddsNoFlush(s: State, a: Action)
    requires FlushesAnswerChanges(s) && TranscoderStep(s, a).Some?
    ensures FlushesAnswerChanges(TranscoderStep(s, a).value)
  {
    if a.ReadCommands? {
      ResetsDrop(s.commands, a.n);
      assert s.commands[0] in s.commands[..a.n];
    }
  }

  lemma FlushesStay(s: State, a: Action, payload: nat)
    requires FlushesAnswerChanges(s) && Next(s, a, payload).Some?
    ensures FlushesAnswerChanges(Next(s, a, payload).value)
  {
    hide FetcherStep, TranscoderStep, Resets;
    if FetcherStep(s, a) == Next(s, a, payload) {
      FetcherAddsNoFlush(s, a);
    } else if TranscoderStep(s, a) == Next(s, a, payload) {
      TranscoderAddsNoFlush(s, a);
    }
  }

  /** The number of flushes never exceeds the number of changes, however often the user pauses. */
  lemma {:induction false} PauseNeverFlushes(run: seq<Action>, payload: nat)
    requires Run(START, run, payload).Some?
    ensures FlushesAnswerChanges(Run(START, run, payload).value)
  {
    hide FlushesAnswerChanges, Next;
    if run == [] {
      StartHasNoFlush();
    } else {
      PauseNeverFlushes(run[..|run| - 1], payload);
      FlushesStay(Run(START, run[..|run| - 1], payload).value, run[|run| - 1], payload);
    }
  }

  lemma StartHasNoFlush()
    ensures FlushesAnswerChanges(START)
  {
  }

  // ---- The announcement that gets lost ----

  /** An answer is written, or about to be, or the transcoder can still read the announcement. */
  predicate AnswerPossible(s: State) {
    s.acks > 0 || Resetting(s.transcoder) || (s.transcoder != Stopped && Reset in s.commands)
  }

  predicate Lost(s: State) {
    s.fetcher == Waiting && !AnswerPossible(s)
  }

  /** The exit command is the fetcher's last. */
  predicate ExitsLast(s: State) {
    s.fetcher != Gone ==> Exit !in s.commands
  }

  lemma ExitStaysLast(s: State, a: Action, payload: nat)
    requires ExitsLast(s) && Next(s, a, payload).Some?
    ensures ExitsLast(Next(s, a, payload).value)
  {
    hide Resets;
    if a.ReadCommands? {
      assert forall c :: c in s.commands[a.n..] ==> c in s.commands;
    }
  }

  lemma {:induction false} ExitIsLast(run: seq<Action>, payload: nat)
    requires Run(START, run, payload).Some?
    ensures ExitsLast(Run(START, run, payload).value)
  {
    hide ExitsLast, Next;
    if run == [] {
      NoExitAtStart();
    } else {
      ExitIsLast(run[..|run| - 1], payload);
      ExitStaysLast(Run(START, run[..|run| - 1], payload).value, run[|run| - 1], payload);
    }
  }

  lemma NoExitAtStart()
    ensures ExitsLast(START)
  {
  }

  /** From there it waits for ever: no step of any process brings an answer. */
  lemma {:induction false} LostForever(s: State, run: seq<Action>, payload: nat)
    requires Lost(s) && Run(s, run, payload).Some?
    ensures Lost(Run(s, run, payload).value)
  {
    hide FetcherStep, TranscoderStep, ServerStep, Lost;
    if run != [] {
      LostForever(s, run[..|run| - 1], payload);
      LostStays(Run(s, run[..|run| - 1], payload).value, run[|run| - 1], payload);
    }
  }

  lemma LostStays(s: State, a: Action, payload: nat)
    requires Lost(s) && Next(s, a, payload).Some?
    ensures Lost(Next(s, a, payload).value)
  {
    hide Resets;
    if a.ReadCommands? {
      assert forall c :: c in s.commands[a.n..] ==> c in s.commands;
      assert s.commands[0] in s.commands;
    }
  }

  lemma {:induction false} ResetsCount(q: seq<Command>)
    ensures Resets(q) > 0 <==> Reset in q
  {
    if q != [] {
      ResetsCount(q[1..]);
      assert q == [q[0]] + q[1..];
    }
  }

  /** An announcement in front of what a read takes leaves none behind it. */
  lemma OneAnnouncement(s: State, n: nat)
    requires OneOutstanding(s) && n <= |s.commands| && Reset in s.commands
    ensures s.fetcher == Waiting && s.acks == 0 && !Resetting(s.transcoder)
    ensures Reset in s.commands[n..] <==> Reset !in s.commands[..n]
  {
    ResetsCount(s.commands);
    ResetsCount(s.commands[n..]);
    ResetsDrop(s.commands, n);
    assert s.commands == s.commands[..n] + s.commands[n..];
  }

  lemma ReadLoses(s: State, n: nat)
    requires OneOutstanding(s) && ExitsLast(s) && !Lost(s) && s.transcoder == Ready && 0 < n <= |s.commands|
    ensures Lost(ReadBatch(s, n).value) <==> s.commands[0] != Reset && Reset in s.commands[..n]
  {
    hide Resets;
    assert s.commands[0] in s.commands && s.commands[0] in s.commands[..n];
    assert s.commands == s.commands[..n] + s.commands[n..];
    if Reset in s.commands {
      OneAnnouncement(s, n);
    }
  }

  lemma EndLoses(s: State)
    requires OneOutstanding(s) && !Lost(s) && s.transcoder == Ready
    ensures Lost(TranscoderStep(s, EndOfData).value) <==> Reset in s.commands
  {
    hide Resets;
    if Reset in s.commands {
      OneAnnouncement(s, 0);
    }
  }

  lemma FetcherLoses(s: State, a: Action)
    requires OneOutstanding(s) && !Lost(s) && FetcherStep(s, a).Some?
    ensures Lost(FetcherStep(s, a).value) <==> a.Fetch? && s.transcoder == Stopped
  {
    hide Resets;
    if a.Fetch? {
      assert (s.commands + [Reset])[|s.commands|] == Reset;
      OnlyOnce(s);
    }
  }

  lemma OnlyOnce(s: State)
    requires OneOutstanding(s) && s.fetcher != Waiting
    ensures s.acks == 0 && !Resetting(s.transcoder)
  {
  }

  lemma OthersLoseNothing(s: State, a: Action, payload: nat)
    requires !Lost(s) && Next(s, a, payload).Some?
    requires !a.ReadCommands? && !a.EndOfData? && FetcherStep(s, a).None?
    ensures !Lost(Next(s, a, payload).value)
  {
  }

  /**
   A change of station is lost in exactly three ways: one read takes its announcement
   together with something in front of it, of which the first alone is looked at; the
   transcoder ends before it reads the announcement; or it had ended before.
   */
  lemma LostExactly(s: State, a: Action, payload: nat)
    requires Safe(s) && ExitsLast(s) && !Lost(s) && Next(s, a, payload).Some?
    ensures Lost(Next(s, a, payload).value) <==>
      match a
      case ReadCommands(n) => n <= |s.commands| && s.commands != [] && s.commands[0] != Reset && Reset in s.commands[..n]
      case EndOfData => Reset in s.commands
      case Fetch => s.transcoder == Stopped
      case _ => false
  {
    hide OneOutstanding, CurrentOnly, AudioFresh, ExitsLast, Lost, FetcherStep, ServerStep, ReadBatch;
    if a.ReadCommands? {
      ReadLoses(s, a.n);
    } else if a.EndOfData? {
      EndLoses(s);
    } else if FetcherStep(s, a).Some? {
      Only(s, a, payload);
      FetcherLoses(s, a);
    } else {
      OthersLoseNothing(s, a, payload);
    }
  }

  lemma Only(s: State, a: Action, payload: nat)
    requires FetcherStep(s, a).Some?
    ensures Next(s, a, payload) == FetcherStep(s, a)
  {
  }

  // ---- And when it is not ----

  lemma {:induction false} RunCons(s: State, a: Action, run: seq<Action>, payload: nat)
    requires Next(s, a, payload).Some?
    ensures Run(s, [a] + run, payload) == Run(Next(s, a, payload).value, run, payload)
  {
    hide Next;
    if run == [] {
      assert [a] + run == [a] && [a][..0] == [];
      assert Run(s, [a][..0], payload) == Some(s);
    } else {
      assert ([a] + run)[..|run|] == [a] + run[..|run| - 1];
      RunCons(s, a, run[..|run| - 1], payload);
    }
  }

  /** Nothing but announcements and pauses is on the way to the transcoder, and it flushes for announcements alone. */
  predicate Undisturbed(s: State) {
    && Exit !in s.commands && Flush !in s.commands
    && s.transcoder != Flushing(false) && s.transcoder != Flushed(false)
  }

  /** How far the answer is: one command, one chunk or one step at a time. */
  function Distance(s: State): nat {
    if s.acks > 0 then 0
    else match s.transcoder
      case Acking => 1
      case Flushed(_) => 2
      case Flushing(_) => 3 + |s.data|
      case _ => 4 + |s.data| + |s.commands|
  }

  /** The step that brings the answer nearer. */
  function Towards(s: State): Action {
    if s.acks > 0 then GetAck
    else match s.transcoder
      case Acking => SendAck
      case Flushed(_) => SendFlush
      case Flushing(_) => if s.data == [] then FlushEnd else FlushRead(if |s.data| < CHUNK then |s.data| else CHUNK)
      case _ => ReadCommands(1)
  }

  lemma TowardsPossible(s: State, payload: nat)
    requires s.fetcher == Waiting && AnswerPossible(s) && Undisturbed(s)
    ensures Next(s, Towards(s), payload).Some?
    ensures var r := Next(s, Towards(s), payload).value;
      r.fetcher == Streaming(false)
      || (r.fetcher == Waiting && AnswerPossible(r) && Undisturbed(r) && Distance(r) < Distance(s))
  {
    if s.acks == 0 && s.transcoder == Ready {
      assert s.commands == [s.commands[0]] + s.commands[1..];
      assert s.commands[0] in s.commands && forall c :: c in s.commands[1..] ==> c in s.commands;
    }
  }

  lemma {:induction false} CanStream(s: State, payload: nat) returns (run: seq<Action>)
    requires s.fetcher == Waiting && AnswerPossible(s) && Undisturbed(s)
    ensures Run(s, run, payload).Some? && Run(s, run, payload).value.fetcher == Streaming(false)
    decreases Distance(s)
  {
    hide Next, Undisturbed, AnswerPossible, Towards, Distance;
    TowardsPossible(s, payload);
    var r := Next(s, Towards(s), payload).value;
    if r.fetcher == Streaming(false) {
      run := [];
      NoRun(r, payload);
    } else {
      run := CanStream(r, payload);
    }
    RunCons(s, Towards(s), run, payload);
    run := [Towards(s)] + run;
  }

  /**
   In every reachable state in which the fetcher waits, some continuation lets it go on if
   and only if the change is not lost.
   */
  lemma StreamsAgainExactly(run: seq<Action>, payload: nat)
    requires Run(START, run, payload).Some? && Run(START, run, payload).value.fetcher == Waiting
    ensures var s := Run(START, run, payload).value;
      (exists more :: Run(s, more, payload).Some? && Run(s, more, payload).value.fetcher.Streaming?) <==> AnswerPossible(s)
  {
    hide Next, AnswerPossible, Run;
    var s := Run(START, run, payload).value;
    ExitIsLast(run, payload);
    PauseNeverFlushes(run, payload);
    if AnswerPossible(s) {
      var more := CanStream(s, payload);
      assert Run(s, more, payload).Some? && Run(s, more, payload).value.fetcher.Streaming?;
    } else {
      forall more | Run(s, more, payload).Some? ensures Run(s, more, payload).value.fetcher == Waiting {
        LostForever(s, more, payload);
      }
    }
  }

  /** A transcoder that ends right after the announcement leaves the fetcher waiting. */
  lemma EndLosesChange(payload: nat)
    ensures Run(START, [Fetch, EndOfData], payload).Some? && Lost(Run(START, [Fetch, EndOfData], payload).value)
  {
    var t := [Fetch, EndOfData];
    assert t[..1] == [Fetch] && t[..1][..0] == [];
    assert Run(START, t[..1][..0], payload) == Some(START);
    assert Run(START, t[..1], payload) == FetcherStep(START, Fetch);
  }

  /** Pausing before the change of station is enough to lose the announcement. */
  const PAUSED_CHANGE: seq<Action> :=
    [Fetch, ReadCommands(1), FlushEnd, SendFlush, SendAck, GetAck, PressPause, Leave, Fetch, ReadCommands(2)]

  /** The first station plays. */
  const ON_AIR: State := State(Streaming(false), Ready, Watching, 1, [], [], 0, [Flush], [], 1, 0, [])

  /** Its announcement was read, and the empty data pipe flushed. */
  const FLUSHED: State := State(Waiting, Flushed(true), Watching, 1, [], [], 0, [], [], 0, 0, [])

  const ANNOUNCED: State := State(Waiting, Ready, Watching, 1, [Reset], [], 0, [], [], 0, 0, [])

  lemma FirstAnnounced(payload: nat)
    ensures Run(START, PAUSED_CHANGE[..1], payload) == Some(ANNOUNCED)
  {
    hide Run, TranscoderStep, ServerStep;
    var t := PAUSED_CHANGE;
    NoRun(START, payload);
    assert t[..0] == [] && [] + [Reset] == [Reset];
    PrefixRun(t, 0, START, ANNOUNCED, payload);
  }

  lemma FirstFlush(payload: nat)
    ensures Run(START, PAUSED_CHANGE[..3], payload) == Some(FLUSHED)
  {
    hide Run, FetcherStep, ServerStep;
    var t := PAUSED_CHANGE;
    FirstAnnounced(payload);
    assert [Reset][1..] == [];
    var flushing := ANNOUNCED.(commands := [], transcoder := Flushing(true));
    PrefixRun(t, 1, ANNOUNCED, flushing, payload);
    PrefixRun(t, 2, flushing, FLUSHED, payload);
  }

  lemma FirstStation(payload: nat)
    ensures Run(START, PAUSED_CHANGE[..6], payload) == Some(ON_AIR)
  {
    hide Run;
    var t := PAUSED_CHANGE;
    FirstFlush(payload);
    assert [] + [Flush] == [Flush];
    var acking := FLUSHED.(transcoder := Acking, serverCommands := [Flush], written := 1);
    PrefixRun(t, 3, FLUSHED, acking, payload);
    var acked := acking.(transcoder := Ready, acks := 1);
    PrefixRun(t, 4, acking, acked, payload);
    PrefixRun(t, 5, acked, ON_AIR, payload);
  }

  lemma PauseLosesChange(payload: nat)
    ensures Run(START, PAUSED_CHANGE, payload).Some? && Lost(Run(START, PAUSED_CHANGE, payload).value)
  {
    hide Run;
    var t := PAUSED_CHANGE;
    FirstStation(payload);
    assert [] + [Pause] == [Pause] && [Pause] + [Reset] == [Pause, Reset] && [Pause, Reset][2..] == [];
    var paused := ON_AIR.(fetcher := Streaming(true), commands := [Pause]);
    PrefixRun(t, 6, ON_AIR, paused, payload);
    var left := paused.(fetcher := Idle);
    PrefixRun(t, 7, paused, left, payload);
    var again := left.(fetcher := Waiting, station := 2, commands := [Pause, Reset]);
    PrefixRun(t, 8, left, again, payload);
    var lost := again.(commands := []);
    PrefixRun(t, 9, again, lost, payload);
    assert t[..10] == t;
  }

  lemma NoRun(s: State, payload: nat)
    ensures Run(s, [], payload) == Some(s)
  {
  }

  /** One more action of a run. */
  lemma PrefixRun(run: seq<Action>, i: nat, s: State, r: State, payload: nat)
    requires i < |run| && Next(s, run[i], payload) == Some(r)
    requires Run(START, run[..i], payload) == Some(s)
    ensures Run(START, run[..i + 1], payload) == Some(r)
  {
    assert run[..i + 1][..i] == run[..i];
  }
}
