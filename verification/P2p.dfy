/**
 The two-way channel of the chat: host and client share one frame buffer, guarded by four semaphores. Each
 wait, each post and each copied byte is a step of its own, in any interleaving of the four threads.
 */
module P2p {
  import opened Base

  const MAX_FRAME_LEN: nat := 512

  datatype Role = Host | Client

  function Opposite(r: Role): Role { if r.Host? then Client else Host }

  datatype Thread = Sender(role: Role) | Receiver(role: Role)

  type Frame = f: seq<byte> | |f| <= MAX_FRAME_LEN witness []

  /** Where a send stands; the frame is the first one still to do. */
  datatype SendPc = Ready | WantTurn | WantEmpty | Copying(i: nat) | Leaving

  /** Where a receive loop stands; a client's loop is off until its first send, the JOIN, has returned. */
  datatype RecvPc = Off | Handling | Waiting | Reading(buf: seq<byte>)

  /** One process: its two threads, the semaphore that counts frames for it, and what it has sent and got. */
  datatype Peer = Peer(send: SendPc, todo: seq<Frame>, recv: RecvPc, full: nat, sent: seq<Frame>, got: seq<seq<byte>>)

  datatype State = State(turnstile: nat, empty: nat, data: seq<byte>, host: Peer, client: Peer)
  {
    function Of(r: Role): Peer { if r.Host? then host else client }

    function With(r: Role, p: Peer): State { if r.Host? then this.(host := p) else this.(client := p) }
  }

  // --- steps ----------------------------------------------------------------------------------------

  predicate Enabled(s: State, t: Thread)
  {
    var p := s.Of(t.role);
    if t.Sender? then
      match p.send
      case Ready => p.todo != []
      case WantTurn => s.turnstile > 0
      case WantEmpty => s.empty > 0
      case _ => true
    else
      match p.recv
      case Off => false
      case Waiting => p.full > 0
      case _ => true
  }

  /** One step of a sender. */
  function FireSender(s: State, r: Role): State
    requires Shaped(s) && Enabled(s, Sender(r))
  {
    var p := s.Of(r);
    match p.send
    case Ready => s.With(r, p.(send := WantTurn))
    case WantTurn => s.(turnstile := s.turnstile - 1).With(r, p.(send := WantEmpty))
    case WantEmpty => s.(empty := s.empty - 1).With(r, p.(send := Copying(0)))
    case Copying(i) =>
      var frame := p.todo[0];
      if i < |frame| then s.(data := s.data[i := frame[i]]).With(r, p.(send := Copying(i + 1)))
      else
        var o := s.Of(Opposite(r));
        s.With(r, p.(send := Leaving, todo := p.todo[1..], sent := p.sent + [frame])).With(Opposite(r),
          o.(full := o.full + 1))
    case Leaving =>
      s.(turnstile := s.turnstile + 1).With(r, p.(send := Ready, recv := if p.recv.Off? then Handling else p.recv))
  }

  /** One step of a receive loop. */
  function FireReceiver(s: State, r: Role): State
    requires Shaped(s) && Enabled(s, Receiver(r))
  {
    var p := s.Of(r);
    match p.recv
    case Handling => s.With(r, p.(recv := Waiting))
    case Waiting => s.With(r, p.(recv := Reading([]), full := p.full - 1))
    case Reading(buf) =>
      if |buf| < MAX_FRAME_LEN then s.With(r, p.(recv := Reading(buf + [s.data[|buf|]])))
      else s.(empty := s.empty + 1).With(r, p.(recv := Handling, got := p.got + [buf]))
  }

  function Fire(s: State, t: Thread): State
    requires Shaped(s) && Enabled(s, t)
  {
    if t.Sender? then FireSender(s, t.role) else FireReceiver(s, t.role)
  }

  /** Before the client has joined; both processes have frames to send, the client's first one is its JOIN. */
  function Start(data: seq<byte>, host: seq<Frame>, client: seq<Frame>): State
  {
    State(1, 1, data, Peer(Ready, host, Handling, 0, [], []), Peer(Ready, client, Off, 0, [], []))
  }

  // --- invariant --------------------------------------------------------------------------------------

  predicate PeerShaped(p: Peer)
  {
    && (p.send.WantTurn? || p.send.WantEmpty? || p.send.Copying? ==> p.todo != [])
    && (p.send.Copying? ==> p.send.i <= |p.todo[0]|)
    && (p.recv.Reading? ==> |p.recv.buf| <= MAX_FRAME_LEN)
  }

  predicate Shaped(s: State)
  {
    |s.data| == MAX_FRAME_LEN && PeerShaped(s.host) && PeerShaped(s.client)
  }

  /** The thread is between taking the buffer and handing it on, and may touch its bytes. */
  predicate Touching(s: State, t: Thread)
  {
    if t.Sender? then s.Of(t.role).send.Copying? else s.Of(t.role).recv.Reading?
  }

  function Writes(p: Peer): nat { if p.send.Copying? then 1 else 0 }

  function Reads(p: Peer): nat { if p.recv.Reading? then 1 else 0 }

  function Inside(p: Peer): nat { if p.send.WantEmpty? || p.send.Copying? || p.send.Leaving? then 1 else 0 }

  /** The buffer is free, full for one of the two, or in the hands of one thread; one sender passes the turnstile. */
  predicate Tokens(s: State)
  {
    && s.empty + s.host.full + s.client.full + Writes(s.host) + Writes(s.client) + Reads(s.host) + Reads(s.client) == 1
    && s.turnstile + Inside(s.host) + Inside(s.client) == 1
  }

  predicate StartsWith(buf: seq<byte>, f: Frame) { |f| <= |buf| && buf[..|f|] == f }

  /** Every frame sent to `p` has been got, in order, or is the one in the buffer. */
  predicate Delivery(data: seq<byte>, p: Peer, sent: seq<Frame>)
  {
    && |sent| == |p.got| + p.full + Reads(p)
    && (forall k :: 0 <= k < |p.got| ==> |p.got[k]| == MAX_FRAME_LEN && StartsWith(p.got[k], sent[k]))
    && (|sent| > |p.got| ==> StartsWith(data, sent[|p.got|]))
    && (p.recv.Reading? ==> p.recv.buf <= data)
  }

  predicate Written(data: seq<byte>, p: Peer)
  {
    p.send.Copying? ==>
      p.todo != [] && p.send.i <= |p.todo[0]| && p.send.i <= |data| && data[..p.send.i] == p.todo[0][..p.send.i]
  }

  predicate Inv(s: State)
  {
    && Shaped(s) && Tokens(s)
    && Delivery(s.data, s.host, s.client.sent) && Delivery(s.data, s.client, s.host.sent)
    && Written(s.data, s.host) && Written(s.data, s.client)
  }

  lemma StartInv(data: seq<byte>, host: seq<Frame>, client: seq<Frame>)
    requires |data| == MAX_FRAME_LEN
    ensures Inv(Start(data, host, client))
  {
  }

  /** Every step of every thread keeps the invariant. */
  lemma StepKeepsInv(s: State, t: Thread)
    requires Inv(s) && Enabled(s, t)
    ensures Inv(Fire(s, t))
  {
    if t.Sender? {
      SenderKeepsInv(s, t.role);
    } else {
      ReceiverKeepsInv(s, t.role);
    }
  }

  lemma SenderKeepsInv(s: State, r: Role)
    requires Inv(s) && Enabled(s, Sender(r))
    ensures Inv(FireSender(s, r))
  {
    hide Delivery, Written, StartsWith;
    var p, o := s.Of(r), s.Of(Opposite(r));
    if p.send.Copying? {
      if p.send.i < |p.todo[0]| { CopyKeeps(s, r); } else { PostKeeps(s, r); }
    } else {
      SendMoves(s.data, p, p.(send := WantTurn), o);
      SendMoves(s.data, p, p.(send := WantEmpty), o);
      SendMoves(s.data, p, p.(send := Copying(0)), o);
      SendMoves(s.data, p, p.(send := Ready, recv := if p.recv.Off? then Handling else p.recv), o);
    }
  }

  /** Steps of a sender that leave the buffer and the histories alone. */
  lemma SendMoves(data: seq<byte>, p: Peer, p': Peer, o: Peer)
    requires Delivery(data, p, o.sent) && p'.todo == p.todo && p'.got == p.got && p'.sent == p.sent && p'.full == p.full
    requires p'.recv == p.recv || (p.recv.Off? && p'.recv.Handling?)
    ensures Delivery(data, p', o.sent)
    ensures (p'.send.Copying? ==> p'.send.i == 0) && p'.todo != [] ==> Written(data, p')
    ensures !p'.send.Copying? ==> Written(data, p')
  {
    hide StartsWith;
  }

  /** While a byte is copied nothing is outstanding in either direction. */
  lemma CopyKeeps(s: State, r: Role)
    requires Inv(s) && s.Of(r).send.Copying? && s.Of(r).send.i < |s.Of(r).todo[0]|
    ensures Inv(FireSender(s, r))
  {
    hide StartsWith;
  }

  /** The copied frame is handed to the other side. */
  lemma PostKeeps(s: State, r: Role)
    requires Inv(s) && s.Of(r).send.Copying? && s.Of(r).send.i >= |s.Of(r).todo[0]|
    ensures Inv(FireSender(s, r))
  {
    hide Written;
    var p, o := s.Of(r), s.Of(Opposite(r));
    Posted(s.data, p, o);
    WrittenStill(s.data, o);
  }

  lemma Posted(data: seq<byte>, p: Peer, o: Peer)
    requires Written(data, p) && p.send.Copying? && p.send.i == |p.todo[0]|
    requires Delivery(data, o, p.sent) && |p.sent| == |o.got| && !o.recv.Reading?
    ensures p.todo != [] && Delivery(data, o.(full := o.full + 1), p.sent + [p.todo[0]])
    ensures Written(data, p.(send := Leaving, todo := p.todo[1..], sent := p.sent + [p.todo[0]]))
  {
    var sent' := p.sent + [p.todo[0]];
    assert forall k :: 0 <= k < |o.got| ==> sent'[k] == p.sent[k];
    hide StartsWith;
    assert StartsWith(data, p.todo[0]) by { BufferHas(data, p.todo[0]); }
  }

  lemma BufferHas(data: seq<byte>, f: Frame)
    requires |f| <= |data| && data[..|f|] == f[..|f|]
    ensures StartsWith(data, f)
  {
  }

  lemma ReceiverKeepsInv(s: State, r: Role)
    requires Inv(s) && Enabled(s, Receiver(r))
    ensures Inv(FireReceiver(s, r))
  {
    hide StartsWith, Written, Delivery;
    var p, o := s.Of(r), s.Of(Opposite(r));
    RecvMoves(s.data, p, o.sent);
    WrittenStill(s.data, p);
  }

  lemma WrittenStill(data: seq<byte>, p: Peer)
    requires Written(data, p)
    ensures forall p': Peer :: p'.send == p.send && p'.todo == p.todo ==> Written(data, p')
  {
  }

  /** The steps of a receive loop, seen from the frames sent to it. */
  lemma RecvMoves(data: seq<byte>, p: Peer, sent: seq<Frame>)
    requires |data| == MAX_FRAME_LEN && Delivery(data, p, sent) && p.full + Reads(p) <= 1
    ensures p.recv.Handling? ==> Delivery(data, p.(recv := Waiting), sent)
    ensures p.recv.Waiting? && p.full > 0 ==> Delivery(data, p.(recv := Reading([]), full := p.full - 1), sent)
    ensures p.recv.Reading? && |p.recv.buf| < MAX_FRAME_LEN ==>
      Delivery(data, p.(recv := Reading(p.recv.buf + [data[|p.recv.buf|]])), sent)
    ensures p.recv.Reading? && |p.recv.buf| == MAX_FRAME_LEN ==>
      Delivery(data, p.(recv := Handling, got := p.got + [p.recv.buf]), sent)
  {
    hide StartsWith;
    if p.recv.Reading? && |p.recv.buf| == MAX_FRAME_LEN {
      assert p.recv.buf == data;
    } else if p.recv.Reading? {
      assert p.recv.buf + [data[|p.recv.buf|]] == data[..|p.recv.buf| + 1];
    }
  }

  /** At most one thread touches the buffer. */
  lemma Exclusive(s: State, t: Thread, t': Thread)
    requires Inv(s) && Touching(s, t) && Touching(s, t')
    ensures t == t' && s.empty == 0 && s.host.full == 0 && s.client.full == 0
  {
  }

  // --- runs -------------------------------------------------------------------------------------------

  /** What a process has sent and still wants to send. */
  function Plan(p: Peer): seq<Frame> { p.sent + p.todo }

  lemma StepKeepsPlan(s: State, t: Thread, r: Role)
    requires Inv(s) && Enabled(s, t)
    ensures Plan(Fire(s, t).Of(r)) == Plan(s.Of(r))
  {
    hide Delivery, Written, Tokens;
    var p := s.Of(t.role);
    if t.Sender? && p.send.Copying? {
      assert p.sent + p.todo == (p.sent + [p.todo[0]]) + p.todo[1..];
    }
  }

  /** Any interleaving: threads take steps in the given order, a thread that cannot move is passed over. */
  function RunAll(s: State, schedule: seq<Thread>): State
    requires Inv(s)
    decreases |schedule|
  {
    if schedule == [] then s
    else if Enabled(s, schedule[0]) then
      StepKeepsInv(s, schedule[0]);
      RunAll(Fire(s, schedule[0]), schedule[1..])
    else RunAll(s, schedule[1..])
  }

  /** What `p` got are the first frames of the plan, none lost, doubled, reordered or overwritten. */
  predicate GotPrefix(p: Peer, plan: seq<Frame>)
  {
    |p.got| <= |plan| && forall k :: 0 <= k < |p.got| ==> |p.got[k]| == MAX_FRAME_LEN && StartsWith(p.got[k], plan[k])
  }

  /** Safety of every run, in both directions. */
  lemma {:induction false} RunSafe(s: State, schedule: seq<Thread>)
    requires Inv(s)
    ensures var s' := RunAll(s, schedule);
      && Inv(s')
      && Plan(s'.host) == Plan(s.host) && Plan(s'.client) == Plan(s.client)
      && GotPrefix(s'.host, Plan(s.client)) && GotPrefix(s'.client, Plan(s.host))
    decreases |schedule|
  {
    hide Inv, Fire, Plan, GotPrefix;
    if schedule == [] {
      InvGot(s, Host);
      InvGot(s, Client);
    } else if Enabled(s, schedule[0]) {
      InvShaped(s);
      StepKeepsInv(s, schedule[0]);
      StepKeepsPlan(s, schedule[0], Host);
      StepKeepsPlan(s, schedule[0], Client);
      RunSafe(Fire(s, schedule[0]), schedule[1..]);
    } else {
      RunSafe(s, schedule[1..]);
    }
  }

  lemma InvGot(s: State, r: Role)
    requires Inv(s)
    ensures GotPrefix(s.Of(r), Plan(s.Of(Opposite(r))))
  {
    hide StartsWith, Written, Tokens;
    var sent := s.Of(Opposite(r)).sent;
    assert forall k :: 0 <= k < |sent| ==> Plan(s.Of(Opposite(r)))[k] == sent[k];
  }

  // --- progress -----------------------------------------------------------------------------------------

  /** Steps that a frame costs its receiver: wait, copy, post, and wait again. */
  const RECEIVE_STEPS: nat := MAX_FRAME_LEN + 3

  function FrameSteps(f: Frame): nat { |f| + 5 + RECEIVE_STEPS }

  function PlanSteps(todo: seq<Frame>): nat
  {
    if todo == [] then 0 else FrameSteps(todo[0]) + PlanSteps(todo[1..])
  }

  function SendRank(p: Peer): int
  {
    match p.send
    case Ready => PlanSteps(p.todo)
    case WantTurn => PlanSteps(p.todo) - 1
    case WantEmpty => PlanSteps(p.todo) - 2
    case Copying(i) => PlanSteps(p.todo) - 3 - i
    case Leaving => PlanSteps(p.todo) + 1
  }

  function RecvRank(p: Peer): int
  {
    p.full * RECEIVE_STEPS +
    match p.recv
    case Off => 1
    case Handling => 1
    case Waiting => 0
    case Reading(buf) => MAX_FRAME_LEN - |buf| + 2
  }

  /** The number of steps still to be taken. */
  function Rank(s: State): int { SendRank(s.host) + SendRank(s.client) + RecvRank(s.host) + RecvRank(s.client) }

  lemma PeerRank(p: Peer)
    requires PeerShaped(p)
    ensures SendRank(p) >= 0 && RecvRank(p) >= 0
    ensures SendRank(p) == 0 <==> p.send.Ready? && p.todo == []
    ensures RecvRank(p) == 0 <==> p.recv.Waiting? && p.full == 0
  {
  }

  /** Every step brings the end one step nearer, so no run goes on for ever. */
  lemma StepRank(s: State, t: Thread)
    requires Inv(s) && Enabled(s, t)
    ensures Rank(Fire(s, t)) == Rank(s) - 1 && Rank(s) > 0
  {
    hide Delivery, Written, StartsWith, Tokens, SendRank, RecvRank;
    PeerRank(s.Of(t.role));
    PeerRank(s.Of(Opposite(t.role)));
    if t.Sender? {
      SenderRank(s.data, s.Of(t.role), s.Of(Opposite(t.role)));
    } else {
      ReceiverRank(s.data, s.Of(t.role));
    }
  }

  lemma SenderRank(data: seq<byte>, p: Peer, o: Peer)
    requires PeerShaped(p) && PeerShaped(o)
    ensures p.send.Ready? && p.todo != [] ==>
      SendRank(p) > 0 && SendRank(p.(send := WantTurn)) == SendRank(p) - 1
        && RecvRank(p.(send := WantTurn)) == RecvRank(p)
    ensures p.send.WantTurn? ==>
      SendRank(p) > 0 && SendRank(p.(send := WantEmpty)) == SendRank(p) - 1
        && RecvRank(p.(send := WantEmpty)) == RecvRank(p)
    ensures p.send.WantEmpty? ==>
      SendRank(p) > 0 && SendRank(p.(send := Copying(0))) == SendRank(p) - 1
        && RecvRank(p.(send := Copying(0))) == RecvRank(p)
    ensures p.send.Copying? && p.send.i < |p.todo[0]| ==>
      var p' := p.(send := Copying(p.send.i + 1));
      SendRank(p) > 0 && SendRank(p') == SendRank(p) - 1 && RecvRank(p') == RecvRank(p)
    ensures p.send.Copying? && p.send.i >= |p.todo[0]| ==>
      var p' := p.(send := Leaving, todo := p.todo[1..], sent := p.sent + [p.todo[0]]);
      && SendRank(p) > 0 && SendRank(p') + RECEIVE_STEPS == SendRank(p) - 1 && RecvRank(p') == RecvRank(p)
      && RecvRank(o.(full := o.full + 1)) == RecvRank(o) + RECEIVE_STEPS
        && SendRank(o.(full := o.full + 1)) == SendRank(o)
    ensures p.send.Leaving? ==>
      var p' := p.(send := Ready, recv := if p.recv.Off? then Handling else p.recv);
      SendRank(p) > 0 && SendRank(p') == SendRank(p) - 1 && RecvRank(p') == RecvRank(p)
  {
  }

  lemma ReceiverRank(data: seq<byte>, p: Peer)
    requires |data| == MAX_FRAME_LEN && PeerShaped(p)
    ensures p.recv.Handling? ==>
      RecvRank(p) > 0 && RecvRank(p.(recv := Waiting)) == RecvRank(p) - 1
        && SendRank(p.(recv := Waiting)) == SendRank(p)
    ensures p.recv.Waiting? && p.full > 0 ==>
      var p' := p.(recv := Reading([]), full := p.full - 1);
      RecvRank(p) > 0 && RecvRank(p') == RecvRank(p) - 1 && SendRank(p') == SendRank(p)
    ensures p.recv.Reading? && |p.recv.buf| < MAX_FRAME_LEN ==>
      var p' := p.(recv := Reading(p.recv.buf + [data[|p.recv.buf|]]));
      RecvRank(p) > 0 && RecvRank(p') == RecvRank(p) - 1 && SendRank(p') == SendRank(p)
    ensures p.recv.Reading? && |p.recv.buf| >= MAX_FRAME_LEN ==>
      var p' := p.(recv := Handling, got := p.got + [p.recv.buf]);
      RecvRank(p) > 0 && RecvRank(p') == RecvRank(p) - 1 && SendRank(p') == SendRank(p)
  {
  }

  predicate Joined(s: State) { !s.host.recv.Off? && !s.client.recv.Off? }

  /** With both receive loops running, some thread can move as long as anything is under way. */
  lemma NoDeadlock(s: State)
    requires Inv(s) && Joined(s) && Rank(s) > 0
    ensures exists t :: Enabled(s, t)
  {
    PeerRank(s.host);
    PeerRank(s.client);
    hide Delivery, Written, StartsWith;
    assert Enabled(s, Sender(Host)) || Enabled(s, Sender(Client)) || Enabled(s, Receiver(Host)) || Enabled(s,
      Receiver(Client));
  }

  /** Nothing is left to do, and every planned frame has been got. */
  predicate AllDelivered(s: State)
  {
    && s.host.todo == [] && s.client.todo == []
    && |s.host.got| == |Plan(s.client)| && GotPrefix(s.host, Plan(s.client))
    && |s.client.got| == |Plan(s.host)| && GotPrefix(s.client, Plan(s.host))
  }

  /** Where no thread can move after the client has joined, all pending sends have completed and arrived. */
  lemma EndIsDelivered(s: State)
    requires Inv(s) && Joined(s) && forall t :: !Enabled(s, t)
    ensures Rank(s) == 0 && AllDelivered(s)
  {
    PeerRank(s.host);
    PeerRank(s.client);
    if Rank(s) > 0 {
      NoDeadlock(s);
    }
    InvGot(s, Host);
    InvGot(s, Client);
    hide StartsWith, Written, GotPrefix;
  }

  // --- joining ------------------------------------------------------------------------------------------

  /** A frame waits for a client whose receive loop has not started and whose JOIN has not gone out. */
  predicate JoinBlocked(s: State) { s.client.recv.Off? && s.client.full > 0 && !s.client.send.Leaving? }

  /** Then the client never joins, whatever the threads do. */
  lemma BlockedForever(s: State, t: Thread)
    requires Inv(s) && JoinBlocked(s) && Enabled(s, t)
    ensures JoinBlocked(Fire(s, t))
  {
    hide Delivery, Written, StartsWith;
  }

  lemma {:induction false} BlockedRun(s: State, schedule: seq<Thread>)
    requires Inv(s) && JoinBlocked(s)
    ensures JoinBlocked(RunAll(s, schedule))
    decreases |schedule|
  {
    hide Inv, JoinBlocked, Fire;
    if schedule != [] {
      if Enabled(s, schedule[0]) {
        InvShaped(s);
        StepKeepsInv(s, schedule[0]);
        BlockedForever(s, schedule[0]);
        BlockedRun(Fire(s, schedule[0]), schedule[1..]);
      } else {
        BlockedRun(s, schedule[1..]);
      }
    }
  }

  /** Before the client has joined, threads can all be stuck only when a frame for the client is pending. */
  lemma StuckBeforeJoin(s: State)
    requires Inv(s) && !s.host.recv.Off? && s.client.recv.Off?
    requires s.client.todo != [] && forall t :: !Enabled(s, t)
    ensures JoinBlocked(s)
  {
    hide Delivery, Written, StartsWith;
    assert !Enabled(s, Sender(Host)) && !Enabled(s, Sender(Client));
    assert !Enabled(s, Receiver(Host)) && !Enabled(s, Receiver(Client));
  }

  /** A run in two parts. */
  lemma {:induction false} RunConcat(s: State, a: seq<Thread>, b: seq<Thread>)
    requires Inv(s)
    ensures Inv(RunAll(s, a)) && RunAll(s, a + b) == RunAll(RunAll(s, a), b)
    decreases |a|
  {
    hide Inv, Fire, Enabled;
    if a == [] {
      assert a + b == b;
    } else {
      assert (a + b)[1..] == a[1..] + b && (a + b)[0] == a[0];
      if Enabled(s, a[0]) {
        InvShaped(s);
        StepKeepsInv(s, a[0]);
        RunConcat(Fire(s, a[0]), a[1..], b);
      } else {
        RunConcat(s, a[1..], b);
      }
    }
  }

  lemma RunOne(s: State, t: Thread)
    requires Inv(s) && Enabled(s, t)
    ensures RunAll(s, [t]) == Fire(s, t)
  {
    StepKeepsInv(s, t);
    hide Inv, Fire, Enabled;
    assert [t][1..] == [];
  }

  /** A sender that has the buffer copies the rest of its frame and posts it. */
  lemma {:induction false} CopyAndPost(s: State, r: Role) returns (schedule: seq<Thread>)
    requires Inv(s) && s.Of(r).send.Copying?
    ensures var s', p, o := RunAll(s, schedule), s.Of(r), s.Of(Opposite(r));
      Inv(s') && s'.Of(r).send.Leaving? && s'.Of(r).recv == p.recv
      && s'.Of(Opposite(r)) == o.(full := o.full + 1)
    decreases |s.Of(r).todo[0]| - s.Of(r).send.i
  {
    var t := Sender(r);
    RunOne(s, t);
    StepKeepsInv(s, t);
    if s.Of(r).send.i < |s.Of(r).todo[0]| {
      hide Inv, RunAll;
      InvShaped(s);
      var rest := CopyAndPost(Fire(s, t), r);
      schedule := [t] + rest;
      RunConcat(s, [t], rest);
    } else {
      schedule := [t];
    }
  }

  /** A sender that finds turnstile and buffer free can go through to the post. */
  lemma SendThrough(s: State, r: Role) returns (schedule: seq<Thread>)
    requires Inv(s) && s.Of(r).send.Ready? && s.Of(r).todo != [] && s.turnstile > 0 && s.empty > 0
    ensures var s' := RunAll(s, schedule);
      Inv(s') && s'.Of(r).send.Leaving? && s'.Of(r).recv == s.Of(r).recv
      && s'.Of(Opposite(r)) == s.Of(Opposite(r)).(full := s.Of(Opposite(r)).full + 1)
  {
    hide Inv, RunAll;
    var t := Sender(r);
    SendEnters(s, r);
    RunOne(s, t);
    var s1 := Fire(s, t);
    RunOne(s1, t);
    var s2 := Fire(s1, t);
    RunOne(s2, t);
    var s3 := Fire(s2, t);
    var rest := CopyAndPost(s3, r);
    RunConcat(s2, [t], rest);
    RunConcat(s1, [t], [t] + rest);
    RunConcat(s, [t], [t] + ([t] + rest));
    schedule := [t] + ([t] + ([t] + rest));
  }

  /** The three steps up to the copy. */
  lemma SendEnters(s: State, r: Role)
    requires Inv(s) && s.Of(r).send.Ready? && s.Of(r).todo != [] && s.turnstile > 0 && s.empty > 0
    ensures Shaped(s) && Enabled(s, Sender(r))
    ensures var s1 := Fire(s, Sender(r));
      Inv(s1) && Shaped(s1) && Enabled(s1, Sender(r))
    ensures var s2 := Fire(Fire(s, Sender(r)), Sender(r));
      Inv(s2) && Shaped(s2) && Enabled(s2, Sender(r))
    ensures var s3 := Fire(Fire(Fire(s, Sender(r)), Sender(r)), Sender(r));
      Inv(s3) && s3.Of(r).send.Copying? && s3.Of(r).recv == s.Of(r).recv && s3.Of(Opposite(r)) == s.Of(Opposite(r))
  {
    hide Delivery, Written, StartsWith;
    var t := Sender(r);
    StepKeepsInv(s, t);
    var s1 := Fire(s, t);
    StepKeepsInv(s1, t);
    var s2 := Fire(s1, t);
    StepKeepsInv(s2, t);
  }

  /** After this run the client can never join. */
  ghost predicate Blocks(data: seq<byte>, host: seq<Frame>, client: seq<Frame>, schedule: seq<Thread>)
    requires |data| == MAX_FRAME_LEN
  {
    StartInv(data, host, client);
    JoinBlocked(RunAll(Start(data, host, client), schedule))
  }

  /** Some run keeps the client from joining exactly when the host has anything to send. */
  lemma BlockedIff(data: seq<byte>, host: seq<Frame>, client: seq<Frame>)
    requires |data| == MAX_FRAME_LEN
    ensures (exists schedule :: Blocks(data, host, client, schedule)) <==> host != []
  {
    var s := Start(data, host, client);
    StartInv(data, host, client);
    if host != [] {
      var schedule := SendThrough(s, Host);
      assert Blocks(data, host, client, schedule);
    }
    forall schedule | host == [] ensures !Blocks(data, host, client, schedule) {
      RunSafe(s, schedule);
      NothingForClient(RunAll(s, schedule));
    }
  }

  lemma NothingForClient(s: State)
    requires Inv(s) && Plan(s.host) == []
    ensures s.client.full == 0
  {
  }

  /** The host's loop runs, and a client that has not joined has not sent its JOIN, or is just leaving. */
  predicate Joining(s: State)
  {
    && !s.host.recv.Off?
    && (s.client.recv.Off? ==> s.client.send.Leaving? || (s.client.todo != [] && s.client.sent == []))
  }

  lemma JoiningStays(s: State, t: Thread)
    requires Inv(s) && Enabled(s, t) && Joining(s)
    ensures Joining(Fire(s, t))
  {
    hide Delivery, Written, StartsWith, Tokens;
  }

  lemma {:induction false} JoiningRun(s: State, schedule: seq<Thread>)
    requires Inv(s) && Joining(s)
    ensures Inv(RunAll(s, schedule)) && Joining(RunAll(s, schedule))
    decreases |schedule|
  {
    hide Inv, Joining, Fire, Enabled;
    if schedule != [] {
      if Enabled(s, schedule[0]) {
        InvShaped(s);
        StepKeepsInv(s, schedule[0]);
        JoiningStays(s, schedule[0]);
        JoiningRun(Fire(s, schedule[0]), schedule[1..]);
      } else {
        JoiningRun(s, schedule[1..]);
      }
    }
  }

  /** Where nothing can move the client has joined and everything has arrived, exactly if it is not blocked. */
  lemma EndIff(s: State)
    requires Inv(s) && Joining(s) && forall t :: !Enabled(s, t)
    ensures Joined(s) && AllDelivered(s) <==> !JoinBlocked(s)
  {
    if s.client.recv.Off? {
      assert !Enabled(s, Sender(Client));
      StuckBeforeJoin(s);
    } else {
      EndIsDelivered(s);
    }
  }

  /** Every run from the start that cannot go on has delivered all of both plans, exactly if it is not blocked. */
  lemma RunDeliversIff(data: seq<byte>, host: seq<Frame>, client: seq<Frame>, schedule: seq<Thread>)
    requires |data| == MAX_FRAME_LEN && client != []
    ensures Inv(Start(data, host, client))
    ensures var s := RunAll(Start(data, host, client), schedule);
      (forall t :: !Enabled(s, t)) ==>
        (Joined(s) && AllDelivered(s) <==> !JoinBlocked(s)) && Plan(s.host) == host && Plan(s.client) == client
  {
    var s0 := Start(data, host, client);
    StartInv(data, host, client);
    RunSafe(s0, schedule);
    assert Joining(s0) && Plan(s0.host) == host && Plan(s0.client) == client;
    hide Inv, Joining, Enabled, Plan, Joined, JoinBlocked, AllDelivered;
    JoiningRun(s0, schedule);
    var s := RunAll(s0, schedule);
    if forall t :: !Enabled(s, t) { EndIff(s); }
  }

  // --- the point of no return ----------------------------------------------------------------------------

  /** The client has not posted its JOIN, and a frame for it is in the buffer or on its way there. */
  predicate HostAhead(s: State)
  {
    && s.client.recv.Off? && !s.client.send.Leaving?
    && (s.client.full > 0 || s.host.send.WantEmpty? || s.host.send.Copying?)
  }

  lemma AheadStays(s: State, t: Thread)
    requires Inv(s) && Enabled(s, t) && HostAhead(s)
    ensures HostAhead(Fire(s, t))
  {
    hide Delivery, Written, StartsWith;
  }

  lemma {:induction false} AheadRun(s: State, schedule: seq<Thread>)
    requires Inv(s) && HostAhead(s)
    ensures HostAhead(RunAll(s, schedule))
    decreases |schedule|
  {
    hide Inv, HostAhead, Fire, Enabled;
    if schedule != [] {
      if Enabled(s, schedule[0]) {
        InvShaped(s);
        StepKeepsInv(s, schedule[0]);
        AheadStays(s, schedule[0]);
        AheadRun(Fire(s, schedule[0]), schedule[1..]);
      } else {
        AheadRun(s, schedule[1..]);
      }
    }
  }

  /** Unless the host is ahead, the client can still join. */
  lemma CanJoin(s: State) returns (schedule: seq<Thread>)
    requires Inv(s) && Joining(s) && !HostAhead(s)
    ensures Joined(RunAll(s, schedule))
  {
    var t := Sender(Client);
    if !s.client.recv.Off? {
      schedule := [];
    } else if s.host.send.Leaving? {
      StepKeepsInv(s, Sender(Host));
      RunOne(s, Sender(Host));
      var s1 := Fire(s, Sender(Host));
      assert Joining(s1) && !HostAhead(s1);
      var rest := JoinSteps(s1);
      RunConcat(s, [Sender(Host)], rest);
      schedule := [Sender(Host)] + rest;
    } else {
      schedule := JoinSteps(s);
    }
  }

  /** One step of the client's sender after another. */
  lemma {:induction false} JoinSteps(s: State) returns (schedule: seq<Thread>)
    requires Inv(s) && Joining(s) && !HostAhead(s) && !s.host.send.Leaving?
    ensures Joined(RunAll(s, schedule))
    decreases Max(Rank(s), 0)
  {
    if !s.client.recv.Off? {
      schedule := [];
    } else {
      var t := Sender(Client);
      ClientMoves(s);
      StepRank(s, t);
      StepKeepsInv(s, t);
      JoiningStays(s, t);
      RunOne(s, t);
      hide Inv, Joining, Joined, HostAhead;
      var rest := JoinSteps(Fire(s, t));
      schedule := [t] + rest;
      RunConcat(s, [t], rest);
    }
  }

  lemma ClientMoves(s: State)
    requires Inv(s) && Joining(s) && !HostAhead(s) && !s.host.send.Leaving? && s.client.recv.Off?
    ensures Enabled(s, Sender(Client)) && !HostAhead(Fire(s, Sender(Client)))
    ensures !Fire(s, Sender(Client)).host.send.Leaving?
  {
    hide Written, StartsWith;
  }

  /** Any run can be taken to an end. */
  lemma {:induction false} Finish(s: State) returns (schedule: seq<Thread>)
    requires Inv(s)
    ensures forall t :: !Enabled(RunAll(s, schedule), t)
    decreases Max(Rank(s), 0)
  {
    hide Inv, Rank, Enabled;
    schedule := [];
    if t :| Enabled(s, t) {
      InvShaped(s);
      StepKeepsInv(s, t);
      StepRank(s, t);
      RunOne(s, t);
      var rest := Finish(Fire(s, t));
      schedule := [t] + rest;
      RunConcat(s, [t], rest);
    }
  }

  /** This run ends with the client in and all of both plans delivered. */
  predicate Delivers(s: State, schedule: seq<Thread>)
    requires Inv(s)
  {
    Joined(RunAll(s, schedule)) && AllDelivered(RunAll(s, schedule))
  }

  /** Some run still delivers everything exactly if the host is not ahead of the client. */
  lemma DeliverableIff(s: State)
    requires Inv(s) && Joining(s)
    ensures (exists schedule :: Delivers(s, schedule)) <==> !HostAhead(s)
  {
    hide Inv, Joining, Enabled, AllDelivered;
    if HostAhead(s) {
      forall schedule ensures !Delivers(s, schedule) { AheadRun(s, schedule); }
    } else {
      var first := CanJoin(s);
      RunConcat(s, first, []);
      var s1 := RunAll(s, first);
      var rest := Finish(s1);
      RunConcat(s, first, rest);
      JoinedRun(s1, rest);
      RunConcat(s1, rest, []);
      EndIsDelivered(RunAll(s1, rest));
      assert Delivers(s, first + rest);
    }
  }

  lemma JoinedStays(s: State, t: Thread)
    requires Inv(s) && Enabled(s, t) && Joined(s)
    ensures Joined(Fire(s, t))
  {
    hide Delivery, Written, StartsWith, Tokens;
  }

  lemma {:induction false} JoinedRun(s: State, schedule: seq<Thread>)
    requires Inv(s) && Joined(s)
    ensures Joined(RunAll(s, schedule))
    decreases |schedule|
  {
    hide Inv, Joined, Fire, Enabled;
    if schedule != [] {
      if Enabled(s, schedule[0]) {
        InvShaped(s);
        StepKeepsInv(s, schedule[0]);
        JoinedStays(s, schedule[0]);
        JoinedRun(Fire(s, schedule[0]), schedule[1..]);
      } else {
        JoinedRun(s, schedule[1..]);
      }
    }
  }

  // --- the shared region, step by step in place -----------------------------------------------------------

  class ShmRegion {
    const data: array<byte>
    var turnstile: nat
    var empty: nat
    var host: Peer
    var client: Peer

    ghost function Abs(): State
      reads this, data
    {
      State(turnstile, empty, data[..], host, client)
    }

    constructor (host: seq<Frame>, client: seq<Frame>)
      ensures fresh(data) && Inv(Abs()) && Abs() == Start(data[..], host, client)
    {
      data := new byte[MAX_FRAME_LEN];
      turnstile, empty := 1, 1;
      this.host, this.client := Peer(Ready, host, Handling, 0, [], []), Peer(Ready, client, Off, 0, [], []);
      new;
      StartInv(data[..], host, client);
    }

    function Of(r: Role): Peer
      reads this
    {
      if r.Host? then host else client
    }

    method Put(r: Role, p: Peer)
      modifies this
      ensures Abs() == old(Abs()).With(r, p)
    {
      if r.Host? { host := p; } else { client := p; }
    }

    method CanMove(t: Thread) returns (b: bool)
      ensures b == Enabled(Abs(), t)
    {
      var p := Of(t.role);
      if t.Sender? {
        b := match p.send
          case Ready => p.todo != []
          case WantTurn => turnstile > 0
          case WantEmpty => empty > 0
          case _ => true;
      } else {
        b := match p.recv
          case Off => false
          case Waiting => p.full > 0
          case _ => true;
      }
    }

    /** One step of `p2pSend`. */
    method SendStep(r: Role)
      requires Inv(Abs()) && Enabled(Abs(), Sender(r))
      modifies this, data
      ensures Abs() == FireSender(old(Abs()), r)
    {
      hide Delivery, Written, Tokens;
      var p := Of(r);
      match p.send {
        case Ready => Put(r, p.(send := WantTurn));
        case WantTurn =>
          turnstile := turnstile - 1;
          Put(r, p.(send := WantEmpty));
        case WantEmpty =>
          empty := empty - 1;
          Put(r, p.(send := Copying(0)));
        case Copying(i) =>
          var frame := p.todo[0];
          if i < |frame| {
            data[i] := frame[i];
            Put(r, p.(send := Copying(i + 1)));
          } else {
            var o := Of(Opposite(r));
            Put(r, p.(send := Leaving, todo := p.todo[1..], sent := p.sent + [frame]));
            Put(Opposite(r), o.(full := o.full + 1));
          }
        case Leaving =>
          turnstile := turnstile + 1;
          Put(r, p.(send := Ready, recv := if p.recv.Off? then Handling else p.recv));
      }
    }

    /** One step of the receive loop around `p2pRecv`. */
    method RecvStep(r: Role)
      requires Inv(Abs()) && Enabled(Abs(), Receiver(r))
      modifies this
      ensures Abs() == FireReceiver(old(Abs()), r)
    {
      hide Delivery, Written, Tokens;
      var p := Of(r);
      match p.recv {
        case Handling => Put(r, p.(recv := Waiting));
        case Waiting => Put(r, p.(recv := Reading([]), full := p.full - 1));
        case Reading(buf) =>
          if |buf| < MAX_FRAME_LEN {
            Put(r, p.(recv := Reading(buf + [data[|buf|]])));
          } else {
            empty := empty + 1;
            Put(r, p.(recv := Handling, got := p.got + [buf]));
          }
      }
    }

    /** An arbitrary scheduler. It always comes to an end, and once the client has joined all frames have arrived. */
    method Run()
      requires Inv(Abs())
      modifies this, data
      ensures Inv(Abs()) && forall t :: !Enabled(Abs(), t)
      ensures Plan(host) == old(Plan(host)) && Plan(client) == old(Plan(client))
      ensures Joined(Abs()) ==> AllDelivered(Abs())
      ensures old(Joining(Abs())) ==> (Joined(Abs()) && AllDelivered(Abs()) <==> !JoinBlocked(Abs()))
    {
      hide Inv, Fire, FireSender, FireReceiver, Rank, Plan, AllDelivered, Joining, JoinBlocked;
      while true
        invariant Inv(Abs()) && Plan(host) == old(Plan(host)) && Plan(client) == old(Plan(client))
        invariant old(Joining(Abs())) ==> Joining(Abs())
        decreases Rank(Abs())
      {
        var next := Choose();
        if next.None? {
          if Joined(Abs()) {
            EndIsDelivered(Abs());
          }
          if Joining(Abs()) {
            EndIff(Abs());
          }
          return;
        }
        ghost var s := Abs();
        StepRank(s, next.value);
        StepKeepsInv(s, next.value);
        StepKeepsPlan(s, next.value, Host);
        StepKeepsPlan(s, next.value, Client);
        if Joining(s) { JoiningStays(s, next.value); }
        InvShaped(s);
        FireIs(s, next.value);
        if next.value.Sender? {
          SendStep(next.value.role);
        } else {
          RecvStep(next.value.role);
        }
      }
    }

    /** Some thread that can move, any of them; none only if none can. */
    method Choose() returns (next: Option<Thread>)
      ensures next.Some? ==> Enabled(Abs(), next.value)
      ensures next.None? ==> forall t :: !Enabled(Abs(), t)
    {
      var guess: Thread := *;
      var can := CanMove(guess);
      if can {
        return Some(guess);
      }
      var threads := AllThreads();
      for i := 0 to |threads|
        invariant forall k :: 0 <= k < i ==> !Enabled(Abs(), threads[k])
      {
        can := CanMove(threads[i]);
        if can {
          return Some(threads[i]);
        }
      }
      forall t ensures !Enabled(Abs(), t) {
        assert t == threads[ThreadNo(t)];
      }
      return None;
    }
  }

  function AllThreads(): seq<Thread> { [Sender(Host), Sender(Client), Receiver(Host), Receiver(Client)] }

  function ThreadNo(t: Thread): nat { (if t.Sender? then 0 else 2) + if t.role.Host? then 0 else 1 }

  lemma InvShaped(s: State)
    requires Inv(s)
    ensures Shaped(s)
  {
  }

  lemma FireIs(s: State, t: Thread)
    requires Shaped(s) && Enabled(s, t)
    ensures Fire(s, t) == if t.Sender? then FireSender(s, t.role) else FireReceiver(s, t.role)
  {
  }
}
