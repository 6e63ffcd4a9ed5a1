/** The two bounded queues of a channel as a state machine: senders that reserve a slot,
    wait for the queue's lock, check and enqueue, against receivers and closers, over all
    interleavings of their atomic steps. */
module ChannelProtocol {
  import opened Prelude

  type Tid = nat

  datatype Side = Outbound | Inbound

  /** One queue. `open` says whether its shared sender is still in place; `sent` lists
      what was ever enqueued, by whom. */
  datatype Queue<T> = Queue(
    open: bool,
    lock: Option<Tid>,
    buffer: seq<T>,
    permits: set<Tid>,
    receiving: bool,
    received: seq<T>,
    sent: seq<(Tid, T)>)

  /** Where a thread is: in a send, or in a close. */
  datatype Pc<T> =
    | Idle
    | Cloned(side: Side, frame: T)     // has its own handle of the sender, waits for a slot
    | Reserved(side: Side, frame: T)   // holds a permit, waits for the lock
    | Locked(side: Side, frame: T)     // holds permit and lock
    | Cleared(side: Side, frame: T)    // has checked that the queue is open, about to enqueue
    | Sent(side: Side, frame: T)
    | Refused
    | Cancelling                       // close: about to cancel the token
    | TakingOutbound
    | TakingInbound
    | Closed

  datatype State<T> = State(outbound: Queue<T>, inbound: Queue<T>, token: bool, pcs: map<Tid, Pc<T>>) {

    function At(side: Side): Queue<T> {
      if side.Outbound? then outbound else inbound
    }

    function Put(side: Side, q: Queue<T>): (r: State<T>)
      ensures r.At(side) == q && forall s :: s != side ==> r.At(s) == At(s)
    {
      if side.Outbound? then this.(outbound := q) else this.(inbound := q)
    }
  }

  datatype Action<T> =
    | Begin(t: Tid, side: Side, frame: T)
    | GiveUp(t: Tid)        // the token is cancelled
    | Reserve(t: Tid)
    | NoReceiver(t: Tid)    // reserving fails, the receiver is gone
    | Abandon(t: Tid)       // the caller drops the pending send
    | Lock(t: Tid)
    | CheckOpen(t: Tid)
    | Enqueue(t: Tid)
    | BeginClose(t: Tid)
    | CancelToken(t: Tid)
    | Take(t: Tid)
    | Receive(side: Side)
    | DropReceiver(side: Side)

  ghost predicate Init<T(!new)>(st: State<T>) {
    && (forall s :: st.At(s) == Queue(true, None, [], {}, true, [], []))
    && !st.token && forall t :: t in st.pcs ==> st.pcs[t].Idle?
  }

  ghost predicate Enabled<T(!new)>(capacity: nat, st: State<T>, a: Action<T>) {
    match a
    case Begin(t, side, _) => t in st.pcs && st.pcs[t].Idle? && st.At(side).lock.None?
    case GiveUp(t) => t in st.pcs && st.pcs[t].Cloned? && st.token
    case Reserve(t) =>
      && t in st.pcs && st.pcs[t].Cloned? && st.At(st.pcs[t].side).receiving
      && |st.At(st.pcs[t].side).buffer| + |st.At(st.pcs[t].side).permits| < capacity
    case NoReceiver(t) => t in st.pcs && st.pcs[t].Cloned? && !st.At(st.pcs[t].side).receiving
    case Abandon(t) => t in st.pcs && st.pcs[t].Cloned?
    case Lock(t) => t in st.pcs && st.pcs[t].Reserved? && st.At(st.pcs[t].side).lock.None?
    case CheckOpen(t) => t in st.pcs && st.pcs[t].Locked?
    case Enqueue(t) => t in st.pcs && st.pcs[t].Cleared?
    case BeginClose(t) => t in st.pcs && st.pcs[t].Idle?
    case CancelToken(t) => t in st.pcs && st.pcs[t].Cancelling?
    case Take(t) =>
      && t in st.pcs && (st.pcs[t].TakingOutbound? || st.pcs[t].TakingInbound?)
      && st.At(TakenSide(st.pcs[t])).lock.None?
    case Receive(side) => st.At(side).receiving && st.At(side).buffer != []
    case DropReceiver(side) => st.At(side).receiving
  }

  function TakenSide<T>(pc: Pc<T>): Side {
    if pc.TakingOutbound? then Outbound else Inbound
  }

  ghost function Apply<T(!new)>(capacity: nat, st: State<T>, a: Action<T>): (r: State<T>)
    requires Enabled(capacity, st, a)
  {
    match a
    case Begin(t, side, frame) => st.(pcs := st.pcs[t := if st.At(side).open then Cloned(side, frame) else Refused])
    case GiveUp(t) => st.(pcs := st.pcs[t := Refused])
    case Reserve(t) =>
      var (side, frame) := (st.pcs[t].side, st.pcs[t].frame);
      var q := st.At(side);
      st.Put(side, q.(permits := q.permits + {t})).(pcs := st.pcs[t := Reserved(side, frame)])
    case NoReceiver(t) => st.(pcs := st.pcs[t := Refused])
    case Abandon(t) => st.(pcs := st.pcs[t := Refused])
    case Lock(t) =>
      var (side, frame) := (st.pcs[t].side, st.pcs[t].frame);
      st.Put(side, st.At(side).(lock := Some(t))).(pcs := st.pcs[t := Locked(side, frame)])
    case CheckOpen(t) =>
      var (side, frame) := (st.pcs[t].side, st.pcs[t].frame);
      var q := st.At(side);
      if !q.open || st.token then
        st.Put(side, q.(lock := None, permits := q.permits - {t})).(pcs := st.pcs[t := Refused])
      else st.(pcs := st.pcs[t := Cleared(side, frame)])
    case Enqueue(t) =>
      var (side, frame) := (st.pcs[t].side, st.pcs[t].frame);
      st.Put(side, Enqueued(st.At(side), t, frame)).(pcs := st.pcs[t := Sent(side, frame)])
    case BeginClose(t) => st.(pcs := st.pcs[t := Cancelling])
    case CancelToken(t) => st.(token := true, pcs := st.pcs[t := TakingOutbound])
    case Take(t) =>
      var side := TakenSide(st.pcs[t]);
      st.Put(side, st.At(side).(open := false)).(pcs := st.pcs[t := if side.Outbound? then TakingInbound else Closed])
    case Receive(side) =>
      var q := st.At(side);
      st.Put(side, q.(buffer := q.buffer[1..], received := q.received + [q.buffer[0]]))
    case DropReceiver(side) => st.Put(side, st.At(side).(receiving := false, buffer := []))
  }

  /** The queue after thread `t` has put its frame in and released permit and lock. */
  function Enqueued<T>(q: Queue<T>, t: Tid, frame: T): Queue<T> {
    q.(lock := None, permits := q.permits - {t}, buffer := if q.receiving then q.buffer + [frame] else [],
       sent := q.sent + [(t, frame)])
  }

  // ----- The invariant -----

  function Frames<T>(sent: seq<(Tid, T)>): (fs: seq<T>)
    ensures |fs| == |sent| && forall i :: 0 <= i < |sent| ==> fs[i] == sent[i].1
  {
    seq(|sent|, i requires 0 <= i < |sent| => sent[i].1)
  }

  /** What holds of one queue by itself: the bound, and conservation of frames in order. */
  ghost predicate QueueOk<T(!new)>(capacity: nat, q: Queue<T>) {
    && |q.buffer| + |q.permits| <= capacity
    && |q.received| <= |q.sent| && q.received == Frames(q.sent)[..|q.received|]
    && (q.receiving ==> q.received + q.buffer == Frames(q.sent))
    && (!q.receiving ==> q.buffer == [])
  }

  /** What holds of one thread and one queue. */
  ghost predicate ThreadOk<T(!new)>(t: Tid, pc: Pc<T>, side: Side, q: Queue<T>, token: bool) {
    && (t in q.permits <==> (pc.Reserved? || pc.Locked? || pc.Cleared?) && pc.side == side)
    && (q.lock == Some(t) <==> (pc.Locked? || pc.Cleared?) && pc.side == side)
    && (pc.Cleared? && pc.side == side ==> q.open)
    && (pc.Sent? && pc.side == side ==> multiset(q.sent)[(t, pc.frame)] == 1)
    && (forall f :: (t, f) in q.sent ==> pc == Sent(side, f))
    && (pc.TakingOutbound? || pc.TakingInbound? || pc.Closed? ==> token)
    && (side.Outbound? && (pc.TakingInbound? || pc.Closed?) ==> !q.open)
    && (side.Inbound? && pc.Closed? ==> !q.open)
  }

  /** Lock holders, permit holders and senders are threads. */
  ghost predicate KnownThreads<T(!new)>(q: Queue<T>, threads: set<Tid>) {
    && (q.lock.Some? ==> q.lock.value in threads)
    && q.permits <= threads
    && forall i :: 0 <= i < |q.sent| ==> q.sent[i].0 in threads
  }

  ghost predicate Inv<T(!new)>(capacity: nat, st: State<T>) {
    && (forall s :: QueueOk(capacity, st.At(s)) && KnownThreads(st.At(s), st.pcs.Keys))
    && forall t, s :: t in st.pcs ==> ThreadOk(t, st.pcs[t], s, st.At(s), st.token)
  }

  lemma InitHolds<T(!new)>(capacity: nat, st: State<T>)
    requires Init(st)
    ensures Inv(capacity, st)
  {
    forall s ensures QueueOk(capacity, st.At(s)) && KnownThreads(st.At(s), st.pcs.Keys) {
      assert st.At(s) == Queue(true, None, [], {}, true, [], []);
    }
  }

  // ----- Steps -----

  /** What a step of thread `t` may do to a queue, as far as other threads are concerned. */
  ghost predicate OnlyOf<T(!new)>(t: Tid, q: Queue<T>, p: Queue<T>) {
    && p.permits - {t} == q.permits - {t}
    && (p.lock == q.lock || (q.lock == Some(t) && p.lock.None?) || (q.lock.None? && p.lock == Some(t)))
    && (p.open == q.open || (!p.open && q.lock.None?))
    && (p.sent == q.sent || exists f :: p.sent == q.sent + [(t, f)])
  }

  /** The other threads do not notice such a step. */
  lemma OthersStayOk<T(!new)>(
      u: Tid, pc: Pc<T>, side: Side, q: Queue<T>, p: Queue<T>, t: Tid, token: bool, token': bool)
    requires ThreadOk(u, pc, side, q, token) && u != t && (token ==> token') && OnlyOf(t, q, p)
    ensures ThreadOk(u, pc, side, p, token')
  {
    assert u in p.permits <==> u in p.permits - {t};
    assert u in q.permits <==> u in q.permits - {t};
    if p.sent != q.sent {
      var f :| p.sent == q.sent + [(t, f)];
      assert forall g :: (u, g) in p.sent <==> (u, g) in q.sent;
      if pc.Sent? && pc.side == side {
        assert multiset(p.sent) == multiset(q.sent) + multiset{(t, f)};
      }
    }
  }

  /** A step of thread `t` keeps the invariant if it keeps `t` and the queues in order. */
  lemma ThreadStepKeeps<T(!new)>(capacity: nat, st: State<T>, r: State<T>, t: Tid)
    requires Inv(capacity, st) && t in st.pcs && t in r.pcs && r.pcs == st.pcs[t := r.pcs[t]]
    requires st.token ==> r.token
    requires forall s :: QueueOk(capacity, r.At(s)) && KnownThreads(r.At(s), st.pcs.Keys)
    requires forall s :: ThreadOk(t, r.pcs[t], s, r.At(s), r.token)
    requires forall s :: OnlyOf(t, st.At(s), r.At(s))
    ensures Inv(capacity, r)
  {
    hide QueueOk, KnownThreads, ThreadOk, OnlyOf;
    assert r.pcs.Keys == st.pcs.Keys;
    forall u, s | u in r.pcs ensures ThreadOk(u, r.pcs[u], s, r.At(s), r.token) {
      if u != t {
        assert ThreadOk(u, st.pcs[u], s, st.At(s), st.token) && OnlyOf(t, st.At(s), r.At(s));
        OthersStayOk(u, st.pcs[u], s, st.At(s), r.At(s), t, st.token, r.token);
      }
    }
  }

  /** The steps of a send that change its queue, as a change of that queue and the thread. */
  ghost predicate OwnStep<T(!new)>(capacity: nat, t: Tid, pc: Pc<T>, side: Side, q: Queue<T>, pc': Pc<T>, p: Queue<T>) {
    || (pc.Cloned? && pc.side == side && pc' == Reserved(side, pc.frame) && |q.buffer| + |q.permits| < capacity
        && p == q.(permits := q.permits + {t}))
    || (pc.Reserved? && pc.side == side && pc' == Locked(side, pc.frame) && q.lock.None? && p == q.(lock := Some(t)))
    || (pc.Locked? && pc.side == side && pc' == Refused && p == q.(lock := None, permits := q.permits - {t}))
    || (pc.Locked? && pc.side == side && pc' == Cleared(side, pc.frame) && q.open && p == q)
    || (pc.Cleared? && pc.side == side && pc' == Sent(side, pc.frame) && p == Enqueued(q, t, pc.frame))
    || (pc.TakingOutbound? && side.Outbound? && pc' == TakingInbound && q.lock.None? && p == q.(open := false))
    || (pc.TakingInbound? && side.Inbound? && pc' == Closed && q.lock.None? && p == q.(open := false))
  }

  lemma OwnStepKeepsQueue<T(!new)>(
      capacity: nat, t: Tid, pc: Pc<T>, side: Side, q: Queue<T>, token: bool, pc': Pc<T>, p: Queue<T>,
      threads: set<Tid>)
    requires QueueOk(capacity, q) && KnownThreads(q, threads) && ThreadOk(t, pc, side, q, token) && t in threads
    requires OwnStep(capacity, t, pc, side, q, pc', p)
    ensures QueueOk(capacity, p) && KnownThreads(p, threads) && OnlyOf(t, q, p)
  {
    if pc.Cleared? {
      var longer := q.sent + [(t, pc.frame)];
      assert p.sent == longer;
      assert Frames(longer) == Frames(q.sent) + [pc.frame];
      assert Frames(longer)[..|q.received|] == Frames(q.sent)[..|q.received|];
      if q.receiving {
        assert q.received + (q.buffer + [pc.frame]) == q.received + q.buffer + [pc.frame];
      }
    }
  }

  lemma OwnStepKeepsThread<T(!new)>(
      capacity: nat, t: Tid, pc: Pc<T>, side: Side, q: Queue<T>, token: bool, pc': Pc<T>, p: Queue<T>)
    requires ThreadOk(t, pc, side, q, token) && OwnStep(capacity, t, pc, side, q, pc', p)
    ensures ThreadOk(t, pc', side, p, token)
  {
    if pc.Cleared? {
      assert p.sent == q.sent + [(t, pc.frame)];
      assert multiset(p.sent) == multiset(q.sent) + multiset{(t, pc.frame)};
      assert (t, pc.frame) !in q.sent;
    }
  }

  /** The thread stays in order at the other queue, too. */
  lemma OwnStepElsewhere<T(!new)>(
      capacity: nat, t: Tid, pc: Pc<T>, side: Side, q: Queue<T>, token: bool, pc': Pc<T>, p: Queue<T>,
      s: Side, other: Queue<T>)
    requires OwnStep(capacity, t, pc, side, q, pc', p) && s != side && ThreadOk(t, pc, s, other, token)
    requires pc.TakingInbound? ==> !other.open
    ensures ThreadOk(t, pc', s, other, token)
  {
  }

  /** Such a step keeps both queues in order, and the thread at both. */
  lemma OwnStepAt<T(!new)>(capacity: nat, st: State<T>, r: State<T>, t: Tid, side: Side, s: Side)
    requires Inv(capacity, st) && t in st.pcs && t in r.pcs
    requires OwnStep(capacity, t, st.pcs[t], side, st.At(side), r.pcs[t], r.At(side))
    requires s != side ==> r.At(s) == st.At(s)
    ensures QueueOk(capacity, r.At(s)) && KnownThreads(r.At(s), st.pcs.Keys) && OnlyOf(t, st.At(s), r.At(s))
    ensures ThreadOk(t, r.pcs[t], s, r.At(s), st.token)
  {
    TakenOutboundIsClosed(capacity, st, t);
    assert ThreadOk(t, st.pcs[t], s, st.At(s), st.token);
    assert QueueOk(capacity, st.At(s)) && KnownThreads(st.At(s), st.pcs.Keys);
    hide Inv, QueueOk, KnownThreads, OwnStep, OnlyOf, ThreadOk;
    if s == side {
      OwnStepKeepsQueue(capacity, t, st.pcs[t], side, st.At(side), st.token, r.pcs[t], r.At(side), st.pcs.Keys);
      OwnStepKeepsThread(capacity, t, st.pcs[t], side, st.At(side), st.token, r.pcs[t], r.At(side));
    } else {
      OwnStepElsewhere(capacity, t, st.pcs[t], side, st.At(side), st.token, r.pcs[t], r.At(side), s, st.At(s));
      UnchangedIsOnlyOf(t, st.At(s));
    }
  }

  lemma OwnStepKeeps<T(!new)>(capacity: nat, st: State<T>, r: State<T>, t: Tid, side: Side)
    requires Inv(capacity, st) && t in st.pcs && t in r.pcs
    requires OwnStep(capacity, t, st.pcs[t], side, st.At(side), r.pcs[t], r.At(side))
    requires r == st.Put(side, r.At(side)).(pcs := st.pcs[t := r.pcs[t]])
    ensures Inv(capacity, r)
  {
    hide Inv, QueueOk, KnownThreads, OwnStep, OnlyOf, ThreadOk;
    forall s: Side
      ensures QueueOk(capacity, r.At(s)) && KnownThreads(r.At(s), st.pcs.Keys) && OnlyOf(t, st.At(s), r.At(s))
      ensures ThreadOk(t, r.pcs[t], s, r.At(s), r.token)
    {
      OwnStepAt(capacity, st, r, t, side, s);
    }
    ThreadStepKeeps(capacity, st, r, t);
  }

  lemma TakenOutboundIsClosed<T(!new)>(capacity: nat, st: State<T>, t: Tid)
    requires Inv(capacity, st) && t in st.pcs
    ensures st.pcs[t].TakingInbound? ==> !st.At(Outbound).open
  {
    assert ThreadOk(t, st.pcs[t], Outbound, st.At(Outbound), st.token);
  }

  lemma UnchangedIsOnlyOf<T(!new)>(t: Tid, q: Queue<T>)
    ensures OnlyOf(t, q, q)
  {
  }

  /** Steps that change a thread and perhaps the token, but no queue. */
  lemma PcStepKeeps<T(!new)>(capacity: nat, st: State<T>, r: State<T>, t: Tid)
    requires Inv(capacity, st) && t in st.pcs && t in r.pcs
    requires r == st.(pcs := st.pcs[t := r.pcs[t]], token := r.token) && (st.token ==> r.token)
    requires st.pcs[t].Idle? || st.pcs[t].Cloned? || st.pcs[t].Cancelling?
    requires r.pcs[t].Refused? || r.pcs[t].Cloned? || r.pcs[t].Cancelling? || (r.pcs[t].TakingOutbound? && r.token)
    ensures Inv(capacity, r)
  {
    hide QueueOk, KnownThreads;
    forall s ensures ThreadOk(t, r.pcs[t], s, r.At(s), r.token) && OnlyOf(t, st.At(s), r.At(s)) {
      assert ThreadOk(t, st.pcs[t], s, st.At(s), st.token);
    }
    forall s ensures QueueOk(capacity, r.At(s)) && KnownThreads(r.At(s), st.pcs.Keys) {
      assert QueueOk(capacity, st.At(s));
    }
    ThreadStepKeeps(capacity, st, r, t);
  }

  /** Steps of a receiver. */
  lemma ReceiverStepKeeps<T(!new)>(capacity: nat, st: State<T>, side: Side, p: Queue<T>)
    requires Inv(capacity, st) && QueueOk(capacity, p)
    requires p == st.At(side).(buffer := p.buffer, received := p.received, receiving := p.receiving)
    ensures Inv(capacity, st.Put(side, p))
  {
    hide QueueOk;
    var r := st.Put(side, p);
    forall s ensures QueueOk(capacity, r.At(s)) && KnownThreads(r.At(s), st.pcs.Keys) {
      assert QueueOk(capacity, st.At(s));
    }
    forall u, s | u in r.pcs ensures ThreadOk(u, r.pcs[u], s, r.At(s), r.token) {
      assert ThreadOk(u, st.pcs[u], s, st.At(s), st.token);
    }
  }

  lemma ReceiveKeepsQueue<T(!new)>(capacity: nat, q: Queue<T>)
    requires QueueOk(capacity, q) && q.receiving
    ensures q.buffer != [] ==> QueueOk(capacity, q.(buffer := q.buffer[1..], received := q.received + [q.buffer[0]]))
    ensures QueueOk(capacity, q.(receiving := false, buffer := []))
  {
    if q.buffer != [] {
      assert q.received + [q.buffer[0]] + q.buffer[1..] == q.received + q.buffer;
      assert Frames(q.sent)[..|q.received| + 1] == q.received + [q.buffer[0]];
    }
  }

  /** Every step keeps the invariant. */
  lemma StepKeeps<T(!new)>(capacity: nat, st: State<T>, a: Action<T>)
    requires Inv(capacity, st) && Enabled(capacity, st, a)
    ensures Inv(capacity, Apply(capacity, st, a))
  {
    if a.Receive? || a.DropReceiver? {
      assert QueueOk(capacity, st.At(a.side));
    }
    hide Inv, QueueOk;
    var r := Apply(capacity, st, a);
    match a
    case Begin(t, _, _) => PcStepKeeps(capacity, st, r, t);
    case GiveUp(t) => PcStepKeeps(capacity, st, r, t);
    case NoReceiver(t) => PcStepKeeps(capacity, st, r, t);
    case Abandon(t) => PcStepKeeps(capacity, st, r, t);
    case BeginClose(t) => PcStepKeeps(capacity, st, r, t);
    case CancelToken(t) => PcStepKeeps(capacity, st, r, t);
    case Reserve(t) => OwnStepKeeps(capacity, st, r, t, st.pcs[t].side);
    case Lock(t) => OwnStepKeeps(capacity, st, r, t, st.pcs[t].side);
    case CheckOpen(t) => OwnStepKeeps(capacity, st, r, t, st.pcs[t].side);
    case Enqueue(t) => OwnStepKeeps(capacity, st, r, t, st.pcs[t].side);
    case Take(t) => OwnStepKeeps(capacity, st, r, t, TakenSide(st.pcs[t]));
    case Receive(side) =>
      ReceiveKeepsQueue(capacity, st.At(side));
      ReceiverStepKeeps(capacity, st, side, r.At(side));
    case DropReceiver(side) =>
      ReceiveKeepsQueue(capacity, st.At(side));
      ReceiverStepKeeps(capacity, st, side, r.At(side));
  }

  // ----- Whole runs -----

  ghost predicate IsRun<T(!new)>(capacity: nat, run: seq<State<T>>, steps: seq<Action<T>>) {
    && |run| == |steps| + 1 && Init(run[0])
    && forall i :: 0 <= i < |steps| ==>
         Enabled(capacity, run[i], steps[i]) && run[i + 1] == Apply(capacity, run[i], steps[i])
  }

  lemma {:induction false} RunKeepsInv<T(!new)>(capacity: nat, run: seq<State<T>>, steps: seq<Action<T>>, i: nat)
    requires IsRun(capacity, run, steps) && i < |run|
    ensures Inv(capacity, run[i])
  {
    hide Inv, Enabled;
    if i == 0 {
      InitHolds(capacity, run[0]);
    } else {
      RunKeepsInv(capacity, run, steps, i - 1);
      assert run[i - 1 + 1] == Apply(capacity, run[i - 1], steps[i - 1]);
      StepKeeps(capacity, run[i - 1], steps[i - 1]);
    }
  }

  /** In every state of every run: queued frames and held permits stay within the
      capacity; what has been received is a prefix, in order, of what has been sent, and
      together with the queue it is all of it while the receiver is there; every sender
      that succeeded has sent its frame exactly once, and no other has sent anything. */
  lemma QueuesConserveFrames<T(!new)>(capacity: nat, run: seq<State<T>>, steps: seq<Action<T>>, i: nat, side: Side)
    requires IsRun(capacity, run, steps) && i < |run|
    ensures var q, pcs := run[i].At(side), run[i].pcs;
            && |q.buffer| + |q.permits| <= capacity
            && q.received <= Frames(q.sent)
            && (q.receiving ==> q.received + q.buffer == Frames(q.sent))
            && (forall t, f :: (t, f) in q.sent ==>
                  t in pcs && pcs[t] == Sent(side, f) && multiset(q.sent)[(t, f)] == 1)
            && (forall t, f :: t in pcs && pcs[t] == Sent(side, f) ==> (t, f) in q.sent)
  {
    RunKeepsInv(capacity, run, steps, i);
    var q, pcs := run[i].At(side), run[i].pcs;
    assert QueueOk(capacity, q) && KnownThreads(q, pcs.Keys);
    forall t, f | (t, f) in q.sent ensures t in pcs && pcs[t] == Sent(side, f) && multiset(q.sent)[(t, f)] == 1 {
      var k :| 0 <= k < |q.sent| && q.sent[k] == (t, f);
      assert ThreadOk(t, pcs[t], side, q, run[i].token);
    }
    forall t, f | t in pcs && pcs[t] == Sent(side, f) ensures (t, f) in q.sent {
      assert ThreadOk(t, pcs[t], side, q, run[i].token);
      assert (t, f) in multiset(q.sent);
    }
  }

  /** Some call of close has returned. */
  ghost predicate HasClosed<T(!new)>(st: State<T>) {
    exists t :: t in st.pcs && st.pcs[t].Closed?
  }

  lemma ClosedMeans<T(!new)>(capacity: nat, st: State<T>)
    requires Inv(capacity, st) && HasClosed(st)
    ensures !st.At(Outbound).open && !st.At(Inbound).open
    ensures forall t :: t in st.pcs ==> !st.pcs[t].Cleared?
  {
    var c :| c in st.pcs && st.pcs[c].Closed?;
    assert ThreadOk(c, st.pcs[c], Outbound, st.At(Outbound), st.token);
    assert ThreadOk(c, st.pcs[c], Inbound, st.At(Inbound), st.token);
    forall t | t in st.pcs ensures !st.pcs[t].Cleared? {
      assert ThreadOk(t, st.pcs[t], Outbound, st.At(Outbound), st.token);
      assert ThreadOk(t, st.pcs[t], Inbound, st.At(Inbound), st.token);
    }
  }

  lemma ClosedStaysClosed<T(!new)>(capacity: nat, st: State<T>, a: Action<T>)
    requires Enabled(capacity, st, a) && HasClosed(st)
    ensures HasClosed(Apply(capacity, st, a))
  {
    var c :| c in st.pcs && st.pcs[c].Closed?;
    assert c in Apply(capacity, st, a).pcs && Apply(capacity, st, a).pcs[c].Closed?;
  }

  /** After that, no thread is past the check, so no step enqueues, and a send that
      begins is refused at once. */
  lemma ClosedIsSilent<T(!new)>(capacity: nat, st: State<T>, a: Action<T>)
    requires Inv(capacity, st) && Enabled(capacity, st, a) && HasClosed(st)
    ensures !a.Enqueue?
    ensures forall side :: Apply(capacity, st, a).At(side).sent == st.At(side).sent
    ensures a.Begin? ==> Apply(capacity, st, a).pcs[a.t].Refused?
  {
    hide Inv, HasClosed, Apply, Enabled;
    ClosedMeans(capacity, st);
    if a.Enqueue? {
      EnqueueIsCleared(capacity, st, a);
      assert false;
    }
    OnlyEnqueueSends(capacity, st, a);
    if a.Begin? {
      BeginLooks(capacity, st, a);
    }
  }

  lemma EnqueueIsCleared<T(!new)>(capacity: nat, st: State<T>, a: Action<T>)
    requires Enabled(capacity, st, a) && a.Enqueue?
    ensures a.t in st.pcs && st.pcs[a.t].Cleared?
  {
  }

  lemma OnlyEnqueueSends<T(!new)>(capacity: nat, st: State<T>, a: Action<T>)
    requires Enabled(capacity, st, a) && !a.Enqueue?
    ensures forall side :: Apply(capacity, st, a).At(side).sent == st.At(side).sent
  {
  }

  lemma BeginLooks<T(!new)>(capacity: nat, st: State<T>, a: Action<T>)
    requires Enabled(capacity, st, a) && a.Begin?
    ensures a.t in Apply(capacity, st, a).pcs
    ensures !st.At(a.side).open ==> Apply(capacity, st, a).pcs[a.t].Refused?
  {
  }

  /** Silence after close: once a close has returned, nothing is ever enqueued again, by
      no stale handle and no blocked sender. */
  lemma {:induction false} SilenceAfterClose<T(!new)>(
      capacity: nat, run: seq<State<T>>, steps: seq<Action<T>>, i: nat, j: nat)
    requires IsRun(capacity, run, steps) && i <= j < |run| && HasClosed(run[i])
    ensures HasClosed(run[j]) && forall side :: run[j].At(side).sent == run[i].At(side).sent
    decreases j - i
  {
    hide Inv, Enabled, HasClosed;
    if i < j {
      SilenceAfterClose(capacity, run, steps, i, j - 1);
      RunKeepsInv(capacity, run, steps, j - 1);
      assert run[j - 1 + 1] == Apply(capacity, run[j - 1], steps[j - 1]);
      ClosedIsSilent(capacity, run[j - 1], steps[j - 1]);
      ClosedStaysClosed(capacity, run[j - 1], steps[j - 1]);
    }
  }

  /** Steps that remain for a send or a close. */
  function StepsLeft<T>(pc: Pc<T>): nat {
    match pc
    case Cloned(_, _) => 4
    case Reserved(_, _) => 3
    case Locked(_, _) => 2
    case Cleared(_, _) => 1
    case Cancelling => 3
    case TakingOutbound => 2
    case TakingInbound => 1
    case _ => 0
  }

  /** Step `a` is enabled and brings thread `u` closer to the end of its call. */
  ghost predicate Advances<T(!new)>(capacity: nat, st: State<T>, a: Action<T>, u: Tid) {
    && Enabled(capacity, st, a) && u in st.pcs && u in Apply(capacity, st, a).pcs
    && StepsLeft(Apply(capacity, st, a).pcs[u]) < StepsLeft(st.pcs[u])
  }

  lemma LockHolderAdvances<T(!new)>(capacity: nat, st: State<T>, side: Side) returns (a: Action<T>, u: Tid)
    requires Inv(capacity, st) && st.At(side).lock.Some?
    ensures u == st.At(side).lock.value && !a.Abandon? && Advances(capacity, st, a, u)
  {
    hide Inv, Enabled, Apply;
    u := st.At(side).lock.value;
    HolderIsAtWork(capacity, st, side);
    a := if st.pcs[u].Locked? then CheckOpen(u) else Enqueue(u);
    LockedAdvances(capacity, st, u);
  }

  lemma HolderIsAtWork<T(!new)>(capacity: nat, st: State<T>, side: Side)
    requires Inv(capacity, st) && st.At(side).lock.Some?
    ensures var u := st.At(side).lock.value;
            u in st.pcs && (st.pcs[u].Locked? || st.pcs[u].Cleared?)
  {
    var u := st.At(side).lock.value;
    assert KnownThreads(st.At(side), st.pcs.Keys);
    assert ThreadOk(u, st.pcs[u], side, st.At(side), st.token);
  }

  lemma LockedAdvances<T(!new)>(capacity: nat, st: State<T>, u: Tid)
    requires u in st.pcs && (st.pcs[u].Locked? || st.pcs[u].Cleared?)
    ensures Advances(capacity, st, if st.pcs[u].Locked? then CheckOpen(u) else Enqueue(u), u)
  {
  }

  /** A sender that waits for a slot in a full queue which is neither closed nor abandoned. */
  ghost predicate WaitsForSlot<T(!new)>(capacity: nat, st: State<T>, t: Tid) {
    && t in st.pcs && st.pcs[t].Cloned? && !st.token && st.At(st.pcs[t].side).receiving
    && |st.At(st.pcs[t].side).buffer| + |st.At(st.pcs[t].side).permits| >= capacity
  }

  /** No deadlock: while a thread is in the middle of a call, it or the holder of the lock
      it needs can advance, unless it waits for a receiver to free a slot. In particular no
      sender waits on a full queue once the token is cancelled. */
  lemma NoDeadlock<T(!new)>(capacity: nat, st: State<T>, t: Tid) returns (a: Action<T>, u: Tid)
    requires Inv(capacity, st) && t in st.pcs && StepsLeft(st.pcs[t]) > 0
    requires !WaitsForSlot(capacity, st, t)
    ensures !a.Abandon? && Advances(capacity, st, a, u)
    ensures u == t || exists side :: st.At(side).lock == Some(u)
  {
    hide Inv, Advances;
    var pc := st.pcs[t];
    var side := if pc.Reserved? then pc.side else TakenSide(pc);
    if (pc.Reserved? || pc.TakingOutbound? || pc.TakingInbound?) && st.At(side).lock.Some? {
      a, u := LockHolderAdvances(capacity, st, side);
      assert st.At(side).lock == Some(u);
    } else {
      u := t;
      a := OwnAdvance(st, t);
      OwnAdvanceAdvances(capacity, st, t);
    }
  }

  /** The step by which a thread goes on by itself. */
  function OwnAdvance<T>(st: State<T>, t: Tid): Action<T>
    requires t in st.pcs
  {
    match st.pcs[t]
    case Cloned(s, _) => if st.token then GiveUp(t) else if st.At(s).receiving then Reserve(t) else NoReceiver(t)
    case Reserved(_, _) => Lock(t)
    case Locked(_, _) => CheckOpen(t)
    case Cleared(_, _) => Enqueue(t)
    case Cancelling => CancelToken(t)
    case _ => Take(t)
  }

  lemma OwnAdvanceAdvances<T(!new)>(capacity: nat, st: State<T>, t: Tid)
    requires t in st.pcs && StepsLeft(st.pcs[t]) > 0 && !WaitsForSlot(capacity, st, t)
    requires var pc := st.pcs[t];
             pc.Reserved? || pc.TakingOutbound? || pc.TakingInbound? ==>
               st.At(if pc.Reserved? then pc.side else TakenSide(pc)).lock.None?
    ensures !OwnAdvance(st, t).Abandon? && Advances(capacity, st, OwnAdvance(st, t), t)
  {
  }
}
