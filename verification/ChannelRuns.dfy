/** What sends, receives and closes achieve in the runs of a channel: what a refused send was
    refused for, and that an undisturbed call goes through. */
module ChannelRuns {
  import opened Prelude
  import opened ChannelProtocol

  // ----- Why sends are refused -----

  ghost predicate CloseBegun<T(!new)>(steps: seq<Action<T>>) {
    exists t :: BeginClose(t) in steps
  }

  ghost predicate ReceiverDropped<T(!new)>(steps: seq<Action<T>>) {
    exists side :: DropReceiver(side) in steps
  }

  /** Whatever stands in the way of a send has been done by a step. */
  ghost predicate Caused<T(!new)>(st: State<T>, steps: seq<Action<T>>) {
    && (forall t :: t in st.pcs && st.pcs[t].Refused? ==>
          Abandon(t) in steps || CloseBegun(steps) || ReceiverDropped(steps))
    && (forall side :: !st.At(side).receiving ==> DropReceiver(side) in steps)
    && (forall side :: !st.At(side).open ==> CloseBegun(steps))
    && (st.token ==> CloseBegun(steps))
    && (forall t :: t in st.pcs && (st.pcs[t].Cancelling? || st.pcs[t].TakingOutbound? || st.pcs[t].TakingInbound?
                                    || st.pcs[t].Closed?) ==>
          CloseBegun(steps))
  }

  lemma InitIsCaused<T(!new)>(st: State<T>)
    requires Init(st)
    ensures Caused(st, [])
  {
    forall side ensures st.At(side).receiving && st.At(side).open {
      assert st.At(side) == Queue(true, None, [], {}, true, [], []);
    }
  }

  lemma CausesStay<T(!new)>(st: State<T>, steps: seq<Action<T>>, a: Action<T>)
    requires Caused(st, steps)
    ensures Caused(st, steps + [a])
  {
    if CloseBegun(steps) {
      var t :| BeginClose(t) in steps;
      assert BeginClose(t) in steps + [a];
    }
    if ReceiverDropped(steps) {
      var side :| DropReceiver(side) in steps;
      assert DropReceiver(side) in steps + [a];
    }
  }

  /** The step that refuses a send of thread `t`, if this one does. */
  lemma RefusalIsCaused<T(!new)>(capacity: nat, st: State<T>, all: seq<Action<T>>, a: Action<T>, t: Tid)
    requires Enabled(capacity, st, a) && Caused(st, all) && a in all
    requires t in Apply(capacity, st, a).pcs && Apply(capacity, st, a).pcs[t].Refused?
    ensures Abandon(t) in all || CloseBegun(all) || ReceiverDropped(all)
  {
    hide CloseBegun, ReceiverDropped;
    if !(t in st.pcs && st.pcs[t].Refused?) && a.NoReceiver? {
      DropWasCaused(all, st.pcs[t].side);
    }
  }

  /** Only a drop ends receiving, and only a close that takes the sender ends sending. */
  lemma WhoEndsQueues<T(!new)>(capacity: nat, st: State<T>, a: Action<T>, side: Side)
    requires Enabled(capacity, st, a)
    ensures !Apply(capacity, st, a).At(side).receiving ==>
              !st.At(side).receiving || (a.DropReceiver? && a.side == side)
    ensures !Apply(capacity, st, a).At(side).open ==> !st.At(side).open || a.Take?
    ensures a.Take? ==> a.t in st.pcs && (st.pcs[a.t].TakingOutbound? || st.pcs[a.t].TakingInbound?)
  {
  }

  lemma QueuesAreCaused<T(!new)>(capacity: nat, st: State<T>, all: seq<Action<T>>, a: Action<T>, side: Side)
    requires Enabled(capacity, st, a) && Caused(st, all) && a in all
    ensures !Apply(capacity, st, a).At(side).receiving ==> DropReceiver(side) in all
    ensures !Apply(capacity, st, a).At(side).open ==> CloseBegun(all)
  {
    hide CloseBegun, ReceiverDropped, Apply, Enabled;
    WhoEndsQueues(capacity, st, a, side);
    if a.DropReceiver? && a.side == side {
      assert a == DropReceiver(side);
    }
  }

  lemma ClosersAreCaused<T(!new)>(capacity: nat, st: State<T>, all: seq<Action<T>>, a: Action<T>, t: Tid)
    requires Enabled(capacity, st, a) && Caused(st, all) && a in all && t in Apply(capacity, st, a).pcs
    requires var pc := Apply(capacity, st, a).pcs[t];
             pc.Cancelling? || pc.TakingOutbound? || pc.TakingInbound? || pc.Closed?
    ensures CloseBegun(all)
  {
    hide CloseBegun, ReceiverDropped;
    CloseIsBegun(all, a);
  }

  lemma StepIsCaused<T(!new)>(capacity: nat, st: State<T>, all: seq<Action<T>>, a: Action<T>)
    requires Enabled(capacity, st, a) && Caused(st, all) && a in all
    ensures Caused(Apply(capacity, st, a), all)
  {
    hide CloseBegun, ReceiverDropped, Apply, Enabled;
    var r := Apply(capacity, st, a);
    forall t | t in r.pcs && r.pcs[t].Refused? ensures Abandon(t) in all || CloseBegun(all) || ReceiverDropped(all) {
      RefusalIsCaused(capacity, st, all, a, t);
    }
    forall side
      ensures !r.At(side).receiving ==> DropReceiver(side) in all
      ensures !r.At(side).open ==> CloseBegun(all)
    {
      QueuesAreCaused(capacity, st, all, a, side);
    }
    forall t | t in r.pcs && (r.pcs[t].Cancelling? || r.pcs[t].TakingOutbound? || r.pcs[t].TakingInbound?
                              || r.pcs[t].Closed?)
      ensures CloseBegun(all)
    {
      ClosersAreCaused(capacity, st, all, a, t);
    }
    TokenIsCaused(capacity, st, all, a);
  }

  lemma TokenIsCaused<T(!new)>(capacity: nat, st: State<T>, all: seq<Action<T>>, a: Action<T>)
    requires Enabled(capacity, st, a) && Caused(st, all)
    ensures Apply(capacity, st, a).token ==> CloseBegun(all)
  {
    hide CloseBegun, ReceiverDropped;
  }

  lemma CloseIsBegun<T(!new)>(steps: seq<Action<T>>, a: Action<T>)
    requires a in steps
    ensures a.BeginClose? ==> CloseBegun(steps)
  {
    if a.BeginClose? {
      assert BeginClose(a.t) in steps;
    }
  }

  lemma DropWasCaused<T(!new)>(steps: seq<Action<T>>, side: Side)
    ensures DropReceiver(side) in steps ==> ReceiverDropped(steps)
  {
  }

  lemma {:induction false} RunIsCaused<T(!new)>(capacity: nat, run: seq<State<T>>, steps: seq<Action<T>>, i: nat)
    requires IsRun(capacity, run, steps) && i < |run|
    ensures Caused(run[i], steps[..i])
  {
    hide Enabled, Caused, Apply;
    if i == 0 {
      InitIsCaused(run[0]);
      assert steps[..0] == [];
    } else {
      RunIsCaused(capacity, run, steps, i - 1);
      assert run[i - 1 + 1] == Apply(capacity, run[i - 1], steps[i - 1]);
      assert steps[..i] == steps[..i - 1] + [steps[i - 1]];
      CausesStay(run[i - 1], steps[..i - 1], steps[i - 1]);
      StepIsCaused(capacity, run[i - 1], steps[..i], steps[i - 1]);
    }
  }

  /** A send is refused only if its caller abandoned it, or a close was begun, or a receiver
      was dropped before. */
  lemma RefusalHasCause<T(!new)>(capacity: nat, run: seq<State<T>>, steps: seq<Action<T>>, i: nat, t: Tid)
    requires IsRun(capacity, run, steps) && i < |run| && t in run[i].pcs && run[i].pcs[t].Refused?
    ensures exists j :: 0 <= j < i && (steps[j] == Abandon(t) || steps[j].BeginClose? || steps[j].DropReceiver?)
  {
    hide IsRun, Enabled;
    LengthOfRun(capacity, run, steps);
    RunIsCaused(capacity, run, steps, i);
    var before := steps[..i];
    if Abandon(t) in before {
      var j :| 0 <= j < i && before[j] == Abandon(t);
      assert steps[j] == before[j];
    } else if CloseBegun(before) {
      var u :| BeginClose(u) in before;
      var j :| 0 <= j < i && before[j] == BeginClose(u);
      assert steps[j] == before[j];
    } else {
      var side :| DropReceiver(side) in before;
      var j :| 0 <= j < i && before[j] == DropReceiver(side);
      assert steps[j] == before[j];
    }
  }

  lemma LengthOfRun<T(!new)>(capacity: nat, run: seq<State<T>>, steps: seq<Action<T>>)
    requires IsRun(capacity, run, steps)
    ensures |run| == |steps| + 1
  {
  }

  /** Left alone, no send is ever refused. */
  lemma NoneIsRefused<T(!new)>(capacity: nat, run: seq<State<T>>, steps: seq<Action<T>>, i: nat, t: Tid)
    requires IsRun(capacity, run, steps) && i < |run| && t in run[i].pcs
    requires forall j :: 0 <= j < |steps| ==> !steps[j].BeginClose? && !steps[j].DropReceiver? && !steps[j].Abandon?
    ensures !run[i].pcs[t].Refused?
  {
    hide IsRun;
    LengthOfRun(capacity, run, steps);
    if run[i].pcs[t].Refused? {
      RefusalHasCause(capacity, run, steps, i, t);
    }
  }

  // ----- Sends after a cancellation -----

  ghost predicate IsCleared<T(!new)>(st: State<T>, t: Tid) {
    t in st.pcs && st.pcs[t].Cleared?
  }

  lemma NoneIsClearedAnew<T(!new)>(capacity: nat, st: State<T>, a: Action<T>, t: Tid)
    requires Enabled(capacity, st, a) && st.token
    ensures Apply(capacity, st, a).token && (IsCleared(Apply(capacity, st, a), t) ==> IsCleared(st, t))
    ensures a == Enqueue(t) ==> IsCleared(st, t)
  {
  }

  /** Once the token is cancelled, as a close does first, a frame is sent only by a thread
      that had passed its check before. */
  lemma {:induction false} CancellationEndsSends<T(!new)>(
      capacity: nat, run: seq<State<T>>, steps: seq<Action<T>>, i: nat, j: nat, t: Tid)
    requires IsRun(capacity, run, steps) && i <= j < |run| && run[i].token
    ensures run[j].token
    ensures (j < |steps| && steps[j] == Enqueue(t)) || IsCleared(run[j], t) ==>
              t in run[i].pcs && run[i].pcs[t].Cleared?
  {
    hide Enabled, Apply, IsCleared;
    if i < j {
      CancellationEndsSends(capacity, run, steps, i, j - 1, t);
      assert run[j - 1 + 1] == Apply(capacity, run[j - 1], steps[j - 1]);
      NoneIsClearedAnew(capacity, run[j - 1], steps[j - 1], t);
    }
    if j < |steps| {
      NoneIsClearedAnew(capacity, run[j], steps[j], t);
    }
    ClearedMeans(run[i], t);
  }

  lemma ClearedMeans<T(!new)>(st: State<T>, t: Tid)
    ensures IsCleared(st, t) <==> t in st.pcs && st.pcs[t].Cleared?
  {
  }

  // ----- Runs that are carried on -----

  /** The states that actions lead through, each enabled where it is taken. */
  ghost predicate Leads<T(!new)>(capacity: nat, st: State<T>, moves: seq<Action<T>>, r: State<T>)
    decreases |moves|
  {
    if moves == [] then r == st
    else Enabled(capacity, st, moves[0]) && Leads(capacity, Apply(capacity, st, moves[0]), moves[1..], r)
  }

  lemma LeadsFirst<T(!new)>(capacity: nat, st: State<T>, a: Action<T>, moves: seq<Action<T>>, r: State<T>)
    requires Enabled(capacity, st, a) && Leads(capacity, Apply(capacity, st, a), moves, r)
    ensures Leads(capacity, st, [a] + moves, r)
  {
    assert ([a] + moves)[1..] == moves;
  }

  lemma LeadsNowhere<T(!new)>(capacity: nat, st: State<T>)
    ensures Leads(capacity, st, [], st)
  {
  }

  /** Such actions carry a run on. */
  lemma {:induction false} RunGoesOn<T(!new)>(
      capacity: nat, run: seq<State<T>>, steps: seq<Action<T>>, moves: seq<Action<T>>, r: State<T>)
      returns (longer: seq<State<T>>)
    requires IsRun(capacity, run, steps) && Leads(capacity, run[|run| - 1], moves, r)
    ensures IsRun(capacity, longer, steps + moves) && run <= longer && longer[|longer| - 1] == r
    decreases |moves|
  {
    hide Enabled, Apply;
    longer := run;
    if moves == [] {
      assert steps + moves == steps;
    } else {
      var next := Apply(capacity, run[|run| - 1], moves[0]);
      OneMoreStep(capacity, run, steps, moves[0]);
      longer := RunGoesOn(capacity, run + [next], steps + [moves[0]], moves[1..], r);
      assert steps + [moves[0]] + moves[1..] == steps + moves;
    }
  }

  lemma OneMoreStep<T(!new)>(capacity: nat, run: seq<State<T>>, steps: seq<Action<T>>, a: Action<T>)
    requires IsRun(capacity, run, steps) && Enabled(capacity, run[|run| - 1], a)
    ensures IsRun(capacity, run + [Apply(capacity, run[|run| - 1], a)], steps + [a])
  {
    hide Enabled, Apply, Init;
    var longer, all := run + [Apply(capacity, run[|run| - 1], a)], steps + [a];
    forall i | 0 <= i < |all|
      ensures Enabled(capacity, longer[i], all[i]) && longer[i + 1] == Apply(capacity, longer[i], all[i])
    {
      if i < |steps| {
        assert run[i + 1] == Apply(capacity, run[i], steps[i]);
      }
    }
  }

  // ----- Sends go through -----

  /** Nothing stands in the way of a send of thread `t`. */
  ghost predicate MaySend<T(!new)>(capacity: nat, st: State<T>, t: Tid, side: Side) {
    var q := st.At(side);
    && t in st.pcs && st.pcs[t].Idle? && t !in q.permits && !st.token
    && q.open && q.receiving && q.lock.None? && |q.buffer| + |q.permits| < capacity
  }

  /** The state after thread `t` has sent `frame`: nothing else has changed. */
  ghost function AfterSend<T(!new)>(st: State<T>, t: Tid, side: Side, frame: T): State<T> {
    var q := st.At(side);
    var sent := q.(buffer := q.buffer + [frame], sent := q.sent + [(t, frame)]);
    st.Put(side, sent).(pcs := st.pcs[t := Sent(side, frame)])
  }

  function SendMoves<T>(t: Tid, side: Side, frame: T): seq<Action<T>> {
    [Begin(t, side, frame), Reserve(t), Lock(t), CheckOpen(t), Enqueue(t)]
  }

  lemma PutTwice<T>(st: State<T>, side: Side, p: Queue<T>, q: Queue<T>, a: map<Tid, Pc<T>>, b: map<Tid, Pc<T>>)
    ensures st.Put(side, p).(pcs := a).Put(side, q).(pcs := b) == st.Put(side, q).(pcs := b)
    ensures st.Put(side, p).(pcs := a).At(side) == p
    ensures st.Put(side, st.At(side)) == st
  {
  }

  lemma PermitComesAndGoes(permits: set<Tid>, t: Tid)
    requires t !in permits
    ensures permits + {t} - {t} == permits
  {
  }

  lemma LastPcCounts<T>(pcs: map<Tid, Pc<T>>, t: Tid, x: Pc<T>, y: Pc<T>)
    ensures pcs[t := x][t := y] == pcs[t := y]
  {
  }

  /** The send of a thread that has locked the queue. */
  lemma LockedSendLeads<T(!new)>(capacity: nat, st: State<T>, t: Tid, side: Side, frame: T)
    requires t in st.pcs && st.pcs[t] == Locked(side, frame) && !st.token
    requires st.At(side).open && st.At(side).receiving && st.At(side).lock == Some(t)
    ensures var q := st.At(side);
            Leads(capacity, st, [CheckOpen(t), Enqueue(t)],
                  st.Put(side, q.(lock := None, permits := q.permits - {t}, buffer := q.buffer + [frame],
                                  sent := q.sent + [(t, frame)])).(pcs := st.pcs[t := Sent(side, frame)]))
  {
    var cleared := st.(pcs := st.pcs[t := Cleared(side, frame)]);
    assert Apply(capacity, st, CheckOpen(t)) == cleared;
    LastPcCounts(st.pcs, t, Cleared(side, frame), Sent(side, frame));
    var r := Apply(capacity, cleared, Enqueue(t));
    LeadsNowhere(capacity, r);
    LeadsFirst(capacity, cleared, Enqueue(t), [], r);
    LeadsFirst(capacity, st, CheckOpen(t), [Enqueue(t)], r);
    var moves: seq<Action<T>> := [CheckOpen(t)] + [Enqueue(t)];
    assert moves == [CheckOpen(t), Enqueue(t)];
  }

  lemma SendLeads<T(!new)>(capacity: nat, st: State<T>, t: Tid, side: Side, frame: T)
    requires MaySend(capacity, st, t, side)
    ensures Leads(capacity, st, SendMoves(t, side, frame), AfterSend(st, t, side, frame))
  {
    hide Leads;
    var q := st.At(side);
    var begun := st.(pcs := st.pcs[t := Cloned(side, frame)]);
    var reserved := st.Put(side, q.(permits := q.permits + {t})).(pcs := st.pcs[t := Reserved(side, frame)]);
    var locked :=
      st.Put(side, q.(permits := q.permits + {t}, lock := Some(t))).(pcs := st.pcs[t := Locked(side, frame)]);
    PermitComesAndGoes(q.permits, t);
    LastPcCounts(st.pcs, t, Cloned(side, frame), Reserved(side, frame));
    LastPcCounts(st.pcs, t, Reserved(side, frame), Locked(side, frame));
    LastPcCounts(st.pcs, t, Locked(side, frame), Sent(side, frame));
    LockedSendLeads(capacity, locked, t, side, frame);
    var r := AfterSend(st, t, side, frame);
    assert Leads(capacity, locked, [CheckOpen(t), Enqueue(t)], r);
    LeadsFirst(capacity, reserved, Lock(t), [CheckOpen(t), Enqueue(t)], r);
    LeadsFirst(capacity, begun, Reserve(t), [Lock(t)] + [CheckOpen(t), Enqueue(t)], r);
    LeadsFirst(capacity, st, Begin(t, side, frame), [Reserve(t)] + ([Lock(t)] + [CheckOpen(t), Enqueue(t)]), r);
    assert SendMoves(t, side, frame) ==
           [Begin(t, side, frame)] + ([Reserve(t)] + ([Lock(t)] + [CheckOpen(t), Enqueue(t)]));
  }

  /** A send goes through: in a run that has come to where the queue is open and received,
      has a free slot and a free lock, and the token is not cancelled, an idle thread can
      send a frame by steps of its own. Its frame is then the last of those sent, and
      nothing else has changed. */
  lemma SendGoesThrough<T(!new)>(
      capacity: nat, run: seq<State<T>>, steps: seq<Action<T>>, t: Tid, side: Side, frame: T)
      returns (longer: seq<State<T>>)
    requires IsRun(capacity, run, steps)
    requires var st := run[|run| - 1];
             var q := st.At(side);
             && t in st.pcs && st.pcs[t].Idle? && !st.token
             && q.open && q.receiving && q.lock.None? && |q.buffer| + |q.permits| < capacity
    ensures IsRun(capacity, longer, steps + [Begin(t, side, frame), Reserve(t), Lock(t), CheckOpen(t), Enqueue(t)])
    ensures var st, r := run[|run| - 1], longer[|longer| - 1];
            && run <= longer && r.pcs == st.pcs[t := Sent(side, frame)] && r.token == st.token
            && r.At(side).sent == st.At(side).sent + [(t, frame)]
            && r.At(side).buffer == st.At(side).buffer + [frame]
            && r.At(side) == st.At(side).(sent := r.At(side).sent, buffer := r.At(side).buffer)
            && forall s :: s != side ==> r.At(s) == st.At(s)
  {
    hide IsRun, Inv, Leads;
    LengthOfRun(capacity, run, steps);
    var st := run[|run| - 1];
    RunKeepsInv(capacity, run, steps, |run| - 1);
    IdleHoldsNothing(capacity, st, t, side);
    SendLeads(capacity, st, t, side, frame);
    longer := RunGoesOn(capacity, run, steps, SendMoves(t, side, frame), AfterSend(st, t, side, frame));
  }

  lemma IdleHoldsNothing<T(!new)>(capacity: nat, st: State<T>, t: Tid, side: Side)
    requires Inv(capacity, st) && t in st.pcs && st.pcs[t].Idle?
    ensures t !in st.At(side).permits
  {
    assert ThreadOk(t, st.pcs[t], side, st.At(side), st.token);
  }

  // ----- Frames arrive -----

  function Receives<T>(side: Side, n: nat): (moves: seq<Action<T>>)
    ensures |moves| == n && forall i :: 0 <= i < n ==> moves[i] == Receive(side)
  {
    seq(n, i requires 0 <= i < n => Receive(side))
  }

  lemma {:induction false} ReceivesLead<T(!new)>(capacity: nat, st: State<T>, side: Side, n: nat)
    requires st.At(side).receiving && n <= |st.At(side).buffer|
    ensures var q := st.At(side);
            Leads(capacity, st, Receives(side, n),
                  st.Put(side, q.(buffer := q.buffer[n..], received := q.received + q.buffer[..n])))
    decreases n
  {
    var q := st.At(side);
    if n == 0 {
      assert q.buffer[0..] == q.buffer && q.received + q.buffer[..0] == q.received;
      PutTwice(st, side, q, q, st.pcs, st.pcs);
      LeadsNowhere(capacity, st);
    } else {
      var next := st.Put(side, q.(buffer := q.buffer[1..], received := q.received + [q.buffer[0]]));
      ReceivesLead(capacity, next, side, n - 1);
      assert q.buffer[1..][n - 1..] == q.buffer[n..];
      assert q.received + [q.buffer[0]] + q.buffer[1..][..n - 1] == q.received + q.buffer[..n];
      LeadsFirst(capacity, st, Receive(side), Receives(side, n - 1),
                 st.Put(side, q.(buffer := q.buffer[n..], received := q.received + q.buffer[..n])));
      assert [Receive(side)] + Receives<T>(side, n - 1) == Receives<T>(side, n);
    }
  }

  /** Frames arrive: in whatever state a run is, as long as the receiver is there it can, by
      receiving alone, come to have all frames that were sent, in the order of sending. */
  lemma AllFramesArrive<T(!new)>(capacity: nat, run: seq<State<T>>, steps: seq<Action<T>>, side: Side)
      returns (longer: seq<State<T>>)
    requires IsRun(capacity, run, steps) && run[|run| - 1].At(side).receiving
    ensures var n := |run[|run| - 1].At(side).buffer|;
            IsRun(capacity, longer, steps + Receives(side, n)) && run <= longer
    ensures var st, r := run[|run| - 1], longer[|longer| - 1];
            && r.At(side).received == Frames(st.At(side).sent) && r.At(side).buffer == []
            && r.At(side).sent == st.At(side).sent
  {
    hide IsRun, Inv, Leads;
    LengthOfRun(capacity, run, steps);
    var st := run[|run| - 1];
    var n := |st.At(side).buffer|;
    QueuesConserveFrames(capacity, run, steps, |run| - 1, side);
    ReceivesLead(capacity, st, side, n);
    var q := st.At(side);
    longer := RunGoesOn(capacity, run, steps, Receives(side, n),
                        st.Put(side, q.(buffer := q.buffer[n..], received := q.received + q.buffer[..n])));
    assert q.buffer[..n] == q.buffer && q.buffer[n..] == [];
  }

  // ----- Closes return -----

  /** A close returns: with both locks free an idle thread can close the channel by steps of
      its own. The token is then cancelled and both queues are closed for sends, while what
      was queued may still be received. */
  lemma CloseReturns<T(!new)>(capacity: nat, run: seq<State<T>>, steps: seq<Action<T>>, t: Tid)
      returns (longer: seq<State<T>>)
    requires IsRun(capacity, run, steps) && t in run[|run| - 1].pcs && run[|run| - 1].pcs[t].Idle?
    requires run[|run| - 1].outbound.lock.None? && run[|run| - 1].inbound.lock.None?
    ensures IsRun(capacity, longer, steps + [BeginClose(t), CancelToken(t), Take(t), Take(t)]) && run <= longer
    ensures var st, r := run[|run| - 1], longer[|longer| - 1];
            && r.token && r.pcs == st.pcs[t := Closed]
            && forall side :: r.At(side) == st.At(side).(open := false)
  {
    hide IsRun, Leads;
    LengthOfRun(capacity, run, steps);
    var st := run[|run| - 1];
    var r := State(st.outbound.(open := false), st.inbound.(open := false), true, st.pcs[t := Closed]);
    CloseLeads(capacity, st, t, r);
    longer := RunGoesOn(capacity, run, steps, [BeginClose(t), CancelToken(t), Take(t), Take(t)], r);
  }

  lemma CloseLeads<T(!new)>(capacity: nat, st: State<T>, t: Tid, r: State<T>)
    requires t in st.pcs && st.pcs[t].Idle? && st.outbound.lock.None? && st.inbound.lock.None?
    requires r == State(st.outbound.(open := false), st.inbound.(open := false), true, st.pcs[t := Closed])
    ensures Leads(capacity, st, [BeginClose(t), CancelToken(t), Take(t), Take(t)], r)
  {
    hide Leads;
    var cancelling := st.(pcs := st.pcs[t := Cancelling]);
    var taking := st.(token := true, pcs := st.pcs[t := TakingOutbound]);
    var half := taking.(outbound := st.outbound.(open := false), pcs := st.pcs[t := TakingInbound]);
    LastPcCounts(st.pcs, t, Cancelling, TakingOutbound);
    LastPcCounts(st.pcs, t, TakingOutbound, TakingInbound);
    LastPcCounts(st.pcs, t, TakingInbound, Closed);
    LeadsNowhere(capacity, r);
    assert Apply(capacity, half, Take(t)) == r;
    LeadsFirst(capacity, half, Take(t), [], r);
    assert Apply(capacity, taking, Take(t)) == half;
    LeadsFirst(capacity, taking, Take(t), [Take(t)] + [], r);
    LeadsFirst(capacity, cancelling, CancelToken(t), [Take(t)] + ([Take(t)] + []), r);
    LeadsFirst(capacity, st, BeginClose(t), [CancelToken(t)] + ([Take(t)] + ([Take(t)] + [])), r);
    var moves: seq<Action<T>> := [BeginClose(t)] + ([CancelToken(t)] + ([Take(t)] + ([Take(t)] + [])));
    assert moves == [BeginClose(t), CancelToken(t), Take(t), Take(t)];
  }
}
