/** The poll loop as the object it is: the stretches of code that run without
    losing the processor, as methods. */
module PollLoopObject {
  import opened Basics
  import opened PollLoop
  import opened PollOrder
  import opened PollProgress

  class PollLoopImpl {
    var pollables: seq<Ref>
    var pollingThread: Option<Tid>
    var dormantThreads: seq<Tid>
    var nextNode: nat
    /** Where each pool thread is in its code. */
    ghost var loc: map<Tid, Loc>

    ghost function State(): Loop
      reads this
    {
      Loop(pollables, pollingThread, dormantThreads, loc, nextNode)
    }

    ghost predicate Valid()
      reads this
    {
      Inv(State())
    }

    /** The constructor starts `n - 1` threads, which lie dormant; run() makes the
        caller the polling thread. */
    constructor (n: nat)
      requires n > 0
      ensures Valid() && State() == Initial(n, [])
    {
      pollables, nextNode := [], 0;
      dormantThreads := seq(n - 1, i requires 0 <= i < n - 1 => n - 2 - i);
      pollingThread := Some(n - 1);
      loc := Initial(n, []).loc;
      new;
      InitialInv(n, []);
      assert Initial(n, []).list == [];
    }

    method AddPollable(p: Pid)
      requires Valid() && Enabled(State(), Add(p))
      modifies this
      ensures Valid() && State() == Next(old(State()), Add(p)).0
    {
      StepInv(State(), Add(p));
      pollables := pollables + [Ref(nextNode, Some(p), 0)];
      nextNode := nextNode + 1;
    }

    /** `pos` is where the pollable recorded its node. */
    method RemovePollable(p: Pid, pos: nat)
      requires Valid() && pos < |pollables| && pollables[pos].pollable == Some(p)
      modifies this
      ensures Enabled(old(State()), Remove(p))
      ensures Valid() && State() == Next(old(State()), Remove(p)).0
    {
      assert pollables[pos] in pollables;
      LiveMember(pollables, pollables[pos]);
      StepInv(State(), Remove(p));
      PollableAt(pollables, nextNode, pos, p);
      pollables := pollables[pos := pollables[pos].(pollable := None)];
      if pollables[pos].refCnt == 0 {
        pollables := Erase(pollables, pos);
      }
    }

    /** The body of service_pollables from list position `j` on, up to the next
        poll() call or the end of the list. */
    method ServiceFrom(t: Tid, j: nat) returns (started: Option<Pid>)
      requires j <= |pollables|
      modifies this
      ensures (State(), started) == EnterFrom(old(State()), t, j)
    {
      var i: nat := j;
      while i < |pollables| && pollables[i].pollable.None?
        invariant 0 <= i <= |pollables| && EnterFrom(State(), t, i) == EnterFrom(old(State()), t, j)
        decreases |pollables| - i
      {
        if pollables[i].refCnt == 0 {
          pollables := Erase(pollables, i);
        } else {
          i := i + 1;
        }
      }
      if i == |pollables| {
        loc := loc[t := Top];
        started := None;
      } else {
        var r := pollables[i];
        pollables := pollables[i := r.(refCnt := r.refCnt + 1)];
        loc := loc[t := InPoll(r.node, r.pollable.value, false)];
        started := r.pollable;
      }
    }

    method Begin(t: Tid) returns (started: Option<Pid>)
      requires Valid() && Enabled(State(), Step.Begin(t))
      modifies this
      ensures old(pollingThread) == Some(t)
      ensures Valid() && (State(), started) == Next(old(State()), Step.Begin(t))
      ensures started == Head(Order(old(State())))
    {
      BeginStarts(State(), t);
      OnlyThePollingThread(State(), Step.Begin(t));
      StepInv(State(), Step.Begin(t));
      started := ServiceFrom(t, 0);
    }

    /** poll() of the node at `i` has returned. */
    method Return(t: Tid, i: nat) returns (started: Option<Pid>)
      requires Valid() && Enabled(State(), Step.Return(t)) && i < |pollables| && pollables[i].node == loc[t].node
      modifies this
      ensures Valid() && (State(), started) == Next(old(State()), Step.Return(t))
      ensures old(pollingThread) == Some(t) ==> started == Head(ToCome(old(State())))
    {
      StepInv(State(), Step.Return(t));
      FindUnique(pollables, nextNode, i);
      if pollingThread == Some(t) { ReturnStarts(State(), t); }
      started := GiveBack(t, i);
    }

    /** Gives back the node, and goes on as far as the thread still may. */
    method GiveBack(t: Tid, i: nat) returns (started: Option<Pid>)
      requires Enabled(State(), Step.Return(t)) && i < |pollables| && Find(pollables, loc[t].node) == i
      modifies this
      ensures (State(), started) == Next(old(State()), Step.Return(t))
    {
      var r := pollables[i].(refCnt := pollables[i].refCnt - 1);
      var j := i + 1;
      if r.refCnt == 0 && r.pollable.None? {
        pollables := Erase(pollables, i);
        j := i;
      } else {
        pollables := pollables[i := r];
      }
      if pollingThread == Some(t) {
        started := ServiceFrom(t, j);
      } else {
        started := None;
        if pollingThread.Some? {
          dormantThreads := [t] + dormantThreads;
          loc := loc[t := Dormant];
        } else {
          pollingThread := Some(t);
          loc := loc[t := Top];
        }
      }
    }

    /** The pre-block hook of thread `t`, which is in poll() of the node at `i`. */
    method AppointPollingThread(t: Tid, i: nat)
      requires Valid() && Enabled(State(), Step.Block(t)) && i < |pollables| && pollables[i].node == loc[t].node
      modifies this
      ensures old(pollingThread) == Some(t)
      ensures Valid() && State() == Next(old(State()), Step.Block(t)).0
    {
      OnlyThePollingThread(State(), Step.Block(t));
      StepInv(State(), Step.Block(t));
      FindUnique(pollables, nextNode, i);
      HandOn(t, i);
    }

    /** Rotates the list and appoints a dormant thread, if there is one. */
    method HandOn(t: Tid, i: nat)
      requires Enabled(State(), Step.Block(t)) && i < |pollables| && Find(pollables, loc[t].node) == i
      modifies this
      ensures State() == Next(old(State()), Step.Block(t)).0
    {
      pollables := pollables[i + 1..] + pollables[..i + 1];
      loc := loc[t := loc[t].(hooked := true)];
      if dormantThreads != [] {
        loc := loc[dormantThreads[0] := Appointed];
        pollingThread := Some(dormantThreads[0]);
        dormantThreads := dormantThreads[1..];
      } else {
        pollingThread := None;
      }
    }
  }
}
