/** The script scheduler of nm-dispatcher.c: requests arrive, their scripts are started, end or time out,
    and requests are answered.  Each method keeps the state that of the reference server of
    ScriptServer.dfy, line by line of a ghost log, and leaves nothing startable unstarted. */
module DispatcherModel {
  import opened Options
  import opened ScriptServer
  import opened DispatcherState
  import opened BoundedWaiting

  /** What waitpid reports about a child. */
  datatype ExitStatus = Exited(code: nat) | Stopped(sig: nat) | Signaled(sig: nat) | Unclear

  /** Everything that can happen to the dispatcher from outside. */
  datatype Event =
    | Action(specs: seq<Spec>, invalid: bool, bad: set<ScriptId>)
    | ChildExit(id: nat, k: nat, status: ExitStatus, bad: set<ScriptId>)
    | TimeUp(id: nat, k: nat, bad: set<ScriptId>)
    | IdleTimeUp

  /** A script of a request; bad below is the set of those the system refuses to start. */
  type ScriptId = (nat, nat)

  /** What the dispatcher may add to the log on its own, given the scripts that cannot be started. */
  ghost predicate Consequence(e: Entry, bad: set<ScriptId>) {
    match e
    case Started(id, k) => (id, k) !in bad
    case SpawnFailed(id, k) => (id, k) in bad
    case Replied(_, _) => true
    case _ => false
  }

  ghost predicate Follows(before: seq<Entry>, after: seq<Entry>, bad: set<ScriptId>) {
    && before <= after
    && forall i :: |before| <= i < |after| ==> Consequence(after[i], bad)
  }

  /** The entries that one event has added to the log, judged by what the log says before it: an action is
      refused or accepted, the end of a running script is recorded, and everything else they bring about
      follows.  What cannot happen at that point leaves no trace. */
  ghost predicate Answers(before: seq<Entry>, added: seq<Entry>, event: Event) {
    match event
    case Action(specs, invalid, bad) =>
      if invalid || specs == [] then |added| == 1 && added[0].Refused?
      else && added != [] && added[0].Accepted? && added[0].specs == specs
           && Follows([added[0]], added, bad)
    case ChildExit(id, k, status, bad) =>
      if RunningIn(before, id, k) then
        Follows([Finished(id, k, if status == Exited(0) then Success else Failed)], added, bad)
      else added == []
    case TimeUp(id, k, bad) =>
      if RunningIn(before, id, k) then Follows([Finished(id, k, TimedOut)], added, bad)
      else added == []
    case IdleTimeUp => added == []
  }

  /** Event i is answered by the part of the log from mark i to the next. */
  ghost predicate AnsweredAt(log: seq<Entry>, marks: seq<nat>, i: nat, event: Event) {
    && i + 1 < |marks| && marks[i] <= marks[i + 1] <= |log|
    && Answers(log[..marks[i]], log[marks[i]..marks[i + 1]], event)
  }

  lemma AnsweredStays(before: seq<Entry>, after: seq<Entry>, marks: seq<nat>, mark: nat, i: nat, event: Event)
    requires AnsweredAt(before, marks, i, event) && before <= after
    ensures AnsweredAt(after, marks + [mark], i, event)
  {
    assert after[..marks[i]] == before[..marks[i]];
    assert after[marks[i]..marks[i + 1]] == before[marks[i]..marks[i + 1]];
  }

  lemma AnsweredLast(before: seq<Entry>, after: seq<Entry>, marks: seq<nat>, i: nat, event: Event)
    requires |marks| == i + 1 && marks[i] == |before| && before <= after
    requires Answers(before, after[|before|..], event)
    ensures AnsweredAt(after, marks + [|after|], i, event)
  {
    assert after[..|before|] == before && after[|before|..|after|] == after[|before|..];
  }

  lemma FollowsTail(before: seq<Entry>, first: Entry, log: seq<Entry>, bad: set<ScriptId>)
    requires Follows(before + [first], log, bad)
    ensures before <= log && Follows([first], log[|before|..], bad)
    ensures log[|before|..][0] == first
  {
    var added := log[|before|..];
    assert (before + [first])[|before|] == log[|before|] == added[0];
    assert [first] <= added;
    assert before == log[..|before|];
  }

  class Dispatcher {
    const persist: bool
    var counter: nat
    var current: Option<nat>
    var waiting: seq<nat>
    var pending: int
    var quitArmed: bool
    var table: map<nat, Request>

    ghost var log: seq<Entry>
    ghost var server: Server
    ghost var fired: bool  // the idle timer has fired

    ghost function St(): State
      reads this
    {
      State(counter, current, waiting, pending, table, server)
    }

    /** The idle timer runs only when nothing is pending, and until it fires it always does so then. */
    ghost predicate TimerOk()
      reads this
    {
      && (quitArmed ==> !persist && pending == 0)
      && (!persist && pending == 0 && !fired ==> quitArmed)
    }

    /** Holds at every point of the program; limbo is the request being accepted, if it has wait scripts. */
    ghost predicate Sane(limbo: seq<nat>)
      reads this
    {
      Sound(St(), limbo) && Logged(log, server) && Inv(server) && TimerOk()
    }

    /** Holds between events. */
    ghost predicate Valid()
      reads this
    {
      Sane([]) && Quiet(St())
    }

    /** Scripts that have not ended yet, over all unanswered requests. */
    ghost function Remaining(): int
      reads this
    {
      Work(table, counter + 1)
    }

    constructor (persist: bool)
      ensures Valid() && this.persist == persist && table == map[] && log == [] && !fired
    {
      this.persist := persist;
      counter, current, waiting, pending, table := 0, None, [], 0, map[];
      log, server, fired := [], Start, false;
      quitArmed := false;
      new;
      QuitTimeoutReschedule();
      LoggedStart();
      assert JobTable(map[]) == map[];
    }

    ghost method Note(e: Entry)
      requires Logged(log, server) && Inv(server) && Step(server, e).Some?
      modifies `log, `server
      ensures log == old(log) + [e] && Step(old(server), e) == Some(server)
      ensures Logged(log, server) && Inv(server)
    {
      LoggedExtend(log, server, e);
      StepKeeps(server, e);
      log, server := log + [e], Step(server, e).value;
    }

    method QuitTimeoutReschedule()
      modifies `quitArmed
      ensures quitArmed == (!persist || old(quitArmed))
    {
      if !persist {
        quitArmed := false;
        quitArmed := true;
      }
    }

    method ScriptDispatch(id: nat, k: nat, bad: set<ScriptId>, ghost limbo: seq<nat>) returns (ok: bool)
      requires Sane(limbo) && id in table && k < |table[id].scripts|
      requires !table[id].scripts[k].dispatched ==> CanStart(St(), id, k)
      modifies `table, `log, `server
      ensures Sane(limbo)
      ensures ok <==> !old(table[id].scripts[k].dispatched) && (id, k) !in bad
      ensures old(table[id].scripts[k].dispatched) ==> table == old(table) && log == old(log)
      ensures !old(table[id].scripts[k].dispatched) ==>
                && table == old(table)[id := if ok then Launched(old(table[id]), k) else Unlaunched(old(table[id]), k)]
                && log == old(log) + [if ok then Started(id, k) else SpawnFailed(id, k)]
    {
      hide RequestOk, Inv, Logged, Sound, CanStart, SetStatus, MayStart;
      var request := table[id];
      var script := request.scripts[k];
      if script.dispatched {
        return false;
      }
      LaunchOk(St(), limbo, id, k);
      script := script.(dispatched := true);
      if (id, k) !in bad {
        script := script.(watch := true, timer := true);
        request := request.(scripts := request.scripts[k := script]);
        if !script.wait {
          request := request.(nowait := request.nowait + 1);
        }
        table := table[id := request];
        Note(Started(id, k));
        return true;
      } else {
        script := script.(result := ExecFailed);
        table := table[id := request.(scripts := request.scripts[k := script], done := request.done + 1)];
        Note(SpawnFailed(id, k));
        return false;
      }
    }

    /** One turn of the loop in dispatch_one_script: pass the script at idx, starting it if it is fresh. */
    method PassScript(id: nat, bad: set<ScriptId>) returns (ok: bool)
      requires Sane([]) && current == Some(id) && id in table
      requires Ready(table[id]) && NowaitOut(table[id]) && table[id].nowait == 0
      requires table[id].idx < |table[id].scripts|
      modifies `table, `log, `server
      ensures Sane([]) && table.Keys == old(table.Keys)
      ensures forall i :: i in table && i != id ==> table[i] == old(table)[i]
      ensures NowaitOut(table[id]) && table[id].nowait == 0
      ensures table[id].idx == old(table[id].idx) + 1 && |table[id].scripts| == |old(table[id].scripts)|
      ensures if ok then Busy(table[id]) else Ready(table[id])
      ensures Follows(old(log), log, bad) && Remaining() <= old(Remaining())
    {
      hide RequestOk, Inv, Logged, Step, Work, Sound;
      var request := table[id];
      var k := request.idx;
      SoundRequest(St(), [], id);
      FreshAtIdx(request);
      AdvanceKeepsRequest(request);
      AdvanceOk(St(), id, request.(idx := k + 1));
      WorkUpdate(table, counter + 1, id, request.(idx := k + 1));
      table := table[id := request.(idx := k + 1)];
      WorkUpdate(table, counter + 1, id, Unlaunched(table[id], k));
      WorkUpdate(table, counter + 1, id, Launched(table[id], k));
      ok := ScriptDispatch(id, k, bad, []);
    }

    method DispatchOneScript(id: nat, bad: set<ScriptId>) returns (more: bool)
      requires Sane([]) && current == Some(id) && id in table
      requires Ready(table[id]) && NowaitOut(table[id])
      modifies `table, `log, `server
      ensures Sane([]) && table.Keys == old(table.Keys) && NowaitOut(table[id])
      ensures forall i :: i in table && i != id ==> table[i] == old(table)[i]
      ensures if more then Busy(table[id]) else Complete(table[id])
      ensures Follows(old(log), log, bad) && Remaining() <= old(Remaining())
    {
      hide RequestOk, Inv, Logged, Sound, Work, Ready, NowaitOut;
      SoundRequest(St(), [], id);
      NowaitNonNegative(table[id]);
      if table[id].nowait > 0 {
        return true;
      }
      while table[id].idx < |table[id].scripts|
        invariant Sane([]) && table.Keys == old(table.Keys)
        invariant forall i :: i in table && i != id ==> table[i] == old(table)[i]
        invariant Ready(table[id]) && NowaitOut(table[id]) && table[id].nowait == 0
        invariant table[id].idx <= |table[id].scripts|
        invariant Follows(old(log), log, bad) && Remaining() <= old(Remaining())
        decreases |table[id].scripts| - table[id].idx
      {
        var ok := PassScript(id, bad);
        if ok {
          return true;
        }
      }
      SoundRequest(St(), [], id);
      PassedIsFinished(table[id]);
      return false;
    }

    method CompleteRequest(id: nat)
      requires Sane([]) && id in table
      modifies `table, `pending, `current, `log, `server, `quitArmed
      ensures Sane([]) && Remaining() == old(Remaining())
      ensures !old(Complete(table[id])) ==>
                && table == old(table) && current == old(current) && log == old(log)
                && pending == old(pending)
      ensures old(Complete(table[id])) ==>
                && table == old(table) - {id} && pending == old(pending) - 1
                && current == (if old(current) == Some(id) then None else old(current))
                && log == old(log) + [Replied(id, Summary(old(table[id])))]
                && old(table[id].done) == |old(table[id].scripts)| && old(table[id].nowait) == 0
    {
      hide RequestOk, Inv, Logged, Step, Work, Sound, Answer;
      var request := table[id];
      SoundRequest(St(), [], id);
      DoneMeansAllEnded(request);
      if request.done < |request.scripts| {
        return;
      }
      var results := [];
      for i := 0 to |request.scripts|
        invariant results == Summary(request)[..i]
      {
        results := results + [(request.scripts[i].name, request.scripts[i].result)];
      }
      assert results == Summary(request);

      CompleteMeansNoneRunning(request);
      assert request.done == |request.scripts|;
      assert request.nowait == 0;
      ReplyOk(St(), id);
      WorkRemove(table, counter + 1, id);
      if current == Some(id) {
        current := None;
      }
      table := table - {id};
      assert pending > 0;
      pending := pending - 1;
      Note(Replied(id, results));
      if pending <= 0 {
        assert current.None? && waiting == [];
        QuitTimeoutReschedule();
      }
    }

    method NextRequest(request: Option<nat>) returns (set_: bool)
      requires match request
               case Some(id) => Sane([id]) && (current.None? ==> waiting == [])
               case None => Sane([]) && current.None?
      modifies `current, `waiting
      ensures Sane([])
      ensures request.Some? ==>
                && set_ == old(current.None?)
                && if set_ then current == request && waiting == old(waiting)
                   else current == old(current) && waiting == old(waiting) + [request.value]
      ensures request.None? ==>
                && set_ == (old(waiting) != [])
                && if set_ then current == Some(old(waiting)[0]) && waiting == old(waiting)[1..]
                   else current.None? && waiting == []
    {
      hide RequestOk, Inv, Logged;
      var next: nat;
      if request.Some? {
        if current.Some? {
          EnqueueOk(St(), request.value);
          waiting := waiting + [request.value];
          return false;
        }
        next := request.value;
        ActivateOk(St(), next);
      } else {
        current := None;
        if waiting == [] {
          return false;
        }
        PopOk(St());
        next := waiting[0];
        waiting := waiting[1..];
      }
      current := Some(next);
      return true;
    }

    /** The tail of complete_script: take waiting requests until one of them has a script running. */
    method RunWaitingRequests(bad: set<ScriptId>)
      requires Sane([]) && current.None?
      requires forall i :: i in table ==> NowaitOut(table[i]) && !Complete(table[i])
      modifies `table, `pending, `current, `waiting, `log, `server, `quitArmed
      ensures Valid() && Follows(old(log), log, bad) && Remaining() <= old(Remaining())
    {
      hide RequestOk, Inv, Logged, Work, Sound, NowaitOut, Busy, Complete, TimerOk;
      if waiting != [] { WaitingIsUnreached(St()); }
      var more := NextRequest(None);
      while more
        invariant Sane([])
        invariant forall i :: i in table ==> NowaitOut(table[i]) && !Complete(table[i])
        invariant more ==> current.Some? && current.value in table && table[current.value].idx == 0
        invariant !more ==> current.None? && waiting == []
        invariant Follows(old(log), log, bad) && Remaining() <= old(Remaining())
        decreases |waiting|, more
      {
        var request := current.value;
        var running := DispatchOneScript(request, bad);
        if running {
          SoundRequest(St(), [], request);
          BusyIsUnfinished(table[request]);
          return;
        }
        CompleteRequest(request);
        if waiting != [] { WaitingIsUnreached(St()); }
        more := NextRequest(None);
      }
    }

    method CompleteScript(id: nat, wait: bool, bad: set<ScriptId>)
      requires Sane([]) && id in table && AlmostQuiet(St(), id)
      requires wait ==> current == Some(id) && Ready(table[id])
      requires !wait && current == Some(id) ==> table[id].idx == 0
      modifies `table, `pending, `current, `waiting, `log, `server, `quitArmed
      ensures Valid() && Follows(old(log), log, bad) && Remaining() <= old(Remaining())
    {
      hide RequestOk, Inv, Logged, Work, Sound, NowaitOut, Busy;
      SoundRequest(St(), [], id);
      if wait {
        var more := DispatchOneScript(id, bad);
        if more {
          SoundRequest(St(), [], id);
          BusyIsUnfinished(table[id]);
          return;
        }
      }
      assert !wait || current == Some(id);
      if !wait && current == Some(id) { CurrentIsUnfinished(St(), id); }
      CompleteRequest(id);
      if !wait {
        if current == Some(id) && table[id].nowait == 0 {
          UnreachedIsReady(table[id]);
          var more := DispatchOneScript(id, bad);
          if more {
            SoundRequest(St(), [], id);
            BusyIsUnfinished(table[id]);
            return;
          }
          CompleteRequest(id);
        } else {
          if current == Some(id) { NowaitIsBusy(table[id]); }
          return;
        }
      } else {
        assert current.None?;
      }
      RunWaitingRequests(bad);
    }

    method ScriptWatchCb(id: nat, k: nat, status: ExitStatus, bad: set<ScriptId>)
      requires Valid() && id in table && k < |table[id].scripts| && table[id].scripts[k].watch
      modifies `table, `pending, `current, `waiting, `log, `server, `quitArmed
      ensures Valid() && Remaining() < old(Remaining())
      ensures Follows(old(log) + [Finished(id, k, if status == Exited(0) then Success else Failed)], log, bad)
    {
      hide RequestOk, Inv, Logged, Work, Sound, Step, AlmostQuiet, Quiet, Ready;
      var request := table[id];
      var script := request.scripts[k];
      ghost var res := if status == Exited(0) then Success else Failed;
      BeginEnd(St(), id, k, res);
      WorkUpdate(table, counter + 1, id, Over(request, k, res));
      BoundId(St(), id);

      script := script.(watch := false);
      script := script.(timer := false);
      request := request.(done := request.done + 1);
      if !script.wait {
        request := request.(nowait := request.nowait - 1);
      }
      match status {
        case Exited(code) =>
          if code == 0 {
            script := script.(result := Success);
          }
        case _ =>
      }
      if script.result != Success {
        script := script.(result := Failed);
      }
      table := table[id := request.(scripts := request.scripts[k := script])];
      assert table[id] == Over(old(table[id]), k, res);
      Note(Finished(id, k, res));
      CompleteScript(id, script.wait, bad);
    }

    method ScriptTimeoutCb(id: nat, k: nat, bad: set<ScriptId>)
      requires Valid() && id in table && k < |table[id].scripts| && table[id].scripts[k].timer
      modifies `table, `pending, `current, `waiting, `log, `server, `quitArmed
      ensures Valid() && Remaining() < old(Remaining())
      ensures Follows(old(log) + [Finished(id, k, TimedOut)], log, bad)
    {
      hide RequestOk, Inv, Logged, Work, Sound, Step, AlmostQuiet, Quiet, Ready;
      var request := table[id];
      var script := request.scripts[k];
      WatchIsTimer(St(), id, k);
      BeginEnd(St(), id, k, TimedOut);
      WorkUpdate(table, counter + 1, id, Over(request, k, TimedOut));
      BoundId(St(), id);

      script := script.(timer := false);
      script := script.(watch := false);
      request := request.(done := request.done + 1);
      if !script.wait {
        request := request.(nowait := request.nowait - 1);
      }
      script := script.(result := TimedOut);
      table := table[id := request.(scripts := request.scripts[k := script])];
      assert table[id] == Over(old(table[id]), k, TimedOut);
      Note(Finished(id, k, TimedOut));
      CompleteScript(id, script.wait, bad);
    }

    /** The list of scripts of a new request, none of them dispatched yet. */
    method NewRequest(specs: seq<Spec>) returns (request: Request)
      ensures AllFresh(request, specs)
    {
      var scripts: seq<Script> := [];
      for i := 0 to |specs|
        invariant |scripts| == i
        invariant forall j :: 0 <= j < i ==>
                            scripts[j] == Script(specs[j].name, specs[j].wait, false, Unknown, false, false)
      {
        scripts := scripts + [Script(specs[i].name, specs[i].wait, false, Unknown, false, false)];
      }
      request := Request(scripts, 0, 0, 0);
    }

    /** Take a new request in: from here on it is pending, and the idle timer is off. */
    method Accept(specs: seq<Spec>) returns (id: nat)
      requires Valid() && specs != []
      modifies `counter, `quitArmed, `pending, `table, `log, `server
      ensures id == counter == old(counter) + 1 && current != Some(id) && id !in old(table)
      ensures Sane(if HasWait(specs) then [id] else [])
      ensures id in table && table == old(table)[id := table[id]] && AllFresh(table[id], specs)
      ensures log == old(log) + [Accepted(id, specs)]
    {
      hide RequestOk, Inv, Logged, Work, Sound, Step, AllFresh, HasWait, Quiet;
      var request := NewRequest(specs);
      ghost var before := St();
      AcceptOk(before, specs, request);
      id := counter + 1;
      counter := id;
      quitArmed := false;
      pending := pending + 1;
      table := table[id := request];
      Note(Accepted(id, specs));
      assert St() == AfterAccept(before, specs, request);
    }

    /** The Action method: invalid says that no environment could be built for the request. */
    method MethodCallAction(specs: seq<Spec>, invalid: bool, bad: set<ScriptId>) returns (id: nat)
      requires Valid()
      modifies this
      ensures Valid() && fired == old(fired)
      ensures id == counter == old(counter) + 1
      ensures invalid || specs == [] ==> log == old(log) + [Refused(id)] && table == old(table)
      ensures !(invalid || specs == []) ==> Follows(old(log) + [Accepted(id, specs)], log, bad)
    {
      hide RequestOk, Inv, Logged, Work, Sound, Step, NowaitOut, Busy, AllFresh, RequestHasWait, HasWait, Complete;
      if invalid || |specs| == 0 {
        id := counter + 1;
        RefuseOk(St());
        counter := id;
        Note(Refused(id));
        return;
      }
      id := Accept(specs);
      var numNowait := DispatchNowait(id, specs, bad, if HasWait(specs) then [id] else []);
      FreshHasWait(table[id], specs);
      Schedule(id, numNowait < |specs|, bad);
    }

    /** The tail of _method_call_action: queue or run a request with wait scripts, or see whether one
        without any is over already. */
    method Schedule(id: nat, ordered: bool, bad: set<ScriptId>)
      requires id in table && ordered == RequestHasWait(table[id])
      requires Sane(if ordered then [id] else [])
      requires AlmostQuiet(St(), id) && current != Some(id) && table[id].idx == 0
      modifies `table, `pending, `current, `waiting, `log, `server, `quitArmed
      ensures Valid() && Follows(old(log), log, bad)
    {
      hide RequestOk, Inv, Logged, Work, Sound, Step, NowaitOut, Busy, RequestHasWait;
      if ordered {
        var isCurrent := NextRequest(Some(id));
        SoundRequest(St(), [], id);
        if isCurrent {
          UnreachedIsReady(table[id]);
          var more := DispatchOneScript(id, bad);
          SoundRequest(St(), [], id);
          if more {
            BusyIsUnfinished(table[id]);
          } else {
            CompleteRequest(id);
            var other := NextRequest(None);
            if other {
              assert false;
            }
          }
        } else {
          UnreachedIsUnfinished(table[id]);
        }
      } else {
        CompleteRequest(id);
      }
    }

    /** The loop of _method_call_action that starts the no-wait scripts of a new request. */
    method DispatchNowait(id: nat, specs: seq<Spec>, bad: set<ScriptId>, ghost limbo: seq<nat>) returns (num: nat)
      requires limbo == if HasWait(specs) then [id] else []
      requires Sane(limbo) && id in table && AllFresh(table[id], specs) && current != Some(id)
      modifies `table, `log, `server
      ensures Sane(limbo) && table.Keys == old(table.Keys)
      ensures forall i :: i in table && i != id ==> table[i] == old(table)[i]
      ensures NowaitOut(table[id]) && table[id].idx == 0
      ensures |table[id].scripts| == |specs|
      ensures forall k :: 0 <= k < |specs| ==> table[id].scripts[k].wait == specs[k].wait
      ensures num <= |specs| && (num < |specs| <==> HasWait(specs))
      ensures Follows(old(log), log, bad)
    {
      hide RequestOk, Inv, Logged, Work, Sound, Step, TimerOk, AllFresh, HasWait;
      FreshIsUndispatched(table[id], specs);
      num := 0;
      for i := 0 to |table[id].scripts|
        invariant Sane(limbo) && table.Keys == old(table.Keys)
        invariant forall j :: j in table && j != id ==> table[j] == old(table)[j]
        invariant table[id].idx == 0 && |table[id].scripts| == |specs|
        invariant forall j :: 0 <= j < |specs| ==> table[id].scripts[j].wait == specs[j].wait
        invariant forall j :: 0 <= j < i && !specs[j].wait ==> table[id].scripts[j].dispatched
        invariant forall j :: i <= j < |specs| ==> !table[id].scripts[j].dispatched
        invariant num <= i && (num < i <==> HasWait(specs[..i]))
        invariant Follows(old(log), log, bad)
      {
        HasWaitExtend(specs, i);
        if !table[id].scripts[i].wait {
          var ok := ScriptDispatch(id, i, bad, limbo);
          num := num + 1;
        }
      }
      assert specs[..|specs|] == specs;
    }

    /** quit_timeout_cb: the daemon leaves its main loop, and never while a request is unanswered. */
    method QuitTimeoutCb()
      requires Valid() && quitArmed
      modifies `quitArmed, `fired
      ensures Valid() && fired && table == map[] && pending == 0 && current.None? && waiting == []
    {
      quitArmed := false;
      fired := true;
      EmptyTable(St());
    }

    /** One turn of the main loop; an event that cannot happen is passed over. */
    method Handle(event: Event)
      requires Valid()
      modifies this
      ensures Valid() && old(log) <= log && Answers(old(log), log[|old(log)|..], event)
    {
      hide Sound, Quiet, Inv, Work, RunningIn, Follows;
      match event {
        case Action(specs, invalid, bad) =>
          var id := MethodCallAction(specs, invalid, bad);
          if !(invalid || specs == []) {
            FollowsTail(old(log), Accepted(id, specs), log, bad);
          }
        case ChildExit(id, k, status, bad) =>
          WatchedIsRunning(log, St(), id, k);
          if id in table && k < |table[id].scripts| && table[id].scripts[k].watch {
            ScriptWatchCb(id, k, status, bad);
            FollowsTail(old(log), Finished(id, k, if status == Exited(0) then Success else Failed), log, bad);
          }
        case TimeUp(id, k, bad) =>
          WatchedIsRunning(log, St(), id, k);
          TimedIsWatched(id, k);
          if id in table && k < |table[id].scripts| && table[id].scripts[k].timer {
            ScriptTimeoutCb(id, k, bad);
            FollowsTail(old(log), Finished(id, k, TimedOut), log, bad);
          }
        case IdleTimeUp =>
          if quitArmed {
            QuitTimeoutCb();
          }
      }
    }

    lemma TimedIsWatched(id: nat, k: nat)
      requires Valid()
      ensures id in table && k < |table[id].scripts| ==> table[id].scripts[k].timer == table[id].scripts[k].watch
    {
      if id in table && k < |table[id].scripts| {
        SoundRequest(St(), [], id);
        WatchedScript(table[id], k);
      }
    }

    /** g_main_loop_run over any sequence of events.  Whatever the events, the log is one the reference server
        accepts, the daemon ends up between events, and each event is answered by its own part of the log,
        from one mark to the next. */
    method MainLoop(events: seq<Event>) returns (ghost marks: seq<nat>)
      requires Valid()
      modifies this
      ensures Valid() && old(log) <= log
      ensures exists states: seq<Server> :: Chain(states, log) && states[|log|] == server
      ensures |marks| == |events| + 1 && marks[0] == |old(log)| && marks[|events|] == |log|
      ensures forall i :: 0 <= i < |events| ==> AnsweredAt(log, marks, i, events[i])
    {
      hide Sound, Quiet, Inv, Chain, Work, Answers, AnsweredAt;
      marks := [|log|];
      for i := 0 to |events|
        invariant Valid() && old(log) <= log
        invariant |marks| == i + 1 && marks[0] == |old(log)| && marks[i] == |log|
        invariant forall j :: 0 <= j < i ==> AnsweredAt(log, marks, j, events[j])
      {
        ghost var before := log;
        Handle(events[i]);
        forall j | 0 <= j < i ensures AnsweredAt(log, marks + [|log|], j, events[j]) {
          AnsweredStays(before, log, marks, |log|, j, events[j]);
        }
        AnsweredLast(before, log, marks, i, events[i]);
        marks := marks + [|log|];
      }
    }

    /** However many requests arrive meanwhile: a request that was open at line i of the log has been answered
        as soon as as many scripts of it, and of the ordered requests ahead of it if it is ordered itself,
        have ended as were left in them at that line. */
    lemma AnsweredInTime(states: seq<Server>, i: nat, id: nat)
      requires Valid() && Chain(states, log) && states[|log|] == server
      requires i <= |log| && id in states[i].jobs
      requires Ends(log[i..], Ahead(states[i], id)) >= LeftIn(states[i], Ahead(states[i], id), id + 1)
      ensures id !in table && RepliedIn(log, id)
    {
      AllEndedMeansAnswered(states, log, i, St(), id);
    }

    /** Once no more requests arrive, every request is answered after finitely many exits and timeouts,
        whichever scripts end, in whichever order and way: at most Remaining() of them. */
    method Drain() returns (steps: nat)
      requires Valid()
      modifies this
      ensures Valid() && table == map[] && pending == 0 && steps <= old(Remaining())
    {
      hide Inv, Logged, Work, Sound, Quiet, Follows, Busy;
      steps := 0;
      RemainingNonNegative(St());
      while |table| != 0
        invariant Valid() && counter == old(counter)
        invariant Remaining() >= 0 && steps + Remaining() <= old(Remaining())
        decreases Remaining()
      {
        NoDeadlock(St());
        var id, k :| id in table && 0 <= k < |table[id].scripts| && table[id].scripts[k].watch;
        WatchIsTimer(St(), id, k);
        var bad: set<ScriptId> := *;
        var late: bool := *;
        if late {
          ScriptTimeoutCb(id, k, bad);
        } else {
          var status: ExitStatus := *;
          ScriptWatchCb(id, k, status, bad);
        }
        steps := steps + 1;
        RemainingNonNegative(St());
      }
      RemainingNonNegative(St());
    }
  }
}
