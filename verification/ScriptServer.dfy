/** A reference server for dispatcher scripts, and what every log it accepts guarantees.

    The server says which script may be started, ended or reported next; it knows nothing about
    counters, indices, queues of requests or timers.  The dispatcher (see Dispatcher.dfy) is shown to
    write only logs that this server accepts, so the theorems below hold of every dispatcher run. */
module ScriptServer {
  import opened Options

  /** DispatchResult of nm-dispatcher-api.h. */
  datatype Result = Unknown | Success | ExecFailed | Failed | TimedOut

  /** What a request asks for: a script and whether later scripts wait for it. */
  datatype Spec = Spec(name: string, wait: bool)

  datatype Status = Fresh | Running | Ended(result: Result)

  datatype Job = Job(name: string, wait: bool, status: Status)

  /** One line of the log: k is the position of the script in its request. */
  datatype Entry =
    | Accepted(id: nat, specs: seq<Spec>)
    | Refused(id: nat)
    | Started(id: nat, k: nat)
    | SpawnFailed(id: nat, k: nat)
    | Finished(id: nat, k: nat, result: Result)
    | Replied(id: nat, report: seq<(string, Result)>)

  /** jobs: the unanswered requests; fifo: those of them with a wait script, in arrival order;
      next: a bound above every request number used so far. */
  datatype Server = Server(jobs: map<nat, seq<Job>>, fifo: seq<nat>, next: nat)

  ghost const Start := Server(map[], [], 1)

  ghost predicate HasWait(specs: seq<Spec>) {
    exists k :: 0 <= k < |specs| && specs[k].wait
  }

  ghost predicate JobsHaveWait(js: seq<Job>) {
    exists k :: 0 <= k < |js| && js[k].wait
  }

  ghost predicate AllEnded(js: seq<Job>) {
    forall k :: 0 <= k < |js| ==> js[k].status.Ended?
  }

  ghost function FreshJobs(specs: seq<Spec>): (js: seq<Job>)
    ensures |js| == |specs|
    ensures forall k :: 0 <= k < |js| ==> js[k] == Job(specs[k].name, specs[k].wait, Fresh)
  {
    seq(|specs|, k requires 0 <= k < |specs| => Job(specs[k].name, specs[k].wait, Fresh))
  }

  ghost function Report(js: seq<Job>): (r: seq<(string, Result)>)
    requires AllEnded(js)
    ensures |r| == |js|
    ensures forall k :: 0 <= k < |r| ==> r[k] == (js[k].name, js[k].status.result)
  {
    seq(|js|, k requires 0 <= k < |js| => (js[k].name, js[k].status.result))
  }

  ghost function SetStatus(s: Server, id: nat, k: nat, st: Status): Server
    requires id in s.jobs && k < |s.jobs[id]|
  {
    s.(jobs := s.jobs[id := s.jobs[id][k := s.jobs[id][k].(status := st)]])
  }

  /** A no-wait script may start any time after its request arrived, in list order.  A wait script may
      start only when its request is the oldest unanswered one with wait scripts, every no-wait script of
      the request has ended, and so has every earlier wait script of it. */
  ghost predicate MayStart(s: Server, id: nat, k: nat) {
    && id in s.jobs && k < |s.jobs[id]|
    && s.jobs[id][k].status == Fresh
    && (!s.jobs[id][k].wait ==>
          forall j :: 0 <= j < k && !s.jobs[id][j].wait ==> s.jobs[id][j].status != Fresh)
    && (s.jobs[id][k].wait ==>
          && s.fifo != [] && s.fifo[0] == id
          && (forall j :: 0 <= j < |s.jobs[id]| && !s.jobs[id][j].wait ==> s.jobs[id][j].status.Ended?)
          && (forall j :: 0 <= j < k ==> s.jobs[id][j].status.Ended?))
  }

  ghost function Step(s: Server, e: Entry): Option<Server> {
    match e
    case Accepted(id, specs) =>
      if id >= s.next && specs != [] then
        Some(Server(s.jobs[id := FreshJobs(specs)], if HasWait(specs) then s.fifo + [id] else s.fifo, id + 1))
      else None
    case Refused(id) =>
      if id >= s.next then Some(s.(next := id + 1)) else None
    case Started(id, k) =>
      if MayStart(s, id, k) then Some(SetStatus(s, id, k, Running)) else None
    case SpawnFailed(id, k) =>
      if MayStart(s, id, k) then Some(SetStatus(s, id, k, Ended(ExecFailed))) else None
    case Finished(id, k, r) =>
      if id in s.jobs && k < |s.jobs[id]| && s.jobs[id][k].status == Running
         && (r == Success || r == Failed || r == TimedOut)
      then Some(SetStatus(s, id, k, Ended(r))) else None
    case Replied(id, report) =>
      if id in s.jobs && AllEnded(s.jobs[id]) && report == Report(s.jobs[id])
         && (JobsHaveWait(s.jobs[id]) ==> s.fifo != [] && s.fifo[0] == id)
      then Some(Server(s.jobs - {id}, if JobsHaveWait(s.jobs[id]) then s.fifo[1..] else s.fifo, s.next))
      else None
  }

  /** An accepted log: there are server states, one more than lines, each the step of the one before. */
  ghost predicate Chain(states: seq<Server>, log: seq<Entry>) {
    && |states| == |log| + 1 && states[0] == Start
    && forall i :: 0 <= i < |log| ==> Step(states[i], log[i]) == Some(states[i + 1])
  }

  /** The log is accepted and leaves the server in state s. */
  ghost predicate Logged(log: seq<Entry>, s: Server) {
    exists states: seq<Server> :: Chain(states, log) && states[|log|] == s
  }

  lemma LoggedStart()
    ensures Logged([], Start)
  {
    assert Chain([Start], []);
  }

  lemma LoggedExtend(log: seq<Entry>, s: Server, e: Entry)
    requires Logged(log, s) && Step(s, e).Some?
    ensures Logged(log + [e], Step(s, e).value)
  {
    var states :| Chain(states, log) && states[|log|] == s;
    assert Chain(states + [Step(s, e).value], log + [e]);
  }

  // ---------------------------------------------------------------- what the server keeps

  ghost predicate Increasing(ids: seq<nat>) {
    forall i, j :: 0 <= i < j < |ids| ==> ids[i] < ids[j]
  }

  /** Wait scripts that have begun belong to the oldest request, whose no-wait scripts have all ended
      and whose earlier wait scripts have all ended. */
  ghost predicate Serial(s: Server) {
    forall id, k :: id in s.jobs && 0 <= k < |s.jobs[id]| && s.jobs[id][k].wait && s.jobs[id][k].status != Fresh ==>
                      && s.fifo != [] && s.fifo[0] == id
                      && (forall j :: 0 <= j < |s.jobs[id]| && !s.jobs[id][j].wait ==> s.jobs[id][j].status.Ended?)
                      && (forall j :: 0 <= j < k ==> s.jobs[id][j].status.Ended?)
  }

  ghost predicate Inv(s: Server) {
    && Increasing(s.fifo)
    && (forall id :: id in s.fifo ==> id in s.jobs)
    && (forall id :: id in s.jobs ==> id < s.next && s.jobs[id] != [])
    && (forall id :: id in s.jobs ==> (JobsHaveWait(s.jobs[id]) <==> id in s.fifo))
    && Serial(s)
  }

  lemma SetStatusKeepsWait(js: seq<Job>, k: nat, st: Status)
    requires k < |js|
    ensures JobsHaveWait(js[k := js[k].(status := st)]) <==> JobsHaveWait(js)
  {
    var js' := js[k := js[k].(status := st)];
    assert forall j :: 0 <= j < |js| ==> js'[j].wait == js[j].wait;
  }

  lemma FreshJobsWait(specs: seq<Spec>)
    ensures JobsHaveWait(FreshJobs(specs)) <==> HasWait(specs)
  {
    if HasWait(specs) {
      var k :| 0 <= k < |specs| && specs[k].wait;
      assert FreshJobs(specs)[k].wait;
    }
  }

  lemma IncreasingPush(ids: seq<nat>, id: nat)
    requires Increasing(ids) && forall i :: i in ids ==> i < id
    ensures Increasing(ids + [id])
    ensures forall i :: i in ids + [id] <==> i in ids || i == id
  {
    assert forall i :: 0 <= i < |ids| ==> ids[i] in ids;
    assert (ids + [id])[|ids|] == id;
  }

  lemma AcceptKeeps(s: Server, id: nat, specs: seq<Spec>)
    requires Inv(s) && Step(s, Accepted(id, specs)).Some?
    ensures Inv(Step(s, Accepted(id, specs)).value)
  {
    hide HasWait, Increasing;
    FreshJobsWait(specs);
    IncreasingPush(s.fifo, id);
    assert id !in s.jobs;
  }

  lemma ReplyKeeps(s: Server, id: nat, report: seq<(string, Result)>)
    requires Inv(s) && Step(s, Replied(id, report)).Some?
    ensures Inv(Step(s, Replied(id, report)).value)
  {
    var t := Step(s, Replied(id, report)).value;
    if JobsHaveWait(s.jobs[id]) {
      assert s.fifo == [id] + t.fifo;
      assert forall i :: i in t.fifo ==> i in s.fifo && i != id;
      // The answered request was the oldest, and only the oldest had begun a wait script.
      forall i, k | i in t.jobs && 0 <= k < |t.jobs[i]| && t.jobs[i][k].wait
        ensures t.jobs[i][k].status == Fresh
      {
        assert t.jobs[i] == s.jobs[i];
      }
    }
  }

  lemma StatusKeeps(s: Server, id: nat, k: nat, st: Status)
    requires Inv(s)
    requires id in s.jobs && k < |s.jobs[id]|
    requires (MayStart(s, id, k) && st != Fresh) || (s.jobs[id][k].status == Running && st.Ended?)
    ensures Inv(SetStatus(s, id, k, st))
  {
    var t := SetStatus(s, id, k, st);
    SetStatusKeepsWait(s.jobs[id], k, st);
    forall i, j | i in t.jobs && 0 <= j < |t.jobs[i]| && t.jobs[i][j].wait && t.jobs[i][j].status != Fresh
      ensures t.fifo != [] && t.fifo[0] == i
      ensures forall m :: 0 <= m < |t.jobs[i]| && !t.jobs[i][m].wait ==> t.jobs[i][m].status.Ended?
      ensures forall m :: 0 <= m < j ==> t.jobs[i][m].status.Ended?
    {
      if i == id && j == k {
      } else {
        assert s.jobs[i][j].wait && s.jobs[i][j].status != Fresh;
      }
    }
  }

  lemma StepKeeps(s: Server, e: Entry)
    requires Inv(s) && Step(s, e).Some?
    ensures Inv(Step(s, e).value)
  {
    match e
    case Accepted(id, specs) => AcceptKeeps(s, id, specs);
    case Refused(id) =>
      var t := Step(s, e).value;
      assert t.jobs == s.jobs && t.fifo == s.fifo;
    case Started(id, k) => StatusKeeps(s, id, k, Running);
    case SpawnFailed(id, k) => StatusKeeps(s, id, k, Ended(ExecFailed));
    case Finished(id, k, r) => StatusKeeps(s, id, k, Ended(r));
    case Replied(id, report) => ReplyKeeps(s, id, report);
  }

  lemma {:induction false} ChainKeeps(states: seq<Server>, log: seq<Entry>, n: nat)
    requires Chain(states, log) && n <= |log|
    ensures Inv(states[n])
  {
    if n > 0 {
      ChainKeeps(states, log, n - 1);
      assert Step(states[n - 1], log[n - 1]) == Some(states[n]);
      StepKeeps(states[n - 1], log[n - 1]);
    }
  }

  /** Globally at most one wait script runs, it belongs to the oldest unanswered request, and no
      no-wait script of that request runs beside it. */
  lemma AtMostOneWaitRunning(s: Server, a: nat, i: nat, b: nat, j: nat)
    requires Inv(s)
    requires a in s.jobs && i < |s.jobs[a]| && s.jobs[a][i].wait && s.jobs[a][i].status == Running
    requires b in s.jobs && j < |s.jobs[b]| && s.jobs[b][j].status == Running
    requires s.jobs[b][j].wait || a == b
    ensures a == b && i == j
    ensures s.fifo != [] && s.fifo[0] == a
  {
    assert s.jobs[a][i].status != Fresh;
  }

  // ---------------------------------------------------------------- what a log records

  ghost predicate Spawned(log: seq<Entry>, id: nat, k: nat) {
    Started(id, k) in log || SpawnFailed(id, k) in log
  }

  ghost predicate EndedWith(log: seq<Entry>, id: nat, k: nat, r: Result) {
    Finished(id, k, r) in log || (r == ExecFailed && SpawnFailed(id, k) in log)
  }

  ghost predicate RepliedIn(log: seq<Entry>, id: nat) {
    exists i :: 0 <= i < |log| && log[i].Replied? && log[i].id == id
  }

  ghost predicate Matches(js: seq<Job>, specs: seq<Spec>) {
    |js| == |specs| && forall k :: 0 <= k < |js| ==> js[k].name == specs[k].name && js[k].wait == specs[k].wait
  }

  /** The server state is a summary of the log that led to it. */
  ghost predicate History(log: seq<Entry>, s: Server) {
    && (forall e :: e in log ==> e.id < s.next)
    && AcceptsTracked(log, s)
    && OpenTracked(log, s)
    && (forall id, k :: id in s.jobs && 0 <= k < |s.jobs[id]| ==> Recorded(log, id, k, s.jobs[id][k].status))
  }

  ghost predicate AcceptsTracked(log: seq<Entry>, s: Server) {
    forall id, specs :: Accepted(id, specs) in log ==>
                          if id in s.jobs then Matches(s.jobs[id], specs) else RepliedIn(log, id)
  }

  ghost predicate OpenTracked(log: seq<Entry>, s: Server) {
    forall id :: id in s.jobs ==> !RepliedIn(log, id) && exists specs :: Accepted(id, specs) in log
  }

  ghost predicate EndedIn(log: seq<Entry>, id: nat, k: nat) {
    exists r :: EndedWith(log, id, k, r)
  }

  ghost predicate Recorded(log: seq<Entry>, id: nat, k: nat, st: Status) {
    match st
    case Fresh => !Spawned(log, id, k) && !EndedIn(log, id, k)
    case Running => Started(id, k) in log && !EndedIn(log, id, k)
    case Ended(r) =>
      && Spawned(log, id, k) && r != Unknown
      && forall q :: EndedWith(log, id, k, q) <==> q == r
  }

  lemma RecordedExtend(log: seq<Entry>, e: Entry, id: nat, k: nat, st: Status)
    requires Recorded(log, id, k, st)
    requires e != Started(id, k) && e != SpawnFailed(id, k) && forall r :: e != Finished(id, k, r)
    ensures Recorded(log + [e], id, k, st)
  {
    assert forall r :: EndedWith(log + [e], id, k, r) <==> EndedWith(log, id, k, r);
  }

  lemma RepliedExtend(log: seq<Entry>, e: Entry, id: nat)
    ensures RepliedIn(log + [e], id) <==> RepliedIn(log, id) || (e.Replied? && e.id == id)
  {
    var l := log + [e];
    assert l[|log|] == e;
    if RepliedIn(log, id) {
      var i :| 0 <= i < |log| && log[i].Replied? && log[i].id == id;
      assert l[i] == log[i];
    }
  }

  lemma RepliedBelow(log: seq<Entry>, id: nat, next: nat)
    requires forall e :: e in log ==> e.id < next
    ensures RepliedIn(log, id) ==> id < next
  {
    if RepliedIn(log, id) {
      var i :| 0 <= i < |log| && log[i].Replied? && log[i].id == id;
      assert log[i] in log;
    }
  }

  lemma AcceptsTrackedStep(log: seq<Entry>, s: Server, e: Entry)
    requires Inv(s) && History(log, s) && Step(s, e).Some?
    ensures AcceptsTracked(log + [e], Step(s, e).value)
  {
    var t := Step(s, e).value;
    var l := log + [e];
    forall id, specs | Accepted(id, specs) in l
      ensures if id in t.jobs then Matches(t.jobs[id], specs) else RepliedIn(l, id)
    {
      RepliedExtend(log, e, id);
      if Accepted(id, specs) != e {
        assert Accepted(id, specs) in log;
        assert Accepted(id, specs).id < s.next;
      }
    }
  }

  lemma OpenTrackedStep(log: seq<Entry>, s: Server, e: Entry)
    requires Inv(s) && History(log, s) && Step(s, e).Some?
    ensures OpenTracked(log + [e], Step(s, e).value)
  {
    var t := Step(s, e).value;
    var l := log + [e];
    forall id | id in t.jobs ensures !RepliedIn(l, id) && exists specs :: Accepted(id, specs) in l {
      RepliedExtend(log, e, id);
      if id in s.jobs {
        var specs: seq<Spec> :| Accepted(id, specs) in log;
        assert Accepted(id, specs) in l;
      } else {
        assert e == Accepted(id, e.specs) && e in l;
        RepliedBelow(log, id, s.next);
      }
    }
  }

  ghost function StatusAfter(e: Entry): Status
    requires e.Started? || e.SpawnFailed? || e.Finished?
  {
    match e
    case Started(_, _) => Running
    case SpawnFailed(_, _) => Ended(ExecFailed)
    case Finished(_, _, r) => Ended(r)
  }

  lemma RecordedHit(log: seq<Entry>, e: Entry, id: nat, k: nat, st: Status)
    requires Recorded(log, id, k, st)
    requires e.Started? || e.SpawnFailed? || (e.Finished? && e.result != Unknown)
    requires e.id == id && e.k == k && (if e.Finished? then st == Running else st == Fresh)
    ensures Recorded(log + [e], id, k, StatusAfter(e))
  {
    var l := log + [e];
    assert e in l;
    forall q
      ensures EndedWith(l, id, k, q) <==>
              EndedWith(log, id, k, q) || e == Finished(id, k, q) || (e == SpawnFailed(id, k) && q == ExecFailed)
    {
    }
  }

  lemma RecordedStep(log: seq<Entry>, s: Server, e: Entry, id: nat, k: nat)
    requires Inv(s) && History(log, s) && Step(s, e).Some?
    requires id in Step(s, e).value.jobs && k < |Step(s, e).value.jobs[id]|
    ensures Recorded(log + [e], id, k, Step(s, e).value.jobs[id][k].status)
  {
    hide Serial, AcceptsTracked, OpenTracked;
    if (e.Started? || e.SpawnFailed? || e.Finished?) && e.id == id && e.k == k {
      RecordedHit(log, e, id, k, s.jobs[id][k].status);
    } else if id in s.jobs {
      RecordedExtend(log, e, id, k, s.jobs[id][k].status);
    } else {
      RecordedNew(log, e, id, k);
    }
  }

  lemma RecordedNew(log: seq<Entry>, e: Entry, id: nat, k: nat)
    requires forall x :: x in log ==> x.id != id
    requires e.Accepted?
    ensures Recorded(log + [e], id, k, Fresh)
  {
    assert forall x :: x in log + [e] ==> x == e || x in log;
  }

  lemma HistoryStep(log: seq<Entry>, s: Server, e: Entry)
    requires Inv(s) && History(log, s) && Step(s, e).Some?
    ensures History(log + [e], Step(s, e).value)
  {
    hide AcceptsTracked, OpenTracked, Recorded, Serial;
    AcceptsTrackedStep(log, s, e);
    OpenTrackedStep(log, s, e);
    var t := Step(s, e).value;
    forall id, k | id in t.jobs && 0 <= k < |t.jobs[id]|
      ensures Recorded(log + [e], id, k, t.jobs[id][k].status)
    {
      RecordedStep(log, s, e, id, k);
    }
  }

  lemma {:induction false} ChainHistory(states: seq<Server>, log: seq<Entry>, n: nat)
    requires Chain(states, log) && n <= |log|
    ensures Inv(states[n]) && History(log[..n], states[n])
  {
    ChainKeeps(states, log, n);
    if n > 0 {
      ChainHistory(states, log, n - 1);
      assert Step(states[n - 1], log[n - 1]) == Some(states[n]);
      HistoryStep(log[..n - 1], states[n - 1], log[n - 1]);
      assert log[..n - 1] + [log[n - 1]] == log[..n];
    }
  }

  /** The server just before line j, with everything known about it. */
  lemma Before(states: seq<Server>, log: seq<Entry>, j: nat) returns (s: Server)
    requires Chain(states, log) && j < |log|
    ensures s == states[j] && Inv(s) && History(log[..j], s) && Step(s, log[j]).Some?
  {
    s := states[j];
    ChainHistory(states, log, j);
    assert Step(states[j], log[j]) == Some(states[j + 1]);
  }

  lemma {:induction false} NextGrows(states: seq<Server>, log: seq<Entry>, i: nat, j: nat)
    requires Chain(states, log) && i <= j <= |log|
    ensures states[i].next <= states[j].next
    decreases j
  {
    if i < j {
      NextGrows(states, log, i, j - 1);
      assert Step(states[j - 1], log[j - 1]) == Some(states[j]);
    }
  }

  /** A request that is unanswered later and had been numbered already was unanswered all along. */
  lemma {:induction false} StillOpenBefore(states: seq<Server>, log: seq<Entry>, i: nat, j: nat, id: nat)
    requires Chain(states, log) && i <= j <= |log|
    requires id in states[j].jobs && id < states[i].next
    ensures id in states[i].jobs
    ensures JobsHaveWait(states[i].jobs[id]) <==> JobsHaveWait(states[j].jobs[id])
    decreases j
  {
    if i < j {
      NextGrows(states, log, i, j - 1);
      var s, e := states[j - 1], log[j - 1];
      assert Step(s, e) == Some(states[j]);
      assert id in s.jobs;
      if (e.Started? || e.SpawnFailed? || e.Finished?) && e.id == id {
        SetStatusKeepsWait(s.jobs[id], e.k, states[j].jobs[id][e.k].status);
      }
      StillOpenBefore(states, log, i, j - 1, id);
    }
  }

  /** The log shows the script as started and not as ended. */
  ghost predicate RunningIn(log: seq<Entry>, id: nat, k: nat) {
    Started(id, k) in log && !EndedIn(log, id, k)
  }

  /** A script that was started has ended, or its request is still open. */
  lemma {:induction false} StartedIsOpenOrEnded(states: seq<Server>, log: seq<Entry>, n: nat, id: nat, k: nat)
    requires Chain(states, log) && n <= |log| && Started(id, k) in log[..n]
    ensures EndedIn(log[..n], id, k) || (id in states[n].jobs && k < |states[n].jobs[id]|)
  {
    hide Step, Serial, Recorded, AcceptsTracked, OpenTracked;
    var e := log[n - 1];
    assert Step(states[n - 1], e) == Some(states[n]);
    assert log[..n] == log[..n - 1] + [e];
    ChainHistory(states, log, n - 1);
    OpenStays(states[n - 1], e, id, k);
    if e != Started(id, k) {
      StartedIsOpenOrEnded(states, log, n - 1, id, k);
      if e.Replied? && e.id == id && id in states[n - 1].jobs && k < |states[n - 1].jobs[id]| {
        var st := states[n - 1].jobs[id][k].status;
        assert Recorded(log[..n - 1], id, k, st);
        EndedIsRecorded(log[..n - 1], id, k, st);
      }
      if EndedIn(log[..n - 1], id, k) {
        EndedIsRecordedThen(log[..n - 1], e, id, k);
      }
    }
  }

  lemma EndedIsRecorded(log: seq<Entry>, id: nat, k: nat, st: Status)
    requires Recorded(log, id, k, st) && st.Ended?
    ensures EndedIn(log, id, k)
  {
    assert EndedWith(log, id, k, st.result);
  }

  lemma EndedIsRecordedThen(log: seq<Entry>, e: Entry, id: nat, k: nat)
    requires EndedIn(log, id, k)
    ensures EndedIn(log + [e], id, k)
  {
    var r :| EndedWith(log, id, k, r);
    assert EndedWith(log + [e], id, k, r);
  }

  /** A request stays open, with all its scripts, until it is answered; then all of them have ended. */
  lemma OpenStays(s: Server, e: Entry, id: nat, k: nat)
    requires Step(s, e).Some?
    ensures id in s.jobs && k < |s.jobs[id]| && Inv(s) ==>
              if e.Replied? && e.id == id then s.jobs[id][k].status.Ended?
              else id in Step(s, e).value.jobs && k < |Step(s, e).value.jobs[id]|
    ensures e == Started(id, k) ==> id in Step(s, e).value.jobs && k < |Step(s, e).value.jobs[id]|
  {
    hide Serial;
  }

  /** What the log says about running scripts is what the server says. */
  lemma RunningMeans(states: seq<Server>, log: seq<Entry>, id: nat, k: nat)
    requires Chain(states, log)
    ensures var s := states[|log|];
            RunningIn(log, id, k) <==> id in s.jobs && k < |s.jobs[id]| && s.jobs[id][k].status == Running
  {
    var s := states[|log|];
    assert log[..|log|] == log;
    ChainHistory(states, log, |log|);
    if RunningIn(log, id, k) { StartedIsOpenOrEnded(states, log, |log|, id, k); }
    if id in s.jobs && k < |s.jobs[id]| {
      var st := s.jobs[id][k].status;
      assert Recorded(log, id, k, st);
      if st.Ended? { assert EndedWith(log, id, k, st.result); }
    }
  }

  // ---------------------------------------------------------------- theorems on accepted logs

  /** No script is ever spawned twice, whether or not the first attempt succeeded. */
  lemma SpawnedOnce(states: seq<Server>, log: seq<Entry>, i: nat, j: nat)
    requires Chain(states, log) && i < |log| && j < |log|
    requires (log[i].Started? || log[i].SpawnFailed?) && (log[j].Started? || log[j].SpawnFailed?)
    requires log[i].id == log[j].id && log[i].k == log[j].k
    ensures i == j
  {
    if i != j {
      var lo, hi := if i < j then i else j, if i < j then j else i;
      var s := Before(states, log, hi);
      var id, k := log[hi].id, log[hi].k;
      assert log[..hi][lo] == log[lo];
      assert Spawned(log[..hi], id, k);
    }
  }

  /** When a wait script is spawned, every no-wait script of its request and every earlier script in the
      list has already ended. */
  lemma SpawnedAfterPredecessors(states: seq<Server>, log: seq<Entry>, j: nat, specs: seq<Spec>, m: nat)
    requires Chain(states, log) && j < |log| && (log[j].Started? || log[j].SpawnFailed?)
    requires Accepted(log[j].id, specs) in log[..j]
    requires log[j].k < |specs| && specs[log[j].k].wait
    requires m < |specs| && (m < log[j].k || !specs[m].wait)
    ensures EndedIn(log[..j], log[j].id, m)
  {
    var s := Before(states, log, j);
    var id, k := log[j].id, log[j].k;
    assert s.jobs[id][k].wait && s.jobs[id][m].status.Ended?;
    assert Recorded(log[..j], id, m, s.jobs[id][m].status);
    assert EndedWith(log[..j], id, m, s.jobs[id][m].status.result);
  }

  /** A wait script of a later request is spawned only after every earlier request with wait scripts has
      been answered. */
  lemma SpawnedAfterEarlierReplies(states: seq<Server>, log: seq<Entry>, j: nat, specs: seq<Spec>, a: nat,
                                   aspecs: seq<Spec>)
    requires Chain(states, log) && j < |log| && (log[j].Started? || log[j].SpawnFailed?)
    requires Accepted(log[j].id, specs) in log[..j] && log[j].k < |specs| && specs[log[j].k].wait
    requires Accepted(a, aspecs) in log[..j] && HasWait(aspecs) && a < log[j].id
    ensures RepliedIn(log[..j], a)
  {
    var s := Before(states, log, j);
  }

  lemma OpenHasWait(log: seq<Entry>, j: nat, s: Server)
    requires j < |log| && log[j].Replied? && Inv(s) && History(log[..j], s) && log[j].id in s.jobs
    requires exists specs :: Accepted(log[j].id, specs) in log[..j] && HasWait(specs)
    ensures JobsHaveWait(s.jobs[log[j].id])
  {
    var specs: seq<Spec> :| Accepted(log[j].id, specs) in log[..j] && HasWait(specs);
    assert Matches(s.jobs[log[j].id], specs);
    var k :| 0 <= k < |specs| && specs[k].wait;
    assert s.jobs[log[j].id][k].wait;
  }

  /** A request with wait scripts is the oldest open one when it is answered. */
  lemma OldestWhenAnswered(states: seq<Server>, log: seq<Entry>, j: nat)
    requires Chain(states, log) && j < |log| && log[j].Replied?
    requires exists specs :: Accepted(log[j].id, specs) in log[..j] && HasWait(specs)
    ensures Inv(states[j]) && log[j].id in states[j].jobs && JobsHaveWait(states[j].jobs[log[j].id])
    ensures states[j].fifo != [] && states[j].fifo[0] == log[j].id
  {
    var s := Before(states, log, j);
    OpenHasWait(log, j, s);
  }

  /** Requests that have wait scripts are answered in arrival order. */
  lemma AnsweredInOrder(states: seq<Server>, log: seq<Entry>, i: nat, j: nat)
    requires Chain(states, log) && i < j < |log| && log[i].Replied? && log[j].Replied?
    requires exists specs :: Accepted(log[i].id, specs) in log[..i] && HasWait(specs)
    requires exists specs :: Accepted(log[j].id, specs) in log[..j] && HasWait(specs)
    ensures log[i].id < log[j].id
  {
    OldestWhenAnswered(states, log, i);
    NothingAfterReply(states, log, i, j);
    if log[j].id < states[i].next {
      OldestWhenAnswered(states, log, j);
      StillOpenBefore(states, log, i, j, log[j].id);
      assert log[j].id in states[i].fifo;
    }
  }

  /** A request is answered at most once, and nothing is logged about it afterwards. */
  lemma NothingAfterReply(states: seq<Server>, log: seq<Entry>, i: nat, j: nat)
    requires Chain(states, log) && i < j < |log| && log[i].Replied?
    ensures log[j].id != log[i].id
  {
    var s := Before(states, log, j);
    assert log[..j][i] == log[i];
    assert RepliedIn(log[..j], log[i].id);
    assert log[i] in log[..j];
  }

  /** A reply has one line per script of the request, in order, and each line is the result with which
      that script ended before the reply. */
  lemma ReplyIsFaithful(states: seq<Server>, log: seq<Entry>, j: nat)
    requires Chain(states, log) && j < |log| && log[j].Replied?
    ensures exists specs :: Accepted(log[j].id, specs) in log[..j] && ReportMatches(log, j, specs)
  {
    var s := Before(states, log, j);
    var id := log[j].id;
    var specs: seq<Spec> :| Accepted(id, specs) in log[..j];
    assert Matches(s.jobs[id], specs);
    forall k | 0 <= k < |specs|
      ensures log[j].report[k].0 == specs[k].name && log[j].report[k].1 != Unknown
      ensures EndedWith(log[..j], id, k, log[j].report[k].1)
    {
      assert Recorded(log[..j], id, k, s.jobs[id][k].status);
    }
    assert ReportMatches(log, j, specs);
  }

  ghost predicate ReportMatches(log: seq<Entry>, j: nat, specs: seq<Spec>)
    requires j < |log| && log[j].Replied?
  {
    && |log[j].report| == |specs|
    && forall k :: 0 <= k < |specs| ==>
         && log[j].report[k].0 == specs[k].name
         && log[j].report[k].1 != Unknown
         && EndedWith(log[..j], log[j].id, k, log[j].report[k].1)
  }
}
