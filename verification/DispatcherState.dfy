/** The dispatcher's bookkeeping as a value, its invariant, and the effect on both of the single steps
    that the methods in Dispatcher.dfy are made of. */
module DispatcherState {
  import opened Options
  import opened ScriptServer

  /** ScriptInfo: watch and timer say whether the child watch and the 10-minute timeout are armed. */
  datatype Script = Script(name: string, wait: bool, dispatched: bool, result: Result, watch: bool, timer: bool)

  datatype Request = Request(scripts: seq<Script>, idx: nat, done: nat, nowait: int)

  /** The global state; table holds the requests that have not been freed, by request number; server is
      the reference server after the log written so far. */
  datatype State = State(counter: nat, current: Option<nat>, waiting: seq<nat>, pending: int,
                         table: map<nat, Request>, server: Server)

  // ---------------------------------------------------------------- counting scripts

  ghost predicate IsEnded(sc: Script) {
    sc.dispatched && !sc.watch
  }

  ghost predicate IsRunningNowait(sc: Script) {
    !sc.wait && sc.dispatched && sc.watch
  }

  /** The two things the counters count. */
  datatype What = EndedScripts | RunningNowaits

  ghost predicate Counted(w: What, sc: Script) {
    if w == EndedScripts then IsEnded(sc) else IsRunningNowait(sc)
  }

  ghost function Bit(b: bool): nat {
    if b then 1 else 0
  }

  ghost function Tally(ss: seq<Script>, w: What): (n: nat)
    ensures n <= |ss|
  {
    if ss == [] then 0 else Bit(Counted(w, ss[|ss| - 1])) + Tally(ss[..|ss| - 1], w)
  }

  lemma {:induction false} TallyUpdate(ss: seq<Script>, w: What, k: nat, sc: Script)
    requires k < |ss|
    ensures Tally(ss[k := sc], w) == Tally(ss, w) - Bit(Counted(w, ss[k])) + Bit(Counted(w, sc))
  {
    var n := |ss| - 1;
    if k == n {
      assert ss[k := sc][..n] == ss[..n];
    } else {
      assert ss[k := sc][..n] == ss[..n][k := sc];
      TallyUpdate(ss[..n], w, k, sc);
    }
  }

  lemma {:induction false} TallyFull(ss: seq<Script>, w: What)
    ensures Tally(ss, w) == |ss| <==> forall k :: 0 <= k < |ss| ==> Counted(w, ss[k])
  {
    if ss != [] {
      var n := |ss| - 1;
      TallyFull(ss[..n], w);
      if forall k :: 0 <= k < n ==> Counted(w, ss[..n][k]) {
        assert forall k :: 0 <= k < n ==> Counted(w, ss[k]);
      } else {
        var k :| 0 <= k < n && !Counted(w, ss[..n][k]);
        assert !Counted(w, ss[k]);
      }
    }
  }

  lemma {:induction false} TallyNone(ss: seq<Script>, w: What)
    ensures Tally(ss, w) == 0 <==> forall k :: 0 <= k < |ss| ==> !Counted(w, ss[k])
  {
    if ss != [] {
      var n := |ss| - 1;
      TallyNone(ss[..n], w);
      if forall k :: 0 <= k < n ==> !Counted(w, ss[..n][k]) {
        assert forall k :: 0 <= k < n ==> !Counted(w, ss[k]);
      } else {
        var k :| 0 <= k < n && Counted(w, ss[..n][k]);
        assert Counted(w, ss[k]);
      }
    }
  }

  // ---------------------------------------------------------------- one request

  ghost function StatusOf(sc: Script): Status {
    if !sc.dispatched then Fresh else if sc.watch then Running else Ended(sc.result)
  }

  ghost function JobOf(sc: Script): Job {
    Job(sc.name, sc.wait, StatusOf(sc))
  }

  ghost function JobsOf(ss: seq<Script>): (js: seq<Job>)
    ensures |js| == |ss| && forall k :: 0 <= k < |js| ==> js[k] == JobOf(ss[k])
  {
    seq(|ss|, k requires 0 <= k < |ss| => JobOf(ss[k]))
  }

  ghost predicate ScriptOk(sc: Script) {
    && sc.watch == sc.timer
    && (!sc.dispatched ==> !sc.watch && sc.result == Unknown)
    && (sc.dispatched ==> (sc.watch <==> sc.result == Unknown))
  }

  /** Counters mean what they say; wait scripts from idx on are untouched, those before idx - 1 are over. */
  ghost predicate RequestOk(r: Request) {
    && (forall k :: 0 <= k < |r.scripts| ==> ScriptOk(r.scripts[k]))
    && r.idx <= |r.scripts|
    && r.done == Tally(r.scripts, EndedScripts)
    && r.nowait == Tally(r.scripts, RunningNowaits)
    && (forall k :: r.idx <= k < |r.scripts| && r.scripts[k].wait ==> !r.scripts[k].dispatched)
    && (forall k :: 0 <= k < r.idx - 1 && r.scripts[k].wait ==> IsEnded(r.scripts[k]))
    && (r.nowait > 0 ==> r.idx == 0)
  }

  /** Every no-wait script has been handed to the system. */
  ghost predicate NowaitOut(r: Request) {
    forall k :: 0 <= k < |r.scripts| && !r.scripts[k].wait ==> r.scripts[k].dispatched
  }

  /** No wait script of the request is running. */
  ghost predicate Ready(r: Request) {
    forall k :: 0 <= k < r.idx && k < |r.scripts| && r.scripts[k].wait ==> IsEnded(r.scripts[k])
  }

  /** Something of the current request is running: a no-wait script, or the wait script before idx. */
  ghost predicate Busy(r: Request) {
    r.nowait > 0 || (0 < r.idx <= |r.scripts| && r.scripts[r.idx - 1].wait && r.scripts[r.idx - 1].watch)
  }

  ghost predicate Complete(r: Request) {
    r.done >= |r.scripts|
  }

  lemma DoneMeansAllEnded(r: Request)
    requires RequestOk(r)
    ensures Complete(r) <==> forall k :: 0 <= k < |r.scripts| ==> IsEnded(r.scripts[k])
    ensures Complete(r) <==> AllEnded(JobsOf(r.scripts))
    ensures Complete(r) ==> r.done == |r.scripts|
  {
    TallyFull(r.scripts, EndedScripts);
    assert forall k :: 0 <= k < |r.scripts| ==> (JobsOf(r.scripts)[k].status.Ended? <==> IsEnded(r.scripts[k]));
  }

  /** What request_free asserts of a request that is answered. */
  lemma CompleteMeansNoneRunning(r: Request)
    requires RequestOk(r) && Complete(r)
    ensures r.done == |r.scripts| && r.nowait == 0
  {
    DoneMeansAllEnded(r);
    TallyNone(r.scripts, RunningNowaits);
  }

  lemma DrainedMeansNowaitOver(r: Request)
    requires RequestOk(r) && r.nowait == 0 && NowaitOut(r)
    ensures forall k :: 0 <= k < |r.scripts| && !r.scripts[k].wait ==> IsEnded(r.scripts[k])
  {
    TallyNone(r.scripts, RunningNowaits);
  }

  /** A request that is busy, or drained with idx short of a fresh wait script, is not finished. */
  lemma BusyIsUnfinished(r: Request)
    requires RequestOk(r) && Busy(r)
    ensures !Complete(r)
    ensures exists k :: 0 <= k < |r.scripts| && r.scripts[k].watch
  {
    DoneMeansAllEnded(r);
    TallyNone(r.scripts, RunningNowaits);
    if r.nowait > 0 {
      var k :| 0 <= k < |r.scripts| && IsRunningNowait(r.scripts[k]);
    } else {
      assert r.scripts[r.idx - 1].watch;
    }
  }

  lemma NowaitNonNegative(r: Request)
    requires RequestOk(r)
    ensures r.nowait >= 0 && r.idx <= |r.scripts|
  {
  }

  lemma FreshAtIdx(r: Request)
    requires RequestOk(r) && r.idx < |r.scripts|
    ensures r.scripts[r.idx].wait ==> !r.scripts[r.idx].dispatched
    ensures r.scripts[r.idx].dispatched ==> !r.scripts[r.idx].wait
    ensures !r.scripts[r.idx].dispatched ==> !r.scripts[r.idx].watch
  {
  }

  /** A request whose wait scripts have not been reached is not finished. */
  lemma UnreachedIsUnfinished(r: Request)
    requires RequestOk(r) && RequestHasWait(r) && r.idx == 0
    ensures !Complete(r)
  {
    DoneMeansAllEnded(r);
    var k :| 0 <= k < |r.scripts| && r.scripts[k].wait;
    assert !IsEnded(r.scripts[k]);
  }

  /** Once idx has passed all scripts and none is running, the request is finished. */
  lemma PassedIsFinished(r: Request)
    requires RequestOk(r) && Ready(r) && NowaitOut(r) && r.nowait == 0 && r.idx == |r.scripts|
    ensures Complete(r)
  {
    DrainedMeansNowaitOver(r);
    DoneMeansAllEnded(r);
  }

  // ---------------------------------------------------------------- the whole state

  ghost function Fifo(s: State): seq<nat> {
    (if s.current.Some? then [s.current.value] else []) + s.waiting
  }

  ghost function JobTable(table: map<nat, Request>): map<nat, seq<Job>> {
    map id | id in table :: JobsOf(table[id].scripts)
  }

  /** The reference server this state stands for; limbo is the request being accepted, not yet queued. */
  ghost function Abs(s: State, limbo: seq<nat>): Server {
    Server(JobTable(s.table), Fifo(s) + limbo, s.counter + 1)
  }

  ghost predicate TableOk(table: map<nat, Request>, current: Option<nat>) {
    forall id :: id in table ==> RequestOk(table[id]) && (current != Some(id) ==> table[id].idx == 0)
  }

  /** What holds at every point of the program: the state is exactly the state of the reference server. */
  ghost predicate Sound(s: State, limbo: seq<nat>) {
    && TableOk(s.table, s.current)
    && s.pending == |s.table|
    && s.server == Abs(s, limbo)
  }

  /** What holds while the end of a script of request id is being handled. */
  ghost predicate AlmostQuiet(s: State, id: nat) {
    && (s.current.None? ==> s.waiting == [])
    && (forall i :: i in s.table ==> NowaitOut(s.table[i]) && (i != id ==> !Complete(s.table[i])))
    && (s.current.Some? && s.current.value != id && s.current.value in s.table ==> Busy(s.table[s.current.value]))
  }

  /** What holds between events, on top of Sound. */
  ghost predicate Quiet(s: State) {
    && (s.current.None? ==> s.waiting == [])
    && (forall id :: id in s.table ==> NowaitOut(s.table[id]) && !Complete(s.table[id]))
    && (s.current.Some? && s.current.value in s.table ==> Busy(s.table[s.current.value]))
  }

  ghost predicate RequestHasWait(r: Request) {
    exists k :: 0 <= k < |r.scripts| && r.scripts[k].wait
  }

  lemma HasWaitSame(r: Request)
    ensures JobsHaveWait(JobsOf(r.scripts)) <==> RequestHasWait(r)
  {
    if RequestHasWait(r) {
      var k :| 0 <= k < |r.scripts| && r.scripts[k].wait;
      assert JobsOf(r.scripts)[k].wait;
    }
    if JobsHaveWait(JobsOf(r.scripts)) {
      var k :| 0 <= k < |r.scripts| && JobsOf(r.scripts)[k].wait;
      assert r.scripts[k].wait;
    }
  }

  lemma SoundRequest(s: State, limbo: seq<nat>, id: nat)
    requires Sound(s, limbo) && id in s.table
    ensures RequestOk(s.table[id])
    ensures s.current != Some(id) ==> s.table[id].idx == 0
  {
  }

  lemma RequestCounters(r: Request)
    requires RequestOk(r)
    ensures r.done == Tally(r.scripts, EndedScripts) && r.nowait == Tally(r.scripts, RunningNowaits)
  {
  }

  /** What the reference server's invariant says about the dispatcher's own fields. */
  lemma SoundFacts(s: State, limbo: seq<nat>)
    requires Inv(s.server)
    requires Sound(s, limbo)
    ensures forall id :: id in s.table ==> id <= s.counter
    ensures forall id :: id in Fifo(s) + limbo ==> id in s.table
    ensures s.current.Some? ==> s.current.value in s.table && RequestHasWait(s.table[s.current.value])
    ensures forall id :: id in s.waiting ==> id in s.table && s.current != Some(id)
    ensures forall id :: id in s.table ==> (id in Fifo(s) + limbo <==> RequestHasWait(s.table[id]))
  {
    hide RequestOk;
    var a := s.server;
    forall id | id in s.table
      ensures id <= s.counter && (id in Fifo(s) + limbo <==> RequestHasWait(s.table[id]))
    {
      assert id in a.jobs && a.jobs[id] == JobsOf(s.table[id].scripts);
      HasWaitSame(s.table[id]);
    }
    if s.current.Some? {
      assert a.fifo[0] == s.current.value && a.fifo[0] in a.fifo;
    }
    forall id | id in s.waiting ensures id in s.table && s.current != Some(id) {
      var i :| 0 <= i < |s.waiting| && s.waiting[i] == id;
      var off := if s.current.Some? then 1 else 0;
      assert a.fifo[i + off] == id && a.fifo[i + off] in a.fifo;
    }
  }

  /** The head of the queue is a live request none of whose wait scripts has been reached. */
  lemma WaitingIsUnreached(s: State)
    requires Inv(s.server)
    requires Sound(s, []) && s.waiting != []
    ensures s.waiting[0] in s.table && s.table[s.waiting[0]].idx == 0
  {
    SoundFacts(s, []);
    assert s.waiting[0] in s.waiting;
  }

  lemma TableSet(table: map<nat, Request>, current: Option<nat>, id: nat, r: Request)
    requires TableOk(table, current) && id in table && RequestOk(r)
    requires current != Some(id) ==> r.idx == 0
    ensures TableOk(table[id := r], current)
    ensures |table[id := r]| == |table|
  {
    hide RequestOk;
    assert table[id := r].Keys == table.Keys;
    assert |table.Keys| == |table| && |table[id := r].Keys| == |table[id := r]|;
  }

  lemma JobsSet(ss: seq<Script>, k: nat, sc: Script)
    requires k < |ss|
    ensures JobsOf(ss[k := sc]) == JobsOf(ss)[k := JobOf(sc)]
  {
  }

  lemma JobTableSet(table: map<nat, Request>, id: nat, r: Request)
    ensures JobTable(table[id := r]) == JobTable(table)[id := JobsOf(r.scripts)]
  {
  }

  /** Replacing one script, together with the counters it affects, is one step of the reference server. */
  lemma ScriptStep(s: State, limbo: seq<nat>, id: nat, k: nat, sc: Script, r: Request)
    requires Sound(s, limbo) && id in s.table && k < |s.table[id].scripts|
    requires r.scripts == s.table[id].scripts[k := sc] && r.idx == s.table[id].idx && RequestOk(r)
    requires sc.name == s.table[id].scripts[k].name && sc.wait == s.table[id].scripts[k].wait
    ensures id in s.server.jobs && k < |s.server.jobs[id]|
    ensures Sound(s.(table := s.table[id := r], server := SetStatus(s.server, id, k, StatusOf(sc))), limbo)
  {
    hide RequestOk;
    TableSet(s.table, s.current, id, r);
    JobsSet(s.table[id].scripts, k, sc);
    JobTableSet(s.table, id, r);
  }

  // ---------------------------------------------------------------- single steps

  /** script_dispatch when the process could be created. */
  ghost function Launched(r: Request, k: nat): Request
    requires k < |r.scripts|
  {
    r.(scripts := r.scripts[k := r.scripts[k].(dispatched := true, watch := true, timer := true)],
       nowait := if r.scripts[k].wait then r.nowait else r.nowait + 1)
  }

  /** script_dispatch when it could not. */
  ghost function Unlaunched(r: Request, k: nat): Request
    requires k < |r.scripts|
  {
    r.(scripts := r.scripts[k := r.scripts[k].(dispatched := true, result := ExecFailed)],
       done := r.done + 1)
  }

  /** The end of a running script, by exit or by timeout. */
  ghost function Over(r: Request, k: nat, res: Result): Request
    requires k < |r.scripts|
  {
    r.(scripts := r.scripts[k := r.scripts[k].(watch := false, timer := false, result := res)],
       done := r.done + 1,
       nowait := if r.scripts[k].wait then r.nowait else r.nowait - 1)
  }

  /** When a script that has not been dispatched may be handed to script_dispatch: a no-wait script while
      the request is being accepted, in list order; a wait script as the one just passed by idx, with the
      no-wait scripts drained and no other wait script running. */
  ghost predicate CanStart(s: State, id: nat, k: nat)
    requires id in s.table && k < |s.table[id].scripts|
  {
    var r := s.table[id];
    if r.scripts[k].wait then
      && s.current == Some(id) && r.nowait == 0 && NowaitOut(r) && r.idx == k + 1
      && (forall j :: 0 <= j < k && r.scripts[j].wait ==> IsEnded(r.scripts[j]))
    else
      && r.idx == 0
      && (forall j :: 0 <= j < k && !r.scripts[j].wait ==> r.scripts[j].dispatched)
  }

  lemma CanStartMayStart(s: State, limbo: seq<nat>, id: nat, k: nat)
    requires Sound(s, limbo) && id in s.table && k < |s.table[id].scripts|
    requires !s.table[id].scripts[k].dispatched && CanStart(s, id, k)
    ensures MayStart(s.server, id, k)
  {
    hide RequestOk;
    var r := s.table[id];
    SoundRequest(s, limbo, id);
    var js := s.server.jobs[id];
    assert js == JobsOf(r.scripts);
    if r.scripts[k].wait {
      DrainedMeansNowaitOver(r);
      assert s.server.fifo[0] == id;
    }
  }

  lemma LaunchKeepsRequest(r: Request, k: nat)
    requires RequestOk(r) && k < |r.scripts| && !r.scripts[k].dispatched
    requires if r.scripts[k].wait then r.idx == k + 1 else r.idx == 0
    ensures RequestOk(Launched(r, k)) && RequestOk(Unlaunched(r, k))
    ensures !r.scripts[k].watch
  {
    var r' := Launched(r, k);
    TallyUpdate(r.scripts, EndedScripts, k, r'.scripts[k]);
    TallyUpdate(r.scripts, RunningNowaits, k, r'.scripts[k]);
    var r2 := Unlaunched(r, k);
    TallyUpdate(r.scripts, EndedScripts, k, r2.scripts[k]);
    TallyUpdate(r.scripts, RunningNowaits, k, r2.scripts[k]);
  }

  /** script_dispatch keeps the state sound, whether or not the process could be created. */
  lemma LaunchOk(s: State, limbo: seq<nat>, id: nat, k: nat)
    requires Sound(s, limbo) && id in s.table && k < |s.table[id].scripts|
    requires !s.table[id].scripts[k].dispatched && CanStart(s, id, k)
    ensures Step(s.server, Started(id, k)).Some? && Step(s.server, SpawnFailed(id, k)).Some?
    ensures Sound(s.(table := s.table[id := Launched(s.table[id], k)],
                     server := Step(s.server, Started(id, k)).value), limbo)
    ensures Sound(s.(table := s.table[id := Unlaunched(s.table[id], k)],
                     server := Step(s.server, SpawnFailed(id, k)).value), limbo)
  {
    hide RequestOk;
    var r := s.table[id];
    LaunchKeepsRequest(r, k);
    CanStartMayStart(s, limbo, id, k);
    ScriptStep(s, limbo, id, k, Launched(r, k).scripts[k], Launched(r, k));
    ScriptStep(s, limbo, id, k, Unlaunched(r, k).scripts[k], Unlaunched(r, k));
  }

  lemma OverKeepsRequest(r: Request, k: nat, res: Result)
    requires RequestOk(r) && k < |r.scripts| && r.scripts[k].watch && res != Unknown
    ensures RequestOk(Over(r, k, res)) && r.scripts[k].dispatched && r.scripts[k].result == Unknown
    ensures r.scripts[k].wait ==> k + 1 == r.idx && r.nowait == 0
    ensures !r.scripts[k].wait ==> r.nowait > 0 && r.idx == 0
  {
    var r' := Over(r, k, res);
    assert ScriptOk(r.scripts[k]);
    TallyUpdate(r.scripts, EndedScripts, k, r'.scripts[k]);
    TallyUpdate(r.scripts, RunningNowaits, k, r'.scripts[k]);
    TallyNone(r.scripts, RunningNowaits);
    if r.scripts[k].wait {
      assert k < r.idx;
    } else {
      assert IsRunningNowait(r.scripts[k]);
    }
  }

  /** The end of a running script keeps the state sound. */
  lemma OverOk(s: State, id: nat, k: nat, res: Result)
    requires Sound(s, []) && id in s.table && k < |s.table[id].scripts|
    requires s.table[id].scripts[k].watch
    requires res == Success || res == Failed || res == TimedOut
    ensures Step(s.server, Finished(id, k, res)).Some?
    ensures Sound(s.(table := s.table[id := Over(s.table[id], k, res)],
                     server := Step(s.server, Finished(id, k, res)).value), [])
  {
    hide RequestOk;
    var r := s.table[id];
    OverKeepsRequest(r, k, res);
    assert s.server.jobs[id] == JobsOf(r.scripts);
    ScriptStep(s, [], id, k, Over(r, k, res).scripts[k], Over(r, k, res));
  }

  lemma AdvanceKeepsRequest(r: Request)
    requires RequestOk(r) && r.nowait == 0 && r.idx < |r.scripts| && Ready(r)
    ensures RequestOk(r.(idx := r.idx + 1))
  {
  }

  /** Moving idx on changes nothing the server can see. */
  lemma AdvanceOk(s: State, id: nat, r: Request)
    requires Sound(s, []) && s.current == Some(id) && id in s.table
    requires RequestOk(r) && r.scripts == s.table[id].scripts
    ensures Sound(s.(table := s.table[id := r]), [])
  {
    TableSet(s.table, s.current, id, r);
    JobTableSet(s.table, id, r);
  }

  lemma WatchIsTimer(s: State, id: nat, k: nat)
    requires Sound(s, []) && id in s.table && k < |s.table[id].scripts|
    ensures s.table[id].scripts[k].watch == s.table[id].scripts[k].timer
  {
    assert ScriptOk(s.table[id].scripts[k]);
  }

  lemma BoundId(s: State, id: nat)
    requires Inv(s.server) && Sound(s, []) && id in s.table
    ensures id < s.counter + 1
  {
    SoundFacts(s, []);
  }

  ghost function AfterEnd(s: State, id: nat, k: nat, res: Result): State
    requires id in s.table && k < |s.table[id].scripts|
    requires Step(s.server, Finished(id, k, res)).Some?
  {
    s.(table := s.table[id := Over(s.table[id], k, res)], server := Step(s.server, Finished(id, k, res)).value)
  }

  lemma OverIsReady(r: Request, k: nat, res: Result)
    requires RequestOk(r) && k < |r.scripts| && r.scripts[k].watch && r.scripts[k].wait
    ensures Ready(Over(r, k, res))
  {
    assert k < r.idx;
  }

  /** The end of a running script leaves the dispatcher in a state from which complete_script restores
      quiet. */
  lemma BeginEnd(s: State, id: nat, k: nat, res: Result)
    requires Sound(s, []) && Quiet(s) && id in s.table && k < |s.table[id].scripts|
    requires s.table[id].scripts[k].watch
    requires res == Success || res == Failed || res == TimedOut
    ensures Step(s.server, Finished(id, k, res)).Some?
    ensures s.table[id].scripts[k].result == Unknown
    ensures Sound(AfterEnd(s, id, k, res), [])
    ensures AlmostQuiet(AfterEnd(s, id, k, res), id)
    ensures s.table[id].scripts[k].wait ==> s.current == Some(id) && Ready(Over(s.table[id], k, res))
    ensures !s.table[id].scripts[k].wait ==> s.table[id].idx == 0
  {
    hide RequestOk, Step, JobTable;
    SoundRequest(s, [], id);
    OverOk(s, id, k, res);
    OverKeepsRequest(s.table[id], k, res);
    if s.table[id].scripts[k].wait {
      OverIsReady(s.table[id], k, res);
    }
  }

  /** While a script of its own is being completed, the current request has a wait script to come. */
  lemma CurrentIsUnfinished(s: State, id: nat)
    requires Inv(s.server) && Sound(s, []) && id in s.table
    requires s.current == Some(id) && s.table[id].idx == 0
    ensures !Complete(s.table[id])
  {
    SoundFacts(s, []);
    UnreachedIsUnfinished(s.table[id]);
  }

  lemma UnreachedIsReady(r: Request)
    requires r.idx == 0
    ensures Ready(r)
  {
  }

  lemma NowaitIsBusy(r: Request)
    requires RequestOk(r) && r.nowait != 0
    ensures Busy(r)
  {
  }

  ghost function Summary(r: Request): (rep: seq<(string, Result)>)
    ensures |rep| == |r.scripts| && forall k :: 0 <= k < |rep| ==> rep[k] == (r.scripts[k].name, r.scripts[k].result)
  {
    seq(|r.scripts|, k requires 0 <= k < |r.scripts| => (r.scripts[k].name, r.scripts[k].result))
  }

  /** A finished request with wait scripts can only be the current one. */
  lemma FinishedIsCurrent(s: State, id: nat)
    requires Inv(s.server)
    requires Sound(s, []) && id in s.table && Complete(s.table[id])
    ensures RequestHasWait(s.table[id]) <==> s.current == Some(id)
  {
    SoundFacts(s, []);
    DoneMeansAllEnded(s.table[id]);
  }

  /** What the reference server makes of a reply. */
  ghost function Answer(srv: Server, id: nat, wait: bool): Server
  {
    Server(srv.jobs - {id}, if wait && srv.fifo != [] then srv.fifo[1..] else srv.fifo, srv.next)
  }

  ghost function AfterReply(s: State, id: nat): State
  {
    s.(table := s.table - {id}, pending := s.pending - 1,
       current := if s.current == Some(id) then None else s.current,
       server := Answer(s.server, id, s.current == Some(id)))
  }

  lemma ReplyReport(r: Request)
    requires RequestOk(r) && Complete(r)
    ensures AllEnded(JobsOf(r.scripts)) && Report(JobsOf(r.scripts)) == Summary(r)
  {
    DoneMeansAllEnded(r);
  }

  lemma ReplyAllowed(s: State, id: nat)
    requires Inv(s.server)
    requires Sound(s, []) && id in s.table && Complete(s.table[id])
    ensures Step(s.server, Replied(id, Summary(s.table[id]))) == Some(Answer(s.server, id, s.current == Some(id)))
  {
    hide RequestOk;
    FinishedIsCurrent(s, id);
    ReplyReport(s.table[id]);
    HasWaitSame(s.table[id]);
    assert s.server.jobs[id] == JobsOf(s.table[id].scripts);
  }

  lemma RemoveFromTable(table: map<nat, Request>, current: Option<nat>, id: nat)
    requires TableOk(table, current) && id in table
    ensures TableOk(table - {id}, if current == Some(id) then None else current)
    ensures |table - {id}| == |table| - 1
    ensures JobTable(table - {id}) == JobTable(table) - {id}
  {
    hide RequestOk;
    var t := table - {id};
    assert t.Keys == table.Keys - {id};
    assert |t.Keys| == |t| && |table.Keys| == |table|;
  }

  lemma FifoAfterReply(s: State, id: nat)
    ensures Fifo(AfterReply(s, id)) + [] ==
            if s.current == Some(id) then (Fifo(s) + [])[1..] else Fifo(s) + []
  {
  }

  lemma ReplySound(s: State, id: nat)
    requires Sound(s, []) && id in s.table
    ensures Sound(AfterReply(s, id), [])
  {
    hide RequestOk;
    var t := AfterReply(s, id);
    RemoveFromTable(s.table, s.current, id);
    FifoAfterReply(s, id);
    assert t.server == Abs(t, []);
  }

  /** Answering and freeing a finished request keeps the state sound; the count of pending requests
      reaches zero only when nothing is current and nothing waits. */
  lemma ReplyOk(s: State, id: nat)
    requires Inv(s.server)
    requires Sound(s, []) && id in s.table && Complete(s.table[id])
    ensures Step(s.server, Replied(id, Summary(s.table[id]))) == Some(AfterReply(s, id).server)
    ensures s.pending > 0 && Sound(AfterReply(s, id), [])
    ensures s.pending == 1 ==> AfterReply(s, id).current.None? && s.waiting == []
  {
    hide RequestOk;
    RemoveFromTable(s.table, s.current, id);
    ReplyAllowed(s, id);
    ReplySound(s, id);
    StepKeeps(s.server, Replied(id, Summary(s.table[id])));
    EmptyTable(AfterReply(s, id));
  }

  lemma HasMember(ids: seq<nat>)
    ensures ids != [] ==> exists id :: id in ids
  {
    if ids != [] {
      assert ids[0] in ids;
    }
  }

  lemma EmptyTable(s: State)
    requires Inv(s.server) && Sound(s, [])
    ensures s.pending == 0 ==> s.current.None? && s.waiting == [] && s.table == map[]
  {
    hide RequestOk;
    if s.pending == 0 {
      assert s.table == map[];
      SoundFacts(s, []);
      HasMember(s.waiting);
    }
  }

  lemma EnqueueOk(s: State, id: nat)
    requires Sound(s, [id]) && s.current.Some?
    ensures Sound(s.(waiting := s.waiting + [id]), [])
  {
    var t := s.(waiting := s.waiting + [id]);
    assert Fifo(t) + [] == Fifo(s) + [id];
  }

  lemma ActivateOk(s: State, id: nat)
    requires Sound(s, [id]) && s.current.None? && s.waiting == []
    ensures Sound(s.(current := Some(id)), [])
  {
    var t := s.(current := Some(id));
    assert Fifo(t) + [] == Fifo(s) + [id];
  }

  lemma PopOk(s: State)
    requires Sound(s, []) && s.current.None? && s.waiting != []
    ensures Sound(s.(current := Some(s.waiting[0]), waiting := s.waiting[1..]), [])
  {
    var t := s.(current := Some(s.waiting[0]), waiting := s.waiting[1..]);
    assert Fifo(t) == Fifo(s);
  }

  ghost predicate AllFresh(r: Request, specs: seq<Spec>) {
    && |r.scripts| == |specs| && r.idx == 0 && r.done == 0 && r.nowait == 0
    && forall k :: 0 <= k < |specs| ==>
                     r.scripts[k] == Script(specs[k].name, specs[k].wait, false, Unknown, false, false)
  }

  lemma FreshIsUndispatched(r: Request, specs: seq<Spec>)
    requires AllFresh(r, specs)
    ensures |r.scripts| == |specs| && r.idx == 0
    ensures forall k :: 0 <= k < |specs| ==> r.scripts[k].wait == specs[k].wait && !r.scripts[k].dispatched
    ensures !HasWait(specs[..0])
  {
  }

  lemma HasWaitExtend(specs: seq<Spec>, n: nat)
    requires n < |specs|
    ensures HasWait(specs[..n + 1]) <==> HasWait(specs[..n]) || specs[n].wait
  {
    if HasWait(specs[..n]) {
      var k :| 0 <= k < n && specs[..n][k].wait;
      assert specs[..n + 1][k].wait;
    }
    if specs[n].wait {
      assert specs[..n + 1][n].wait;
    }
  }

  lemma FreshHasWait(r: Request, specs: seq<Spec>)
    requires |r.scripts| == |specs| && forall k :: 0 <= k < |specs| ==> r.scripts[k].wait == specs[k].wait
    ensures RequestHasWait(r) <==> HasWait(specs)
  {
    if HasWait(specs) {
      var k :| 0 <= k < |specs| && specs[k].wait;
      assert r.scripts[k].wait;
    }
  }

  lemma FreshRequestOk(r: Request, specs: seq<Spec>)
    requires AllFresh(r, specs)
    ensures r.idx == 0 && RequestOk(r) && JobsOf(r.scripts) == FreshJobs(specs)
  {
    TallyNone(r.scripts, EndedScripts);
    TallyNone(r.scripts, RunningNowaits);
  }

  /** What the reference server makes of a new request. */
  ghost function Admit(srv: Server, id: nat, specs: seq<Spec>): Server {
    Server(srv.jobs[id := FreshJobs(specs)], srv.fifo + (if HasWait(specs) then [id] else []), id + 1)
  }

  ghost function AfterAccept(s: State, specs: seq<Spec>, r: Request): State {
    s.(counter := s.counter + 1, table := s.table[s.counter + 1 := r], pending := s.pending + 1,
       server := Admit(s.server, s.counter + 1, specs))
  }

  lemma AddToTable(table: map<nat, Request>, current: Option<nat>, id: nat, r: Request)
    requires TableOk(table, current) && id !in table && RequestOk(r) && r.idx == 0
    ensures TableOk(table[id := r], current)
    ensures |table[id := r]| == |table| + 1
  {
    hide RequestOk;
    var t := table[id := r];
    assert t.Keys == table.Keys + {id};
    assert |t.Keys| == |t| && |table.Keys| == |table|;
  }

  lemma AcceptAllowed(s: State, specs: seq<Spec>, r: Request)
    requires Inv(s.server) && Sound(s, []) && specs != []
    ensures s.pending >= 0 && s.counter + 1 !in s.table && s.current != Some(s.counter + 1)
    ensures Step(s.server, Accepted(s.counter + 1, specs)) == Some(AfterAccept(s, specs, r).server)
  {
    hide RequestOk, JobTable, TableOk, RequestHasWait, Inv;
    SoundFacts(s, []);
    assert s.server.fifo + [] == s.server.fifo;
  }

  lemma AcceptSound(s: State, specs: seq<Spec>, r: Request)
    requires Sound(s, []) && RequestOk(r) && r.idx == 0 && JobsOf(r.scripts) == FreshJobs(specs)
    requires s.counter + 1 !in s.table
    ensures Sound(AfterAccept(s, specs, r), if HasWait(specs) then [s.counter + 1] else [])
  {
    hide RequestOk, TableOk, JobsOf;
    var t := AfterAccept(s, specs, r);
    AddToTable(s.table, s.current, s.counter + 1, r);
    JobTableSet(s.table, s.counter + 1, r);
    assert Fifo(s) + [] == Fifo(s);
    assert t.server == Abs(t, if HasWait(specs) then [s.counter + 1] else []);
  }

  /** Entering a new request into the table, before any script of it is started, keeps the state sound. */
  lemma AcceptOk(s: State, specs: seq<Spec>, r: Request)
    requires Inv(s.server)
    requires Sound(s, []) && specs != [] && AllFresh(r, specs)
    ensures s.pending >= 0 && s.counter + 1 !in s.table && s.current != Some(s.counter + 1)
    ensures Step(s.server, Accepted(s.counter + 1, specs)) == Some(AfterAccept(s, specs, r).server)
    ensures Sound(AfterAccept(s, specs, r), if HasWait(specs) then [s.counter + 1] else [])
  {
    hide *;
    FreshRequestOk(r, specs);
    AcceptAllowed(s, specs, r);
    AcceptSound(s, specs, r);
  }

  lemma RefuseOk(s: State)
    requires Sound(s, [])
    ensures Step(s.server, Refused(s.counter + 1)).Some?
    ensures Sound(s.(counter := s.counter + 1, server := Step(s.server, Refused(s.counter + 1)).value), [])
  {
  }

  // ---------------------------------------------------------------- the work that is left

  ghost function Left(r: Request): int {
    |r.scripts| - r.done
  }

  /** Scripts that have not ended, over all requests with a number below n. */
  ghost function Work(table: map<nat, Request>, n: nat): int {
    if n == 0 then 0
    else Work(table, n - 1) + if n - 1 in table then Left(table[n - 1]) else 0
  }

  lemma {:induction false} WorkUpdate(table: map<nat, Request>, n: nat, id: nat, r: Request)
    requires id in table
    ensures Work(table[id := r], n) == Work(table, n) + if id < n then Left(r) - Left(table[id]) else 0
  {
    if n > 0 { WorkUpdate(table, n - 1, id, r); }
  }

  lemma {:induction false} WorkRemove(table: map<nat, Request>, n: nat, id: nat)
    requires id in table && Left(table[id]) == 0
    ensures Work(table - {id}, n) == Work(table, n)
  {
    if n > 0 { WorkRemove(table, n - 1, id); }
  }

  lemma {:induction false} WorkNonNegative(table: map<nat, Request>, current: Option<nat>, n: nat)
    requires TableOk(table, current)
    ensures Work(table, n) >= 0
  {
    if n > 0 {
      WorkNonNegative(table, current, n - 1);
    }
  }

  lemma RemainingNonNegative(s: State)
    requires Sound(s, [])
    ensures Work(s.table, s.counter + 1) >= 0
    ensures |s.table| == 0 ==> s.table == map[] && s.pending == 0
  {
    WorkNonNegative(s.table, s.current, s.counter + 1);
  }

  // ---------------------------------------------------------------- no deadlock

  /** Between events, whenever a request is unanswered some script is running, so an exit or a timeout
      can still happen; a waiting request implies a current one, and the current one is busy. */
  lemma NoDeadlock(s: State)
    requires Inv(s.server)
    requires Sound(s, []) && Quiet(s)
    ensures s.waiting != [] ==> s.current.Some?
    ensures s.current.Some? ==> s.current.value in s.table && Busy(s.table[s.current.value])
    ensures s.table != map[] ==>
              exists id, k :: id in s.table && 0 <= k < |s.table[id].scripts| && s.table[id].scripts[k].watch
  {
    hide RequestOk;
    SoundFacts(s, []);
    if s.current.Some? {
      BusyIsUnfinished(s.table[s.current.value]);
    } else if s.table != map[] {
      var id :| id in s.table;
      var r := s.table[id];
      assert id !in Fifo(s) + [];
      DoneMeansAllEnded(r);
      var k :| 0 <= k < |r.scripts| && !IsEnded(r.scripts[k]);
      assert !r.scripts[k].wait;
      assert s.table[id].scripts[k].watch;
    }
  }

  /** At most one wait script runs; it is the one before idx in the current request, and then no no-wait
      script of that request is running. */
  lemma OneWaitScript(s: State, id: nat, k: nat)
    requires Sound(s, []) && id in s.table && k < |s.table[id].scripts|
    requires s.table[id].scripts[k].wait && s.table[id].scripts[k].watch
    ensures s.current == Some(id) && k + 1 == s.table[id].idx && s.table[id].nowait == 0
  {
    var r := s.table[id];
    assert ScriptOk(r.scripts[k]);
  }

  /** A child is watched exactly while the log shows its script as running. */
  lemma WatchedIsRunning(log: seq<Entry>, s: State, id: nat, k: nat)
    requires Logged(log, s.server) && Sound(s, [])
    ensures id in s.table && k < |s.table[id].scripts| && s.table[id].scripts[k].watch <==> RunningIn(log, id, k)
  {
    hide RequestOk, RunningIn;
    var states :| Chain(states, log) && states[|log|] == s.server;
    RunningMeans(states, log, id, k);
    if id in s.table && k < |s.table[id].scripts| {
      SoundRequest(s, [], id);
      WatchedScript(s.table[id], k);
      assert s.server.jobs[id] == JobsOf(s.table[id].scripts);
    }
  }

  lemma WatchedScript(r: Request, k: nat)
    requires RequestOk(r) && k < |r.scripts|
    ensures r.scripts[k].watch == r.scripts[k].timer
    ensures r.scripts[k].watch <==> StatusOf(r.scripts[k]) == Running
  {
    assert ScriptOk(r.scripts[k]);
  }

  // ---------------------------------------------------------------- the counters against the log

  ghost function CountedAt(ss: seq<Script>, w: What): set<nat> {
    set k: nat | k < |ss| && Counted(w, ss[k])
  }

  lemma {:induction false} TallyIsCardinality(ss: seq<Script>, w: What)
    ensures Tally(ss, w) == |CountedAt(ss, w)|
  {
    if ss == [] {
      assert CountedAt(ss, w) == {};
    } else {
      var n := |ss| - 1;
      TallyIsCardinality(ss[..n], w);
      if Counted(w, ss[n]) {
        assert CountedAt(ss, w) == CountedAt(ss[..n], w) + {n};
      } else {
        assert CountedAt(ss, w) == CountedAt(ss[..n], w);
      }
    }
  }

  /** The positions of the scripts of request id that the log shows as ended, or as running no-wait ones. */
  ghost function EndedPositions(log: seq<Entry>, id: nat, n: nat): set<nat> {
    set k: nat | k < n && EndedIn(log, id, k)
  }

  ghost function RunningNowaitPositions(log: seq<Entry>, id: nat, ss: seq<Script>): set<nat> {
    set k: nat | k < |ss| && !ss[k].wait && Started(id, k) in log && !EndedIn(log, id, k)
  }

  /** num_requests_pending counts the requests accepted and not yet answered; in each of them
      num_scripts_done counts the scripts that ended and num_scripts_nowait the no-wait scripts that run. */
  lemma Conservation(states: seq<Server>, log: seq<Entry>, s: State)
    requires Chain(states, log) && states[|log|] == s.server && Sound(s, [])
    ensures s.pending == |s.table|
    ensures forall id :: id in s.table <==> !RepliedIn(log, id) && exists specs :: Accepted(id, specs) in log
    ensures forall id :: id in s.table ==>
                           && s.table[id].done == |EndedPositions(log, id, |s.table[id].scripts|)|
                           && s.table[id].nowait == |RunningNowaitPositions(log, id, s.table[id].scripts)|
  {
    ChainHistory(states, log, |log|);
    assert log[..|log|] == log;
    forall id | id in s.table
      ensures s.table[id].done == |EndedPositions(log, id, |s.table[id].scripts|)|
      ensures s.table[id].nowait == |RunningNowaitPositions(log, id, s.table[id].scripts)|
    {
      CountersMatchLog(log, s, id);
    }
    assert forall id :: id in s.table <==> id in s.server.jobs;
    forall id | !RepliedIn(log, id) && exists specs :: Accepted(id, specs) in log
      ensures id in s.server.jobs
    {
      var specs: seq<Spec> :| Accepted(id, specs) in log;
    }
  }

  lemma RecordedScript(log: seq<Entry>, id: nat, k: nat, sc: Script)
    requires Recorded(log, id, k, StatusOf(sc))
    ensures IsEnded(sc) <==> EndedIn(log, id, k)
    ensures IsRunningNowait(sc) <==> !sc.wait && Started(id, k) in log && !EndedIn(log, id, k)
  {
    if IsEnded(sc) { assert EndedWith(log, id, k, sc.result); }
  }

  lemma CountersMatchLog(log: seq<Entry>, s: State, id: nat)
    requires History(log, s.server) && Sound(s, []) && id in s.table
    ensures s.table[id].done == |EndedPositions(log, id, |s.table[id].scripts|)|
    ensures s.table[id].nowait == |RunningNowaitPositions(log, id, s.table[id].scripts)|
  {
    hide Step, Fifo, AcceptsTracked, OpenTracked, Recorded, EndedIn, RequestOk;
    SoundRequest(s, [], id);
    RequestCounters(s.table[id]);
    var ss := s.table[id].scripts;
    TallyIsCardinality(ss, EndedScripts);
    TallyIsCardinality(ss, RunningNowaits);
    assert s.server.jobs[id] == JobsOf(ss);
    forall k | 0 <= k < |ss|
      ensures IsEnded(ss[k]) <==> EndedIn(log, id, k)
      ensures IsRunningNowait(ss[k]) <==> !ss[k].wait && Started(id, k) in log && !EndedIn(log, id, k)
    {
      assert Recorded(log, id, k, StatusOf(ss[k]));
      RecordedScript(log, id, k, ss[k]);
    }
    assert CountedAt(ss, EndedScripts) == EndedPositions(log, id, |ss|);
    assert CountedAt(ss, RunningNowaits) == RunningNowaitPositions(log, id, ss);
  }
}
