/** How long a request can wait: only for its own scripts and those of the ordered requests ahead of it,
    however many requests arrive in the meantime. */
module BoundedWaiting {
  import opened Options
  import opened ScriptServer
  import opened DispatcherState

  // ---------------------------------------------------------------- counting

  ghost function JobsLeft(js: seq<Job>): nat {
    if js == [] then 0 else JobsLeft(js[..|js| - 1]) + if js[|js| - 1].status.Ended? then 0 else 1
  }

  /** The scripts that have not ended, over the open requests among ids with a number below n. */
  ghost function LeftIn(s: Server, ids: set<nat>, n: nat): nat {
    if n == 0 then 0
    else LeftIn(s, ids, n - 1) + if n - 1 in ids && n - 1 in s.jobs then JobsLeft(s.jobs[n - 1]) else 0
  }

  ghost predicate IsEndIn(e: Entry, ids: set<nat>) {
    (e.Finished? || e.SpawnFailed?) && e.id in ids
  }

  /** The lines of the log on which a script of one of these requests ends. */
  ghost function Ends(log: seq<Entry>, ids: set<nat>): nat {
    if log == [] then 0 else Ends(log[..|log| - 1], ids) + if IsEndIn(log[|log| - 1], ids) then 1 else 0
  }

  /** A request and, if it has wait scripts, the open requests with wait scripts that arrived before it. */
  ghost function Ahead(s: Server, id: nat): set<nat> {
    set j | j in s.jobs && (j == id || (id in s.fifo && j in s.fifo && j < id))
  }

  lemma {:induction false} JobsLeftSet(js: seq<Job>, k: nat, st: Status)
    requires k < |js|
    ensures JobsLeft(js[k := js[k].(status := st)]) ==
            JobsLeft(js) + (if st.Ended? then 0 else 1) - (if js[k].status.Ended? then 0 else 1)
  {
    var js' := js[k := js[k].(status := st)];
    var n := |js| - 1;
    if k < n {
      JobsLeftSet(js[..n], k, st);
      assert js'[..n] == js[..n][k := js[k].(status := st)];
    } else {
      assert js'[..n] == js[..n];
    }
  }

  lemma {:induction false} NoJobsLeft(js: seq<Job>)
    ensures JobsLeft(js) == 0 <==> AllEnded(js)
  {
    if js != [] {
      var n := |js| - 1;
      NoJobsLeft(js[..n]);
      assert AllEnded(js) <==> AllEnded(js[..n]) && js[n].status.Ended?;
    }
  }

  /** What other requests do does not matter. */
  lemma {:induction false} LeftElsewhere(s: Server, t: Server, ids: set<nat>, n: nat, id: nat, less: nat)
    requires forall j :: j in ids && j != id && j < n ==> (j in s.jobs <==> j in t.jobs)
    requires forall j :: j in ids && j != id && j < n && j in s.jobs ==> s.jobs[j] == t.jobs[j]
    requires id in ids ==> (if id in s.jobs then JobsLeft(s.jobs[id]) else 0) ==
                           (if id in t.jobs then JobsLeft(t.jobs[id]) else 0) + less
    ensures LeftIn(s, ids, n) == LeftIn(t, ids, n) + if id in ids && id < n then less else 0
  {
    if n > 0 { LeftElsewhere(s, t, ids, n - 1, id, less); }
  }

  /** Each end of a script lowers what is left by one, and nothing else changes it. */
  lemma StepLeft(s: Server, e: Entry, ids: set<nat>, n: nat)
    requires Inv(s) && Step(s, e).Some? && forall j :: j in ids ==> j < n && j < s.next
    ensures LeftIn(s, ids, n) == LeftIn(Step(s, e).value, ids, n) + if IsEndIn(e, ids) then 1 else 0
  {
    hide JobsLeft, Inv, MayStart;
    var t := Step(s, e).value;
    match e
    case Accepted(id, specs) => LeftElsewhere(s, t, ids, n, id, 0);
    case Refused(id) => LeftElsewhere(s, t, ids, n, id, 0);
    case Started(id, k) =>
      StartedIsFresh(s, id, k);
      JobsLeftSet(s.jobs[id], k, Running);
      LeftElsewhere(s, t, ids, n, id, 0);
    case SpawnFailed(id, k) =>
      StartedIsFresh(s, id, k);
      JobsLeftSet(s.jobs[id], k, Ended(ExecFailed));
      LeftElsewhere(s, t, ids, n, id, 1);
    case Finished(id, k, r) =>
      JobsLeftSet(s.jobs[id], k, Ended(r));
      LeftElsewhere(s, t, ids, n, id, 1);
    case Replied(id, report) =>
      NoJobsLeft(s.jobs[id]);
      LeftElsewhere(s, t, ids, n, id, 0);
  }

  lemma StartedIsFresh(s: Server, id: nat, k: nat)
    requires MayStart(s, id, k)
    ensures id in s.jobs && k < |s.jobs[id]| && s.jobs[id][k].status == Fresh
  {
  }

  /** Over any part of a run, the ends of scripts account exactly for what has become of those left. */
  lemma {:induction false} RunLeft(states: seq<Server>, log: seq<Entry>, i: nat, j: nat, ids: set<nat>, n: nat)
    requires Chain(states, log) && i <= j <= |log|
    requires forall x :: x in ids ==> x < n && x < states[i].next
    ensures LeftIn(states[i], ids, n) == LeftIn(states[j], ids, n) + Ends(log[i..j], ids)
    decreases j
  {
    hide LeftIn, Step, Inv;
    if i < j {
      RunLeft(states, log, i, j - 1, ids, n);
      ChainKeeps(states, log, j - 1);
      NextGrows(states, log, i, j - 1);
      assert Step(states[j - 1], log[j - 1]) == Some(states[j]);
      StepLeft(states[j - 1], log[j - 1], ids, n);
      assert log[i..j][..j - i - 1] == log[i..j - 1];
    }
  }

  /** Nobody joins the line ahead of those who are in it. */
  lemma {:induction false} NoNewcomers(states: seq<Server>, log: seq<Entry>, i: nat, j: nat, x: nat)
    requires Chain(states, log) && i <= j <= |log| && x < states[i].next
    ensures x in states[j].jobs ==> x in states[i].jobs
    ensures x in states[j].fifo ==> x in states[i].fifo
    decreases j
  {
    if i < j {
      NoNewcomers(states, log, i, j - 1, x);
      NextGrows(states, log, i, j - 1);
      assert Step(states[j - 1], log[j - 1]) == Some(states[j]);
    }
  }

  // ---------------------------------------------------------------- the dispatcher

  /** Between events, an unanswered request has a running script ahead of its answer: its own, or one of an
      ordered request before it. */
  lemma RunningAhead(s: State, id: nat) returns (j: nat, k: nat)
    requires Inv(s.server) && Sound(s, []) && Quiet(s) && id in s.table
    ensures j in Ahead(s.server, id) && j in s.table && k < |s.table[j].scripts| && s.table[j].scripts[k].watch
  {
    hide RequestOk, Inv, Sound, Quiet;
    if RequestHasWait(s.table[id]) {
      j, k := RunningInFront(s, id);
    } else {
      j := id;
      k := RunningNowait(s, id);
    }
  }

  lemma RunningInFront(s: State, id: nat) returns (j: nat, k: nat)
    requires Inv(s.server) && Sound(s, []) && Quiet(s) && id in s.table && RequestHasWait(s.table[id])
    ensures j in Ahead(s.server, id) && j in s.table && k < |s.table[j].scripts| && s.table[j].scripts[k].watch
  {
    hide RequestOk;
    SoundFacts(s, []);
    assert s.server.jobs.Keys == s.table.Keys;
    j := s.current.value;
    BusyIsUnfinished(s.table[j]);
    k :| 0 <= k < |s.table[j].scripts| && s.table[j].scripts[k].watch;
    assert s.server.fifo == Fifo(s) + [];
    assert s.server.fifo[0] == j;
    var i :| 0 <= i < |s.server.fifo| && s.server.fifo[i] == id;
  }

  lemma RunningNowait(s: State, id: nat) returns (k: nat)
    requires Inv(s.server) && Sound(s, []) && Quiet(s) && id in s.table && !RequestHasWait(s.table[id])
    ensures id in Ahead(s.server, id) && k < |s.table[id].scripts| && s.table[id].scripts[k].watch
  {
    hide RequestOk;
    SoundFacts(s, []);
    assert s.server.jobs.Keys == s.table.Keys;
    DoneMeansAllEnded(s.table[id]);
    k :| 0 <= k < |s.table[id].scripts| && !IsEnded(s.table[id].scripts[k]);
    assert !s.table[id].scripts[k].wait;
  }

  lemma {:induction false} LeftSomewhere(s: Server, ids: set<nat>, n: nat, j: nat)
    requires j in ids && j in s.jobs && j < n
    ensures LeftIn(s, ids, n) >= JobsLeft(s.jobs[j])
  {
    if j < n - 1 { LeftSomewhere(s, ids, n - 1, j); }
  }

  lemma RunningIsLeft(s: State, j: nat, k: nat)
    requires Sound(s, []) && j in s.table && k < |s.table[j].scripts| && s.table[j].scripts[k].watch
    ensures j in s.server.jobs && JobsLeft(s.server.jobs[j]) > 0
  {
    var js := s.server.jobs[j];
    assert js == JobsOf(s.table[j].scripts) && ScriptOk(s.table[j].scripts[k]);
    assert js[k].status == Running;
    NoJobsLeft(js);
  }

  /** Once as many of these scripts have ended as were left, the request is answered. */
  lemma AllEndedMeansAnswered(states: seq<Server>, log: seq<Entry>, i: nat, s: State, id: nat)
    requires Chain(states, log) && i <= |log| && states[|log|] == s.server
    requires Sound(s, []) && Quiet(s) && id in states[i].jobs
    requires Ends(log[i..], Ahead(states[i], id)) >= LeftIn(states[i], Ahead(states[i], id), id + 1)
    ensures id !in s.table && RepliedIn(log, id)
  {
    hide LeftIn, Sound, Quiet, Step, JobsLeft;
    var ids := Ahead(states[i], id);
    ChainKeeps(states, log, i);
    ChainKeeps(states, log, |log|);
    assert log[i..|log|] == log[i..];
    RunLeft(states, log, i, |log|, ids, id + 1);
    if id in s.table {
      var j, k := RunningAhead(s, id);
      NoNewcomers(states, log, i, |log|, j);
      NoNewcomers(states, log, i, |log|, id);
      RunningIsLeft(s, j, k);
      LeftSomewhere(s.server, ids, id + 1, j);
      assert false;
    }
    OpenWasAccepted(states, log, i, id);
    Conservation(states, log, s);
  }

  lemma OpenWasAccepted(states: seq<Server>, log: seq<Entry>, i: nat, id: nat)
    requires Chain(states, log) && i <= |log| && id in states[i].jobs
    ensures exists specs :: Accepted(id, specs) in log
  {
    ChainHistory(states, log, i);
    var specs: seq<Spec> :| Accepted(id, specs) in log[..i];
    assert Accepted(id, specs) in log;
  }
}
