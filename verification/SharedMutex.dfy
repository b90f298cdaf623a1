/** The client's reader/writer lock: any number of threads, any interleaving of its locked steps. */
module SharedMutex {

  /** Where a thread is: outside, about to test its condition, waiting, or holding the lock. */
  datatype Phase = Outside | Testing(write: bool) | Asleep(write: bool) | Inside(write: bool)

  datatype State = State(writerActive: bool, readerCount: int, threads: seq<Phase>)

  /** One step of thread t: each runs with the internal mutex held. */
  datatype Step =
    | Enter(t: nat, write: bool)   // calls lock or lock_shared
    | Test(t: nat)                 // evaluates the while condition, then waits or goes in
    | Wake(t: nat)                 // returns from wait, notified or not
    | Leave(t: nat)                // unlock or unlock_shared

  predicate Blocked(s: State, write: bool) {
    s.writerActive || (write && s.readerCount > 0)
  }

  /** notify_all. */
  function Notified(ts: seq<Phase>): (r: seq<Phase>)
    ensures |r| == |ts| && forall t :: 0 <= t < |ts| ==> r[t] == if ts[t].Asleep? then Testing(ts[t].write) else ts[t]
  {
    seq(|ts|, t requires 0 <= t < |ts| => if ts[t].Asleep? then Testing(ts[t].write) else ts[t])
  }

  /** The state after a step; a step its thread cannot take changes nothing. */
  function Next(s: State, e: Step): State {
    if e.t >= |s.threads| then s
    else
      var p := s.threads[e.t];
      match e
      case Enter(t, write) => if p.Outside? then s.(threads := s.threads[t := Testing(write)]) else s
      case Test(t) =>
        if !p.Testing? then s
        else if Blocked(s, p.write) then s.(threads := s.threads[t := Asleep(p.write)])
        else if p.write then s.(writerActive := true, threads := s.threads[t := Inside(true)])
        else s.(readerCount := s.readerCount + 1, threads := s.threads[t := Inside(false)])
      case Wake(t) => if p.Asleep? then s.(threads := s.threads[t := Testing(p.write)]) else s
      case Leave(t) =>
        if !p.Inside? then s
        else if p.write then State(false, s.readerCount, Notified(s.threads[t := Outside]))
        else
          var left := s.threads[t := Outside];
          State(s.writerActive, s.readerCount - 1, if s.readerCount - 1 == 0 then Notified(left) else left)
  }

  /** Threads in a given phase. */
  function In(ts: seq<Phase>, p: Phase): (r: set<nat>) {
    set t: nat | t < |ts| && ts[t] == p
  }

  /** A writer is alone, the count is the number of readers inside, and whoever waits has a reason to. */
  ghost predicate Inv(s: State) {
    && s.readerCount == |In(s.threads, Inside(false))|
    && |In(s.threads, Inside(true))| == (if s.writerActive then 1 else 0)
    && (s.writerActive ==> s.readerCount == 0)
    && forall t :: 0 <= t < |s.threads| && s.threads[t].Asleep? ==>
                     s.writerActive || (s.threads[t].write && s.readerCount > 0)
  }

  lemma Counts(ts: seq<Phase>, t: nat, p: Phase, q: Phase)
    requires t < |ts|
    ensures |In(ts[t := p], q)| == |In(ts, q)| + (if p == q then 1 else 0) - (if ts[t] == q then 1 else 0)
  {
    Updated(ts, t, p, q);
    hide In;
    Without(In(ts, q), t);
    Without(In(ts[t := p], q), t);
  }

  lemma Updated(ts: seq<Phase>, t: nat, p: Phase, q: Phase)
    requires t < |ts|
    ensures In(ts[t := p], q) - {t} == In(ts, q) - {t}
    ensures (t in In(ts[t := p], q) <==> p == q) && (t in In(ts, q) <==> ts[t] == q)
  {
  }

  lemma Without(s: set<nat>, t: nat)
    ensures |s| == |s - {t}| + (if t in s then 1 else 0)
  {
    if t !in s {
      assert s - {t} == s;
    }
  }

  lemma NotifiedSame(ts: seq<Phase>, write: bool)
    ensures In(Notified(ts), Inside(write)) == In(ts, Inside(write))
  {
  }

  lemma NextInv(s: State, e: Step)
    requires Inv(s)
    ensures Inv(Next(s, e))
  {
    hide In;
    if e.t < |s.threads| {
      var p := if e.Leave? then Outside else Next(s, e).threads[e.t];
      Counts(s.threads, e.t, p, Inside(false));
      Counts(s.threads, e.t, p, Inside(true));
      NotifiedSame(s.threads[e.t := Outside], false);
      NotifiedSame(s.threads[e.t := Outside], true);
      Somebody(s.threads, e.t);
    }
  }

  lemma Somebody(ts: seq<Phase>, t: nat)
    requires t < |ts|
    ensures |In(ts, ts[t])| >= 1
  {
    assert t in In(ts, ts[t]);
  }

  function Run(s: State, es: seq<Step>): State {
    if es == [] then s else Next(Run(s, es[..|es| - 1]), es[|es| - 1])
  }

  function Start(n: nat): State {
    State(false, 0, seq(n, _ => Outside))
  }

  /** No two threads are inside together unless both read. */
  ghost predicate Exclusive(ts: seq<Phase>) {
    forall t, u :: 0 <= t < u < |ts| && ts[t].Inside? && ts[u].Inside? ==> ts[t] == ts[u] == Inside(false)
  }

  /** In every state any number of threads can reach, a writer is the only thread inside,
      reader_count_ counts the readers inside, and no thread sleeps without a cause. */
  lemma {:induction false} Excludes(n: nat, es: seq<Step>)
    ensures Inv(Run(Start(n), es)) && Exclusive(Run(Start(n), es).threads)
  {
    if es == [] {
      assert In(Start(n).threads, Inside(false)) == {} && In(Start(n).threads, Inside(true)) == {};
    } else {
      Excludes(n, es[..|es| - 1]);
      NextInv(Run(Start(n), es[..|es| - 1]), es[|es| - 1]);
    }
    Alone(Run(Start(n), es));
  }

  lemma Alone(s: State)
    requires Inv(s)
    ensures Exclusive(s.threads)
  {
    var ts := s.threads;
    forall t, u | 0 <= t < u < |ts| && ts[t].Inside? && ts[u].Inside? ensures ts[t] == ts[u] == Inside(false) {
      Somebody(ts, t);
      Somebody(ts, u);
      Without(In(ts, ts[t]), t);
      assert ts[t] == ts[u] ==> u in In(ts, ts[t]) - {t};
    }
  }

  /** Some thread is inside, as a writer if need be. */
  ghost predicate Held(ts: seq<Phase>, asWriter: bool) {
    exists t :: 0 <= t < |ts| && ts[t].Inside? && (asWriter ==> ts[t].write)
  }

  lemma HeldIff(s: State)
    requires Inv(s)
    ensures Held(s.threads, true) <==> s.writerActive
    ensures Held(s.threads, false) <==> s.writerActive || s.readerCount > 0
  {
    var ts := s.threads;
    forall t | 0 <= t < |ts| && ts[t].Inside? ensures |In(ts, ts[t])| >= 1 {
      Somebody(ts, t);
    }
    Witnessed(ts, Inside(true));
    Witnessed(ts, Inside(false));
  }

  lemma Witnessed(ts: seq<Phase>, p: Phase)
    ensures |In(ts, p)| > 0 ==> exists t :: 0 <= t < |ts| && ts[t] == p
  {
    if |In(ts, p)| > 0 {
      var t :| t in In(ts, p);
    }
  }

  /** A thread at its test goes in exactly when it may, and waits otherwise: a reader unless a writer is
      inside, a writer unless anybody is. Nobody waits without that reason. */
  lemma Admits(s: State, t: nat)
    requires Inv(s) && t < |s.threads|
    ensures s.threads[t].Testing? ==>
              var w := s.threads[t].write;
              Next(s, Test(t)).threads == s.threads[t := if Held(s.threads, !w) then Asleep(w) else Inside(w)]
    ensures s.threads[t].Asleep? ==> Held(s.threads, !s.threads[t].write)
  {
    HeldIff(s);
  }

  /** Threads 0 to k - 1 lock to read, one after the other. */
  function Readers(k: nat): seq<Step> {
    if k == 0 then [] else Readers(k - 1) + [Enter(k - 1, false)] + [Test(k - 1)]
  }

  lemma RunNext(s: State, es: seq<Step>, e: Step)
    ensures Run(s, es + [e]) == Next(Run(s, es), e)
  {
    hide Next;
    assert (es + [e])[..|es|] == es;
  }

  /** The lock is shared: any number of readers can be inside together. */
  lemma {:induction false} ManyReaders(n: nat, k: nat)
    requires k <= n
    ensures Run(Start(n), Readers(k)) == State(false, k, seq(n, t => if t < k then Inside(false) else Outside))
  {
    if k > 0 {
      ManyReaders(n, k - 1);
      RunNext(Start(n), Readers(k - 1), Enter(k - 1, false));
      RunNext(Start(n), Readers(k - 1) + [Enter(k - 1, false)], Test(k - 1));
      var s := Run(Start(n), Readers(k));
      assert s.threads == seq(n, t => if t < k then Inside(false) else Outside);
    } else {
      assert Start(n).threads == seq(n, t => if t < 0 then Inside(false) else Outside);
    }
  }

  /** A thread that leaves is outside, those inside with it stay there, and once nobody is inside nobody is left
      asleep. */
  lemma Leaves(s: State, t: nat)
    requires Inv(s) && t < |s.threads| && s.threads[t].Inside?
    ensures var ts := Next(s, Leave(t)).threads;
            && |ts| == |s.threads| && ts[t] == Outside
            && (forall u :: 0 <= u < |ts| && u != t ==> ts[u].Inside? == s.threads[u].Inside?)
            && (!Held(ts, false) ==> forall u :: 0 <= u < |ts| ==> !ts[u].Asleep?)
  {
    hide Next, Inv;
    LeaveStep(s, t);
    NextInv(s, Leave(t));
    HeldIff(Next(s, Leave(t)));
    if !Held(Next(s, Leave(t)).threads, false) {
      Awake(Next(s, Leave(t)));
    }
  }

  lemma LeaveStep(s: State, t: nat)
    requires t < |s.threads| && s.threads[t].Inside?
    ensures var ts := Next(s, Leave(t)).threads;
            && |ts| == |s.threads| && ts[t] == Outside
            && forall u :: 0 <= u < |ts| && u != t ==> ts[u].Inside? == s.threads[u].Inside?
  {
  }

  lemma Awake(s: State)
    requires Inv(s) && !s.writerActive && s.readerCount <= 0
    ensures forall u :: 0 <= u < |s.threads| ==> !s.threads[u].Asleep?
  {
  }
}
