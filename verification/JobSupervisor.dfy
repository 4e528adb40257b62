/**
 The parallel job supervisor: at most one job per slot, a greedy launcher, and wait(). The
 operating system is an oracle: it decides every fork and every answer of wait.
 */
module JobSupervisor {

  /** pid 0 until a fork succeeds; statut -1 until the job has ended or failed to start. */
  datatype Task = Task(pid: int, cpu: int, statut: int)

  datatype WaitAnswer =
    | Interrupted                         // EINTR
    | Failed                              // any other error of wait
    | Exited(pid: int, code: nat)
    | Killed(pid: int, signal: nat)

  datatype Outcome = AllDone | WaitFailed | StillWaiting

  /** What fork returned for a job, 0 for a failure, and how many answers of wait had been heard by then. */
  datatype Fork = Fork(pid: nat, at: nat)

  predicate Ends(a: WaitAnswer) { a.Exited? || a.Killed? }

  function StatusOf(a: WaitAnswer): (st: int)
    requires Ends(a)
    ensures st >= 0
  {
    if a.Exited? then a.code else 128 + a.signal
  }

  /** Slots actually used: the request, or the CPUs allowed, never more than there are jobs. */
  function Slots(requested: int, nCpus: nat, n: nat): (c: nat)
    requires n >= 1
    ensures 1 <= c <= n
    ensures c < n ==> c == if requested > 0 then requested else if nCpus > 0 then nCpus else 1
    ensures c == n ==> requested <= 0 || n <= requested
    ensures c == n > 1 && requested <= 0 ==> n <= nCpus
  {
    var c := if requested <= 0 then (if nCpus > 0 then nCpus else 1) else requested;
    if c > n then n else c
  }

  /** The jobs below n, in plan order. */
  function Upto(n: nat): seq<nat> { if n == 0 then [] else Upto(n - 1) + [n - 1] }

  function Busy(occupe: seq<int>): nat
  {
    if occupe == [] then 0 else Busy(occupe[..|occupe| - 1]) + if occupe[|occupe| - 1] >= 0 then 1 else 0
  }

  /** Jobs with an end status other than 0. */
  function Failures(t: seq<Task>): nat
  {
    if t == [] then 0 else Failures(t[..|t| - 1]) + if t[|t| - 1].statut in {0, -1} then 0 else 1
  }

  lemma {:induction false} BusyUpdate(occupe: seq<int>, s: nat, v: int)
    requires s < |occupe|
    ensures Busy(occupe[s := v]) ==
            Busy(occupe) - (if occupe[s] >= 0 then 1 else 0) + (if v >= 0 then 1 else 0)
  {
    var last := |occupe| - 1;
    if s < last {
      BusyUpdate(occupe[..last], s, v);
      assert occupe[s := v][..last] == occupe[..last][s := v];
    } else {
      assert occupe[s := v][..last] == occupe[..last];
    }
  }

  lemma {:induction false} FailuresUpdate(t: seq<Task>, k: nat, x: Task)
    requires k < |t|
    ensures Failures(t[k := x]) ==
            Failures(t) - (if t[k].statut in {0, -1} then 0 else 1) + (if x.statut in {0, -1} then 0 else 1)
  {
    var last := |t| - 1;
    if k < last {
      FailuresUpdate(t[..last], k, x);
      assert t[k := x][..last] == t[..last][k := x];
    } else {
      assert t[k := x][..last] == t[..last];
    }
  }

  /** A slot is free exactly when not all are busy. */
  lemma {:induction false} BusyBounds(occupe: seq<int>)
    ensures Busy(occupe) <= |occupe|
    ensures Busy(occupe) == |occupe| <==> forall s :: 0 <= s < |occupe| ==> occupe[s] >= 0
    ensures Busy(occupe) == 0 <==> forall s :: 0 <= s < |occupe| ==> occupe[s] < 0
  {
    if occupe != [] { BusyBounds(occupe[..|occupe| - 1]); }
  }

  lemma {:induction false} FailuresIsCount(t: seq<Task>)
    ensures Failures(t) == |set k: nat | k < |t| && t[k].statut !in {0, -1}|
  {
    var failed := set k: nat | k < |t| && t[k].statut !in {0, -1};
    if t == [] {
      assert failed == {};
    } else {
      var rest := t[..|t| - 1];
      FailuresIsCount(rest);
      var before := set k: nat | k < |rest| && rest[k].statut !in {0, -1};
      assert failed == if t[|rest|].statut in {0, -1} then before else before + {|rest|};
    }
  }

  /** The bookkeeping of the supervisor, on values. */
  ghost predicate Consistent(t: seq<Task>, occupe: seq<int>, prochaine: nat, enCours: nat, finies: nat, echecs: nat)
  {
    && |occupe| >= 1 && prochaine <= |t|
    && enCours == Busy(occupe) && finies + enCours == prochaine && echecs == Failures(t)
    && (forall s :: 0 <= s < |occupe| ==> -1 <= occupe[s] < prochaine)
    && (forall s, r :: 0 <= s < r < |occupe| && occupe[s] == occupe[r] ==> occupe[s] == -1)
    && (forall s :: 0 <= s < |occupe| && occupe[s] >= 0 ==> t[occupe[s]].statut == -1)
    && (forall k :: prochaine <= k < |t| ==> t[k].statut == -1)
    && (forall k :: 0 <= k < prochaine && t[k].statut == -1 ==> exists s :: 0 <= s < |occupe| && occupe[s] == k)
  }

  /** Slot s runs its job on cpus[s], or anywhere when jobs are not pinned. */
  ghost predicate Placed(t: seq<Task>, occupe: seq<int>, cpus: seq<int>, pinned: bool)
  {
    forall s :: 0 <= s < |occupe| && 0 <= occupe[s] < |t| ==>
      t[occupe[s]].cpu == if pinned && s < |cpus| then cpus[s] else -1
  }

  /** A job goes into a free slot. */
  lemma LaunchKeeps(t: seq<Task>, occupe: seq<int>, p: nat, enCours: nat, finies: nat, echecs: nat, s: nat, x: Task)
    requires Consistent(t, occupe, p, enCours, finies, echecs) && p < |t| && s < |occupe| && occupe[s] < 0
    requires x.statut == -1
    ensures Consistent(t[p := x], occupe[s := p], p + 1, enCours + 1, finies, echecs)
  {
    BusyUpdate(occupe, s, p);
    FailuresUpdate(t, p, x);
    var t', occupe' := t[p := x], occupe[s := p];
    forall k | 0 <= k < p + 1 && t'[k].statut == -1
      ensures exists r :: 0 <= r < |occupe'| && occupe'[r] == k
    {
      if k == p {
        assert occupe'[s] == k;
      } else {
        var r :| 0 <= r < |occupe| && occupe[r] == k;
        assert occupe'[r] == k;
      }
    }
  }

  /** A job that could not be forked counts as finished and failed. */
  lemma ForkFailureKeeps(t: seq<Task>, occupe: seq<int>, p: nat, enCours: nat, finies: nat, echecs: nat, x: Task)
    requires Consistent(t, occupe, p, enCours, finies, echecs) && p < |t| && x.statut == 127
    ensures Consistent(t[p := x], occupe, p + 1, enCours, finies + 1, echecs + 1)
  {
    FailuresUpdate(t, p, x);
  }

  /** A running job ends and frees its slot. */
  lemma ReapKeeps(t: seq<Task>, occupe: seq<int>, p: nat, enCours: nat, finies: nat, echecs: nat, s: nat, x: Task)
    requires Consistent(t, occupe, p, enCours, finies, echecs) && s < |occupe| && occupe[s] >= 0 && x.statut >= 0
    ensures enCours >= 1
    ensures Consistent(t[occupe[s] := x], occupe[s := -1], p, enCours - 1, finies + 1, echecs + if x.statut != 0 then 1 else 0)
  {
    BusyUpdate(occupe, s, -1);
    BusyBounds(occupe);
    FailuresUpdate(t, occupe[s], x);
    hide Busy, Failures;
    var t', occupe' := t[occupe[s] := x], occupe[s := -1];
    forall k | 0 <= k < p && t'[k].statut == -1
      ensures exists r :: 0 <= r < |occupe'| && occupe'[r] == k
    {
      var r :| 0 <= r < |occupe| && occupe[r] == k;
      assert occupe'[r] == k;
    }
  }

  /** With nothing left to finish, every job has a status and echecs counts the nonzero ones. */
  lemma FinishedCounts(t: seq<Task>, occupe: seq<int>, p: nat, enCours: nat, finies: nat, echecs: nat)
    requires Consistent(t, occupe, p, enCours, finies, echecs) && finies == |t|
    ensures p == |t| && enCours == 0 && (forall s :: 0 <= s < |occupe| ==> occupe[s] == -1)
    ensures forall k :: 0 <= k < |t| ==> t[k].statut != -1
    ensures echecs == |set k: nat | k < |t| && t[k].statut != 0|
  {
    BusyBounds(occupe);
    FailuresIsCount(t);
    assert (set k: nat | k < |t| && t[k].statut != 0) == set k: nat | k < |t| && t[k].statut !in {0, -1};
  }

  lemma RunningJob(t: seq<Task>, occupe: seq<int>, p: nat, enCours: nat, finies: nat, echecs: nat, s: nat)
    requires Consistent(t, occupe, p, enCours, finies, echecs) && s < |occupe| && occupe[s] >= 0
    ensures occupe[s] < p <= |t| && t[occupe[s]].statut == -1
  {
  }

  /** A pid that no slot runs is that of no running job. */
  lemma OneOfTheSlots(t: seq<Task>, occupe: seq<int>, p: nat, enCours: nat, finies: nat, echecs: nat, pid: int)
    requires Consistent(t, occupe, p, enCours, finies, echecs)
    requires forall s :: 0 <= s < |occupe| ==> !Runs(t, occupe, s, pid)
    ensures forall k :: 0 <= k < p && t[k].statut == -1 ==> t[k].pid != pid
  {
    forall k | 0 <= k < p && t[k].statut == -1 ensures t[k].pid != pid {
      var s :| 0 <= s < |occupe| && occupe[s] == k;
      assert !Runs(t, occupe, s, pid);
    }
  }

  lemma FullOrDone(t: seq<Task>, occupe: seq<int>, p: nat, enCours: nat, finies: nat, echecs: nat)
    requires Consistent(t, occupe, p, enCours, finies, echecs)
    ensures 1 <= |occupe| && enCours <= |occupe| && p <= |t| && finies == p - enCours
  {
    BusyBounds(occupe);
  }

  lemma PlacedUpdate(t: seq<Task>, occupe: seq<int>, cpus: seq<int>, pinned: bool, p: nat, s: nat, x: Task)
    requires Placed(t, occupe, cpus, pinned) && p < |t| && s < |occupe|
    requires forall r :: 0 <= r < |occupe| ==> occupe[r] < p
    requires x.cpu == if pinned && s < |cpus| then cpus[s] else -1
    ensures Placed(t[p := x], occupe[s := p], cpus, pinned)
  {
  }

  lemma PlacedBesides(t: seq<Task>, occupe: seq<int>, cpus: seq<int>, pinned: bool, p: nat, x: Task)
    requires Placed(t, occupe, cpus, pinned) && p < |t|
    requires forall r :: 0 <= r < |occupe| ==> occupe[r] < p
    ensures Placed(t[p := x], occupe, cpus, pinned)
  {
  }

  // ----- where the statuses come from -----

  /** A job ended by an answer of wait: its pid, and the status the shell would give it. */
  predicate EndedBy(x: Task, a: WaitAnswer)
  {
    match a
    case Exited(pid, code) => x.pid == pid && x.statut == code
    case Killed(pid, signal) => x.pid == pid && x.statut == 128 + signal
    case _ => false
  }

  /**
   Every job launched has the pid fork gave it; a failed fork leaves status 127; every other end
   status is that of an answer heard since the fork, with the job's pid, no answer ending two jobs;
   and every answer with the pid of a job still running, heard since its fork, ended a job.
   */
  ghost predicate Told(t: seq<Task>, forked: seq<Fork>, heard: seq<WaitAnswer>, ends: map<nat, nat>)
  {
    && |forked| <= |t|
    && (forall k :: 0 <= k < |forked| ==>
          t[k].pid == forked[k].pid && forked[k].at <= |heard| && (forked[k].pid == 0 ==> t[k].statut == 127))
    && (forall k: nat :: k < |forked| && forked[k].pid != 0 && t[k].statut != -1 ==> k in ends)
    && (forall k :: k in ends ==>
          k < |forked| && forked[k].pid != 0 && forked[k].at <= ends[k] < |heard| && EndedBy(t[k], heard[ends[k]]))
    && (forall k, r :: k in ends && r in ends && k != r ==> ends[k] != ends[r])
    && (forall k: nat, j: nat :: k < |forked| && Concerns(t, forked, heard, k, j) ==> j in ends.Values)
  }

  /** Answer j carries the pid of job k, which was forked before it and is still running. */
  ghost predicate Concerns(t: seq<Task>, forked: seq<Fork>, heard: seq<WaitAnswer>, k: nat, j: nat)
    requires k < |forked| <= |t|
  {
    t[k].statut == -1 && forked[k].at <= j < |heard| && Ends(heard[j]) && heard[j].pid == t[k].pid
  }

  ghost predicate ForkedBy(forked: seq<Fork>, before: seq<Fork>, forks: nat -> nat)
  {
    before <= forked && forall k :: |before| <= k < |forked| ==> forked[k].pid == forks(k)
  }

  ghost predicate HeardFrom(heard: seq<WaitAnswer>, before: seq<WaitAnswer>, waits: seq<WaitAnswer>)
  {
    before <= heard && heard[|before|..] <= waits
  }

  lemma ToldOfLaunch(t: seq<Task>, forked: seq<Fork>, heard: seq<WaitAnswer>, ends: map<nat, nat>, pid: nat, x: Task)
    requires Told(t, forked, heard, ends) && |forked| < |t|
    requires x.pid == pid && x.statut == if pid == 0 then 127 else -1
    ensures Told(t[|forked| := x], forked + [Fork(pid, |heard|)], heard, ends)
  {
    var t', forked' := t[|forked| := x], forked + [Fork(pid, |heard|)];
    forall k: nat, j: nat | k < |forked'| && Concerns(t', forked', heard, k, j) ensures j in ends.Values {
      assert Concerns(t, forked, heard, k, j);
    }
  }

  /** An answer with the pid of no job that runs. */
  lemma ToldOfAnswer(t: seq<Task>, forked: seq<Fork>, heard: seq<WaitAnswer>, ends: map<nat, nat>, a: WaitAnswer)
    requires Told(t, forked, heard, ends)
    requires Ends(a) ==> forall k :: 0 <= k < |forked| && t[k].statut == -1 ==> t[k].pid != a.pid
    ensures Told(t, forked, heard + [a], ends)
  {
    forall k: nat, j: nat | k < |forked| && Concerns(t, forked, heard + [a], k, j) ensures j in ends.Values {
      assert Concerns(t, forked, heard, k, j);
    }
  }

  lemma ToldOfEnd(t: seq<Task>, forked: seq<Fork>, heard: seq<WaitAnswer>, ends: map<nat, nat>, a: WaitAnswer, k: nat)
    requires Told(t, forked, heard, ends) && k < |forked| && t[k].statut == -1
    requires Ends(a) && a.pid == t[k].pid
    ensures Told(t[k := t[k].(statut := StatusOf(a))], forked, heard + [a], ends[k := |heard|])
  {
    var t', heard', ends' := t[k := t[k].(statut := StatusOf(a))], heard + [a], ends[k := |heard|];
    assert k !in ends;
    forall i: nat, j: nat | i < |forked| && Concerns(t', forked, heard', i, j) ensures j in ends'.Values {
      if j == |heard| {
        assert ends'[k] == j;
      } else {
        assert Concerns(t, forked, heard, i, j);
        var m :| m in ends && ends[m] == j;
        assert ends'[m] == j;
      }
    }
  }

  /** The promise of the system: a pid is given out again only when its last bearer has been waited for. */
  ghost predicate FreshPids(forked: seq<Fork>, ends: map<nat, nat>)
  {
    forall m: nat, k: nat :: m < k < |forked| && forked[m].pid == forked[k].pid != 0 ==> m in ends && ends[m] < forked[k].at
  }

  lemma NoneConcerns(t: seq<Task>, forked: seq<Fork>, heard: seq<WaitAnswer>, ends: map<nat, nat>, k: nat, j: nat)
    requires Told(t, forked, heard, ends) && FreshPids(forked, ends) && k < |forked| && forked[k].pid != 0
    ensures !Concerns(t, forked, heard, k, j)
  {
  }

  /** Then the answers decide: a job has ended exactly when one with its pid was heard since its fork. */
  lemma EndedIffHeard(t: seq<Task>, forked: seq<Fork>, heard: seq<WaitAnswer>, ends: map<nat, nat>, k: nat)
    requires Told(t, forked, heard, ends) && FreshPids(forked, ends) && k < |forked| && forked[k].pid != 0
    ensures t[k].statut != -1 <==>
              exists j: nat :: forked[k].at <= j < |heard| && Ends(heard[j]) && heard[j].pid == forked[k].pid
  {
    if t[k].statut != -1 {
      assert EndedBy(t[k], heard[ends[k]]);
    } else if j: nat :| forked[k].at <= j < |heard| && Ends(heard[j]) && heard[j].pid == forked[k].pid {
      NoneConcerns(t, forked, heard, ends, k, j);
    }
  }

  /** A job that is done has failed exactly when its fork did, it was killed, or its exit code was not 0. */
  lemma FailedIffToldSo(t: seq<Task>, forked: seq<Fork>, heard: seq<WaitAnswer>, ends: map<nat, nat>, k: nat)
    requires Told(t, forked, heard, ends) && k < |forked| && t[k].statut != -1
    ensures t[k].statut != 0 <==> forked[k].pid == 0 || heard[ends[k]].Killed? || heard[ends[k]].code != 0
  {
    if forked[k].pid != 0 { assert EndedBy(t[k], heard[ends[k]]); }
  }

  /** What one answer that ends the job of slot s does to jobs and slots. */
  ghost predicate Reaped(t: seq<Task>, occupe: seq<int>, t0: seq<Task>, occupe0: seq<int>, s: int, a: WaitAnswer)
  {
    && Ends(a) && Runs(t0, occupe0, s, a.pid) && occupe == occupe0[s := -1] && |t| == |t0|
    && EndedBy(t[occupe0[s]], a)
    && t == t0[occupe0[s] := t0[occupe0[s]].(statut := t[occupe0[s]].statut)]
  }

  class Supervisor {
    const cpus: seq<int>
    const pinned: bool
    var t: array<Task>
    var occupe: array<int>
    var prochaine: nat
    var enCours: nat
    var finies: nat
    var echecs: nat
    ghost var launched: seq<nat>       // the jobs handed to fork, in order
    ghost var forked: seq<Fork>        // what fork returned for each of them, and when
    ghost var heard: seq<WaitAnswer>   // what wait returned
    ghost var ends: map<nat, nat>      // the answer that ended a job, as a position in heard

    ghost predicate Valid()
      reads this, t, occupe
    {
      && Consistent(t[..], occupe[..], prochaine, enCours, finies, echecs)
      && Placed(t[..], occupe[..], cpus, pinned)
      && (pinned ==> occupe.Length <= |cpus|)
      && launched == Upto(prochaine)
    }

    constructor (n: nat, requested: int, cpus: seq<int>)
      requires n >= 1
      ensures Valid() && fresh(t) && fresh(occupe) && t.Length == n && this.cpus == cpus
      ensures prochaine == 0 && Unlaunched() && occupe.Length == Slots(requested, |cpus|, n)
      ensures Told(t[..], forked, heard, ends) && forked == [] && heard == []
      ensures pinned <==> |cpus| > 0 && occupe.Length <= |cpus|
    {
      var coeurs := Slots(requested, |cpus|, n);
      this.cpus := cpus;
      pinned := |cpus| > 0 && coeurs <= |cpus|;
      t := new Task[n](_ => Task(0, -1, -1));
      occupe := new int[coeurs](_ => -1);
      prochaine, enCours, finies, echecs, launched := 0, 0, 0, 0, [];
      forked, heard, ends := [], [], map[];
      new;
      hide Consistent, Placed, Told;
      NothingRuns(t[..], occupe[..], cpus, pinned);
    }

    /** lancer: fork, and note what became of it. */
    method Lancer(k: nat, cpu: int, pid: nat)
      requires k < t.Length && t[k] == Task(0, -1, -1)
      modifies t
      ensures t[..] == old(t[..])[k := if pid == 0 then Task(0, -1, 127) else Task(pid, cpu, -1)]
    {
      t[k] := if pid == 0 then t[k].(statut := 127) else t[k].(pid := pid, cpu := cpu);
    }

    /** The first free slot: it exists because enCours counts the busy ones. */
    method FreeSlot() returns (s: nat)
      requires Valid() && enCours < occupe.Length
      ensures s < occupe.Length && occupe[s] == -1
      ensures forall r :: 0 <= r < s ==> occupe[r] >= 0
    {
      BusyBounds(occupe[..]);
      ghost var free :| 0 <= free < |occupe[..]| && occupe[..][free] < 0;
      s := 0;
      while occupe[s] >= 0
        invariant 0 <= s <= free && forall r :: 0 <= r < s ==> occupe[r] >= 0
        decreases occupe.Length - s
      {
        s := s + 1;
      }
    }

    /** The state before job prochaine was handed to fork: its tasks were t0. */
    ghost predicate Launching(t0: seq<Task>)
      reads this, occupe
    {
      && Consistent(t0, occupe[..], prochaine, enCours, finies, echecs)
      && Placed(t0, occupe[..], cpus, pinned)
      && (pinned ==> occupe.Length <= |cpus|)
      && launched == Upto(prochaine) && prochaine < |t0|
    }

    method Started(s: nat, ghost t0: seq<Task>, ghost x: Task)
      requires Launching(t0) && t[..] == t0[prochaine := x] && x.statut == -1
      requires s < occupe.Length && occupe[s] == -1 && x.cpu == if pinned && s < |cpus| then cpus[s] else -1
      modifies this`prochaine, this`enCours, this`launched, occupe
      ensures Valid() && prochaine == old(prochaine) + 1
    {
      hide Consistent, Placed;
      ghost var o0 := occupe[..];
      occupe[s] := prochaine;
      assert occupe[..] == o0[s := prochaine];
      AfterLaunch(this, t[..], occupe[..], t0, o0, s, x);
      enCours := enCours + 1;
      launched := launched + [prochaine];
      prochaine := prochaine + 1;
    }

    method Refused(ghost t0: seq<Task>, ghost x: Task)
      requires Launching(t0) && t[..] == t0[prochaine := x] && x.statut == 127
      modifies this`prochaine, this`finies, this`echecs, this`launched
      ensures Valid() && prochaine == old(prochaine) + 1
    {
      hide Consistent, Placed;
      AfterRefusal(this, t[..], t0, x);
      finies := finies + 1;
      echecs := echecs + 1;
      launched := launched + [prochaine];
      prochaine := prochaine + 1;
    }

    /** Starts one job in the first free slot, or counts it as failed when fork does. */
    method LaunchNext(pid: nat)
      requires Valid() && enCours < occupe.Length && prochaine < t.Length && t[prochaine] == Task(0, -1, -1)
      modifies this`prochaine, this`enCours, this`finies, this`echecs, this`launched, t, occupe
      ensures Valid() && prochaine == old(prochaine) + 1
      ensures exists cpu :: t[..] == old(t[..])[old(prochaine) := if pid == 0 then Task(0, -1, 127) else Task(pid, cpu, -1)]
    {
      var s := FreeSlot();
      ghost var t0 := t[..];
      Lancer(prochaine, if pinned then cpus[s] else -1, pid);
      ghost var x := t[..][prochaine];
      assert Launching(t0);
      if t[prochaine].pid > 0 { Started(s, t0, x); } else { Refused(t0, x); }
    }

    /** One turn of the launcher. */
    method ForkNext(forks: nat -> nat)
      requires Valid() && Unlaunched() && Told(t[..], forked, heard, ends) && |forked| == prochaine
      requires enCours < occupe.Length && prochaine < t.Length
      modifies this`prochaine, this`enCours, this`finies, this`echecs, this`launched, this`forked, t, occupe
      ensures Valid() && Unlaunched() && Told(t[..], forked, heard, ends)
      ensures prochaine == old(prochaine) + 1 && forked == old(forked) + [Fork(forks(old(prochaine)), |heard|)]
    {
      hide Placed, Told, Consistent;
      ghost var t0, p := t[..], forks(prochaine);
      LaunchNext(forks(prochaine));
      ghost var x := t[..][prochaine - 1];
      assert t[..] == t0[prochaine - 1 := x];
      forall k | prochaine <= k < t.Length ensures t[k] == Task(0, -1, -1) {
        assert t[..][k] == t0[k];
      }
      ToldOfLaunch(t0, forked, heard, ends, p, x);
      forked := forked + [Fork(p, |heard|)];
    }

    /** The greedy launcher: stops only when every slot is busy or no job is left. */
    method Fill(forks: nat -> nat)
      requires Valid() && Unlaunched() && Told(t[..], forked, heard, ends) && |forked| == prochaine
      modifies this`prochaine, this`enCours, this`finies, this`echecs, this`launched, this`forked, t, occupe
      ensures Valid() && Unlaunched() && prochaine >= old(prochaine)
      ensures Told(t[..], forked, heard, ends) && ForkedBy(forked, old(forked), forks) && |forked| == prochaine
      ensures enCours == occupe.Length || prochaine == t.Length
      ensures finies <= t.Length && (enCours == 0 ==> finies == t.Length)
    {
      hide Placed, Told, Consistent;
      while enCours < occupe.Length && prochaine < t.Length
        invariant Valid() && Unlaunched() && prochaine >= old(prochaine)
        invariant Told(t[..], forked, heard, ends) && ForkedBy(forked, old(forked), forks) && |forked| == prochaine
        decreases t.Length - prochaine
      {
        ForkNext(forks);
      }
      FullOrDone(t[..], occupe[..], prochaine, enCours, finies, echecs);
    }

    ghost predicate Unlaunched()
      reads this, t
    {
      forall k :: prochaine <= k < t.Length ==> t[k] == Task(0, -1, -1)
    }

    /** The first slot whose job has that pid, or the number of slots. */
    method SlotOf(p: int) returns (s: nat)
      requires Valid()
      ensures s <= occupe.Length
      ensures s < occupe.Length ==> Runs(t[..], occupe[..], s, p)
      ensures forall r :: 0 <= r < s ==> !Runs(t[..], occupe[..], r, p)
    {
      s := 0;
      while s < occupe.Length && (occupe[s] < 0 || t[occupe[s]].pid != p)
        invariant 0 <= s <= occupe.Length
        invariant forall r :: 0 <= r < s ==> !Runs(t[..], occupe[..], r, p)
      {
        assert occupe[..][s] == occupe[s];
        s := s + 1;
      }
    }

    /** The job of slot s ends with status st. */
    method Finish(s: nat, st: int)
      requires Valid() && st >= 0 && s < occupe.Length && occupe[s] >= 0
      modifies this`enCours, this`finies, this`echecs, t, occupe
      ensures Valid() && finies == old(finies) + 1 && enCours == old(enCours) - 1
      ensures t[..] == old(t[..])[old(occupe[s]) := old(t[occupe[s]]).(statut := st)]
      ensures occupe[..] == old(occupe[..])[s := -1]
    {
      hide Consistent, Placed;
      ghost var t0, o0 := t[..], occupe[..];
      RunningJob(t0, o0, prochaine, enCours, finies, echecs, s);
      var k := occupe[s];
      ghost var x := t[k].(statut := st);
      ReapKeeps(t0, o0, prochaine, enCours, finies, echecs, s, x);
      PlacedAfterEnd(t0, o0, cpus, pinned, s, x);
      t[k] := t[k].(statut := st);
      occupe[s] := -1;
      assert t[..] == t0[k := x] && occupe[..] == o0[s := -1];
      if st != 0 { echecs := echecs + 1; }
      enCours := enCours - 1;
      finies := finies + 1;
    }

    /** One answer of wait: with the pid of a running job it ends that job, else it changes nothing. */
    method Reap(a: WaitAnswer)
      requires Valid() && Unlaunched() && Told(t[..], forked, heard, ends) && |forked| == prochaine
      modifies this`enCours, this`finies, this`echecs, this`heard, this`ends, t, occupe
      ensures Valid() && Unlaunched() && Told(t[..], forked, heard, ends)
      ensures heard == old(heard) + [a] && finies <= t.Length
      ensures if Ends(a) && exists s :: Runs(old(t[..]), old(occupe[..]), s, a.pid) then
                && finies == old(finies) + 1 && enCours == old(enCours) - 1
                && exists s :: Reaped(t[..], occupe[..], old(t[..]), old(occupe[..]), s, a)
              else
                && t[..] == old(t[..]) && occupe[..] == old(occupe[..]) && ends == old(ends)
                && finies == old(finies) && enCours == old(enCours) && echecs == old(echecs)
    {
      hide Placed, Consistent, Told;
      FullOrDone(t[..], occupe[..], prochaine, enCours, finies, echecs);
      ghost var before := heard;
      heard := heard + [a];
      if a.Interrupted? || a.Failed? {
        ToldOfAnswer(t[..], forked, before, ends, a);
        return;
      }
      var s := SlotOf(a.pid);
      if s == occupe.Length {
        OneOfTheSlots(t[..], occupe[..], prochaine, enCours, finies, echecs, a.pid);
        ToldOfAnswer(t[..], forked, before, ends, a);
        return;
      }
      assert Runs(t[..], occupe[..], s, a.pid) && occupe[..][s] == occupe[s];
      RunningJob(t[..], occupe[..], prochaine, enCours, finies, echecs, s);
      ToldOfEnd(t[..], forked, before, ends, a, occupe[s]);
      ends := ends[occupe[s] := |before|];
      Finish(s, StatusOf(a));
      FullOrDone(t[..], occupe[..], prochaine, enCours, finies, echecs);
      assert Reaped(t[..], occupe[..], old(t[..]), old(occupe[..]), s, a);
    }

    /**
     The supervisor's loop. It waits only while a job runs and every slot is busy or no job is
     left; an interrupted wait or a pid of no running job changes nothing.
     */
    method MultiExecuter(forks: nat -> nat, waits: seq<WaitAnswer>) returns (outcome: Outcome)
      requires Valid() && Unlaunched() && Told(t[..], forked, heard, ends) && |forked| == prochaine
      modifies this`prochaine, this`enCours, this`finies, this`echecs, this`launched, this`forked, this`heard, this`ends, t, occupe
      ensures Valid() && |forked| == prochaine
      ensures Told(t[..], forked, heard, ends)
      ensures ForkedBy(forked, old(forked), forks) && HeardFrom(heard, old(heard), waits)
      ensures outcome == StillWaiting ==> heard == old(heard) + waits
      ensures outcome == WaitFailed <==> exists j :: |old(heard)| <= j < |heard| && heard[j].Failed?
      ensures forall j :: |old(heard)| <= j < |heard| - 1 ==> !heard[j].Failed?
      ensures outcome == AllDone <==> finies == t.Length
      ensures outcome == AllDone ==> launched == Upto(t.Length)
      ensures outcome == AllDone ==> enCours == 0 && forall k :: 0 <= k < t.Length ==> t[k].statut != -1
      ensures outcome == AllDone ==> echecs == |set k: nat | k < t.Length && t[..][k].statut != 0|
      ensures outcome != AllDone ==> enCours > 0 && (enCours == occupe.Length || prochaine == t.Length)
    {
      hide Told, Placed, Consistent;
      FullOrDone(t[..], occupe[..], prochaine, enCours, finies, echecs);
      var w := 0;
      while finies < t.Length
        invariant Valid() && Unlaunched() && w <= |waits| && |forked| == prochaine && finies <= t.Length
        invariant Told(t[..], forked, heard, ends)
        invariant ForkedBy(forked, old(forked), forks) && heard == old(heard) + waits[..w]
        invariant forall j :: 0 <= j < w ==> !waits[j].Failed?
        decreases |waits| - w, t.Length - finies
      {
        Fill(forks);
        FullOrDone(t[..], occupe[..], prochaine, enCours, finies, echecs);
        if enCours == 0 { continue; }
        if w == |waits| { return StillWaiting; }
        var a := waits[w];
        assert waits[..w + 1] == waits[..w] + [a];
        w := w + 1;
        Reap(a);
        if a.Failed? { return WaitFailed; }
      }
      FinishedCounts(t[..], occupe[..], prochaine, enCours, finies, echecs);
      outcome := AllDone;
    }
  }

  lemma AfterLaunch(v: Supervisor, t: seq<Task>, occupe: seq<int>, t0: seq<Task>, o0: seq<int>, s: nat, x: Task)
    requires Consistent(t0, o0, v.prochaine, v.enCours, v.finies, v.echecs) && Placed(t0, o0, v.cpus, v.pinned)
    requires v.prochaine < |t0| && s < |o0| && o0[s] == -1 && x.statut == -1
    requires x.cpu == if v.pinned && s < |v.cpus| then v.cpus[s] else -1
    requires t == t0[v.prochaine := x] && occupe == o0[s := v.prochaine]
    ensures Consistent(t, occupe, v.prochaine + 1, v.enCours + 1, v.finies, v.echecs) && Placed(t, occupe, v.cpus, v.pinned)
  {
    LaunchKeeps(t0, o0, v.prochaine, v.enCours, v.finies, v.echecs, s, x);
    PlacedUpdate(t0, o0, v.cpus, v.pinned, v.prochaine, s, x);
  }

  lemma AfterRefusal(v: Supervisor, t: seq<Task>, t0: seq<Task>, x: Task)
    requires v.Launching(t0) && x.statut == 127 && t == t0[v.prochaine := x]
    ensures Consistent(t, v.occupe[..], v.prochaine + 1, v.enCours, v.finies + 1, v.echecs + 1)
    ensures Placed(t, v.occupe[..], v.cpus, v.pinned)
  {
    ForkFailureKeeps(t0, v.occupe[..], v.prochaine, v.enCours, v.finies, v.echecs, x);
    PlacedBesides(t0, v.occupe[..], v.cpus, v.pinned, v.prochaine, x);
  }

  ghost predicate Runs(t: seq<Task>, occupe: seq<int>, s: int, p: int)
  {
    0 <= s < |occupe| && 0 <= occupe[s] < |t| && t[occupe[s]].pid == p
  }

  lemma PlacedAfterEnd(t: seq<Task>, occupe: seq<int>, cpus: seq<int>, pinned: bool, s: nat, x: Task)
    requires Placed(t, occupe, cpus, pinned) && s < |occupe| && 0 <= occupe[s] < |t| && x.cpu == t[occupe[s]].cpu
    ensures Placed(t[occupe[s] := x], occupe[s := -1], cpus, pinned)
  {
  }

  /** Pinned jobs that run at the same time are on distinct CPUs, when the mask lists distinct ones. */
  lemma RunningJobsHaveDistinctCpus(t: seq<Task>, occupe: seq<int>, cpus: seq<int>, s: nat, r: nat)
    requires Placed(t, occupe, cpus, true) && |occupe| <= |cpus|
    requires forall i, j :: 0 <= i < j < |cpus| ==> cpus[i] != cpus[j]
    requires s < r < |occupe| && 0 <= occupe[s] < |t| && 0 <= occupe[r] < |t|
    ensures t[occupe[s]].cpu != t[occupe[r]].cpu
  {
  }

  lemma NothingRuns(t: seq<Task>, occupe: seq<int>, cpus: seq<int>, pinned: bool)
    requires |occupe| >= 1
    requires forall k :: 0 <= k < |t| ==> t[k] == Task(0, -1, -1)
    requires forall s :: 0 <= s < |occupe| ==> occupe[s] == -1
    ensures Consistent(t, occupe, 0, 0, 0, 0) && Placed(t, occupe, cpus, pinned) && Told(t, [], [], map[])
  {
    BusyBounds(occupe);
    NoFailures(t);
  }

  lemma {:induction false} NoFailures(t: seq<Task>)
    requires forall k :: 0 <= k < |t| ==> t[k].statut == -1
    ensures Failures(t) == 0
  {
    if t != [] { NoFailures(t[..|t| - 1]); }
  }
}
