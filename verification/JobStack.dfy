/**
  The list of pending jobs. A job that is set goes to the top; jobs are executed from the top,
  and a job's handler may set, unset, create and free any jobs.
  */
module JobStack {
  import opened Lists

  type Job = nat

  /** jobs: the list, top first; live: the initialized jobs; mark: those not marked as removed from the list. */
  datatype Group = Group(jobs: seq<Job>, live: set<Job>, mark: set<Job>)

  const Empty: Group := Group([], {}, {})

  ghost predicate Inv(g: Group) {
    NoDuplicates(g.jobs) && g.mark <= g.live && forall j :: j in g.jobs <==> j in g.mark
  }

  /** A job is created or freed, set or unset, or the top job is taken off and its handler begins. */
  datatype Event = Init(j: Job) | Free(j: Job) | Set(j: Job) | Unset(j: Job) | Execute

  predicate Enabled(g: Group, e: Event) {
    match e
    case Init(j) => j !in g.live
    case Free(j) => j in g.live
    case Set(j) => j in g.live
    case Unset(j) => j in g.live
    case Execute => g.jobs != []
  }

  /** An event that cannot happen changes nothing. */
  function Step(g: Group, e: Event): (r: Group) {
    if !Enabled(g, e) then g
    else
      match e
      case Init(j) => Group(g.jobs, g.live + {j}, g.mark - {j})
      case Free(j) => Group(Remove(g.jobs, j), g.live - {j}, g.mark - {j})
      case Set(j) => Group([j] + Remove(g.jobs, j), g.live, g.mark + {j})
      case Unset(j) => Group(Remove(g.jobs, j), g.live, g.mark - {j})
      case Execute => Group(g.jobs[1..], g.live, g.mark - {g.jobs[0]})
  }

  lemma StepInv(g: Group, e: Event)
    requires Inv(g)
    ensures Inv(Step(g, e))
  {
    if Enabled(g, e) {
      if e.Execute? {
        assert g.jobs == [g.jobs[0]] + g.jobs[1..];
      } else {
        RemoveMembers(g.jobs, e.j);
      }
    }
  }

  /** What the calls do: a job that is set is on top, one that is unset or freed is gone, and the top job is the one executed. */
  lemma StepEffect(g: Group, e: Event)
    requires Inv(g) && Enabled(g, e)
    ensures var r := Step(g, e);
            && (e.Set? ==> r.jobs != [] && r.jobs[0] == e.j && (forall x :: x in r.jobs <==> x == e.j || x in g.jobs) && r.live == g.live)
            && (e.Unset? ==> (forall x :: x in r.jobs <==> x != e.j && x in g.jobs) && r.live == g.live)
            && (e.Free? ==> (forall x :: x in r.jobs <==> x != e.j && x in g.jobs) && r.live == g.live - {e.j})
            && (e.Init? ==> r.jobs == g.jobs && r.live == g.live + {e.j} && e.j !in r.jobs)
            && (e.Execute? ==> g.jobs == [g.jobs[0]] + r.jobs && g.jobs[0] !in r.jobs && r.live == g.live)
    ensures forall x, y :: x != y && !(e.Set? && (e.j == x || e.j == y)) && x in Step(g, e).jobs && y in Step(g, e).jobs ==>
              (x in Below(Step(g, e).jobs, y) <==> x in Below(g.jobs, y))
  {
    StepInv(g, e);
    if !e.Execute? {
      RemoveMembers(g.jobs, e.j);
    } else {
      assert g.jobs == [g.jobs[0]] + g.jobs[1..];
    }
    forall x, y | x != y && !(e.Set? && (e.j == x || e.j == y)) && x in Step(g, e).jobs && y in Step(g, e).jobs
      ensures x in Below(Step(g, e).jobs, y) <==> x in Below(g.jobs, y)
    {
      BelowStep(g, e, y);
      BelowPart(g.jobs, y);
      if !e.Execute? {
        RemoveMembers(Below(g.jobs, y), e.j);
      }
    }
  }

  /** The state after a run of events. */
  function Run(g: Group, es: seq<Event>): (r: Group) {
    if es == [] then g else Step(Run(g, es[..|es| - 1]), es[|es| - 1])
  }

  /** Over every run the list has no duplicates, and a job is marked as set exactly when it is in the list. */
  lemma {:induction false} RunInv(g: Group, es: seq<Event>)
    requires Inv(g)
    ensures Inv(Run(g, es))
  {
    if es != [] {
      RunInv(g, es[..|es| - 1]);
      StepInv(Run(g, es[..|es| - 1]), es[|es| - 1]);
    }
  }

  // ---------------------------------------------------------------- who comes first

  /** The jobs below b. */
  function Below(jobs: seq<Job>, b: Job): (r: seq<Job>) {
    if jobs == [] then [] else if jobs[0] == b then jobs[1..] else Below(jobs[1..], b)
  }

  /** The event sets, unsets or frees job j. */
  predicate Touches(e: Event, j: Job) { (e.Set? || e.Unset? || e.Free?) && e.j == j }

  ghost predicate Untouched(es: seq<Event>, j: Job) { forall k :: 0 <= k < |es| ==> !Touches(es[k], j) }

  /** The jobs of l that no event touches, in their order. */
  ghost function Kept(l: seq<Job>, es: seq<Event>): (r: seq<Job>) {
    if l == [] then [] else (if Untouched(es, l[0]) then [l[0]] else []) + Kept(l[1..], es)
  }

  lemma {:induction false} KeptMembers(l: seq<Job>, es: seq<Event>, j: Job)
    ensures j in Kept(l, es) <==> j in l && Untouched(es, j)
  {
    if l != [] {
      KeptMembers(l[1..], es, j);
    }
  }

  lemma {:induction false} KeptAll(l: seq<Job>)
    ensures Kept(l, []) == l
  {
    if l != [] {
      KeptAll(l[1..]);
    }
  }

  /** One more event takes at most the job it touches. */
  lemma {:induction false} KeptStep(l: seq<Job>, es: seq<Event>, e: Event)
    requires NoDuplicates(l)
    ensures Kept(l, es + [e]) == if e.Set? || e.Unset? || e.Free? then Remove(Kept(l, es), e.j) else Kept(l, es)
  {
    hide Untouched, Remove, Kept;
    if l == [] {
      KeptNone(es);
      KeptNone(es + [e]);
    } else {
      var rest := Kept(l[1..], es);
      KeptStep(l[1..], es, e);
      KeptFirst(l, es);
      KeptFirst(l, es + [e]);
      UntouchedMore(es, e, l[0]);
      KeptMembers(l[1..], es, l[0]);
      assert l[0] !in l[1..];
      if e.Set? || e.Unset? || e.Free? {
        RemoveFirst(l[0], rest, e.j);
      }
    }
  }

  lemma KeptNone(es: seq<Event>)
    ensures Kept([], es) == []
  {
  }

  lemma KeptFirst(l: seq<Job>, es: seq<Event>)
    requires l != []
    ensures Kept(l, es) == if Untouched(es, l[0]) then [l[0]] + Kept(l[1..], es) else Kept(l[1..], es)
  {
  }

  lemma RemoveFirst(x: Job, rest: seq<Job>, j: Job)
    ensures Remove([x] + rest, j) == if x == j then rest else [x] + Remove(rest, j)
  {
    assert ([x] + rest)[1..] == rest;
  }

  lemma UntouchedMore(es: seq<Event>, e: Event, j: Job)
    ensures Untouched(es + [e], j) <==> Untouched(es, j) && !Touches(e, j)
  {
    if Untouched(es + [e], j) {
      assert (es + [e])[|es|] == e;
      forall k | 0 <= k < |es| ensures !Touches(es[k], j) { assert (es + [e])[k] == es[k]; }
    }
  }

  lemma {:induction false} BelowRemove(jobs: seq<Job>, b: Job, j: Job)
    requires NoDuplicates(jobs) && b in jobs && j != b
    ensures b in Remove(jobs, j) && Below(Remove(jobs, j), b) == Remove(Below(jobs, b), j)
  {
    if jobs[0] == j {
      RemoveGone(jobs, b, j);
    } else if jobs[0] != b {
      BelowRemove(jobs[1..], b, j);
    }
  }

  lemma {:induction false} BelowPart(jobs: seq<Job>, b: Job)
    ensures NoDuplicates(jobs) ==> NoDuplicates(Below(jobs, b))
    ensures forall x :: x in Below(jobs, b) ==> x in jobs
  {
    if jobs != [] && jobs[0] != b {
      BelowPart(jobs[1..], b);
    }
  }

  lemma RemoveGone(jobs: seq<Job>, b: Job, j: Job)
    requires NoDuplicates(jobs) && jobs != [] && jobs[0] == j && j != b
    ensures Below(jobs, b) == Below(jobs[1..], b) && Remove(jobs, j) == jobs[1..] && Remove(Below(jobs, b), j) == Below(jobs[1..], b)
  {
    BelowPart(jobs[1..], b);
    assert j !in jobs[1..];
  }

  /** While b stays in the list, an event only takes from the jobs below it, and only the job that it touches. */
  lemma BelowStep(g: Group, e: Event, b: Job)
    requires Inv(g) && !Touches(e, b) && b in Step(g, e).jobs
    ensures b in g.jobs
    ensures Below(Step(g, e).jobs, b) ==
            if e.Set? || e.Unset? || e.Free? then Remove(Below(g.jobs, b), e.j) else Below(g.jobs, b)
  {
    BelowPart(g.jobs, b);
    if !Enabled(g, e) {
      assert !e.Execute? ==> e.j !in g.jobs || e.Init?;
    } else if e.Set? || e.Unset? || e.Free? {
      RemoveMembers(g.jobs, e.j);
      BelowRemove(g.jobs, b, e.j);
      assert e.Set? ==> Below([e.j] + Remove(g.jobs, e.j), b) == Below(Remove(g.jobs, e.j), b);
    } else if e.Execute? {
      assert g.jobs == [g.jobs[0]] + g.jobs[1..] && g.jobs[0] !in g.jobs[1..];
    }
  }

  /**
    Nested jobs first: however a run goes on, as long as job b waits in the list and is not itself
    set, unset or freed, the jobs below b are exactly those that were below it before and were not
    touched since. Everything set meanwhile is above b and will be executed before it.
    */
  lemma {:induction false} NestedJobsFirst(g: Group, es: seq<Event>, b: Job)
    requires Inv(g) && Untouched(es, b) && b in Run(g, es).jobs
    ensures b in g.jobs && Below(Run(g, es).jobs, b) == Kept(Below(g.jobs, b), es)
  {
    if es == [] {
      KeptAll(Below(g.jobs, b));
    } else {
      var front, e := es[..|es| - 1], es[|es| - 1];
      assert es == front + [e];
      UntouchedMore(front, e, b);
      RunInv(g, front);
      BelowStep(Run(g, front), e, b);
      NestedJobsFirst(g, front, b);
      BelowPart(g.jobs, b);
      KeptStep(Below(g.jobs, b), front, e);
    }
  }

  /** When b gets to the top, no job that was set since is still waiting. */
  lemma NothingSetIsLeft(g: Group, es: seq<Event>, b: Job, j: Job)
    requires Inv(g) && Untouched(es, b) && Run(g, es).jobs != [] && Run(g, es).jobs[0] == b
    requires Set(j) in es
    ensures j !in Run(g, es).jobs
  {
    NestedJobsFirst(g, es, b);
    KeptMembers(Below(g.jobs, b), es, j);
    var k :| 0 <= k < |es| && es[k] == Set(j);
    assert Touches(es[k], j);
    var r := Run(g, es).jobs;
    assert r == [b] + r[1..];
    assert j != b;
  }

  /** Event i of the run takes job j off the top and calls its handler. */
  predicate Executes(g: Group, es: seq<Event>, i: nat, j: Job) {
    i < |es| && es[i].Execute? && Run(g, es[..i]).jobs != [] && Run(g, es[..i]).jobs[0] == j
  }

  /** Event i ends the waiting of job j: its execution, or an unset or a free of it. */
  predicate Answers(g: Group, es: seq<Event>, i: nat, j: Job) {
    Executes(g, es, i, j) || (i < |es| && (es[i] == Unset(j) || es[i] == Free(j)))
  }

  lemma AnswersPrefix(g: Group, es: seq<Event>, n: nat, i: nat, j: Job)
    requires i < n <= |es|
    ensures Answers(g, es[..n], i, j) <==> Answers(g, es, i, j)
  {
    assert es[..n][..i] == es[..i];
  }

  lemma LeavesAt(g: Group, e: Event, j: Job)
    requires Inv(g) && j in g.jobs && j !in Step(g, e).jobs
    ensures (e.Execute? && g.jobs[0] == j) || e == Unset(j) || e == Free(j)
  {
    if !e.Execute? {
      RemoveMembers(g.jobs, e.j);
    } else {
      assert g.jobs == [g.jobs[0]] + g.jobs[1..];
    }
  }

  /** A job that waits after k events and not at the end was executed, unset or freed in between. */
  lemma {:induction false} WaitingEnds(g: Group, es: seq<Event>, k: nat, j: Job) returns (i: nat)
    requires Inv(g) && k <= |es| && j in Run(g, es[..k]).jobs && j !in Run(g, es).jobs
    ensures k <= i < |es| && Answers(g, es, i, j)
    decreases |es|
  {
    assert es[..|es|] == es;
    var n := |es| - 1;
    var front := es[..n];
    if j in Run(g, front).jobs {
      RunInv(g, front);
      LeavesAt(Run(g, front), es[n], j);
      i := n;
    } else {
      assert front[..k] == es[..k];
      i := WaitingEnds(g, front, k, j);
      AnswersPrefix(g, es, n, i, j);
    }
  }

  /**
    Nested jobs are executed first: when job b, not touched since, gets to the top, every job that
    was set meanwhile has since been executed, unless it was unset or freed.
    */
  lemma NestedJobsExecuted(g: Group, es: seq<Event>, b: Job, k: nat, j: Job) returns (i: nat)
    requires Inv(g) && Untouched(es, b) && Run(g, es).jobs != [] && Run(g, es).jobs[0] == b
    requires k < |es| && es[k] == Set(j) && j in Run(g, es[..k]).live
    ensures k < i < |es| && Answers(g, es, i, j)
  {
    NothingSetIsLeft(g, es, b, j);
    assert es[..k + 1][..k] == es[..k];
    assert Run(g, es[..k + 1]).jobs[0] == j;
    i := WaitingEnds(g, es, k + 1, j);
  }

  // ---------------------------------------------------------------- the program

  class BPendingGroup {
    var jobs: seq<Job>
    /** The live jobs whose list node is not marked as removed. */
    var marks: set<Job>
    ghost var live: set<Job>

    ghost function View(): (g: Group)
      reads this
    {
      Group(jobs, live, marks)
    }

    ghost predicate Valid()
      reads this
    {
      Inv(View())
    }

    constructor ()
      ensures Valid() && View() == Empty
    {
      jobs, marks, live := [], {}, {};
    }

    /** BSmallPending_Init */
    method InitJob(j: Job)
      requires Valid() && j !in live
      modifies this
      ensures Valid() && View() == Step(old(View()), Init(j))
    {
      StepInv(View(), Init(j));
      marks := marks - {j};
      live := live + {j};
    }

    /** BSmallPending_Free */
    method FreeJob(j: Job)
      requires Valid() && j in live
      modifies this
      ensures Valid() && View() == Step(old(View()), Free(j))
    {
      StepInv(View(), Free(j));
      if j in marks {
        jobs := Remove(jobs, j);
      }
      marks := marks - {j};
      live := live - {j};
    }

    /** BSmallPending_Set */
    method SetJob(j: Job)
      requires Valid() && j in live
      modifies this
      ensures Valid() && View() == Step(old(View()), Set(j))
    {
      StepInv(View(), Set(j));
      if j in marks {
        jobs := Remove(jobs, j);
      }
      jobs := [j] + jobs;
      marks := marks + {j};
    }

    /** BSmallPending_Unset */
    method UnsetJob(j: Job)
      requires Valid() && j in live
      modifies this
      ensures Valid() && View() == Step(old(View()), Unset(j))
    {
      StepInv(View(), Unset(j));
      if j in marks {
        jobs := Remove(jobs, j);
        marks := marks - {j};
      }
    }

    /** BSmallPending_IsSet: the mark tells whether the job is in the list. */
    method IsSet(j: Job) returns (r: bool)
      requires Valid() && j in live
      ensures r <==> j in jobs
    {
      r := j in marks;
    }

    /** BPendingGroup_ExecuteJob up to the call of the handler: the job whose handler is called. */
    method ExecuteJob() returns (j: Job)
      requires Valid() && jobs != []
      modifies this
      ensures Valid() && View() == Step(old(View()), Execute) && j == old(jobs)[0] && j !in jobs
    {
      StepInv(View(), Execute);
      j := jobs[0];
      assert j in jobs && j in marks;
      jobs := jobs[1..];
      marks := marks - {j};
    }
  }
}
