/** Whole runs of the task manager: tasks come and end, expire, and the process may be restarted. */
module TaskRuns {
  import opened Wrappers
  import opened Tasks

  /** What happens: a request comes in, the conversion it started ends, or the process restarts.
      `later` is when a call looks for expired tasks. */
  datatype Event =
    | Request(id: string, source: string, now: int)
    | Ending(id: string, metric: Option<Metric>, error: Option<string>, now: int, later: int)
    | Restart

  /** The tasks, the ids that a running conversion will end, and all ids ever given out. */
  datatype State = State(tasks: Table, outstanding: set<string>, used: set<string>)

  const START := State(map[], {}, {})

  /** Ids are never given out twice, and each conversion ends its task once. */
  predicate Enabled(s: State, e: Event) {
    match e
    case Request(id, _, _) => id !in s.used
    case Ending(id, _, _, now, later) => id in s.outstanding && now <= later
    case Restart => true
  }

  /** What each event does to the tasks, as the contracts of the manager's methods say. */
  function Apply(s: State, e: Event): State
    requires Enabled(s, e)
  {
    match e
    case Request(id, source, now) =>
      State(s.tasks[id := NewTask(id, source, now)], s.outstanding + {id}, s.used + {id})
    case Ending(id, metric, error, now, later) =>
      s.(tasks := if id in s.tasks then Kept(s.tasks[id := Ended(s.tasks[id], metric, error, now)], later)
                  else s.tasks,
         outstanding := s.outstanding - {id})
    case Restart => State(Terminal(s.tasks), {}, s.used)
  }

  ghost predicate Run(states: seq<State>, events: seq<Event>) {
    && |states| == |events| + 1 && states[0] == START
    && forall i | 0 <= i < |events| :: Enabled(states[i], events[i]) && states[i + 1] == Apply(states[i], events[i])
  }

  ghost predicate Inv(s: State) {
    && KeyedById(s.tasks)
    && (forall id | id in s.tasks :: s.tasks[id].status.Processing? <==> id in s.outstanding)
    && s.outstanding <= s.tasks.Keys <= s.used
  }

  lemma {:induction false} ApplyKeeps(s: State, e: Event)
    requires Inv(s) && Enabled(s, e)
    ensures Inv(Apply(s, e))
  {
  }

  /** A task is being processed exactly while its conversion runs: it is never evicted meanwhile,
      so the call that ends it always finds it. */
  lemma {:induction false} RunKeeps(states: seq<State>, events: seq<Event>, i: nat)
    requires Run(states, events) && i < |states|
    ensures Inv(states[i])
    ensures i < |events| && events[i].Ending? ==> events[i].id in states[i].tasks
  {
    if i > 0 {
      RunKeeps(states, events, i - 1);
      assert states[i - 1 + 1] == Apply(states[i - 1], events[i - 1]);
      ApplyKeeps(states[i - 1], events[i - 1]);
    }
  }

  lemma {:induction false} EndedTaskStays(s: State, e: Event, id: string)
    requires Inv(s) && Enabled(s, e) && id in s.used && id !in s.outstanding
    ensures var s' := Apply(s, e);
            && id in s'.used && id !in s'.outstanding
            && (id in s'.tasks ==> id in s.tasks && s'.tasks[id] == s.tasks[id])
            && (id in s.tasks && id !in s'.tasks ==> e.Ending? && Expired(s.tasks[id], e.later))
  {
  }

  /** Once a task has ended its record never changes again. It goes away only when it has expired,
      and for good. */
  lemma {:induction false} TerminalStaysTerminal(states: seq<State>, events: seq<Event>, i: nat, j: nat, id: string)
    requires Run(states, events) && i <= j < |states|
    requires id in states[i].tasks && !states[i].tasks[id].status.Processing?
    ensures id in states[j].used && id !in states[j].outstanding
    ensures id in states[j].tasks ==> states[j].tasks[id] == states[i].tasks[id]
    ensures id !in states[j].tasks ==>
              exists k :: i <= k < j && events[k].Ending? && Expired(states[i].tasks[id], events[k].later)
  {
    RunKeeps(states, events, i);
    if i < j {
      TerminalStaysTerminal(states, events, i, j - 1, id);
      RunKeeps(states, events, j - 1);
      assert states[j - 1 + 1] == Apply(states[j - 1], events[j - 1]);
      EndedTaskStays(states[j - 1], events[j - 1], id);
      if id in states[j - 1].tasks && id !in states[j].tasks {
        assert events[j - 1].Ending? && Expired(states[i].tasks[id], events[j - 1].later);
      }
    }
  }

  lemma {:induction false} OriginStays(s: State, e: Event, id: string)
    requires Inv(s) && Enabled(s, e) && id in s.used
    ensures var s' := Apply(s, e);
            id in s'.used && (id in s'.tasks ==> id in s.tasks && s'.tasks[id].created == s.tasks[id].created &&
                                                 s'.tasks[id].source == s.tasks[id].source)
  {
  }

  /** As long as there is a task for a request, it says when that came and for which image. */
  lemma {:induction false} RequestIsRemembered(states: seq<State>, events: seq<Event>, i: nat, j: nat)
    requires Run(states, events) && i < |events| && events[i].Request? && i < j < |states|
    ensures events[i].id in states[i + 1].tasks && states[i + 1].tasks[events[i].id].status == Processing
    ensures events[i].id in states[j].used
    ensures events[i].id in states[j].tasks ==>
              && states[j].tasks[events[i].id].created == events[i].now
              && states[j].tasks[events[i].id].source == events[i].source
  {
    assert states[i + 1] == Apply(states[i], events[i]);
    if i + 1 < j {
      RequestIsRemembered(states, events, i, j - 1);
      RunKeeps(states, events, j - 1);
      assert states[j - 1 + 1] == Apply(states[j - 1], events[j - 1]);
      OriginStays(states[j - 1], events[j - 1], events[i].id);
    }
  }

  /** A conversion that ends gives its task the outcome, unless the very same call evicts it. */
  lemma {:induction false} EndingDecides(states: seq<State>, events: seq<Event>, i: nat)
    requires Run(states, events) && i < |events| && events[i].Ending?
    ensures var e := events[i];
            && e.id in states[i].tasks && states[i].tasks[e.id].status.Processing?
            && (e.id in states[i + 1].tasks <==> e.later <= e.now + KEEP_PERIOD)
            && (e.id in states[i + 1].tasks ==>
                  Ends(states[i].tasks[e.id], e.metric, e.error, e.now, states[i + 1].tasks[e.id]))
  {
    RunKeeps(states, events, i);
    assert Enabled(states[i], events[i]);
  }

  /** A restart keeps exactly the tasks that have ended, as they were stored. */
  lemma {:induction false} RestartKeepsTerminal(states: seq<State>, events: seq<Event>, i: nat, id: string)
    requires Run(states, events) && i < |events| && events[i].Restart?
    ensures id in states[i + 1].tasks <==> id in states[i].tasks && id !in states[i].outstanding
    ensures id in states[i + 1].tasks ==> states[i + 1].tasks[id] == states[i].tasks[id]
  {
    RunKeeps(states, events, i);
  }

  /** A manager goes through the same states: every event is one call of it. */
  method Handle(m: Manager, ghost s: State, e: Event) returns (next: Manager, ghost s': State)
    requires m.Valid() && m.tasks == s.tasks && Inv(s) && Enabled(s, e)
    modifies m
    ensures next.Valid() && s' == Apply(s, e) && next.tasks == s'.tasks && Inv(s')
    ensures next == m || fresh(next)
  {
    ApplyKeeps(s, e);
    s' := Apply(s, e);
    next := m;
    if e.Request? {
      m.Create(e.id, e.source, e.now);
    } else if e.Ending? {
      var panicked := m.Finish(e.id, e.metric, e.error, e.now, e.later);
      assert !panicked;
    } else {
      next := new Manager.Init(m.stored);
    }
  }

  /** Memory and database agree with the run after any number of events, restarts included. */
  method Play(events: seq<Event>, ghost states: seq<State>) returns (m: Manager)
    requires Run(states, events)
    ensures fresh(m) && m.Valid() && m.tasks == m.stored == states[|events|].tasks
  {
    m := new Manager.Init(map[]);
    ghost var s := START;
    for i := 0 to |events|
      invariant fresh(m) && m.Valid() && s == states[i] && m.tasks == s.tasks && Inv(s)
    {
      assert Enabled(states[i], events[i]) && states[i + 1] == Apply(states[i], events[i]);
      m, s := Handle(m, s, events[i]);
    }
  }
}
