/** How many unknown groups a register can have. */
module Windows {
  import opened Collections
  import opened Payload
  import opened Register
  import opened Sweeps
  import opened Invariants

  ghost predicate GroupsBy(s: State, time: nat) {
    forall k :: k in s.groups ==> s.groups[k].lastActivity <= time
  }

  lemma WindowMonotone(a: nat, b: nat)
    requires a <= b
    ensures Window(a) <= Window(b)
  {
    assert a / SECOND <= b / SECOND;
  }

  lemma WindowWithinMinute(a: nat, b: nat)
    requires a + 60 * SECOND >= b
    ensures Window(a) + 2 >= Window(b)
  {
    assert a / SECOND + 60 >= b / SECOND;
  }

  /** The groups after an event: those of the last three windows at the sweep,
      and at most the window of the event. */
  lemma GroupKeysAfter(t: Trace, input: Input)
    requires Inv(t) && ValidChoice(t, input) && input.clock.Ordered() && GroupsBy(t.state, input.clock.unknownSweep)
    ensures forall k :: k in Step(t, input).state.groups ==>
              (Window(input.clock.unknownSweep) <= k + 2 && k <= Window(input.clock.unknownSweep)) ||
              k == Window(input.clock.now)
    ensures GroupsBy(Step(t, input).state, input.clock.now)
  {
    SweepGroups(t, input);
    var s := Sweep(t, input).state;
    DispatchGroups(t, input);
    forall k | k in Step(t, input).state.groups && k in s.groups && Step(t, input).state.groups[k] == s.groups[k]
      ensures Window(input.clock.unknownSweep) <= k + 2 && k <= Window(input.clock.unknownSweep)
    {
      WindowMonotone(s.groups[k].lastActivity, input.clock.unknownSweep);
      WindowWithinMinute(s.groups[k].lastActivity, input.clock.unknownSweep);
    }
  }

  /** Groups that survive the sweep are recent, and keyed by their last activity. */
  lemma SweepGroups(t: Trace, input: Input)
    requires Inv(t) && ValidChoice(t, input) && GroupsBy(t.state, input.clock.unknownSweep)
    ensures forall k :: k in Sweep(t, input).state.groups ==>
              var g := Sweep(t, input).state.groups[k];
              g.lastActivity + 60 * SECOND >= input.clock.unknownSweep && Window(g.lastActivity) == k &&
              g.lastActivity <= input.clock.unknownSweep
  {
    var flushed := FlushGroups(t, input.choice.staleGroups, input.esns);
    FlushGroupsState(t, input.choice.staleGroups, input.esns);
    TimeOutsState(flushed, input.choice.timedOut, input.clock.transactionSweep, input.esns);
    hide GroupOk, ActiveOk, ClosingsOk, StartsOk, FlushGroups, TimeOuts, ValidDispatch, TimedOuts, Window,
         GroupComplete;
    forall k | k in t.state.groups && k !in input.choice.staleGroups
      ensures t.state.groups[k].lastActivity + 60 * SECOND >= input.clock.unknownSweep
      ensures Window(t.state.groups[k].lastActivity) == k
    {
      GroupWindow(t.state.groups[k], k, t.state.registerIP);
      assert k !in StaleGroups(t.state, input.clock.unknownSweep);
    }
  }

  lemma GroupWindow(g: Group, key: nat, ip: string)
    requires GroupOk(g, key, ip)
    ensures Window(g.lastActivity) == key
  {
    hide Window;
    assert Last(g.routed) in g.routed;
  }

  /** Dispatching touches at most the group of the current window. */
  lemma DispatchGroups(t: Trace, input: Input)
    ensures var s, s' := Sweep(t, input).state, Step(t, input).state;
            forall k :: k in s'.groups ==>
              (k in s.groups && s'.groups[k] == s.groups[k]) ||
              (k == Window(input.clock.now) && s'.groups[k].lastActivity == input.clock.now)
  {
    hide Sweep, IsStartDemarcator, IsEndDemarcator, Route, GroupComplete, Window, Receive, NewEtags, Abandon,
         FlushGroups;
    var prepared, a, d := Prepare(t, input), NextArrival(t, input), input.choice.dispatch;
    if IsStartDemarcator(a.event) {
      AbandonState(prepared, d.abandoned, StartSeen, input.esns);
    } else if IsEndDemarcator(a.event) {
      AbandonState(prepared, d.abandoned, EndSeenOther, input.esns);
      FlushGroupsState(prepared, d.flushed, input.esns);
    }
  }

  lemma {:induction false} RunGroupsBy(ip: string, created: nat, inputs: seq<Input>)
    requires ValidRun(Fresh(ip, created), inputs) && Monotone(inputs) && inputs != []
    ensures GroupsBy(Run(Fresh(ip, created), Front(inputs)).state, Last(inputs).clock.unknownSweep)
    ensures GroupsBy(Run(Fresh(ip, created), inputs).state, Last(inputs).clock.now)
  {
    hide Step, Fresh, ValidChoice, Inv, GroupsBy;
    var front := Front(inputs);
    var before := Run(Fresh(ip, created), front);
    RunInv(ip, created, front);
    if front == [] {
      FreshGroupsBy(ip, created, Last(inputs).clock.unknownSweep);
    } else {
      RunGroupsBy(ip, created, front);
      assert inputs[|inputs| - 2] == Last(front);
      GroupsByLater(before.state, Last(front).clock.now, Last(inputs).clock.unknownSweep);
    }
    GroupKeysAfter(before, Last(inputs));
  }

  lemma FreshGroupsBy(ip: string, created: nat, time: nat)
    ensures GroupsBy(Fresh(ip, created).state, time)
  {
  }

  lemma GroupsByLater(s: State, time: nat, later: nat)
    requires GroupsBy(s, time) && time <= later
    ensures GroupsBy(s, later)
  {
  }

  /** No window boundary falls between the sweep and the event, or there are not
      three windows up to the sweep yet. */
  predicate SameWindow(c: Clock) {
    Window(c.now) == Window(c.unknownSweep) || Window(c.unknownSweep) < 2
  }

  /** In every run with a clock that never goes back: after any event a register
      has at most three unknown groups, four when a window boundary falls between
      the sweep and the event. */
  lemma UnknownGroupBound(ip: string, created: nat, inputs: seq<Input>)
    requires ValidRun(Fresh(ip, created), inputs) && Monotone(inputs) && inputs != []
    ensures |Run(Fresh(ip, created), inputs).state.groups| <= if SameWindow(Last(inputs).clock) then 3 else 4
  {
    RunGroupsBy(ip, created, inputs);
    RunInv(ip, created, Front(inputs));
    var before := Run(Fresh(ip, created), Front(inputs));
    GroupKeysAfter(before, Last(inputs));
    hide Step, Fresh, ValidChoice, Inv, GroupsBy, Window;
    var clock := Last(inputs).clock;
    KeyCount(Step(before, Last(inputs)).state.groups, Window(clock.unknownSweep), Window(clock.now));
  }

  function RecentWindows(w: nat): (r: set<nat>)
    ensures |r| <= (if w < 2 then w + 1 else 3) && forall k: nat :: k in r <==> w <= k + 2 && k <= w
  {
    if w == 0 then {0} else if w == 1 then {0, 1} else {w - 2, w - 1, w}
  }

  lemma KeyCount(groups: map<nat, Group>, w: nat, now: nat)
    requires forall k :: k in groups ==> (w <= k + 2 && k <= w) || k == now
    ensures |groups| <= if now == w || w < 2 then 3 else 4
  {
    var recent := RecentWindows(w);
    hide RecentWindows;
    if now == w {
      SubsetCount(groups.Keys, recent);
    } else {
      SubsetCount(groups.Keys, recent + {now});
    }
  }

  // ----- the bound is exact -----

  /** An event without any key, while nothing is active and nothing is stale. */
  function Quiet(c: Clock): Input {
    Input(map[], c, [], Choice([], [], Dispatching("", [], [])))
  }

  /** The last activity of every group. */
  function Times(t: Trace): map<nat, nat> {
    map k | k in t.state.groups :: t.state.groups[k].lastActivity
  }

  /** It opens the group of its window and changes nothing else. */
  lemma QuietStep(t: Trace, c: Clock)
    requires t.state.active == map[] && Window(c.now) !in Times(t)
    requires forall k :: k in Times(t) ==> Times(t)[k] + 60 * SECOND >= c.unknownSweep
    ensures ValidChoice(t, Quiet(c))
    ensures Step(t, Quiet(c)).state.active == map[] && Times(Step(t, Quiet(c))) == Times(t)[Window(c.now) := c.now]
  {
    hide Window, HandleStart, HandleEnd, HandleTransaction, FlushGroup;
    var input, p, a := Quiet(c), Prepare(t, Quiet(c)), NextArrival(t, Quiet(c));
    assert forall k :: k in t.state.groups ==> k in Times(t) && Times(t)[k] == t.state.groups[k].lastActivity;
    assert FlushGroups(t, [], []) == t && TimeOuts(t, [], c.transactionSweep, []) == t;
    assert StaleGroups(t.state, c.unknownSweep) == {} && TimedOuts(t.state, c.transactionSweep) == {};
    assert TransactionSeqOf(map[]) == "" && !IsDemarcator(map[]);
    QuietIncomplete(p.state, a);
  }

  /** A run in which nothing became active and groups have these last activities. */
  ghost predicate Quietly(start: Trace, inputs: seq<Input>, times: map<nat, nat>) {
    ValidRun(start, inputs) && Run(start, inputs).state.active == map[] && Times(Run(start, inputs)) == times
  }

  lemma QuietRun(start: Trace, inputs: seq<Input>, times: map<nat, nat>, c: Clock)
    requires Quietly(start, inputs, times) && Window(c.now) !in times
    requires forall k :: k in times ==> times[k] + 60 * SECOND >= c.unknownSweep
    ensures Quietly(start, inputs + [Quiet(c)], times[Window(c.now) := c.now])
  {
    hide ValidChoice, Step, Window, Times;
    QuietStep(Run(start, inputs), c);
    RunSnoc(start, inputs, Quiet(c));
  }

  lemma QuietIncomplete(s: State, a: Arrival)
    requires a.event == map[] && Window(a.clock.now) !in s.groups
    ensures !GroupComplete(Collect(GroupFor(s, Window(a.clock.now), a.clock.now), a))
  {
    hide Window;
  }

  function TwoEvents(first: nat, second: nat): seq<Input> {
    [] + [Quiet(At(first))] + [Quiet(At(second))]
  }

  function TwoWindows(first: nat, second: nat): map<nat, nat> {
    map[][Window(first) := first][Window(second) := second]
  }

  lemma TwoEventsRun(start: Trace, first: nat, second: nat)
    requires start.state.active == map[] && start.state.groups == map[]
    requires Window(first) != Window(second) && first <= second <= first + 60 * SECOND
    ensures Quietly(start, TwoEvents(first, second), TwoWindows(first, second))
  {
    NothingRun(start);
    hide Quietly, Quiet, Window;
    QuietTwice(start, [], map[], At(first), At(second));
  }

  /** Events in three consecutive windows, the last at the sweep of a fourth event. */
  function FourEvents(first: nat, second: nat, c: Clock): (inputs: seq<Input>)
    ensures inputs != []
  {
    TwoEvents(first, second) + [Quiet(At(c.unknownSweep))] + [Quiet(c)]
  }

  lemma FourEventsRun(first: nat, second: nat, c: Clock, start: Trace)
    requires start.state.active == map[] && start.state.groups == map[]
    requires Window(first) + 2 == Window(second) + 1 == Window(c.unknownSweep) < Window(c.now)
    requires first <= second <= c.unknownSweep <= first + 60 * SECOND
    ensures var inputs := FourEvents(first, second, c);
            ValidRun(start, inputs) && |Run(start, inputs).state.groups| == 4
  {
    hide Window, Quietly, Quiet, TwoEvents, Run, ValidRun;
    TwoEventsRun(start, first, second);
    var times := TwoWindows(first, second);
    assert forall k :: k in times ==> k < Window(c.unknownSweep) && times[k] + 60 * SECOND >= c.unknownSweep;
    assert times.Keys == {Window(first), Window(second)};
    hide TwoWindows;
    QuietTwice(start, TwoEvents(first, second), times, At(c.unknownSweep), c);
    var w, now := Window(c.unknownSweep), Window(c.now);
    FourKeys(start, FourEvents(first, second, c), times[w := c.unknownSweep][now := c.now], w, now);
  }

  lemma QuietTwice(start: Trace, inputs: seq<Input>, times: map<nat, nat>, c: Clock, d: Clock)
    requires Quietly(start, inputs, times) && Window(c.now) !in times && Window(d.now) !in times
    requires Window(c.now) != Window(d.now) && c.now + 60 * SECOND >= d.unknownSweep
    requires forall k :: k in times ==>
               times[k] + 60 * SECOND >= c.unknownSweep && times[k] + 60 * SECOND >= d.unknownSweep
    ensures Quietly(start, inputs + [Quiet(c)] + [Quiet(d)], times[Window(c.now) := c.now][Window(d.now) := d.now])
  {
    hide Quietly, Quiet, Window;
    QuietRun(start, inputs, times, c);
    QuietRun(start, inputs + [Quiet(c)], times[Window(c.now) := c.now], d);
  }

  lemma NothingRun(start: Trace)
    requires start.state.active == map[] && start.state.groups == map[]
    ensures Quietly(start, [], map[])
  {
  }

  lemma FourKeys(start: Trace, inputs: seq<Input>, times: map<nat, nat>, w: nat, now: nat)
    requires Quietly(start, inputs, times)
    requires 2 <= w < now && times.Keys == {w - 2, w - 1, w, now}
    ensures ValidRun(start, inputs) && |Run(start, inputs).state.groups| == 4
  {
    hide Run, ValidRun;
    assert times.Keys == Run(start, inputs).state.groups.Keys;
  }

  lemma FourEventsMonotone(first: nat, second: nat, c: Clock)
    requires first <= second <= c.unknownSweep && c.Ordered()
    ensures Monotone(FourEvents(first, second, c)) && Last(FourEvents(first, second, c)).clock == c
  {
  }

  /** The last instants of the two windows before the sweep. */
  lemma LastInstants(s: nat)
    requires Window(s) >= 2
    ensures var w := Window(s);
            var first, second := 30 * (w - 1) * SECOND - 1, 30 * w * SECOND - 1;
            Window(first) == w - 2 && Window(second) == w - 1 && 0 <= first <= second <= s <= first + 60 * SECOND
  {
    var w := Window(s);
    LastInstant(w - 1);
    LastInstant(w);
  }

  lemma LastInstant(w: nat)
    requires w >= 1
    ensures Window(30 * w * SECOND - 1) == w - 1
  {
    assert (30 * w * SECOND - 1) / SECOND == 30 * w - 1;
  }

  /** Four groups: for any readings across a boundary, a run that ends with them. */
  lemma FourGroups(c: Clock, ip: string, created: nat)
    requires c.Ordered() && !SameWindow(c)
    ensures exists inputs ::
              ValidRun(Fresh(ip, created), inputs) && Monotone(inputs) && inputs != [] && Last(inputs).clock == c &&
              |Run(Fresh(ip, created), inputs).state.groups| == 4
  {
    LastInstants(c.unknownSweep);
    WindowMonotone(c.unknownSweep, c.now);
    var w := Window(c.unknownSweep);
    var first, second := 30 * (w - 1) * SECOND - 1, 30 * w * SECOND - 1;
    var start := Fresh(ip, created);
    assert start.state.active == map[] && start.state.groups == map[];
    hide Window, Fresh, Monotone, ValidRun, Run, FourEvents;
    FourEventsRun(first, second, c, start);
    FourEventsMonotone(first, second, c);
  }

  /** Every run that ends with these readings has at most three groups. */
  ghost predicate AtMostThree(c: Clock) {
    forall ip, created, inputs ::
      ValidRun(Fresh(ip, created), inputs) && Monotone(inputs) && inputs != [] && Last(inputs).clock == c ==>
        |Run(Fresh(ip, created), inputs).state.groups| <= 3
  }

  /** Three groups are the bound exactly when no window boundary falls between the
      sweep and the event. */
  lemma ThreeGroupsIff(c: Clock)
    requires c.Ordered()
    ensures AtMostThree(c) <==> SameWindow(c)
  {
    hide Monotone, ValidRun, Run, Window;
    if SameWindow(c) {
      forall ip, created, inputs | ValidRun(Fresh(ip, created), inputs) && Monotone(inputs) && inputs != [] &&
                                   Last(inputs).clock == c
        ensures |Run(Fresh(ip, created), inputs).state.groups| <= 3
      {
        UnknownGroupBound(ip, created, inputs);
      }
    } else {
      FourGroups(c, "", 0);
    }
  }

  /** Swept at 89 seconds, dispatched at 90: four groups. */
  lemma FourGroupsAtNinetySeconds()
    ensures !AtMostThree(Clock(89 * SECOND, 89 * SECOND, 89 * SECOND, 90 * SECOND, 90 * SECOND))
  {
    var c := Clock(89 * SECOND, 89 * SECOND, 89 * SECOND, 90 * SECOND, 90 * SECOND);
    assert Window(c.unknownSweep) == 2 && Window(c.now) == 3;
    ThreeGroupsIff(c);
  }
}
