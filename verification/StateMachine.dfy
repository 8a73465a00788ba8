/**
  Validation of an application state machine: every invoke has its required routes, and a
  capability that reads a host connector's result can be reached from a host connector.
 */
module StateMachine {
  import opened Common
  import opened Text
  import opened Ids

  datatype Transition = Transition(on: Option<string>, to: Option<Id>)

  /** `Fields` holds the string members of an invoke object. */
  datatype Invoke =
    | Absent
    | NotAnObject
    | Fields(capabilityId: Option<string>, hostConnector: Option<string>, inputFrom: Option<string>)

  datatype State = State(id: Option<Id>, invoke: Invoke, transitions: seq<Transition>)

  datatype Code = EmptyInvoke | ConflictingInvoke | MissingRoutes | InvalidInputFrom | UnreachableHostConnectorResult

  datatype Violation = Violation(code: Code, state: Id, missing: seq<string>)

  predicate Named(value: Option<string>) {
    value.Some? && !Blank(value.value)
  }

  predicate HasCapability(s: State) {
    s.invoke.Fields? && Named(s.invoke.capabilityId)
  }

  predicate HasHostConnector(s: State) {
    s.invoke.Fields? && Named(s.invoke.hostConnector)
  }

  // ---- the main pass

  const HOST_ROUTES := [
    "host_connector_succeeded", "host_connector_failed", "host_connector_timeout", "host_connector_cancelled"]
  const CAPABILITY_ROUTES := ["capability_succeeded", "capability_failed"]

  predicate Routes(s: State, event: string) {
    exists t :: 0 <= t < |s.transitions| && s.transitions[t].on == Some(event)
  }

  function Missing(s: State, required: seq<string>): (r: seq<string>) {
    if required == [] then []
    else (if Routes(s, required[0]) then [] else [required[0]]) + Missing(s, required[1..])
  }

  function RouteViolations(s: State): (r: seq<Violation>) {
    if s.id.None? || s.invoke.Absent? then []
    else if s.invoke.NotAnObject? then [Violation(EmptyInvoke, s.id.value, [])]
    else if HasCapability(s) && HasHostConnector(s) then [Violation(ConflictingInvoke, s.id.value, [])]
    else if !HasCapability(s) && !HasHostConnector(s) then [Violation(EmptyInvoke, s.id.value, [])]
    else
      var missing := Missing(s, if HasHostConnector(s) then HOST_ROUTES else CAPABILITY_ROUTES);
      if missing == [] then [] else [Violation(MissingRoutes, s.id.value, missing)]
  }

  /** Exactly one of the two kinds of invoke. */
  predicate OneKind(s: State) {
    s.id.Some? && HasCapability(s) != HasHostConnector(s)
  }

  /** An event that the invoke of the state can end in and that no transition takes up. */
  predicate Unrouted(s: State, event: string) {
    && !Routes(s, event)
    && ((HasHostConnector(s) && event in HOST_ROUTES) || (HasCapability(s) && event in CAPABILITY_ROUTES))
  }

  lemma {:induction false} MissingAre(s: State, required: seq<string>, event: string)
    ensures event in Missing(s, required) <==> event in required && !Routes(s, event)
  {
    if required != [] {
      MissingAre(s, required[1..], event);
    }
  }

  /** Missing events stand in the order of the required ones. */
  ghost predicate InOrderOf(events: seq<string>, required: seq<string>) {
    forall i, j :: 0 <= i < j < |events| ==> Precedes(required, events[i], events[j])
  }

  ghost predicate Precedes(required: seq<string>, a: string, b: string) {
    exists i, j :: 0 <= i < j < |required| && required[i] == a && required[j] == b
  }

  lemma PrecedesLater(required: seq<string>, a: string, b: string)
    requires required != [] && Precedes(required[1..], a, b)
    ensures Precedes(required, a, b)
  {
    var i, j :| 0 <= i < j < |required[1..]| && required[1..][i] == a && required[1..][j] == b;
    assert required[i + 1] == a && required[j + 1] == b;
  }

  lemma FirstPrecedes(required: seq<string>, b: string)
    requires required != [] && b in required[1..]
    ensures Precedes(required, required[0], b)
  {
    var j :| 0 <= j < |required[1..]| && required[1..][j] == b;
    assert required[j + 1] == b;
  }

  lemma {:induction false} MissingInOrder(s: State, required: seq<string>)
    ensures InOrderOf(Missing(s, required), required)
  {
    if required != [] {
      var all, rest := Missing(s, required), Missing(s, required[1..]);
      MissingInOrder(s, required[1..]);
      forall i, j | 0 <= i < j < |all| ensures Precedes(required, all[i], all[j]) {
        var shift := |all| - |rest|;
        MissingAre(s, required[1..], all[j]);
        if i < shift {
          FirstPrecedes(required, all[j]);
        } else {
          assert all[i] == rest[i - shift] && all[j] == rest[j - shift];
          PrecedesLater(required, all[i], all[j]);
        }
      }
    }
  }

  /** A state is reported for missing routes exactly when it has one kind of invoke and an unrouted event. */
  lemma MissingRoutesExactly(s: State)
    ensures (exists v :: v in RouteViolations(s) && v.code == MissingRoutes)
            <==> OneKind(s) && exists event :: Unrouted(s, event)
    ensures forall v :: v in RouteViolations(s) && v.code == MissingRoutes ==>
              && Some(v.state) == s.id && (forall event :: event in v.missing <==> Unrouted(s, event))
              && InOrderOf(v.missing, if HasHostConnector(s) then HOST_ROUTES else CAPABILITY_ROUTES)
  {
    var required := if HasHostConnector(s) then HOST_ROUTES else CAPABILITY_ROUTES;
    var missing := Missing(s, required);
    MissingInOrder(s, required);
    OneKindReported(s, missing);
    if OneKind(s) {
      forall event ensures event in missing <==> Unrouted(s, event) {
        MissingAre(s, required, event);
      }
      if missing != [] {
        assert missing[0] in missing;
        assert Violation(MissingRoutes, s.id.value, missing) in RouteViolations(s);
      }
    }
  }

  lemma OneKindReported(s: State, missing: seq<string>)
    requires missing == Missing(s, if HasHostConnector(s) then HOST_ROUTES else CAPABILITY_ROUTES)
    ensures forall v :: v in RouteViolations(s) && v.code == MissingRoutes ==>
              OneKind(s) && missing != [] && v == Violation(MissingRoutes, s.id.value, missing)
    ensures OneKind(s) && missing != [] ==> RouteViolations(s) == [Violation(MissingRoutes, s.id.value, missing)]
  {
  }

  /** The text is there and has a character that is not blank. */
  ghost predicate Says(value: Option<string>) {
    value.Some? && exists i :: 0 <= i < |value.value| && !IsWhitespace(value.value[i])
  }

  /** What the main pass has against the invoke of a state. */
  ghost predicate InvokeFault(s: State, v: Violation) {
    match v.code
    case ConflictingInvoke =>
      v.missing == [] && s.invoke.Fields? && Says(s.invoke.capabilityId) && Says(s.invoke.hostConnector)
    case EmptyInvoke =>
      v.missing == [] && (s.invoke.NotAnObject? || (s.invoke.Fields? && !Says(s.invoke.capabilityId)
                                                    && !Says(s.invoke.hostConnector)))
    case MissingRoutes =>
      && s.invoke.Fields? && v.missing != []
      && if Says(s.invoke.hostConnector) then
           && !Says(s.invoke.capabilityId)
           && IsMissing(s, ["host_connector_succeeded", "host_connector_failed", "host_connector_timeout",
                            "host_connector_cancelled"], v.missing)
         else Says(s.invoke.capabilityId) && IsMissing(s, ["capability_succeeded", "capability_failed"], v.missing)
    case _ => false
  }

  /** The required events that no transition takes up, in order. */
  ghost predicate IsMissing(s: State, required: seq<string>, events: seq<string>) {
    && InOrderOf(events, required)
    && forall event :: event in events <==> event in required && !Routes(s, event)
  }

  lemma FirstLeads(required: seq<string>, events: seq<string>, event: string)
    requires InOrderOf(events, required) && event in events
    ensures event == events[0] || Precedes(required, events[0], event)
  {
  }

  lemma NotBoth(required: seq<string>, a: string, b: string)
    requires forall i, j :: 0 <= i < j < |required| ==> required[i] != required[j]
    ensures !(Precedes(required, a, b) && Precedes(required, b, a))
  {
  }

  /** A list in the order of distinct events is determined by its members. */
  lemma {:induction false} OrderUnique(required: seq<string>, a: seq<string>, b: seq<string>)
    requires forall i, j :: 0 <= i < j < |required| ==> required[i] != required[j]
    requires InOrderOf(a, required) && InOrderOf(b, required) && forall event :: event in a <==> event in b
    ensures a == b
  {
    assert a != [] ==> a[0] in a;
    assert b != [] ==> b[0] in b;
    if a != [] && b != [] {
      FirstLeads(required, a, b[0]);
      FirstLeads(required, b, a[0]);
      NotBoth(required, a[0], b[0]);
      Tails(required, a);
      Tails(required, b);
      assert forall event :: event in a <==> event == a[0] || event in a[1..];
      assert forall event :: event in b <==> event == b[0] || event in b[1..];
      OrderUnique(required, a[1..], b[1..]);
      assert a == [a[0]] + a[1..] && b == [b[0]] + b[1..];
    }
  }

  lemma Tails(required: seq<string>, events: seq<string>)
    requires events != [] && InOrderOf(events, required)
    requires forall i, j :: 0 <= i < j < |required| ==> required[i] != required[j]
    ensures InOrderOf(events[1..], required) && events[0] !in events[1..]
  {
    forall j | 1 <= j < |events| ensures events[j] != events[0] {
      assert Precedes(required, events[0], events[j]);
    }
  }

  lemma MissingExactly(s: State, required: seq<string>, events: seq<string>)
    requires forall i, j :: 0 <= i < j < |required| ==> required[i] != required[j]
    ensures events == Missing(s, required) <==> IsMissing(s, required, events)
  {
    var missing := Missing(s, required);
    MissingInOrder(s, required);
    forall event ensures event in missing <==> event in required && !Routes(s, event) {
      MissingAre(s, required, event);
    }
    if IsMissing(s, required, events) {
      OrderUnique(required, events, missing);
    }
  }

  /** The main pass reports a state for exactly what is wrong with its invoke. */
  lemma InvokeReportedExactly(s: State, v: Violation)
    ensures v in RouteViolations(s) <==> s.id == Some(v.state) && InvokeFault(s, v)
  {
    assert s.invoke.Fields? ==> (HasCapability(s) <==> Says(s.invoke.capabilityId));
    assert s.invoke.Fields? ==> (HasHostConnector(s) <==> Says(s.invoke.hostConnector));
    MissingExactly(s, HOST_ROUTES, v.missing);
    MissingExactly(s, CAPABILITY_ROUTES, v.missing);
  }

  // ---- reachability through transitions

  ghost function EdgesOf(states: seq<State>): (r: set<(Id, Id)>) {
    set i, t | 0 <= i < |states| && states[i].id.Some?
               && 0 <= t < |states[i].transitions| && states[i].transitions[t].to.Some?
      :: (states[i].id.value, states[i].transitions[t].to.value)
  }

  /** One or more transitions in a row. */
  ghost predicate Trail(edges: set<(Id, Id)>, p: seq<Id>) {
    |p| >= 2 && forall i :: 0 <= i < |p| - 1 ==> (p[i], p[i + 1]) in edges
  }

  ghost predicate Reaches(edges: set<(Id, Id)>, a: Id, b: Id) {
    exists p :: Trail(edges, p) && p[0] == a && p[|p| - 1] == b
  }

  /** The last state listed under `a` declares a host connector. */
  ghost predicate Declares(states: seq<State>, a: Id) {
    exists i :: 0 <= i < |states| && states[i].id == Some(a) && HasHostConnector(states[i])
      && forall j :: i < j < |states| ==> states[j].id != Some(a)
  }

  ghost predicate ReachedByHost(states: seq<State>, id: Id) {
    exists a :: Declares(states, a) && Reaches(EdgesOf(states), a, id)
  }

  const RESULT_PREFIX := "host_connector_result."

  /** `host_connector_result.<field>` with a non-blank field. */
  predicate NamesResultField(inputFrom: string) {
    RESULT_PREFIX <= inputFrom && !Blank(inputFrom[|RESULT_PREFIX|..])
  }

  function InputFrom(s: State): (r: string)
    requires s.invoke.Fields?
  {
    if s.invoke.inputFrom.Some? then s.invoke.inputFrom.value else "command.payload"
  }

  ghost function InputViolations(states: seq<State>, s: State): (r: seq<Violation>) {
    if s.id.None? || !HasCapability(s) || HasHostConnector(s) || InputFrom(s) == "command.payload" then []
    else if !NamesResultField(InputFrom(s)) then [Violation(InvalidInputFrom, s.id.value, [])]
    else if ReachedByHost(states, s.id.value) then []
    else [Violation(UnreachableHostConnectorResult, s.id.value, [])]
  }

  function AllRouteViolations(states: seq<State>, k: nat): (r: seq<Violation>)
    requires k <= |states|
  {
    if k == 0 then [] else AllRouteViolations(states, k - 1) + RouteViolations(states[k - 1])
  }

  ghost function AllInputViolations(states: seq<State>, k: nat): (r: seq<Violation>)
    requires k <= |states|
  {
    if k == 0 then [] else AllInputViolations(states, k - 1) + InputViolations(states, states[k - 1])
  }

  // ---- the index the second pass builds

  function Before(reverse: map<Id, seq<Id>>, b: Id): (r: seq<Id>) {
    if b in reverse then reverse[b] else []
  }

  /** `reverse` lists, for every id, the ids with a transition to it. */
  ghost predicate Reverses(reverse: map<Id, seq<Id>>, edges: set<(Id, Id)>) {
    forall a, b :: a in Before(reverse, b) <==> (a, b) in edges
  }

  ghost predicate Flags(declares: map<Id, bool>, states: seq<State>) {
    forall a :: (a in declares && declares[a]) <==> Declares(states, a)
  }

  ghost function EdgesFrom(s: State, k: nat): (r: set<(Id, Id)>)
    requires k <= |s.transitions|
  {
    set t | 0 <= t < k && s.id.Some? && s.transitions[t].to.Some? :: (s.id.value, s.transitions[t].to.value)
  }

  lemma EdgesOfStep(states: seq<State>, i: nat)
    requires i < |states|
    ensures EdgesOf(states[..i + 1]) == EdgesOf(states[..i]) + EdgesFrom(states[i], |states[i].transitions|)
  {
    var all, front := states[..i + 1], states[..i];
    forall j | 0 <= j < i ensures all[j] == front[j] {}
    assert all[i] == states[i];
  }

  lemma DeclaresStep(states: seq<State>, i: nat, a: Id)
    requires i < |states|
    ensures Declares(states[..i + 1], a) <==>
            if states[i].id == Some(a) then HasHostConnector(states[i]) else Declares(states[..i], a)
  {
    var all, front := states[..i + 1], states[..i];
    forall j | 0 <= j < i ensures all[j] == front[j] {}
    assert all[i] == states[i];
    if Declares(front, a) && states[i].id != Some(a) {
      var k :| 0 <= k < |front| && front[k].id == Some(a) && HasHostConnector(front[k])
        && forall j :: k < j < |front| ==> front[j].id != Some(a);
      assert all[k] == front[k];
    }
    if Declares(all, a) && states[i].id != Some(a) {
      var k :| 0 <= k < |all| && all[k].id == Some(a) && HasHostConnector(all[k])
        && forall j :: k < j < |all| ==> all[j].id != Some(a);
      assert front[k] == all[k];
    }
  }

  lemma EdgesFromStep(s: State, t: nat)
    requires t < |s.transitions| && s.id.Some?
    ensures EdgesFrom(s, t + 1) == EdgesFrom(s, t) +
            if s.transitions[t].to.Some? then {(s.id.value, s.transitions[t].to.value)} else {}
  {
  }

  lemma ReversesStep(reverse: map<Id, seq<Id>>, edges: set<(Id, Id)>, a: Id, b: Id)
    requires Reverses(reverse, edges)
    ensures Reverses(reverse[b := Before(reverse, b) + [a]], edges + {(a, b)})
  {
  }

  method RecordTransitions(s: State, reverse: map<Id, seq<Id>>,
                           ghost edges: set<(Id, Id)>) returns (reverse': map<Id, seq<Id>>)
    requires s.id.Some? && Reverses(reverse, edges)
    ensures Reverses(reverse', edges + EdgesFrom(s, |s.transitions|))
  {
    reverse' := reverse;
    for t := 0 to |s.transitions|
      invariant Reverses(reverse', edges + EdgesFrom(s, t))
    {
      var to := s.transitions[t].to;
      EdgesFromStep(s, t);
      if to.Some? {
        ReversesStep(reverse', edges + EdgesFrom(s, t), s.id.value, to.value);
        reverse' := reverse'[to.value := Before(reverse', to.value) + [s.id.value]];
      }
    }
  }

  method IndexStates(states: seq<State>) returns (reverse: map<Id, seq<Id>>, declares: map<Id, bool>)
    ensures Reverses(reverse, EdgesOf(states))
    ensures Flags(declares, states)
  {
    reverse, declares := map[], map[];
    for i := 0 to |states|
      invariant Reverses(reverse, EdgesOf(states[..i]))
      invariant Flags(declares, states[..i])
    {
      EdgesOfStep(states, i);
      forall a ensures Declares(states[..i + 1], a) <==>
            if states[i].id == Some(a) then HasHostConnector(states[i]) else Declares(states[..i], a)
      {
        DeclaresStep(states, i, a);
      }
      var s := states[i];
      if s.id.Some? {
        declares := declares[s.id.value := HasHostConnector(s)];
        reverse := RecordTransitions(s, reverse, EdgesOf(states[..i]));
      }
    }
    assert states[..|states|] == states;
  }

  // ---- the backward search

  ghost predicate ClosedBackward(edges: set<(Id, Id)>, id: Id, visited: set<Id>, queue: seq<Id>) {
    && (forall a :: (a, id) in edges ==> a in visited || a in queue)
    && (forall a, b :: (a, b) in edges && b in visited ==> a in visited || a in queue)
  }

  /** Once the queue is empty, everything that reaches `id` has been visited. */
  lemma {:induction false} VisitedAll(edges: set<(Id, Id)>, id: Id, visited: set<Id>, p: seq<Id>)
    requires ClosedBackward(edges, id, visited, []) && Trail(edges, p) && p[|p| - 1] == id
    ensures p[0] in visited
    decreases |p|
  {
    assert (p[0], p[1]) in edges;
    if |p| > 2 { VisitedAll(edges, id, visited, p[1..]); }
  }

  lemma ReachesStep(edges: set<(Id, Id)>, a: Id, b: Id, c: Id)
    requires (a, b) in edges && (b == c || Reaches(edges, b, c))
    ensures Reaches(edges, a, c) || (b == c && Trail(edges, [a, b]))
    ensures Reaches(edges, a, c)
  {
    if Reaches(edges, b, c) {
      var p :| Trail(edges, p) && p[0] == b && p[|p| - 1] == c;
      assert Trail(edges, [a] + p);
    } else {
      assert Trail(edges, [a, b]);
    }
  }

  /**
    Breadth-first search backward from `id`.  It ends on cyclic graphs as well: each round
    shortens the queue or visits a new id.
   */
  method FindHost(ghost states: seq<State>, ghost edges: set<(Id, Id)>, reverse: map<Id, seq<Id>>,
                  declares: map<Id, bool>, id: Id)
    returns (reachable: bool)
    requires edges == EdgesOf(states) && Reverses(reverse, edges) && Flags(declares, states)
    ensures reachable <==> ReachedByHost(states, id)
  {
    ghost var sources := set e | e in edges :: e.0;
    var visited: set<Id> := {};
    var queue := Before(reverse, id);
    forall a | a in queue ensures a in sources && Reaches(edges, a, id) {
      assert (a, id) in edges;
      ReachesStep(edges, a, id, id);
    }
    reachable := false;
    while queue != []
      invariant forall a :: a in queue || a in visited ==> a in sources && Reaches(edges, a, id)
      invariant forall a :: a in visited ==> !Declares(states, a)
      invariant ClosedBackward(edges, id, visited, queue)
      decreases sources - visited, |queue|
    {
      var predecessor := queue[0];
      assert predecessor in queue && queue == [predecessor] + queue[1..];
      queue := queue[1..];
      if predecessor !in visited {
        visited := visited + {predecessor};
        if predecessor in declares && declares[predecessor] {
          return true;
        }
        var next := Before(reverse, predecessor);
        forall a | a in next ensures a in sources && Reaches(edges, a, id) {
          assert (a, predecessor) in edges;
          ReachesStep(edges, a, predecessor, id);
        }
        queue := queue + next;
      }
    }
    forall a | Reaches(edges, a, id) ensures a in visited {
      var p :| Trail(edges, p) && p[0] == a && p[|p| - 1] == id;
      VisitedAll(edges, id, visited, p);
    }
  }

  method ValidateStateMachine(states: seq<State>) returns (violations: seq<Violation>)
    ensures violations == AllRouteViolations(states, |states|) + AllInputViolations(states, |states|)
  {
    violations := [];
    for i := 0 to |states|
      invariant violations == AllRouteViolations(states, i)
    {
      violations := violations + RouteViolations(states[i]);
    }
    var reverse, declares := IndexStates(states);
    var more: seq<Violation> := [];
    for i := 0 to |states|
      invariant more == AllInputViolations(states, i)
    {
      var s := states[i];
      if s.id.Some? && HasCapability(s) && !HasHostConnector(s) && InputFrom(s) != "command.payload" {
        if !NamesResultField(InputFrom(s)) {
          more := more + [Violation(InvalidInputFrom, s.id.value, [])];
        } else {
          var reachable := FindHost(states, EdgesOf(states), reverse, declares, s.id.value);
          if !reachable {
            more := more + [Violation(UnreachableHostConnectorResult, s.id.value, [])];
          }
        }
      }
    }
    violations := violations + more;
  }

  // ---- what the report means

  ghost predicate DistinctIds(states: seq<State>) {
    forall i, j :: 0 <= i < j < |states| && states[i].id.Some? ==> states[i].id != states[j].id
  }

  /** The state asks for a host connector's result and nothing else is wrong with its invoke. */
  predicate WantsHostResult(s: State) {
    s.id.Some? && HasCapability(s) && !HasHostConnector(s)
    && InputFrom(s) != "command.payload" && NamesResultField(InputFrom(s))
  }

  lemma {:induction false} ReportedBy(states: seq<State>, k: nat, v: Violation) returns (i: nat)
    requires k <= |states| && v in AllInputViolations(states, k)
    ensures i < k && v in InputViolations(states, states[i])
  {
    if v in AllInputViolations(states, k - 1) {
      i := ReportedBy(states, k - 1, v);
    } else {
      i := k - 1;
    }
  }

  lemma {:induction false} Reported(states: seq<State>, k: nat, i: nat, v: Violation)
    requires i < k <= |states| && v in InputViolations(states, states[i])
    ensures v in AllInputViolations(states, k)
  {
    if i < k - 1 { Reported(states, k - 1, i, v); }
  }

  lemma {:induction false} RouteViolationCodes(states: seq<State>, k: nat, v: Violation)
    requires k <= |states| && v in AllRouteViolations(states, k)
    ensures v.code.EmptyInvoke? || v.code.ConflictingInvoke? || v.code.MissingRoutes?
  {
    if v !in RouteViolations(states[k - 1]) { RouteViolationCodes(states, k - 1, v); }
  }

  lemma InEither(a: seq<Violation>, b: seq<Violation>, v: Violation)
    ensures v in a + b <==> v in a || v in b
  {
  }

  lemma {:induction false} RouteReported(states: seq<State>, k: nat, v: Violation)
    requires k <= |states|
    ensures v in AllRouteViolations(states, k) <==> exists i :: 0 <= i < k && v in RouteViolations(states[i])
  {
    if k > 0 {
      RouteReported(states, k - 1, v);
      InEither(AllRouteViolations(states, k - 1), RouteViolations(states[k - 1]), v);
    }
  }

  lemma {:induction false} InputViolationCodes(states: seq<State>, k: nat, v: Violation)
    requires k <= |states| && v in AllInputViolations(states, k)
    ensures v.code.InvalidInputFrom? || v.code.UnreachableHostConnectorResult?
  {
    if v !in InputViolations(states, states[k - 1]) { InputViolationCodes(states, k - 1, v); }
  }

  /** A field of a host result, by a name that says something. */
  ghost predicate NamesField(inputFrom: string) {
    exists field :: Says(Some(field)) && inputFrom == "host_connector_result." + field
  }

  /** What the second pass has against the input of a capability. */
  ghost predicate InputFault(states: seq<State>, s: State, v: Violation) {
    && v.missing == [] && s.invoke.Fields? && Says(s.invoke.capabilityId) && !Says(s.invoke.hostConnector)
    && s.invoke.inputFrom.Some? && s.invoke.inputFrom.value != "command.payload"
    && match v.code
       case InvalidInputFrom => !NamesField(s.invoke.inputFrom.value)
       case UnreachableHostConnectorResult =>
         NamesField(s.invoke.inputFrom.value) && !ReachedByHost(states, v.state)
       case _ => false
  }

  lemma FieldExactly(inputFrom: string)
    ensures NamesResultField(inputFrom) <==> NamesField(inputFrom)
  {
    var n := |RESULT_PREFIX|;
    if NamesResultField(inputFrom) {
      assert Says(Some(inputFrom[n..])) && inputFrom == RESULT_PREFIX + inputFrom[n..];
    }
    if field :| Says(Some(field)) && inputFrom == RESULT_PREFIX + field {
      assert inputFrom[n..] == field && !Blank(field);
    }
  }

  lemma InputReportedExactly(states: seq<State>, s: State, v: Violation)
    ensures v in InputViolations(states, s) <==> s.id == Some(v.state) && InputFault(states, s, v)
  {
    assert s.invoke.Fields? ==> (HasCapability(s) <==> Says(s.invoke.capabilityId));
    assert s.invoke.Fields? ==> (HasHostConnector(s) <==> Says(s.invoke.hostConnector));
    if s.invoke.Fields? && s.invoke.inputFrom.Some? {
      FieldExactly(s.invoke.inputFrom.value);
    }
  }

  /** The whole report: a violation is in it exactly when a state of that id has the fault. */
  lemma ReportExactly(states: seq<State>, v: Violation)
    ensures v in AllRouteViolations(states, |states|) + AllInputViolations(states, |states|) <==>
            exists i :: 0 <= i < |states| && states[i].id == Some(v.state)
                        && (InvokeFault(states[i], v) || InputFault(states, states[i], v))
  {
    RouteReported(states, |states|, v);
    forall i | 0 <= i < |states|
      ensures v in RouteViolations(states[i]) <==> states[i].id == Some(v.state) && InvokeFault(states[i], v)
      ensures v in InputViolations(states, states[i]) <==>
              states[i].id == Some(v.state) && InputFault(states, states[i], v)
    {
      InvokeReportedExactly(states[i], v);
      InputReportedExactly(states, states[i], v);
    }
    if v in AllInputViolations(states, |states|) {
      var i := ReportedBy(states, |states|, v);
    }
    if i :| 0 <= i < |states| && v in InputViolations(states, states[i]) {
      Reported(states, |states|, i, v);
    }
  }

  /** The report names missing routes exactly for the states with one kind of invoke and an unrouted event. */
  lemma MissingRoutesReported(states: seq<State>, id: Id)
    ensures (exists v :: v in AllRouteViolations(states, |states|) + AllInputViolations(states, |states|)
                         && v.code == MissingRoutes && v.state == id)
            <==> exists i :: && 0 <= i < |states| && states[i].id == Some(id) && OneKind(states[i])
                             && exists event :: Unrouted(states[i], event)
  {
    var all := AllRouteViolations(states, |states|) + AllInputViolations(states, |states|);
    if v :| v in all && v.code == MissingRoutes && v.state == id {
      if v in AllInputViolations(states, |states|) { InputViolationCodes(states, |states|, v); }
      RouteReported(states, |states|, v);
      var i :| 0 <= i < |states| && v in RouteViolations(states[i]);
      MissingRoutesExactly(states[i]);
    }
    if i :| 0 <= i < |states| && states[i].id == Some(id) && OneKind(states[i]) && exists event :: Unrouted(states[i],
                                                      event) {
      MissingRoutesExactly(states[i]);
      var v :| v in RouteViolations(states[i]) && v.code == MissingRoutes;
      RouteReported(states, |states|, v);
      assert v in all;
    }
  }

  /** Some state with a host connector leads to `id` through one or more transitions. */
  ghost predicate HostLeadsTo(states: seq<State>, id: Id) {
    exists j :: 0 <= j < |states| && HasHostConnector(states[j]) && states[j].id.Some?
      && Reaches(EdgesOf(states), states[j].id.value, id)
  }

  lemma HostLeadsToExactly(states: seq<State>, id: Id)
    requires DistinctIds(states)
    ensures ReachedByHost(states, id) <==> HostLeadsTo(states, id)
  {
    forall j | 0 <= j < |states| && states[j].id.Some? && HasHostConnector(states[j])
      ensures Declares(states, states[j].id.value)
    {
    }
  }

  ghost predicate ReportsUnreachable(states: seq<State>, id: Id) {
    Violation(UnreachableHostConnectorResult, id, []) in AllRouteViolations(states,
              |states|) + AllInputViolations(states, |states|)
  }

  /**
    A state is reported as unreachable exactly when it wants a host result and no id whose
    last listed state declares a host connector leads to it.
   */
  lemma UnreachableExactly(states: seq<State>, id: Id)
    ensures ReportsUnreachable(states, id) <==>
      && (exists i :: 0 <= i < |states| && states[i].id == Some(id) && WantsHostResult(states[i]))
      && !ReachedByHost(states, id)
  {
    var v := Violation(UnreachableHostConnectorResult, id, []);
    if ReportsUnreachable(states, id) {
      if v in AllRouteViolations(states, |states|) { RouteViolationCodes(states, |states|, v); }
      var i := ReportedBy(states, |states|, v);
    }
    if i :| 0 <= i < |states| && states[i].id == Some(id) && WantsHostResult(states[i]) {
      if !ReachedByHost(states, id) { Reported(states, |states|, i, v); }
    }
  }

  /** With distinct ids that is: exactly when no state with a host connector leads to it. */
  lemma UnreachableWithDistinctIds(states: seq<State>, id: Id)
    requires DistinctIds(states)
    ensures ReportsUnreachable(states, id) <==>
      && (exists i :: 0 <= i < |states| && states[i].id == Some(id) && WantsHostResult(states[i]))
      && !HostLeadsTo(states, id)
  {
    UnreachableExactly(states, id);
    HostLeadsToExactly(states, id);
  }

  /** A state under this id asks for a host connector's result. */
  ghost predicate Wanted(states: seq<State>, id: Id) {
    exists i :: 0 <= i < |states| && states[i].id == Some(id) && WantsHostResult(states[i])
  }

  /**
    The report says for every id whether a state with a host connector leads to it, exactly when each consumer
    that some such state leads to is also reached from an id whose last state declares a host connector.
   */
  lemma ReportAgreesExactly(states: seq<State>)
    ensures (forall id :: ReportsUnreachable(states, id) <==> Wanted(states, id) && !HostLeadsTo(states, id))
            <==> (forall id :: Wanted(states, id) && HostLeadsTo(states, id) ==> ReachedByHost(states, id))
  {
    forall id ensures ReportsUnreachable(states, id) <==> Wanted(states, id) && !ReachedByHost(states, id) {
      UnreachableExactly(states, id);
    }
    forall id ensures ReachedByHost(states, id) ==> HostLeadsTo(states, id) {
    }
  }

  /** A host connector, a plain state under the same id, and a consumer the host leads to. */
  function HidingStates(a: Id, b: Id): (states: seq<State>) {
    [State(Some(a), Fields(None, Some("m"), None), [Transition(None, Some(b))]),
     State(Some(a), Absent, []),
     State(Some(b), Fields(Some("c"), None, Some(RESULT_PREFIX + "x")), [])]
  }

  lemma HiddenHostLeads(a: Id, b: Id)
    ensures HostLeadsTo(HidingStates(a, b), b)
  {
    var states := HidingStates(a, b);
    assert "m"[0] == 'm';
    assert states[0].transitions[0].to == Some(b);
    assert (a, b) in EdgesOf(states);
    assert Trail(EdgesOf(states), [a, b]);
  }

  lemma ConsumerWantsResult(a: Id, b: Id)
    ensures WantsHostResult(HidingStates(a, b)[2])
  {
    var consumer := HidingStates(a, b)[2];
    assert "c"[0] == 'c' && "x"[0] == 'x';
    assert InputFrom(consumer) == RESULT_PREFIX + "x";
    assert (RESULT_PREFIX + "x")[|RESULT_PREFIX|..] == "x";
  }

  lemma NobodyDeclares(a: Id, b: Id, c: Id)
    requires a != b
    ensures !Declares(HidingStates(a, b), c)
  {
    var states := HidingStates(a, b);
    assert |states| == 3 && states[1].id == Some(a) && !HasHostConnector(states[1]) && !HasHostConnector(states[2]);
  }

  lemma ReportedWithoutHost(states: seq<State>, id: Id, i: nat)
    requires i < |states| && states[i].id == Some(id) && WantsHostResult(states[i])
    requires forall c :: !Declares(states, c)
    ensures ReportsUnreachable(states, id)
  {
    UnreachableExactly(states, id);
  }

  /** Two states under one id can hide a host connector that does lead to the consumer. */
  lemma DuplicateIdsHideHost(a: Id, b: Id)
    requires a != b
    ensures HostLeadsTo(HidingStates(a, b), b) && ReportsUnreachable(HidingStates(a, b), b)
  {
    HiddenHostLeads(a, b);
    ConsumerWantsResult(a, b);
    forall c ensures !Declares(HidingStates(a, b), c) {
      NobodyDeclares(a, b, c);
    }
    ReportedWithoutHost(HidingStates(a, b), b, 2);
  }
}
