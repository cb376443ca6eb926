/** Day 16: proboscidea volcanium. Starting in valve AA with every valve
 *  closed, each minute either opens the current valve or walks a tunnel,
 *  after the opened valves have released their flow. The answer is the most
 *  pressure released after 30 minutes over every sequence of choices. */
module Day16 {
  import opened Common

  /** `Valve`, with its tunnels given as indices into the cave. */
  datatype Valve = Valve(name: string, rate: nat, next: seq<nat>)

  /** Every tunnel leads to a valve of the cave. */
  predicate ValidCave(cave: seq<Valve>)
  {
    forall i, k :: 0 <= i < |cave| && 0 <= k < |cave[i].next| ==> cave[i].next[k] < |cave|
  }

  /** `State`: which valves are open, the pressure released so far and the
   *  room the walker is in. */
  datatype State = State(valvesOpened: seq<bool>, released: nat, room: nat)

  predicate Fits(cave: seq<Valve>, s: State)
  {
    |s.valvesOpened| == |cave| && s.room < |cave|
  }

  /** The `position` of the first valve with this name. */
  function IndexOf(cave: seq<Valve>, name: string): (r: Option<nat>)
    ensures r.Some? ==> r.value < |cave| && cave[r.value].name == name
    ensures r.Some? ==> forall i :: 0 <= i < r.value ==> cave[i].name != name
    ensures r.None? ==> forall i :: 0 <= i < |cave| ==> cave[i].name != name
  {
    if cave == [] then None
    else if cave[0].name == name then Some(0)
    else
      match IndexOf(cave[1..], name)
      case None => None
      case Some(i) => Some(i + 1)
  }

  /** The start: every valve closed, nothing released, in room `aa`. */
  function Initial(cave: seq<Valve>, aa: nat): (r: State)
    requires aa < |cave|
    ensures Fits(cave, r) && r.released == 0 && r.room == aa
    ensures forall i :: 0 <= i < |cave| ==> !r.valvesOpened[i]
  {
    State(seq(|cave|, _ => false), 0, aa)
  }

  /** The summed rate of the opened valves. */
  function OpenedRate(cave: seq<Valve>, valvesOpened: seq<bool>): nat
    requires |valvesOpened| == |cave|
  {
    if cave == [] then 0
    else
      OpenedRate(cave[..|cave| - 1], valvesOpened[..|cave| - 1])
      + (if valvesOpened[|cave| - 1] then cave[|cave| - 1].rate else 0)
  }

  /** With every valve closed nothing flows. */
  lemma {:induction false} NothingOpened(cave: seq<Valve>, valvesOpened: seq<bool>)
    requires |valvesOpened| == |cave| && forall i :: 0 <= i < |cave| ==> !valvesOpened[i]
    ensures OpenedRate(cave, valvesOpened) == 0
    decreases |cave|
  {
    if cave != [] {
      NothingOpened(cave[..|cave| - 1], valvesOpened[..|cave| - 1]);
    }
  }

  /** Opening a closed valve adds exactly its rate. */
  lemma {:induction false} OpeningAddsRate(cave: seq<Valve>, valvesOpened: seq<bool>, v: nat)
    requires |valvesOpened| == |cave| && v < |cave| && !valvesOpened[v]
    ensures OpenedRate(cave, valvesOpened[v := true]) == OpenedRate(cave, valvesOpened) + cave[v].rate
    decreases |cave|
  {
    var n := |cave| - 1;
    var after := valvesOpened[v := true];
    if v < n {
      assert after[..n] == valvesOpened[..n][v := true];
      OpeningAddsRate(cave[..n], valvesOpened[..n], v);
    } else {
      assert after[..n] == valvesOpened[..n];
    }
  }

  /** More valves open never means less flow. */
  lemma {:induction false} MoreOpenedFlowsMore(cave: seq<Valve>, a: seq<bool>, b: seq<bool>)
    requires |a| == |b| == |cave|
    requires forall i :: 0 <= i < |cave| && a[i] ==> b[i]
    ensures OpenedRate(cave, a) <= OpenedRate(cave, b)
    decreases |cave|
  {
    if cave != [] {
      var n := |cave| - 1;
      MoreOpenedFlowsMore(cave[..n], a[..n], b[..n]);
    }
  }

  predicate AllOpened(valvesOpened: seq<bool>)
  {
    forall i :: 0 <= i < |valvesOpened| ==> valvesOpened[i]
  }

  /** Line 80: the minute's release is added before any choice. */
  function Accrue(cave: seq<Valve>, s: State): State
    requires Fits(cave, s)
  {
    s.(released := s.released + OpenedRate(cave, s.valvesOpened))
  }

  /** The states one minute after `s`, in the order the source pushes them:
   *  itself once everything is open; otherwise opening the current valve if
   *  it is closed, then one move per tunnel. */
  function Successors(cave: seq<Valve>, s: State): (r: seq<State>)
    requires ValidCave(cave) && Fits(cave, s)
    ensures forall k :: 0 <= k < |r| ==> Fits(cave, r[k])
  {
    var a := Accrue(cave, s);
    if AllOpened(a.valvesOpened) then [a]
    else
      (if !a.valvesOpened[a.room] then [a.(valvesOpened := a.valvesOpened[a.room := true])] else [])
      + seq(|cave[a.room].next|, k requires 0 <= k < |cave[a.room].next| => a.(room := cave[a.room].next[k]))
  }

  /** Every successor first gains the flow of the valves open in `s`. */
  lemma SuccessorsAccrue(cave: seq<Valve>, s: State, t: State)
    requires ValidCave(cave) && Fits(cave, s) && t in Successors(cave, s)
    ensures t.released == s.released + OpenedRate(cave, s.valvesOpened)
  {
  }

  /** Once every valve is open the only successor is the state itself with
   *  the minute's release added. */
  lemma AllOpenedStays(cave: seq<Valve>, s: State)
    requires ValidCave(cave) && Fits(cave, s) && AllOpened(s.valvesOpened)
    ensures Successors(cave, s) == [s.(released := s.released + OpenedRate(cave, s.valvesOpened))]
  {
  }

  /** The open-valve successor is pushed exactly when the current valve is
   *  closed, ahead of the moves, and differs from `s` only in that valve.
   *  (It is stated by position: with a tunnel from a room to itself, a move
   *  can equal the state with an already open valve "opened" again.) */
  lemma OpenSuccessor(cave: seq<Valve>, s: State)
    requires ValidCave(cave) && Fits(cave, s) && !AllOpened(s.valvesOpened)
    ensures |Successors(cave, s)| == (if s.valvesOpened[s.room] then 0 else 1) + |cave[s.room].next|
    ensures !s.valvesOpened[s.room] ==>
      Successors(cave, s)[0] == Accrue(cave, s).(valvesOpened := s.valvesOpened[s.room := true])
  {
  }

  /** Each tunnel gives a successor that differs from `s` only in its room,
   *  and every successor but the open-valve one is such a move. */
  lemma MoveSuccessors(cave: seq<Valve>, s: State)
    requires ValidCave(cave) && Fits(cave, s) && !AllOpened(s.valvesOpened)
    ensures forall k :: 0 <= k < |cave[s.room].next| ==>
      Accrue(cave, s).(room := cave[s.room].next[k]) in Successors(cave, s)
    ensures forall t :: t in Successors(cave, s) ==>
      t == Accrue(cave, s).(valvesOpened := s.valvesOpened[s.room := true]) ||
      exists k :: 0 <= k < |cave[s.room].next| && t == Accrue(cave, s).(room := cave[s.room].next[k])
  {
    var a := Accrue(cave, s);
    var open := if !a.valvesOpened[a.room] then [a.(valvesOpened := a.valvesOpened[a.room := true])] else [];
    var moves := seq(|cave[a.room].next|, k requires 0 <= k < |cave[a.room].next| => a.(room := cave[a.room].next[k]));
    assert Successors(cave, s) == open + moves;
    forall k | 0 <= k < |cave[s.room].next|
      ensures a.(room := cave[s.room].next[k]) in Successors(cave, s)
    {
      assert (open + moves)[|open| + k] == moves[k];
    }
    forall t | t in Successors(cave, s)
      ensures t == a.(valvesOpened := s.valvesOpened[s.room := true]) ||
        exists k :: 0 <= k < |cave[s.room].next| && t == a.(room := cave[s.room].next[k])
    {
      if t !in open {
        var j :| 0 <= j < |moves| && moves[j] == t;
      }
    }
  }

  /** Opened valves stay open, the release never falls, and there are at
   *  most one successor per tunnel plus one. */
  lemma SuccessorsGrow(cave: seq<Valve>, s: State)
    requires ValidCave(cave) && Fits(cave, s)
    ensures |Successors(cave, s)| <= 1 + |cave[s.room].next|
    ensures forall t :: t in Successors(cave, s) ==>
      t.released >= s.released && forall i :: 0 <= i < |cave| && s.valvesOpened[i] ==> t.valvesOpened[i]
  {
    if !AllOpened(s.valvesOpened) {
      MoveSuccessors(cave, s);
    }
  }

  /** One minute for every state: the `flatten` of all successors. */
  function Step(cave: seq<Valve>, states: set<State>): (r: set<State>)
    requires ValidCave(cave) && forall s :: s in states ==> Fits(cave, s)
    ensures forall t :: t in r ==> Fits(cave, t)
  {
    set s, t | s in states && t in Successors(cave, s) :: t
  }

  /** The states after `minutes` minutes, from the initial state. */
  function Reachable(cave: seq<Valve>, aa: nat, minutes: nat): (r: set<State>)
    requires ValidCave(cave) && aa < |cave|
    ensures forall t :: t in r ==> Fits(cave, t)
  {
    if minutes == 0 then {Initial(cave, aa)} else Step(cave, Reachable(cave, aa, minutes - 1))
  }

  /** Once no state is left, none comes back. */
  lemma {:induction false} StaysEmpty(cave: seq<Valve>, aa: nat, m: nat, n: nat)
    requires ValidCave(cave) && aa < |cave| && m <= n && Reachable(cave, aa, m) == {}
    ensures Reachable(cave, aa, n) == {}
    decreases n - m
  {
    if m < n {
      assert Step(cave, {}) == {};
      StaysEmpty(cave, aa, m + 1, n);
    }
  }

  /** `v` is the largest release among `states`. */
  predicate IsMaxReleased(states: set<State>, v: nat)
  {
    (exists s :: s in states && s.released == v) && forall s :: s in states ==> s.released <= v
  }

  /** `states.iter().map(|state| state.released).max()`. */
  method MaxReleased(states: set<State>) returns (r: Option<nat>)
    ensures r.None? <==> states == {}
    ensures r.Some? ==> IsMaxReleased(states, r.value)
  {
    var rest := states;
    r := None;
    while rest != {}
      invariant rest <= states
      invariant r.None? <==> rest == states
      invariant r.Some? ==> IsMaxReleased(states - rest, r.value)
      decreases |rest|
    {
      var s :| s in rest;
      if r.None? || r.value < s.released {
        r := Some(s.released);
      }
      rest := rest - {s};
    }
    assert states - rest == states;
  }

  /** `Cave::find_best_route`, without the pruning of line 117: thirty
   *  minutes of expansion from valve AA, then the largest release. A missing
   *  AA or a minute that leaves no state at all panics. */
  method FindBestRoute(cave: seq<Valve>) returns (r: Result<nat>)
    requires ValidCave(cave)
    ensures IndexOf(cave, "AA").None? ==> r == Err(Panic)
    ensures IndexOf(cave, "AA").Some? ==> (r.Err? <==> Reachable(cave, IndexOf(cave, "AA").value, 30) == {})
    ensures r.Err? ==> r.failure == Panic
    ensures r.Ok? ==> IndexOf(cave, "AA").Some? && IsMaxReleased(Reachable(cave, IndexOf(cave, "AA").value, 30), r.value)
  {
    var found := IndexOf(cave, "AA");
    if found.None? {
      return Err(Panic);
    }
    var aa := found.value;
    r := Explore(cave, aa, 30);
  }

  /** One minute of `find_best_route`: every state is expanded, and the
   *  maximum for the pruning is taken, which is None when no state is left. */
  method NextMinute(cave: seq<Valve>, aa: nat, time: nat, states: set<State>) returns (next: set<State>, best: Option<nat>)
    requires ValidCave(cave) && aa < |cave| && states == Reachable(cave, aa, time)
    ensures next == Reachable(cave, aa, time + 1)
    ensures best.None? <==> next == {}
  {
    next := Step(cave, states);
    best := MaxReleased(next);
  }

  /** The minute loop of `find_best_route`: `minutes` minutes of expansion
   *  from room `aa`, then the largest release. A minute that leaves no state
   *  panics at the `unwrap` of its maximum. */
  method Explore(cave: seq<Valve>, aa: nat, minutes: nat) returns (r: Result<nat>)
    requires ValidCave(cave) && aa < |cave|
    ensures r.Err? <==> Reachable(cave, aa, minutes) == {}
    ensures r.Err? ==> r.failure == Panic
    ensures r.Ok? ==> IsMaxReleased(Reachable(cave, aa, minutes), r.value)
  {
    var states := {Initial(cave, aa)};
    for time := 0 to minutes
      invariant states == Reachable(cave, aa, time) && states != {}
    {
      var best;
      states, best := NextMinute(cave, aa, time, states);
      if best.None? {
        StaysEmpty(cave, aa, time + 1, minutes);
        return Err(Panic);
      }
    }
    var best := MaxReleased(states);
    return Ok(best.value);
  }
}
