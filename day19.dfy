/** Day 19: not enough minerals. A blueprint prices four kinds of robot in
 *  ore, clay, obsidian and geodes; each round every robot mines one unit of
 *  its resource. Starting with one ore robot, each round may build one
 *  affordable robot (greedily preferring geode, then obsidian robots). The
 *  score of a blueprint is the most geodes held after 24 rounds. */
module Day19 {
  import opened Common
  import opened Text

  /** The four resources; a robot is named by the resource it mines. */
  datatype Resource = Ore | Clay | Obsidian | Geode

  function Name(res: Resource): string
  {
    match res
    case Ore => "ore"
    case Clay => "clay"
    case Obsidian => "obsidian"
    case Geode => "geode"
  }

  /** `Stash`: an amount of each resource. */
  datatype Stash = Stash(ore: nat, clay: nat, obsidian: nat, geode: nat)

  const Empty := Stash(0, 0, 0, 0)

  function Amount(stash: Stash, res: Resource): nat
  {
    match res
    case Ore => stash.ore
    case Clay => stash.clay
    case Obsidian => stash.obsidian
    case Geode => stash.geode
  }

  /** The stash with the amount of `res` replaced by q. */
  function Assign(stash: Stash, res: Resource, q: nat): (r: Stash)
    ensures Amount(r, res) == q
    ensures forall other :: other != res ==> Amount(r, other) == Amount(stash, other)
  {
    match res
    case Ore => stash.(ore := q)
    case Clay => stash.(clay := q)
    case Obsidian => stash.(obsidian := q)
    case Geode => stash.(geode := q)
  }

  /** Componentwise sum, the inverse of `Sub`. */
  function Add(a: Stash, b: Stash): (r: Stash)
    ensures forall res :: Amount(r, res) == Amount(a, res) + Amount(b, res)
  {
    Stash(a.ore + b.ore, a.clay + b.clay, a.obsidian + b.obsidian, a.geode + b.geode)
  }

  /** Every amount of `stash` is at least that of `cost`. */
  predicate Covers(stash: Stash, cost: Stash)
  {
    forall res :: Amount(stash, res) >= Amount(cost, res)
  }

  /** `Stash - Stash`: componentwise, defined only where nothing would go
   *  below zero (the usize subtraction panics otherwise). */
  function Sub(stash: Stash, cost: Stash): (r: Stash)
    requires Covers(stash, cost)
    ensures Add(r, cost) == stash
  {
    assert Amount(stash, Ore) >= Amount(cost, Ore) && Amount(stash, Clay) >= Amount(cost, Clay);
    assert Amount(stash, Obsidian) >= Amount(cost, Obsidian) && Amount(stash, Geode) >= Amount(cost, Geode);
    Stash(stash.ore - cost.ore, stash.clay - cost.clay, stash.obsidian - cost.obsidian, stash.geode - cost.geode)
  }

  /** `Blueprint`: the price of each robot. */
  datatype Blueprint = Blueprint(oreBot: Stash, clayBot: Stash, obsidianBot: Stash, geodeBot: Stash)

  function Cost(bp: Blueprint, bot: Resource): Stash
  {
    match bot
    case Ore => bp.oreBot
    case Clay => bp.clayBot
    case Obsidian => bp.obsidianBot
    case Geode => bp.geodeBot
  }

  /** `Blueprint::can_build_*`: the stash covers the robot's price in all
   *  four resources. */
  function CanBuild(bp: Blueprint, bot: Resource, stash: Stash): (r: bool)
    ensures r <==> Covers(stash, Cost(bp, bot))
  {
    var c := Cost(bp, bot);
    if stash.ore >= c.ore && stash.clay >= c.clay && stash.obsidian >= c.obsidian && stash.geode >= c.geode then
      true
    else
      assert !(Amount(stash, Ore) >= Amount(c, Ore) && Amount(stash, Clay) >= Amount(c, Clay)
        && Amount(stash, Obsidian) >= Amount(c, Obsidian) && Amount(stash, Geode) >= Amount(c, Geode));
      false
  }

  /** Affordable exactly when the stash is the price plus some remainder, so
   *  paying never underflows. */
  lemma CanBuildMeaning(bp: Blueprint, bot: Resource, stash: Stash)
    ensures CanBuild(bp, bot, stash) <==> exists rest: Stash :: Add(rest, Cost(bp, bot)) == stash
  {
    if CanBuild(bp, bot, stash) {
      assert Add(Sub(stash, Cost(bp, bot)), Cost(bp, bot)) == stash;
    }
  }

  /** `State`: the robots of each kind and the stash. */
  datatype State = State(oreBots: nat, clayBots: nat, obsidianBots: nat, geodeBots: nat, stash: Stash)

  function Count(s: State, bot: Resource): nat
  {
    match bot
    case Ore => s.oreBots
    case Clay => s.clayBots
    case Obsidian => s.obsidianBots
    case Geode => s.geodeBots
  }

  /** All robots of the state. */
  function Robots(s: State): nat
  {
    s.oreBots + s.clayBots + s.obsidianBots + s.geodeBots
  }

  /** What the robots mine in one round. */
  function Production(s: State): (r: Stash)
    ensures forall res :: Amount(r, res) == Count(s, res)
  {
    Stash(s.oreBots, s.clayBots, s.obsidianBots, s.geodeBots)
  }

  /** `State::default`: one ore robot and nothing else. */
  function Initial(): (r: State)
    ensures Count(r, Ore) == 1 && Robots(r) == 1 && r.stash == Empty
  {
    State(1, 0, 0, 0, Empty)
  }

  /** `State::run_bots`: every robot adds one unit of its resource. */
  function RunBots(s: State): (r: State)
    ensures forall res :: Amount(r.stash, res) == Amount(s.stash, res) + Count(s, res)
    ensures forall res :: Count(r, res) == Count(s, res)
  {
    s.(stash := Add(s.stash, Production(s)))
  }

  /** The state with one more robot of kind `bot`. */
  function WithRobot(s: State, bot: Resource): (r: State)
    ensures Count(r, bot) == Count(s, bot) + 1
    ensures forall other :: other != bot ==> Count(r, other) == Count(s, other)
    ensures r.stash == s.stash
  {
    match bot
    case Ore => s.(oreBots := s.oreBots + 1)
    case Clay => s.(clayBots := s.clayBots + 1)
    case Obsidian => s.(obsidianBots := s.obsidianBots + 1)
    case Geode => s.(geodeBots := s.geodeBots + 1)
  }

  /** One build branch of `test_blueprint`: pay, let the old robots mine,
   *  then add the new robot, which therefore does not mine this round. */
  function Build(bp: Blueprint, s: State, bot: Resource): (r: State)
    requires CanBuild(bp, bot, s.stash)
    ensures Count(r, bot) == Count(s, bot) + 1
    ensures forall other :: other != bot ==> Count(r, other) == Count(s, other)
    ensures Add(r.stash, Cost(bp, bot)) == Add(s.stash, Production(s))
  {
    var paid := s.(stash := Sub(s.stash, Cost(bp, bot)));
    WithRobot(RunBots(paid), bot)
  }

  /** Which builds the greedy branching of `test_blueprint` tries: a geode
   *  robot always, an obsidian robot only when no geode robot is affordable,
   *  ore and clay robots only when neither of those is. */
  predicate Preferred(bp: Blueprint, s: State, bot: Resource)
  {
    match bot
    case Geode => true
    case Obsidian => !CanBuild(bp, Geode, s.stash)
    case _ => !CanBuild(bp, Geode, s.stash) && !CanBuild(bp, Obsidian, s.stash)
  }

  /** The states one round after `s`. */
  function Successors(bp: Blueprint, s: State): (r: set<State>)
    ensures RunBots(s) in r
  {
    if CanBuild(bp, Geode, s.stash) then {Build(bp, s, Geode), RunBots(s)}
    else if CanBuild(bp, Obsidian, s.stash) then {Build(bp, s, Obsidian), RunBots(s)}
    else
      (if CanBuild(bp, Ore, s.stash) then {Build(bp, s, Ore)} else {})
      + (if CanBuild(bp, Clay, s.stash) then {Build(bp, s, Clay)} else {})
      + {RunBots(s)}
  }

  /** A build differs from waiting, and builds of different robots differ. */
  lemma BuildsDiffer(bp: Blueprint, s: State, a: Resource, b: Resource)
    requires CanBuild(bp, a, s.stash) && CanBuild(bp, b, s.stash)
    ensures Build(bp, s, a) != RunBots(s)
    ensures a != b ==> Build(bp, s, a) != Build(bp, s, b)
  {
    assert Count(Build(bp, s, a), a) != Count(RunBots(s), a);
    if a != b {
      assert Count(Build(bp, s, a), a) != Count(Build(bp, s, b), a);
    }
  }

  /** The successors are exactly waiting plus every affordable, preferred
   *  build. */
  lemma SuccessorsMeaning(bp: Blueprint, s: State, t: State)
    ensures t in Successors(bp, s) <==>
      t == RunBots(s) || exists bot :: CanBuild(bp, bot, s.stash) && Preferred(bp, s, bot) && t == Build(bp, s, bot)
  {
    if t in Successors(bp, s) && t != RunBots(s) {
      if CanBuild(bp, Geode, s.stash) {
        assert t == Build(bp, s, Geode);
      } else if CanBuild(bp, Obsidian, s.stash) {
        assert t == Build(bp, s, Obsidian);
      } else if CanBuild(bp, Ore, s.stash) && t == Build(bp, s, Ore) {
        assert Preferred(bp, s, Ore);
      } else {
        assert t == Build(bp, s, Clay);
        assert Preferred(bp, s, Clay);
      }
    }
  }

  /** Robot counts never decrease, and a round adds at most one robot. */
  lemma SuccessorsGrow(bp: Blueprint, s: State, t: State)
    requires t in Successors(bp, s)
    ensures forall res :: Count(t, res) >= Count(s, res)
    ensures Robots(t) <= Robots(s) + 1
  {
    SuccessorsMeaning(bp, s, t);
    if t != RunBots(s) {
      var bot :| CanBuild(bp, bot, s.stash) && Preferred(bp, s, bot) && t == Build(bp, s, bot);
      BuildGrows(bp, s, bot);
    } else {
      assert Count(t, Ore) == s.oreBots && Count(t, Clay) == s.clayBots;
      assert Count(t, Obsidian) == s.obsidianBots && Count(t, Geode) == s.geodeBots;
    }
  }

  /** A build adds exactly one robot, of its kind. */
  lemma BuildGrows(bp: Blueprint, s: State, bot: Resource)
    requires CanBuild(bp, bot, s.stash)
    ensures forall res :: Count(Build(bp, s, bot), res) >= Count(s, res)
    ensures Robots(Build(bp, s, bot)) == Robots(s) + 1
  {
    var t := Build(bp, s, bot);
    assert Robots(t) == Count(t, Ore) + Count(t, Clay) + Count(t, Obsidian) + Count(t, Geode);
  }

  /** One round for every state: the union of their successors. */
  function Step(bp: Blueprint, states: set<State>): set<State>
  {
    set s, t | s in states && t in Successors(bp, s) :: t
  }

  /** The states after `rounds` rounds. */
  function Reach(bp: Blueprint, rounds: nat): set<State>
  {
    if rounds == 0 then {Initial()} else Step(bp, Reach(bp, rounds - 1))
  }

  /** Waiting is always possible, so no round empties the set. */
  lemma {:induction false} ReachNonEmpty(bp: Blueprint, n: nat)
    ensures Reach(bp, n) != {}
  {
    if n > 0 {
      ReachNonEmpty(bp, n - 1);
      var s :| s in Reach(bp, n - 1);
      assert RunBots(s) in Successors(bp, s);
      assert RunBots(s) in Step(bp, Reach(bp, n - 1));
    }
  }

  /** A state of the next round comes from a state of this one. */
  lemma StepFrom(bp: Blueprint, states: set<State>, t: State) returns (p: State)
    requires t in Step(bp, states)
    ensures p in states && t in Successors(bp, p)
  {
    p :| p in states && t in Successors(bp, p);
  }

  /** After n rounds every state keeps its ore robot and has at most n
   *  robots more than the start. */
  lemma {:induction false} ReachRobots(bp: Blueprint, n: nat)
    ensures forall t :: t in Reach(bp, n) ==> Count(t, Ore) >= 1 && Robots(t) <= 1 + n
  {
    if n > 0 {
      ReachRobots(bp, n - 1);
      forall t | t in Reach(bp, n)
        ensures Count(t, Ore) >= 1 && Robots(t) <= 1 + n
      {
        var p := StepFrom(bp, Reach(bp, n - 1), t);
        SuccessorsGrow(bp, p, t);
      }
    }
  }

  lemma StepAdd(bp: Blueprint, done: set<State>, s: State)
    ensures Step(bp, done + {s}) == Step(bp, done) + Successors(bp, s)
  {
  }

  /** The body of the inner loop of `test_blueprint`: the states one state
   *  turns into, built branch by branch. */
  method Branch(bp: Blueprint, s: State) returns (found: set<State>)
    ensures found == Successors(bp, s)
  {
    found := {};
    if CanBuild(bp, Geode, s.stash) {
      found := found + {Build(bp, s, Geode)};
    } else if CanBuild(bp, Obsidian, s.stash) {
      found := found + {Build(bp, s, Obsidian)};
    } else {
      if CanBuild(bp, Ore, s.stash) {
        found := found + {Build(bp, s, Ore)};
      }
      if CanBuild(bp, Clay, s.stash) {
        found := found + {Build(bp, s, Clay)};
      }
    }
    found := found + {RunBots(s)};
  }

  /** The inner loop of `test_blueprint`: the new set built from every state
   *  of the old one. */
  method Expand(bp: Blueprint, states: set<State>) returns (next: set<State>)
    ensures next == Step(bp, states)
  {
    next := {};
    var rest := states;
    while rest != {}
      invariant rest <= states
      invariant next == Step(bp, states - rest)
      decreases |rest|
    {
      var s :| s in rest;
      var found := Branch(bp, s);
      StepAdd(bp, states - rest, s);
      assert (states - rest) + {s} == states - (rest - {s});
      next := next + found;
      rest := rest - {s};
    }
    assert states - rest == states;
  }

  /** `v` is the most geodes held by a state of `states`. */
  predicate IsMaxGeode(states: set<State>, v: nat)
  {
    (exists s :: s in states && s.stash.geode == v) && forall s :: s in states ==> s.stash.geode <= v
  }

  lemma MaxGeodeUnique(states: set<State>, a: nat, b: nat)
    requires IsMaxGeode(states, a) && IsMaxGeode(states, b)
    ensures a == b
  {
  }

  /** The largest geode count of a non-empty set of states. */
  ghost function MostGeodes(states: set<State>): (r: nat)
    requires states != {}
    ensures IsMaxGeode(states, r)
    decreases |states|
  {
    var s :| s in states;
    if states == {s} then s.stash.geode
    else
      var m := MostGeodes(states - {s});
      assert states == (states - {s}) + {s};
      if s.stash.geode > m then s.stash.geode else m
  }

  /** `to_visit.iter().map(|state| state.stash.geode).max()`. */
  method MaxGeode(states: set<State>) returns (r: Option<nat>)
    ensures r.None? <==> states == {}
    ensures r.Some? ==> IsMaxGeode(states, r.value)
  {
    var rest := states;
    r := None;
    while rest != {}
      invariant rest <= states
      invariant r.None? <==> rest == states
      invariant r.Some? ==> IsMaxGeode(states - rest, r.value)
      decreases |rest|
    {
      var s :| s in rest;
      if r.None? || r.value < s.stash.geode {
        r := Some(s.stash.geode);
      }
      rest := rest - {s};
    }
    assert states - rest == states;
  }

  /** The rounds `test_blueprint` runs. */
  const Rounds: nat := 24

  /** The most geodes after 24 rounds. */
  ghost function Score(bp: Blueprint): nat
  {
    ReachNonEmpty(bp, Rounds);
    MostGeodes(Reach(bp, Rounds))
  }

  /** `test_blueprint`: 24 rounds of expansion from the initial state, then
   *  the most geodes held. The final `unwrap` never fails. */
  method TestBlueprint(bp: Blueprint) returns (best: nat)
    ensures best == Score(bp)
  {
    var toVisit := {Initial()};
    for round := 0 to Rounds
      invariant toVisit == Reach(bp, round)
    {
      toVisit := Expand(bp, toVisit);
    }
    ReachNonEmpty(bp, Rounds);
    var m := MaxGeode(toVisit);
    best := m.value;
    MaxGeodeUnique(toVisit, best, MostGeodes(toVisit));
  }

  /** The quality level of the blueprint numbered `id`. */
  function Quality(id: nat, geodes: nat): nat
  {
    id * geodes
  }

  /** The quality levels of the first n blueprints: blueprint i (from 0)
   *  counts i + 1 times its geodes. */
  ghost function QualityTotal(bps: seq<Blueprint>, n: nat): nat
    requires n <= |bps|
  {
    if n == 0 then 0
    else QualityTotal(bps, n - 1) + Quality(n, Score(bps[n - 1]))
  }

  /** The sum of the quality levels in `main`. */
  method QualitySum(bps: seq<Blueprint>) returns (total: nat)
    ensures total == QualityTotal(bps, |bps|)
  {
    total := 0;
    for i := 0 to |bps|
      invariant total == QualityTotal(bps, i)
    {
      var geodes := TestBlueprint(bps[i]);
      total := total + Quality(i + 1, geodes);
    }
  }

  /** One `"<quantity> <resource>"` item of `Stash::from_str`, written into
   *  `stash`: a bad quantity is an error, a missing or unknown resource
   *  panics. An item changes one resource at most. */
  function ParseItem(item: string, stash: Stash): (r: Result<Stash>)
    ensures r.Ok? ==> exists res :: r.value == Assign(stash, res, Amount(r.value, res))
  {
    var words := Split(item, " ");
    match ParseUnsigned(words[0], U64_MAX)
    case None => Err(Error)
    case Some(q) =>
      if |words| < 2 then Err(Panic)
      else if words[1] == "ore" then Ok(Assign(stash, Ore, q))
      else if words[1] == "clay" then Ok(Assign(stash, Clay, q))
      else if words[1] == "obsidian" then Ok(Assign(stash, Obsidian, q))
      else if words[1] == "geode" then Ok(Assign(stash, Geode, q))
      else Err(Panic)
  }

  /** The items applied in order to the empty stash; the first failure ends
   *  the parse. */
  function ParseItems(items: seq<string>): Result<Stash>
  {
    if items == [] then Ok(Empty)
    else
      match ParseItems(items[..|items| - 1])
      case Err(f) => Err(f)
      case Ok(stash) => ParseItem(items[|items| - 1], stash)
  }

  /** A failure among the first j items is the result of all of them. */
  lemma {:induction false} ParseItemsFails(items: seq<string>, j: nat)
    requires j <= |items| && ParseItems(items[..j]).Err?
    ensures ParseItems(items) == ParseItems(items[..j])
    decreases |items| - j
  {
    if j < |items| {
      assert items[..j + 1][..j] == items[..j];
      ParseItemsFails(items, j + 1);
    } else {
      assert items[..j] == items;
    }
  }

  /** `Stash::from_str`: the " and "-separated items in turn. */
  method ParseStash(s: string) returns (r: Result<Stash>)
    ensures r == ParseItems(Split(s, " and "))
  {
    var items := Split(s, " and ");
    var stash := Empty;
    var j := 0;
    assert items[..0] == [];
    while j < |items|
      invariant j <= |items|
      invariant ParseItems(items[..j]) == Ok(stash)
    {
      assert items[..j + 1][..j] == items[..j];
      var next := ParseItem(items[j], stash);
      if next.Err? {
        ParseItemsFails(items, j + 1);
        return next;
      }
      stash := next.value;
      j := j + 1;
    }
    assert items[..j] == items;
    return Ok(stash);
  }

  /** The printed item of amount q of `res`. */
  function ItemText(q: nat, res: Resource): string
  {
    NatToString(q) + " " + Name(res)
  }

  lemma ParseItemText(q: nat, res: Resource, stash: Stash)
    requires q <= U64_MAX
    ensures ParseItem(ItemText(q, res), stash) == Ok(Assign(stash, res, q))
  {
    ItemWords(q, res);
    ParseNatToString(q, U64_MAX);
  }

  /** An item splits at its space into the amount and the name. */
  lemma ItemWords(q: nat, res: Resource)
    ensures Split(ItemText(q, res), " ") == [NatToString(q), Name(res)]
  {
    var words := [NatToString(q), Name(res)];
    assert Join(words, " ") == ItemText(q, res) by {
      assert words[1..] == [Name(res)];
    }
    forall k | 0 <= k < 2
      ensures NoChar(words[k], ' ')
    {
      assert AllDigits(words[0]);
    }
    SplitJoin(words, ' ');
  }

  /** Every amount of the stash, as items. */
  function StashItems(st: Stash): seq<string>
  {
    [ItemText(st.ore, Ore), ItemText(st.clay, Clay), ItemText(st.obsidian, Obsidian), ItemText(st.geode, Geode)]
  }

  /** Parsing the items of a printed stash gives it back. */
  lemma ParseStashItems(st: Stash)
    requires st.ore <= U64_MAX && st.clay <= U64_MAX && st.obsidian <= U64_MAX && st.geode <= U64_MAX
    ensures ParseItems(StashItems(st)) == Ok(st)
  {
    var s1 := Assign(Empty, Ore, st.ore);
    var s2 := Assign(s1, Clay, st.clay);
    var s3 := Assign(s2, Obsidian, st.obsidian);
    ParseItemText(st.ore, Ore, Empty);
    ParseItemText(st.clay, Clay, s1);
    ParseItemText(st.obsidian, Obsidian, s2);
    ParseItemText(st.geode, Geode, s3);
    assert Assign(s3, Geode, st.geode) == st;
    ParseFourItems(StashItems(st), s1, s2, s3, st);
  }

  /** Four items, each parsing from the stash the one before leaves. */
  lemma ParseFourItems(items: seq<string>, s1: Stash, s2: Stash, s3: Stash, s4: Stash)
    requires |items| == 4 && ParseItem(items[0], Empty) == Ok(s1) && ParseItem(items[1], s1) == Ok(s2)
    requires ParseItem(items[2], s2) == Ok(s3) && ParseItem(items[3], s3) == Ok(s4)
    ensures ParseItems(items) == Ok(s4)
  {
    assert items[..0] == [];
    ParseItemsNext(items, 0, Empty);
    ParseItemsNext(items, 1, s1);
    ParseItemsNext(items, 2, s2);
    ParseItemsNext(items, 3, s3);
    assert items[..4] == items;
  }

  /** Parsing one more item continues from the stash of the items before. */
  lemma ParseItemsNext(items: seq<string>, j: nat, stash: Stash)
    requires j < |items| && ParseItems(items[..j]) == Ok(stash)
    ensures ParseItems(items[..j + 1]) == ParseItem(items[j], stash)
  {
    assert items[..j + 1][..j] == items[..j];
  }

  /** The price text of the k-th sentence after the colon: the part after
   *  "costs ". A missing sentence or a missing "costs " panics. */
  function CostText(s: string, k: nat): (r: Result<string>)
    ensures r.Err? ==> r.failure == Panic
  {
    var halves := Split(s, ":");
    if |halves| < 2 then Err(Panic)
    else
      var sentences := Split(halves[1], ".");
      if |sentences| <= k then Err(Panic)
      else
        var costs := Split(sentences[k], "costs ");
        if |costs| < 2 then Err(Panic) else Ok(costs[1])
  }

  /** The price of the k-th robot of the line. */
  function ReadCost(s: string, k: nat): (r: Result<Stash>)
    ensures r.Ok? ==> Bounded(r.value)
  {
    match CostText(s, k)
    case Err(f) => Err(f)
    case Ok(text) =>
      ParseItemsBounded(Split(text, " and "));
      ParseItems(Split(text, " and "))
  }

  /** No amount exceeds the usize range. */
  predicate Bounded(st: Stash)
  {
    forall res :: Amount(st, res) <= U64_MAX
  }

  /** Every parsed amount came through `ParseUnsigned`, so it fits a usize. */
  lemma {:induction false} ParseItemsBounded(items: seq<string>)
    ensures ParseItems(items).Ok? ==> Bounded(ParseItems(items).value)
  {
    if items != [] {
      var front := items[..|items| - 1];
      ParseItemsBounded(front);
      if ParseItems(front).Ok? && ParseItems(items).Ok? {
        var before := ParseItems(front).value;
        var words := Split(items[|items| - 1], " ");
        var q := ParseUnsigned(words[0], U64_MAX).value;
        var res :| ParseItems(items).value == Assign(before, res, q);
      }
    }
  }

  /** `Blueprint::from_str`: the four prices in order ore, clay, obsidian,
   *  geode, each failing as soon as it fails. */
  function ReadBlueprint(s: string): (r: Result<Blueprint>)
    ensures r.Ok? ==> Bounded(r.value.oreBot) && Bounded(r.value.clayBot)
    ensures r.Ok? ==> Bounded(r.value.obsidianBot) && Bounded(r.value.geodeBot)
  {
    match ReadCost(s, 0)
    case Err(f) => Err(f)
    case Ok(ore) =>
      match ReadCost(s, 1)
      case Err(f) => Err(f)
      case Ok(clay) =>
        match ReadCost(s, 2)
        case Err(f) => Err(f)
        case Ok(obsidian) =>
          match ReadCost(s, 3)
          case Err(f) => Err(f)
          case Ok(geode) =>
            Ok(Blueprint(ore, clay, obsidian, geode))
  }

  /** A price that fails after the earlier ones were read fails the line
   *  with the same failure. */
  lemma ReadBlueprintFails(s: string, k: nat)
    requires k < 4 && ReadCost(s, k).Err?
    requires forall i :: 0 <= i < k ==> ReadCost(s, i).Ok?
    ensures ReadBlueprint(s) == Err(ReadCost(s, k).failure)
  {
    if k > 0 { assert ReadCost(s, 0).Ok?; }
    if k > 1 { assert ReadCost(s, 1).Ok?; }
    if k > 2 { assert ReadCost(s, 2).Ok?; }
  }

  /** Four prices read make the blueprint. */
  lemma ReadBlueprintOk(s: string, costs: seq<Stash>)
    requires |costs| == 4 && forall i :: 0 <= i < 4 ==> ReadCost(s, i) == Ok(costs[i])
    ensures ReadBlueprint(s) == Ok(Blueprint(costs[0], costs[1], costs[2], costs[3]))
  {
    assert ReadCost(s, 0) == Ok(costs[0]) && ReadCost(s, 1) == Ok(costs[1]);
    assert ReadCost(s, 2) == Ok(costs[2]) && ReadCost(s, 3) == Ok(costs[3]);
  }

  /** The price of the k-th robot, through `ParseStash`. */
  method ParseCost(s: string, k: nat) returns (r: Result<Stash>)
    ensures r == ReadCost(s, k)
  {
    var text := CostText(s, k);
    if text.Err? {
      return Err(text.failure);
    }
    r := ParseStash(text.value);
  }

  /** `Blueprint::from_str` as written: the four prices read one after the
   *  other, the first failure returned by `?`. */
  method ParseBlueprint(s: string) returns (r: Result<Blueprint>)
    ensures r == ReadBlueprint(s)
  {
    var ore := ParseCost(s, 0);
    if ore.Err? {
      return Err(ore.failure);
    }
    var clay := ParseCost(s, 1);
    if clay.Err? {
      return Err(clay.failure);
    }
    var obsidian := ParseCost(s, 2);
    if obsidian.Err? {
      return Err(obsidian.failure);
    }
    var geode := ParseCost(s, 3);
    if geode.Err? {
      return Err(geode.failure);
    }
    return Ok(Blueprint(ore.value, clay.value, obsidian.value, geode.value));
  }
}
