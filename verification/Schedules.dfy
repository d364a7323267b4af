/**
  Two parties that take turns: when every move lowers a measure and a party that cannot move
  leaves everything as it was, no schedule has more moves than the measure at the start, and
  every fair schedule comes to rest.
 */
module Schedules {
  /** The measure after a schedule, and whether a party can move then; `true` is the first party. */
  datatype Game = Game(left: seq<bool> -> nat, moves: (seq<bool>, bool) -> bool)

  ghost predicate Turns(g: Game, schedule: seq<bool>, party: bool) {
    if g.moves(schedule, party) then g.left(schedule + [party]) < g.left(schedule)
    else
      && g.left(schedule + [party]) == g.left(schedule)
      && forall other :: g.moves(schedule + [party], other) == g.moves(schedule, other)
  }

  ghost predicate Lawful(g: Game) {
    forall schedule, party :: Turns(g, schedule, party)
  }

  /** Neither party can move. */
  predicate AtRest(g: Game, schedule: seq<bool>) { !g.moves(schedule, true) && !g.moves(schedule, false) }

  /** How many turns of a schedule are moves. */
  function MoveCount(g: Game, schedule: seq<bool>): nat {
    if schedule == [] then 0
    else
      var before := schedule[..|schedule| - 1];
      MoveCount(g, before) + if g.moves(before, schedule[|schedule| - 1]) then 1 else 0
  }

  lemma {:induction false} MovesBounded(g: Game, schedule: seq<bool>)
    requires Lawful(g)
    ensures MoveCount(g, schedule) + g.left(schedule) <= g.left([])
  {
    if schedule != [] {
      var before, last := schedule[..|schedule| - 1], schedule[|schedule| - 1];
      MovesBounded(g, before);
      assert Turns(g, before, last) && before + [last] == schedule;
    }
  }

  lemma {:induction false} LeftShrinks(g: Game, schedule: seq<bool>, more: seq<bool>)
    requires Lawful(g)
    ensures g.left(schedule + more) <= g.left(schedule)
    decreases |more|
  {
    if more == [] {
      assert schedule + more == schedule;
    } else {
      assert Turns(g, schedule, more[0]);
      LeftShrinks(g, schedule + [more[0]], more[1..]);
      assert schedule + [more[0]] + more[1..] == schedule + more;
    }
  }

  /** A stretch of turns that includes a party able to move brings the game on. */
  lemma {:induction false} RoundProgress(g: Game, schedule: seq<bool>, round: seq<bool>, party: bool)
    requires Lawful(g) && party in round && g.moves(schedule, party)
    ensures g.left(schedule + round) < g.left(schedule)
    decreases |round|
  {
    assert Turns(g, schedule, round[0]);
    assert schedule + [round[0]] + round[1..] == schedule + round;
    if g.moves(schedule, round[0]) {
      LeftShrinks(g, schedule + [round[0]], round[1..]);
    } else {
      assert round == [round[0]] + round[1..];
      RoundProgress(g, schedule + [round[0]], round[1..], party);
    }
  }

  lemma {:induction false} RestStays(g: Game, schedule: seq<bool>, more: seq<bool>)
    requires Lawful(g) && AtRest(g, schedule)
    ensures AtRest(g, schedule + more)
    decreases |more|
  {
    if more == [] {
      assert schedule + more == schedule;
    } else {
      assert Turns(g, schedule, more[0]);
      RestStays(g, schedule + [more[0]], more[1..]);
      assert schedule + [more[0]] + more[1..] == schedule + more;
    }
  }

  /** Letting whoever can move do so leads to rest. */
  lemma {:induction false} ToRest(g: Game, schedule: seq<bool>) returns (more: seq<bool>)
    requires Lawful(g)
    ensures schedule <= more && |more| <= |schedule| + g.left(schedule) && AtRest(g, more)
    decreases g.left(schedule)
  {
    if AtRest(g, schedule) {
      more := schedule;
    } else {
      var party := g.moves(schedule, true);
      assert Turns(g, schedule, party);
      more := ToRest(g, schedule + [party]);
    }
  }

  function Joined(rounds: seq<seq<bool>>): seq<bool> {
    if rounds == [] then [] else Joined(rounds[..|rounds| - 1]) + rounds[|rounds| - 1]
  }

  /** Both parties get at least one turn in every round. */
  predicate Fair(rounds: seq<seq<bool>>) {
    forall r :: r in rounds ==> true in r && false in r
  }

  lemma {:induction false} RoundsProgress(g: Game, rounds: seq<seq<bool>>)
    requires Lawful(g) && Fair(rounds)
    ensures AtRest(g, Joined(rounds)) || g.left(Joined(rounds)) + |rounds| <= g.left([])
  {
    if rounds != [] {
      var before, last := rounds[..|rounds| - 1], rounds[|rounds| - 1];
      RoundsProgress(g, before);
      assert last in rounds;
      if AtRest(g, Joined(before)) {
        RestStays(g, Joined(before), last);
      } else {
        RoundProgress(g, Joined(before), last, g.moves(Joined(before), true));
      }
    }
  }

  /** As many fair rounds as the measure at the start bring the game to rest. */
  lemma FairSchedulesRest(g: Game, rounds: seq<seq<bool>>)
    requires Lawful(g) && Fair(rounds) && |rounds| >= g.left([])
    ensures AtRest(g, Joined(rounds))
  {
    RoundsProgress(g, rounds);
    assert Turns(g, Joined(rounds), true) && Turns(g, Joined(rounds), false);
  }
}
