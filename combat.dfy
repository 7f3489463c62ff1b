/**
 * The combat tracker: the roster of units in turn order, the active and the
 * selected unit, and the turn and round counters.
 *
 * Unit ids, which the original draws at random, are arguments here.
 */
module Combat {
  import opened Wrappers

  datatype Faction = Player | Friendly | Neutral | Hostile

  /** A combatant; ability scores, spell slots, custom properties and statuses are not modelled. */
  datatype Unit = Unit(id: string, name: string, faction: Faction, initiative: int, hpMax: int, hpCurrent: int, ac: int)

  /** A unit with the unit model's default armour class. */
  function NewUnit(id: string, name: string, faction: Faction, initiative: int, hpMax: int, hpCurrent: int): Unit
  {
    Unit(id, name, faction, initiative, hpMax, hpCurrent, 10)
  }

  /** The argument of `selectUnit`: an id, or a unit whose id is taken. */
  datatype UnitRef = ById(id: string) | ByUnit(unit: Unit)

  /** JavaScript's `!id` on an id slot: null and the empty string count as no id. */
  predicate IsUnset(id: Option<string>)
  {
    id == None || id == Some("")
  }

  /** The units in order of non-increasing initiative. */
  ghost predicate NonIncreasing(units: seq<Unit>)
  {
    forall i, j :: 0 <= i < j < |units| ==> units[i].initiative >= units[j].initiative
  }

  // ---------------------------------------------------------------------------
  // Lookups

  /** The index of the first unit with the given id, or -1 (never found for a null id; `RulesTooltip.IndexOfId` is the same search on records). */
  function FindIndex(units: seq<Unit>, id: Option<string>): (r: int)
    ensures -1 <= r < |units|
    ensures r >= 0 ==> id == Some(units[r].id) && forall k :: 0 <= k < r ==> id != Some(units[k].id)
    ensures r == -1 ==> forall k :: 0 <= k < |units| ==> id != Some(units[k].id)
  {
    if units == [] then -1
    else if id == Some(units[0].id) then 0
    else
      var r := FindIndex(units[1..], id);
      if r == -1 then -1 else r + 1
  }

  /** The first unit with the given id, if any. */
  function Find(units: seq<Unit>, id: Option<string>): (r: Option<Unit>)
    ensures r.Some? ==> r.value in units && id == Some(r.value.id)
    // the first such unit, as `find` returns
    ensures r.Some? ==> FindIndex(units, id) >= 0 && r.value == units[FindIndex(units, id)]
    ensures r.None? ==> forall k :: 0 <= k < |units| ==> id != Some(units[k].id)
  {
    var k := FindIndex(units, id);
    if k < 0 then None else Some(units[k])
  }

  // ---------------------------------------------------------------------------
  // List surgery

  /** Where `splice(start, …)` starts in an array of length `len` (a negative start counts from the end; `RulesTooltip.SpliceKeep` is the same clamping). */
  function SpliceStart(len: nat, start: int): (p: nat)
    ensures p <= len
  {
    if start < 0 then (if len + start < 0 then 0 else len + start)
    else if start < len then start
    else len
  }

  /** The list without its element at `p`, as `splice(p, 1)` leaves it. */
  function RemoveAt(s: seq<Unit>, p: nat): (r: seq<Unit>)
    requires p < |s|
    ensures |r| == |s| - 1
    ensures multiset(r) + multiset{s[p]} == multiset(s)
  {
    assert s == s[..p] + [s[p]] + s[p + 1..];
    s[..p] + s[p + 1..]
  }

  /** Removing the element at `p` shifts the later elements down by one and keeps the earlier ones. */
  lemma RemoveAtKeeps(s: seq<Unit>, p: nat, j: nat)
    requires p < |s| && j < |s| && j != p
    ensures RemoveAt(s, p)[if j < p then j else j - 1] == s[j]
  {
  }

  /** The list with `x` inserted as `splice(start, 0, x)` does. */
  function InsertAt(s: seq<Unit>, start: int, x: Unit): (r: seq<Unit>)
    ensures |r| == |s| + 1 && r[SpliceStart(|s|, start)] == x
    // taking the new element out again gives back the original list
    ensures RemoveAt(r, SpliceStart(|s|, start)) == s
  {
    var p := SpliceStart(|s|, start);
    var r := s[..p] + [x] + s[p..];
    assert r[..p] == s[..p] && r[p + 1..] == s[p..];
    r
  }

  /** Adding a unit whose id is new and then removing that id gives back the roster. */
  lemma AddThenRemoveRestores(s: seq<Unit>, start: int, u: Unit)
    requires forall k :: 0 <= k < |s| ==> s[k].id != u.id
    ensures var r := InsertAt(s, start, u);
      FindIndex(r, Some(u.id)) == SpliceStart(|s|, start) &&
      RemoveAt(r, FindIndex(r, Some(u.id))) == s
  {
    var p := SpliceStart(|s|, start);
    var r := InsertAt(s, start, u);
    forall k | 0 <= k < p
      ensures r[k] == s[k]
    {
      RemoveAtKeeps(r, p, k);
    }
  }

  // ---------------------------------------------------------------------------
  // Sorting by initiative

  /** Puts `u` into a list sorted by non-increasing initiative, before the first unit it ties or beats. */
  function InsertByInitiative(u: Unit, s: seq<Unit>): (r: seq<Unit>)
    requires NonIncreasing(s)
    ensures NonIncreasing(r)
    ensures multiset(r) == multiset(s) + multiset{u}
  {
    if s == [] || u.initiative >= s[0].initiative then [u] + s
    else
      var rest := InsertByInitiative(u, s[1..]);
      HeadBoundsInsertion(u, s, rest);
      assert s == [s[0]] + s[1..];
      [s[0]] + rest
  }

  /** After the head of an ordered list, every unit of the rest with `u` inserted has no higher initiative. */
  lemma HeadBoundsInsertion(u: Unit, s: seq<Unit>, rest: seq<Unit>)
    requires NonIncreasing(s) && s != [] && u.initiative < s[0].initiative
    requires multiset(rest) == multiset(s[1..]) + multiset{u}
    ensures forall k :: 0 <= k < |rest| ==> s[0].initiative >= rest[k].initiative
  {
    forall k | 0 <= k < |rest|
      ensures s[0].initiative >= rest[k].initiative
    {
      var x := rest[k];
      assert x in multiset(rest);
      if x != u {
        assert x in multiset(s[1..]);
        var j :| 0 <= j < |s[1..]| && s[1..][j] == x;
        assert s[j + 1] == x;
      }
    }
  }

  /** The units sorted by non-increasing initiative. */
  function SortedByInitiative(s: seq<Unit>): (r: seq<Unit>)
    ensures NonIncreasing(r)
    ensures multiset(r) == multiset(s)
  {
    if s == [] then []
    else
      assert s == [s[0]] + s[1..];
      InsertByInitiative(s[0], SortedByInitiative(s[1..]))
  }

  /** A roster already in initiative order is left as it is. */
  lemma {:induction false} SortedKeepsOrderedRoster(s: seq<Unit>)
    requires NonIncreasing(s)
    ensures SortedByInitiative(s) == s
  {
    if s != [] {
      SortedKeepsOrderedRoster(s[1..]);
      assert s == [s[0]] + s[1..];
    }
  }

  // ---------------------------------------------------------------------------
  // Turn order

  /**
   * The index of the unit after index `c` in a roster of `n`, wrapping to 0,
   * and whether it wrapped; an absent active unit (`c == -1`) gives index 0.
   */
  function Advance(n: nat, c: int): (r: (nat, bool))
    requires 0 < n && -1 <= c < n
    ensures r.0 < n && r.0 == (c + 1) % n
    ensures r.1 <==> c == n - 1
  {
    if c + 1 >= n then (0, true) else (c + 1, false)
  }

  /** The index after `k` modulo `n` is the next index, or 0 after the last one. */
  lemma WrapNext(n: nat, k: nat)
    requires k < n
    ensures (k + 1) % n == if k + 1 < n then k + 1 else 0
  {
  }

  /** Where `k` turns starting from index `c` end, and how many new rounds they start. */
  function Turns(n: nat, c: int, k: nat): (r: (int, nat))
    requires 0 < n && -1 <= c < n
    ensures -1 <= r.0 < n
    ensures k > 0 ==> 0 <= r.0
    decreases k
  {
    if k == 0 then (c, 0)
    else
      var step := Advance(n, c);
      var rest := Turns(n, step.0, k - 1);
      (rest.0, rest.1 + if step.1 then 1 else 0)
  }

  lemma {:induction false} TurnsWithinRound(n: nat, c: nat, k: nat)
    requires c + k < n
    ensures Turns(n, c, k) == (c + k, 0)
    decreases k
  {
    if k > 0 {
      TurnsWithinRound(n, c + 1, k - 1);
    }
  }

  lemma {:induction false} TurnsCompose(n: nat, c: int, a: nat, b: nat)
    requires 0 < n && -1 <= c < n
    ensures var first := Turns(n, c, a);
      var second := Turns(n, first.0, b);
      Turns(n, c, a + b) == (second.0, first.1 + second.1)
    decreases a
  {
    if a > 0 {
      TurnsCompose(n, Advance(n, c).0, a - 1, b);
    }
  }

  /** A full round of turns comes back to the same unit and starts exactly one new round. */
  lemma FullRound(n: nat, c: nat)
    requires c < n
    ensures Turns(n, c, n) == (c, 1)
  {
    TurnsWithinRound(n, c, n - 1 - c);
    TurnsCompose(n, c, n - 1 - c, 1 + c);
    TurnsCompose(n, n - 1, 1, c);
    TurnsWithinRound(n, 0, c);
  }

  // ---------------------------------------------------------------------------
  // The demo roster

  function DemoRoster(id0: string, id1: string, id2: string, id3: string): seq<Unit>
  {
    [ NewUnit(id0, "Lae'zel", Player, 18, 40, 35),
      NewUnit(id1, "Shadowheart", Player, 14, 30, 30),
      NewUnit(id2, "Goblin Boss", Hostile, 12, 50, 50),
      NewUnit(id3, "Goblin Archer", Hostile, 8, 15, 15) ]
  }

  /** The demo roster is listed in initiative order already. */
  lemma DemoRosterOrdered(id0: string, id1: string, id2: string, id3: string)
    ensures var s := DemoRoster(id0, id1, id2, id3);
      |s| == 4 && s[0].id == id0 && NonIncreasing(s)
  {
    var s := DemoRoster(id0, id1, id2, id3);
    assert s[0].initiative == 18 && s[1].initiative == 14 && s[2].initiative == 12 && s[3].initiative == 8;
  }

  /** Sorting the demo roster by initiative, as loading it does, leaves it as listed. */
  lemma DemoRosterSorted(id0: string, id1: string, id2: string, id3: string)
    ensures SortedByInitiative(DemoRoster(id0, id1, id2, id3)) == DemoRoster(id0, id1, id2, id3)
  {
    DemoRosterOrdered(id0, id1, id2, id3);
    SortedKeepsOrderedRoster(DemoRoster(id0, id1, id2, id3));
  }

  // ---------------------------------------------------------------------------
  // The combat state as a value, and what each operation does to it

  /** The shared combat state: the roster in turn order, the active and selected ids, and the counters. */
  datatype CombatState = CombatState(
    units: seq<Unit>,
    activeUnitId: Option<string>,
    selectedUnitId: Option<string>,
    turnCount: int,
    roundCount: int)

  /** No two units on the roster share an id. */
  ghost predicate UniqueIds(units: seq<Unit>)
  {
    forall i, j :: 0 <= i < j < |units| ==> units[i].id != units[j].id
  }

  /** The active id, when there is one, names a unit on the roster. */
  ghost predicate ActiveOnRoster(s: CombatState)
  {
    s.activeUnitId == None || FindIndex(s.units, s.activeUnitId) >= 0
  }

  /** With unique ids, a unit's id finds that unit. */
  lemma FindIndexOfUnique(units: seq<Unit>, j: nat)
    requires UniqueIds(units) && j < |units|
    ensures FindIndex(units, Some(units[j].id)) == j
  {
    var r := FindIndex(units, Some(units[j].id));
    assert r <= j;
  }

  /** Loading the demo roster: only into an empty tracker, which then starts turn 1 of round 1 with the first unit. */
  function DemoLoaded(s: CombatState, id0: string, id1: string, id2: string, id3: string): (r: CombatState)
    ensures s.units != [] ==> r == s
    ensures s.units == [] ==>
      r.units == DemoRoster(id0, id1, id2, id3) && NonIncreasing(r.units) &&
      r.activeUnitId == Some(id0) && r.selectedUnitId == Some(id0) &&
      r.turnCount == 1 && r.roundCount == 1
    ensures ActiveOnRoster(r) == (s.units == [] || ActiveOnRoster(s))
  {
    if s.units != [] then s
    else
      // the roster is already in initiative order, so the sort leaves it as it is (DemoRosterSorted)
      var roster := DemoRoster(id0, id1, id2, id3);
      DemoRosterOrdered(id0, id1, id2, id3);
      CombatState(roster, Some(roster[0].id), Some(roster[0].id), 1, 1)
  }

  /**
   * Passing the turn: the unit after the active one acts next and is
   * selected; after the last unit, or when the active id is not on the
   * roster, the first unit acts, and passing the last unit starts a round.
   */
  function TurnPassed(s: CombatState): (r: CombatState)
    ensures r.units == s.units
    ensures s.units == [] ==> r == s
    ensures s.units != [] ==>
      r.turnCount == s.turnCount + 1 && r.selectedUnitId == r.activeUnitId && ActiveOnRoster(r)
    ensures s.units != [] ==>
      var c := FindIndex(s.units, s.activeUnitId);
      (c + 1 < |s.units| ==> r.activeUnitId == Some(s.units[c + 1].id) && r.roundCount == s.roundCount) &&
      (c + 1 == |s.units| ==> r.activeUnitId == Some(s.units[0].id) && r.roundCount == s.roundCount + 1)
  {
    if s.units == [] then s
    else
      var step := Advance(|s.units|, FindIndex(s.units, s.activeUnitId));
      assert FindIndex(s.units, Some(s.units[step.0].id)) >= 0;
      s.(activeUnitId := Some(s.units[step.0].id), selectedUnitId := Some(s.units[step.0].id),
         turnCount := s.turnCount + 1, roundCount := s.roundCount + if step.1 then 1 else 0)
  }

  /** The state after `k` turns. */
  function TurnsTaken(s: CombatState, k: nat): CombatState
    decreases k
  {
    if k == 0 then s else TurnsTaken(TurnPassed(s), k - 1)
  }

  /** With unique ids, `k` turns move the active unit as `Turns` does and count its new rounds. */
  lemma {:induction false} TurnsTakenFollowTurns(s: CombatState, k: nat)
    requires s.units != [] && UniqueIds(s.units)
    ensures var t := Turns(|s.units|, FindIndex(s.units, s.activeUnitId), k);
      var r := TurnsTaken(s, k);
      r.units == s.units && r.turnCount == s.turnCount + k && r.roundCount == s.roundCount + t.1 &&
      (k > 0 ==> r.activeUnitId == Some(s.units[t.0].id) && r.selectedUnitId == r.activeUnitId)
    decreases k
  {
    if k > 0 {
      var n := |s.units|;
      var step := Advance(n, FindIndex(s.units, s.activeUnitId));
      var s1 := TurnPassed(s);
      FindIndexOfUnique(s.units, step.0);
      assert FindIndex(s1.units, s1.activeUnitId) == step.0;
      TurnsTakenFollowTurns(s1, k - 1);
    }
  }

  /**
   * With unique ids and the active unit on the roster, a full round of turns
   * hands the turn back to the same unit, selects it, and counts exactly one
   * new round.
   */
  lemma FullRoundOfTurns(s: CombatState)
    requires s.units != [] && UniqueIds(s.units) && s.activeUnitId.Some? && ActiveOnRoster(s)
    ensures TurnsTaken(s, |s.units|) ==
      s.(selectedUnitId := s.activeUnitId, turnCount := s.turnCount + |s.units|, roundCount := s.roundCount + 1)
  {
    TurnsTakenFollowTurns(s, |s.units|);
    FullRound(|s.units|, FindIndex(s.units, s.activeUnitId));
  }

  /** Adding a unit: appended for index -1, spliced in otherwise; it takes the turn when no unit has it. */
  function UnitAdded(s: CombatState, unit: Unit, index: int): (r: CombatState)
    ensures index == -1 ==> r.units == s.units + [unit]
    ensures index != -1 ==> r.units == InsertAt(s.units, index, unit)
    ensures multiset(r.units) == multiset(s.units) + multiset{unit}
    ensures IsUnset(s.activeUnitId) ==> r.activeUnitId == Some(unit.id) && r.selectedUnitId == Some(unit.id)
    ensures !IsUnset(s.activeUnitId) ==>
      r.activeUnitId == s.activeUnitId && r.selectedUnitId == s.selectedUnitId
    ensures r.turnCount == s.turnCount && r.roundCount == s.roundCount
  {
    var units := if index == -1 then s.units + [unit] else InsertAt(s.units, index, unit);
    assert index != -1 ==> multiset(units) == multiset(RemoveAt(units, SpliceStart(|s.units|, index))) + multiset{unit};
    if IsUnset(s.activeUnitId) then
      s.(units := units, activeUnitId := Some(unit.id), selectedUnitId := Some(unit.id))
    else s.(units := units)
  }

  /** Adding a unit keeps the active id on the roster. */
  lemma AddKeepsActiveOnRoster(s: CombatState, unit: Unit, index: int)
    requires ActiveOnRoster(s)
    ensures ActiveOnRoster(UnitAdded(s, unit, index))
  {
    var r := UnitAdded(s, unit, index);
    // where the new unit lands
    var p := if index == -1 then |s.units| else SpliceStart(|s.units|, index);
    assert r.units[p] == unit;
    if IsUnset(s.activeUnitId) {
      assert r.activeUnitId == Some(r.units[p].id);
    } else if s.activeUnitId.Some? {
      var j := FindIndex(s.units, s.activeUnitId);
      var j' := if j < p then j else j + 1;
      if index != -1 {
        RemoveAtKeeps(r.units, p, j');
      }
      assert r.activeUnitId == Some(r.units[j'].id);
    }
  }

  /**
   * Removing the first unit with `unitId`. An unknown id changes nothing.
   * When it is the active unit, the turn passes to the unit after it (none
   * when it is the only one), and the selection follows it only when it was
   * on the removed unit.
   */
  function UnitRemoved(s: CombatState, unitId: string): (r: CombatState)
    ensures FindIndex(s.units, Some(unitId)) == -1 ==> r == s
    ensures var k := FindIndex(s.units, Some(unitId));
      k >= 0 ==> r.units == RemoveAt(s.units, k)
    ensures var k := FindIndex(s.units, Some(unitId));
      k >= 0 && s.activeUnitId == Some(unitId) && |s.units| == 1 ==>
        r.activeUnitId == None && r.selectedUnitId == None
    ensures var k := FindIndex(s.units, Some(unitId));
      k >= 0 && s.activeUnitId == Some(unitId) && |s.units| > 1 ==>
        r.activeUnitId == Some(s.units[if k + 1 < |s.units| then k + 1 else 0].id) &&
        r.selectedUnitId == (if s.selectedUnitId == Some(unitId) then r.activeUnitId else s.selectedUnitId)
    ensures s.activeUnitId != Some(unitId) ==>
      r.activeUnitId == s.activeUnitId && r.selectedUnitId == s.selectedUnitId
    ensures r.turnCount == s.turnCount && r.roundCount == s.roundCount
  {
    var k := FindIndex(s.units, Some(unitId));
    if k == -1 then s
    else if s.activeUnitId != Some(unitId) then
      CombatState(RemoveAt(s.units, k), s.activeUnitId, s.selectedUnitId, s.turnCount, s.roundCount)
    else if |s.units| == 1 then
      CombatState(RemoveAt(s.units, k), None, None, s.turnCount, s.roundCount)
    else
      var next := Some(s.units[if k + 1 < |s.units| then k + 1 else 0].id);
      var selected := if s.selectedUnitId == Some(unitId) then next else s.selectedUnitId;
      CombatState(RemoveAt(s.units, k), next, selected, s.turnCount, s.roundCount)
  }

  /** Removing the active unit hands the turn to the unit that passing the turn would have chosen. */
  lemma RemovingActivePassesTurn(s: CombatState, unitId: string)
    requires s.activeUnitId == Some(unitId) && FindIndex(s.units, Some(unitId)) >= 0 && |s.units| > 1
    ensures UnitRemoved(s, unitId).activeUnitId == TurnPassed(s).activeUnitId
  {
    WrapNext(|s.units|, FindIndex(s.units, Some(unitId)));
  }

  /** Removing a unit keeps the active id on the roster. */
  lemma RemoveKeepsActiveOnRoster(s: CombatState, unitId: string)
    requires ActiveOnRoster(s)
    ensures ActiveOnRoster(UnitRemoved(s, unitId))
  {
    var k := FindIndex(s.units, Some(unitId));
    var r := UnitRemoved(s, unitId);
    if k >= 0 && r.activeUnitId.Some? {
      var n := |s.units|;
      // the index, before removal, of the unit that is active afterwards
      var j := if s.activeUnitId == Some(unitId) then (if k + 1 < n then k + 1 else 0) else FindIndex(s.units, s.activeUnitId);
      assert j != k;
      assert r.activeUnitId == Some(s.units[j].id);
      RemoveAtKeeps(s.units, k, j);
    }
  }

  /** The roster reordered by non-increasing initiative; nothing else changes. */
  function InitiativeSorted(s: CombatState): (r: CombatState)
    ensures NonIncreasing(r.units) && multiset(r.units) == multiset(s.units)
    ensures r.activeUnitId == s.activeUnitId && r.selectedUnitId == s.selectedUnitId
    ensures r.turnCount == s.turnCount && r.roundCount == s.roundCount
  {
    s.(units := SortedByInitiative(s.units))
  }

  /** Sorting keeps the active id on the roster. */
  lemma SortKeepsActiveOnRoster(s: CombatState)
    requires ActiveOnRoster(s)
    ensures ActiveOnRoster(InitiativeSorted(s))
  {
    var r := InitiativeSorted(s);
    if s.activeUnitId.Some? {
      var u := s.units[FindIndex(s.units, s.activeUnitId)];
      assert u in multiset(r.units);
      var k :| 0 <= k < |r.units| && r.units[k] == u;
    }
  }

  // ---------------------------------------------------------------------------
  // The shared combat state

  class CombatTracker {
    var units: seq<Unit>
    var activeUnitId: Option<string>
    var selectedUnitId: Option<string>
    var turnCount: int
    var roundCount: int

    constructor ()
      ensures State() == CombatState([], None, None, 0, 1)
    {
      units := [];
      activeUnitId := None;
      selectedUnitId := None;
      turnCount := 0;
      roundCount := 1;
    }

    function State(): CombatState
      reads this
    {
      CombatState(units, activeUnitId, selectedUnitId, turnCount, roundCount)
    }

    /** The unit whose turn it is, if its id is on the roster. */
    function ActiveUnit(): (r: Option<Unit>)
      reads this
      ensures r.Some? ==> r.value in units && activeUnitId == Some(r.value.id)
      // the first unit with that id, as `find` returns
      ensures r.Some? ==> FindIndex(units, activeUnitId) >= 0 && r.value == units[FindIndex(units, activeUnitId)]
      ensures r.None? ==> forall k :: 0 <= k < |units| ==> activeUnitId != Some(units[k].id)
    {
      Find(units, activeUnitId)
    }

    /** The unit shown in the detail view, if its id is on the roster. */
    function SelectedUnit(): (r: Option<Unit>)
      reads this
      ensures r.Some? ==> r.value in units && selectedUnitId == Some(r.value.id)
      // the first unit with that id, as `find` returns
      ensures r.Some? ==> FindIndex(units, selectedUnitId) >= 0 && r.value == units[FindIndex(units, selectedUnitId)]
      ensures r.None? ==> forall k :: 0 <= k < |units| ==> selectedUnitId != Some(units[k].id)
    {
      Find(units, selectedUnitId)
    }

    /** On an empty roster, loads the four demo units in initiative order and starts turn 1 of round 1. */
    method InitDemoData(id0: string, id1: string, id2: string, id3: string)
      modifies this
      ensures State() == DemoLoaded(old(State()), id0, id1, id2, id3)
    {
      if |units| > 0 {
        return;
      }
      // the demo roster is listed in initiative order, so sorting it changes nothing (DemoRosterSorted)
      units := DemoRoster(id0, id1, id2, id3);
      activeUnitId := Some(units[0].id);
      selectedUnitId := Some(units[0].id);
      turnCount := 1;
      roundCount := 1;
    }

    /** Passes the turn to the next unit, wrapping to the first and counting a new round. */
    method NextTurn()
      modifies this
      ensures State() == TurnPassed(old(State()))
    {
      if |units| == 0 {
        return;
      }
      var currentIndex := FindIndex(units, activeUnitId);
      var nextIndex := currentIndex + 1;
      if nextIndex >= |units| {
        nextIndex := 0;
        roundCount := roundCount + 1;
      }
      activeUnitId := Some(units[nextIndex].id);
      selectedUnitId := activeUnitId;
      turnCount := turnCount + 1;
    }

    method SelectUnit(unitOrId: UnitRef)
      modifies this
      ensures State() == old(State()).(selectedUnitId := Some(match unitOrId case ById(id) => id case ByUnit(u) => u.id))
    {
      var id := match unitOrId case ById(id) => id case ByUnit(u) => u.id;
      selectedUnitId := Some(id);
    }

    method BackToActive()
      modifies this
      ensures State() == old(State()).(selectedUnitId := old(activeUnitId))
    {
      selectedUnitId := activeUnitId;
    }

    /** Appends `unit` (index -1) or inserts it at `index`; it becomes active and selected when no unit is active. */
    method AddUnit(unit: Unit, index: int)
      modifies this
      ensures State() == UnitAdded(old(State()), unit, index)
    {
      if index == -1 {
        units := units + [unit];
      } else {
        units := InsertAt(units, index, unit);
      }
      if IsUnset(activeUnitId) {
        activeUnitId := Some(unit.id);
        selectedUnitId := Some(unit.id);
      }
    }

    /**
     * Removes the first unit with id `unitId`, passing the turn on when it
     * was the active unit.
     */
    method RemoveUnit(unitId: string)
      modifies this
      ensures State() == UnitRemoved(old(State()), unitId)
    {
      var index := FindIndex(units, Some(unitId));
      if index == -1 {
        return;
      }
      if activeUnitId == Some(unitId) {
        var nextIndex := (index + 1) % |units|;
        WrapNext(|units|, index);
        if |units| == 1 {
          activeUnitId := None;
          selectedUnitId := None;
        } else {
          activeUnitId := Some(units[nextIndex].id);
          if selectedUnitId == Some(unitId) {
            selectedUnitId := activeUnitId;
          }
        }
      }
      units := RemoveAt(units, index);
    }

    method SetUnits(newUnits: seq<Unit>)
      modifies this
      ensures State() == old(State()).(units := newUnits)
    {
      units := newUnits;
    }

    /** Reorders the roster by non-increasing initiative; the order among equal initiatives is not fixed. */
    method SortByInitiative()
      modifies this
      ensures NonIncreasing(units) && multiset(units) == multiset(old(units))
      ensures State() == old(State()).(units := units)
    {
      units := SortedByInitiative(units);
    }
  }
}
