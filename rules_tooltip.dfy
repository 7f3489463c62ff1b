/**
 * The nested-tooltip controller: a stack of open tooltips, one per nesting
 * level, opened by hovering a term and pruned by a periodic hit test with a
 * grace period.
 *
 * The browser hit test becomes a `Hit` value, the clock a `now` argument in
 * milliseconds, and the random record id an `id` argument.
 */
module RulesTooltip {
  import opened Wrappers

  /** Milliseconds the pointer may stray before the stack is pruned. */
  const GracePeriod: int := 100

  /** The bounding rectangle of the element that opened a tooltip; carried for layout only. */
  datatype Rect = Rect(left: real, top: real, width: real, height: real)

  /** One open tooltip. */
  datatype TooltipRecord = TooltipRecord(id: string, term: string, definition: string, parentRect: Rect, level: int)

  /** A term anchor under the pointer; `level` is `None` when its level attribute is not a number. */
  datatype TermNodeHit = TermNodeHit(level: Option<int>, term: string)

  /**
   * What the hit test found under the pointer: the enclosing term anchor, if
   * any, and the id of the enclosing tooltip panel, if any. Nothing under the
   * pointer is `Hit(None, None)`.
   */
  datatype Hit = Hit(termNode: Option<TermNodeHit>, tooltipId: Option<string>)

  /** The controller's state as a value: the stack and the last time the pointer was on open content. */
  datatype Tracker = Tracker(stack: seq<TooltipRecord>, lastValidHitTime: int)

  /** Every record sits at the index equal to its level. */
  predicate LevelIndexed(stack: seq<TooltipRecord>)
  {
    forall k :: 0 <= k < |stack| ==> stack[k].level == k
  }

  function Min(a: int, b: int): int
  {
    if a <= b then a else b
  }

  /**
   * How many elements `splice(start)` leaves in an array of length `len` (a negative start counts from the end).
   * The same clamping as `Combat.SpliceStart`, kept here so that each module stands on its own.
   */
  function SpliceKeep(len: nat, start: int): nat
  {
    if start < 0 then (if len + start < 0 then 0 else len + start)
    else if start < len then start
    else len
  }

  /** The stack after `splice(start)`. */
  function Truncate(stack: seq<TooltipRecord>, start: int): seq<TooltipRecord>
  {
    stack[..SpliceKeep(|stack|, start)]
  }

  /** The term of the record at index `k`, if there is one (JavaScript gives `undefined` otherwise). */
  function TermAt(stack: seq<TooltipRecord>, k: int): Option<string>
  {
    if 0 <= k < |stack| then Some(stack[k].term) else None
  }

  /** The index of the first record with the given id, or -1 (the search `Combat.FindIndex` makes on units). */
  function IndexOfId(stack: seq<TooltipRecord>, id: string): (r: int)
    ensures -1 <= r < |stack|
    ensures r >= 0 ==> stack[r].id == id && forall k :: 0 <= k < r ==> stack[k].id != id
    ensures r == -1 ==> forall k :: 0 <= k < |stack| ==> stack[k].id != id
  {
    if stack == [] then -1
    else if stack[0].id == id then 0
    else
      var r := IndexOfId(stack[1..], id);
      if r == -1 then -1 else r + 1
  }

  // ---------------------------------------------------------------------------
  // Opening a tooltip

  /**
   * The stack after opening `term` at `level`: everything from `level` on is
   * dropped; then, unless the record just below has the same term, a new
   * record for `term` is pushed.
   */
  function Opened(stack: seq<TooltipRecord>, term: string, definition: string, parentRect: Rect,
                  level: int, id: string): (r: seq<TooltipRecord>)
    // the records below `level` are kept, and at most one is added
    ensures 0 <= level ==>
      var m := Min(level, |stack|);
      m <= |r| <= m + 1 && r[..m] == stack[..m]
    // immediate self-recursion is refused: the stack is only cut back
    ensures 0 < level <= |stack| && stack[level - 1].term == term ==> r == stack[..level]
    // otherwise the new record is on top, even when the same term was open at `level`
    ensures 0 <= level && !(0 < level <= |stack| && stack[level - 1].term == term) ==>
      |r| == Min(level, |stack|) + 1 && r[|r| - 1] == TooltipRecord(id, term, definition, parentRect, level)
    // a level-indexed stack stays level-indexed when the level is in range
    ensures LevelIndexed(stack) && 0 <= level <= |stack| ==> LevelIndexed(r)
  {
    var kept := Truncate(stack, level);
    if level > 0 && level - 1 < |kept| && kept[level - 1].term == term then kept
    else kept + [TooltipRecord(id, term, definition, parentRect, level)]
  }

  /**
   * Opening the term that is already open at `level` replaces its record
   * with a fresh one instead of leaving the stack alone.
   */
  lemma ReopenReplacesRecord(stack: seq<TooltipRecord>, level: nat, definition: string, parentRect: Rect, id: string)
    requires level < |stack| && stack[level].id != id
    requires level == 0 || stack[level - 1].term != stack[level].term
    ensures var r := Opened(stack, stack[level].term, definition, parentRect, level, id);
      |r| == level + 1 && r[level].id == id && r != stack
  {
    var r := Opened(stack, stack[level].term, definition, parentRect, level, id);
    assert r[level].id == id != stack[level].id;
  }

  // ---------------------------------------------------------------------------
  // Pruning on the periodic hit test

  /**
   * The number of stack records the pointer keeps alive: the anchor's level
   * (one more when the record at that level is the anchor's own tooltip), or
   * one past the panel the pointer is in, or 0.
   */
  function TargetLevel(stack: seq<TooltipRecord>, hit: Hit): (r: int)
    ensures hit.termNode.Some? && hit.termNode.value.level.Some? ==>
      var l := hit.termNode.value.level.value;
      r == (if 0 <= l < |stack| && stack[l].term == hit.termNode.value.term then l + 1 else l)
    ensures hit.termNode.None? && hit.tooltipId.Some? && r > 0 ==>
      r <= |stack| && stack[r - 1].id == hit.tooltipId.value &&
      forall k :: 0 <= k < r - 1 ==> stack[k].id != hit.tooltipId.value
    ensures hit.termNode.None? && hit.tooltipId.Some? && r <= 0 ==>
      r == 0 && forall k :: 0 <= k < |stack| ==> stack[k].id != hit.tooltipId.value
    ensures (hit.termNode.None? && hit.tooltipId.None?) || (hit.termNode.Some? && hit.termNode.value.level.None?) ==>
      r == 0
  {
    match hit.termNode
    case Some(node) =>
      (match node.level
       case None => 0
       case Some(l) => if 0 <= l < |stack| && stack[l].term == node.term then l + 1 else l)
    case None =>
      (match hit.tooltipId
       case None => 0
       case Some(id) => IndexOfId(stack, id) + 1)
  }

  /**
   * One hit test: with the pointer on the deepest open content the time is
   * recorded; otherwise, once the grace period since that time is over, the
   * stack is cut back to `target`.
   */
  function Reconciled(t: Tracker, target: int, now: int): (r: Tracker)
    // the stack only ever shrinks to a prefix of itself
    ensures |r.stack| <= |t.stack| && r.stack == t.stack[..|r.stack|]
    // nothing is pruned before the grace period is over, nor below the target
    ensures |r.stack| < |t.stack| ==> now - t.lastValidHitTime >= GracePeriod && target < |t.stack|
    ensures |r.stack| < |t.stack| && 0 <= target ==> |r.stack| == target
    // the time is refreshed when the pointer is on the deepest content
    ensures target >= |t.stack| ==> r == t.(lastValidHitTime := now)
    // within the grace period a shallower pointer changes nothing
    ensures target < |t.stack| && now - t.lastValidHitTime < GracePeriod ==> r == t
    ensures target < |t.stack| ==> r.lastValidHitTime == t.lastValidHitTime
    // past the grace period a shallower pointer cuts the stack back to the target;
    // a negative target counts from the top of the stack, as `splice` does
    ensures 0 <= target < |t.stack| && now - t.lastValidHitTime >= GracePeriod ==> r == t.(stack := t.stack[..target])
    ensures target < 0 && now - t.lastValidHitTime >= GracePeriod ==>
      r.lastValidHitTime == t.lastValidHitTime && |r.stack| == (if |t.stack| + target > 0 then |t.stack| + target else 0)
    ensures LevelIndexed(t.stack) ==> LevelIndexed(r.stack)
  {
    if target >= |t.stack| then t.(lastValidHitTime := now)
    else if now - t.lastValidHitTime < GracePeriod then t
    else t.(stack := Truncate(t.stack, target))
  }

  /** Hovering the anchor that opened the tooltip at its level keeps that tooltip open. */
  lemma HoveredAnchorKeepsItsTooltip(t: Tracker, l: nat, now: int)
    requires l < |t.stack|
    ensures var hit := Hit(Some(TermNodeHit(Some(l), t.stack[l].term)), None);
      var r := Reconciled(t, TargetLevel(t.stack, hit), now);
      |r.stack| > l && r.stack[..l + 1] == t.stack[..l + 1]
  {
    var hit := Hit(Some(TermNodeHit(Some(l), t.stack[l].term)), None);
    var r := Reconciled(t, TargetLevel(t.stack, hit), now);
    assert TargetLevel(t.stack, hit) == l + 1;
    assert r.stack[..l + 1] == t.stack[..|r.stack|][..l + 1];
  }

  /** The pointer inside a tooltip panel keeps that panel and every shallower one open. */
  lemma HoveredPanelSurvives(t: Tracker, i: nat, now: int)
    requires i < |t.stack|
    requires forall k :: 0 <= k < i ==> t.stack[k].id != t.stack[i].id
    ensures var hit := Hit(None, Some(t.stack[i].id));
      var r := Reconciled(t, TargetLevel(t.stack, hit), now);
      |r.stack| > i && r.stack[..i + 1] == t.stack[..i + 1]
  {
    var hit := Hit(None, Some(t.stack[i].id));
    var target := TargetLevel(t.stack, hit);
    assert target == i + 1;
    var r := Reconciled(t, target, now);
    assert r.stack[..i + 1] == t.stack[..|r.stack|][..i + 1];
  }

  // ---------------------------------------------------------------------------
  // Sequences of events

  /** An input to the controller: a hover that opens a tooltip, or one periodic hit test. */
  datatype Event =
    | Open(term: string, definition: string, parentRect: Rect, level: int, id: string)
    | Check(hit: Hit, now: int)

  function Apply(t: Tracker, e: Event): Tracker
  {
    match e
    case Open(term, definition, parentRect, level, id) =>
      t.(stack := Opened(t.stack, term, definition, parentRect, level, id))
    case Check(hit, now) =>
      Reconciled(t, TargetLevel(t.stack, hit), now)
  }

  function Replay(t: Tracker, events: seq<Event>): Tracker
    decreases |events|
  {
    if events == [] then t else Replay(Apply(t, events[0]), events[1..])
  }

  /** Every open in the run names a level between 0 and the stack height at that moment. */
  predicate LevelsInRange(t: Tracker, events: seq<Event>)
    decreases |events|
  {
    events == [] ||
    ((events[0].Open? ==> 0 <= events[0].level <= |t.stack|) &&
     LevelsInRange(Apply(t, events[0]), events[1..]))
  }

  /** Any run of opens at in-range levels and hit tests keeps every record at the index of its level. */
  lemma {:induction false} ReplayKeepsLevelIndexed(t: Tracker, events: seq<Event>)
    requires LevelIndexed(t.stack) && LevelsInRange(t, events)
    ensures LevelIndexed(Replay(t, events).stack)
    decreases |events|
  {
    if events != [] {
      ReplayKeepsLevelIndexed(Apply(t, events[0]), events[1..]);
    }
  }

  lemma {:induction false} ReplaySnoc(t: Tracker, events: seq<Event>, e: Event)
    ensures Replay(t, events + [e]) == Apply(Replay(t, events), e)
    decreases |events|
  {
    if events == [] {
      assert [e][1..] == [];
    } else {
      assert (events + [e])[1..] == events[1..] + [e];
      ReplaySnoc(Apply(t, events[0]), events[1..], e);
    }
  }

  /**
   * While the pointer stays off the open tooltips, hit tests within the grace
   * period leave the stack and the recorded time untouched.
   */
  lemma {:induction false} StrayWithinGraceKeepsStack(t: Tracker, events: seq<Event>)
    requires t.stack != []
    requires forall k :: 0 <= k < |events| ==>
      events[k].Check? && events[k].hit == Hit(None, None) &&
      events[k].now - t.lastValidHitTime < GracePeriod
    ensures Replay(t, events) == t
    decreases |events|
  {
    if events != [] {
      assert Apply(t, events[0]) == t;
      StrayWithinGraceKeepsStack(t, events[1..]);
    }
  }

  /**
   * ... and the first hit test at or after the end of the grace period closes
   * every tooltip.
   */
  lemma StrayPastGraceClosesAll(t: Tracker, events: seq<Event>, now: int)
    requires t.stack != []
    requires forall k :: 0 <= k < |events| ==>
      events[k].Check? && events[k].hit == Hit(None, None) &&
      events[k].now - t.lastValidHitTime < GracePeriod
    requires now - t.lastValidHitTime >= GracePeriod
    ensures Replay(t, events + [Check(Hit(None, None), now)]) == t.(stack := [])
  {
    ReplaySnoc(t, events, Check(Hit(None, None), now));
    StrayWithinGraceKeepsStack(t, events);
  }

  // ---------------------------------------------------------------------------
  // The controller object

  class TooltipController {
    /** The open tooltips, outermost first. */
    var tooltipStack: seq<TooltipRecord>
    /** The last time the pointer was on the deepest open content (ms). */
    var lastValidHitTime: int

    constructor ()
      ensures tooltipStack == [] && lastValidHitTime == 0
    {
      tooltipStack := [];
      lastValidHitTime := 0;
    }

    function State(): Tracker
      reads this
    {
      Tracker(tooltipStack, lastValidHitTime)
    }

    /** Opens `term` at nesting `level` (0 for an anchor in page text). */
    method OpenTooltip(term: string, definition: string, parentRect: Rect, level: int, id: string)
      modifies this
      ensures tooltipStack == Opened(old(tooltipStack), term, definition, parentRect, level, id)
      ensures lastValidHitTime == old(lastValidHitTime)
    {
      if |tooltipStack| > level {
        tooltipStack := Truncate(tooltipStack, level);
      }
      // the record at `level`, if it is the same term, is already open
      if TermAt(tooltipStack, level) == Some(term) {
        return;
      }
      // no tooltip directly inside a tooltip for the same term
      if level > 0 {
        if TermAt(tooltipStack, level - 1) == Some(term) {
          return;
        }
      }
      tooltipStack := tooltipStack + [TooltipRecord(id, term, definition, parentRect, level)];
    }

    /** One periodic hit test at time `now`, given what lies under the pointer. */
    method CheckTooltipHit(hit: Hit, now: int)
      modifies this
      ensures State() == Reconciled(old(State()), TargetLevel(old(tooltipStack), hit), now)
    {
      var targetLevel := 0;
      if hit.termNode.Some? {
        var level := hit.termNode.value.level;
        if level.Some? {
          targetLevel := level.value;
          if |tooltipStack| > level.value {
            if 0 <= level.value && tooltipStack[level.value].term == hit.termNode.value.term {
              targetLevel := level.value + 1;
            }
          }
        }
      } else if hit.tooltipId.Some? {
        var index := IndexOfId(tooltipStack, hit.tooltipId.value);
        if index != -1 {
          targetLevel := index + 1;
        }
      }
      if targetLevel >= |tooltipStack| {
        lastValidHitTime := now;
      } else {
        if now - lastValidHitTime < GracePeriod {
          return;
        }
        tooltipStack := Truncate(tooltipStack, targetLevel);
      }
    }
  }
}
