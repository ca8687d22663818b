/**
 * `calculateShootInfo`: the search over standing offsets x velocity indices x
 * launch angles for the shot whose trajectory passes through the fewest
 * tiles, with its best-so-far record, its early exit on a clear shot and its
 * `return null` on an out-of-range offset.
 *
 * The floating-point ballistics are supplied by the caller as a
 * `Ballistics` value. The search is specified by the sequence of events it
 * would meet if it never stopped (`Schedule`) and by `Outcome`, which walks
 * those events with the source's update rule; the lemmas below say what that
 * walk computes.
 */
module ShotSearch {
  import opened Wrappers
  import opened World
  import Offsets
  import Obstructions

  const MAX_VELOCITY: real := 400.0

  /** The initial `minimumObstructions`. */
  const INITIAL_OBSTRUCTIONS: nat := 100_000

  /**
   * The ballistics of the source, computed there with `sqrt`, `atan2`, `sin`
   * and `cos`: the minimum launch velocity for a relative target `t`; the single
   * angle used at that velocity (`atan2(v * v, g * t.x)`); the high and low
   * angles of `calculateAngles(v, t.x, t.y)`; and the world positions
   * `numberOfObstructions` samples for a start position, velocity and angle.
   */
  datatype Ballistics = Ballistics(
    minimumVelocity: Vec -> real,
    flatAngle: (real, Vec) -> real,
    arcAngles: (real, Vec) -> (real, real),
    trajectory: (Vec, real, real) -> seq<Vec>)

  /** One evaluated shot, or the best so far: `minimumObstructions`, `optimalVelocity`, `optimalAngle`, `optimalOffset`. */
  datatype Candidate = Candidate(obstructions: nat, velocity: real, angle: real, offset: int)

  /** The best-so-far record before any candidate is evaluated. */
  const INITIAL: Candidate := Candidate(INITIAL_OBSTRUCTIONS, 0.0, 0.0, 0)

  /** What the search meets next: an offset whose minimum velocity is out of range, or a candidate shot. */
  datatype Event = Unreachable | Try(candidate: Candidate)

  /** Where the search stands after some events: stopped with its result, or still running with a best record. */
  datatype Progress = Stopped(result: Option<Candidate>) | Running(best: Candidate)

  /**
   * The search's walk over `events` from the record `best`: an out-of-range
   * offset stops it with no plan; a candidate with more obstructions than the
   * best is skipped, any other replaces the best, and one with no
   * obstructions stops the search with that candidate.
   */
  function Walk(events: seq<Event>, best: Candidate): Progress {
    if events == [] then Running(best)
    else match events[0]
      case Unreachable => Stopped(None)
      case Try(c) =>
        if c.obstructions > best.obstructions then Walk(events[1..], best)
        else if c.obstructions == 0 then Stopped(Some(c))
        else Walk(events[1..], c)
  }

  /** Continue a walk that is still running over further events. */
  function Resume(p: Progress, events: seq<Event>): Progress {
    match p
    case Stopped(r) => Stopped(r)
    case Running(best) => Walk(events, best)
  }

  /** What the search returns once its events are exhausted: the result it stopped with, or its best record. */
  function Outcome(events: seq<Event>, best: Candidate): Option<Candidate> {
    match Walk(events, best)
    case Stopped(r) => r
    case Running(c) => Some(c)
  }

  /** Walking two lists of events one after the other is walking the first and resuming over the second. */
  lemma {:induction false} WalkAppend(a: seq<Event>, b: seq<Event>, best: Candidate)
    ensures Walk(a + b, best) == Resume(Walk(a, best), b)
  {
    if a == [] {
      assert a + b == b;
    } else {
      assert (a + b)[0] == a[0];
      assert (a + b)[1..] == a[1..] + b;
      match a[0]
      case Unreachable =>
      case Try(c) =>
        if c.obstructions > best.obstructions {
          WalkAppend(a[1..], b, best);
        } else if c.obstructions != 0 {
          WalkAppend(a[1..], b, c);
        }
    }
  }

  // ---------------------------------------------------------------- what Outcome computes

  /** An event that ends the search. */
  predicate Halts(e: Event) {
    e.Unreachable? || e.candidate.obstructions == 0
  }

  /** The index of the first event that ends the search, or `|events|`. */
  function FirstHalt(events: seq<Event>): (h: nat)
    ensures h <= |events|
    ensures forall j :: 0 <= j < h ==> !Halts(events[j])
    ensures h < |events| ==> Halts(events[h])
  {
    if events == [] then 0
    else if Halts(events[0]) then 0
    else 1 + FirstHalt(events[1..])
  }

  /** The candidates of a list of events that holds only candidates. */
  function Tried(events: seq<Event>): (cs: seq<Candidate>)
    requires forall j :: 0 <= j < |events| ==> events[j].Try?
    ensures |cs| == |events|
    ensures forall j :: 0 <= j < |events| ==> cs[j] == events[j].candidate
  {
    if events == [] then [] else [events[0].candidate] + Tried(events[1..])
  }

  /**
   * `p` is what the update rule keeps from `cs` starting at `best`: no
   * candidate and not `best` has fewer obstructions, and `p` is `best` when every
   * candidate has more, or else the LAST candidate with the fewest.
   */
  ghost predicate IsLastMinimum(cs: seq<Candidate>, best: Candidate, p: Candidate) {
    p.obstructions <= best.obstructions &&
    (forall j :: 0 <= j < |cs| ==> p.obstructions <= cs[j].obstructions) &&
    ((p == best && forall j :: 0 <= j < |cs| ==> cs[j].obstructions > best.obstructions) ||
     (exists j :: 0 <= j < |cs| && cs[j] == p &&
        forall k :: j < k < |cs| ==> cs[k].obstructions > p.obstructions))
  }

  /**
   * With no event that ends the search, the result is the last candidate
   * with the fewest obstructions (ties go to the later one), or the initial
   * record when every candidate has more.
   */
  lemma {:induction false} OutcomeIsLastMinimum(events: seq<Event>, best: Candidate)
    requires forall j :: 0 <= j < |events| ==> events[j].Try? && !Halts(events[j])
    ensures Outcome(events, best).Some?
    ensures IsLastMinimum(Tried(events), best, Outcome(events, best).value)
  {
    if events != [] {
      var c := events[0].candidate;
      var rest := events[1..];
      assert Tried(events) == [c] + Tried(rest);
      if c.obstructions > best.obstructions {
        OutcomeIsLastMinimum(rest, best);
        LastMinimumSkip(c, Tried(rest), best, Outcome(rest, best).value);
      } else {
        OutcomeIsLastMinimum(rest, c);
        LastMinimumTake(c, Tried(rest), best, Outcome(rest, c).value);
      }
    }
  }

  /** A candidate worse than the best is passed over. */
  lemma LastMinimumSkip(c: Candidate, cs: seq<Candidate>, best: Candidate, p: Candidate)
    requires IsLastMinimum(cs, best, p) && c.obstructions > best.obstructions
    ensures IsLastMinimum([c] + cs, best, p)
  {
    var cs' := [c] + cs;
    if !(p == best && forall j :: 0 <= j < |cs| ==> cs[j].obstructions > best.obstructions) {
      var j :| 0 <= j < |cs| && cs[j] == p && forall k :: j < k < |cs| ==> cs[k].obstructions > p.obstructions;
      assert cs'[j + 1] == p;
      assert forall k :: j + 1 < k < |cs'| ==> cs'[k] == cs[k - 1];
    }
  }

  /** A candidate no worse than the best becomes the best the rest is compared with. */
  lemma LastMinimumTake(c: Candidate, cs: seq<Candidate>, best: Candidate, p: Candidate)
    requires IsLastMinimum(cs, c, p) && c.obstructions <= best.obstructions
    ensures IsLastMinimum([c] + cs, best, p)
  {
    var cs' := [c] + cs;
    if p == c && forall j :: 0 <= j < |cs| ==> cs[j].obstructions > c.obstructions {
      assert cs'[0] == p;
      assert forall k :: 0 < k < |cs'| ==> cs'[k] == cs[k - 1];
    } else {
      var j :| 0 <= j < |cs| && cs[j] == p && forall k :: j < k < |cs| ==> cs[k].obstructions > p.obstructions;
      assert cs'[j + 1] == p;
      assert forall k :: j + 1 < k < |cs'| ==> cs'[k] == cs[k - 1];
    }
  }

  /**
   * What the search returns, by the first event that ends it: an
   * out-of-range offset gives no plan even after candidates were evaluated;
   * a first clear candidate is returned as it is; with neither, the last
   * candidate with the fewest obstructions (or the initial record) is returned.
   */
  lemma {:induction false} OutcomeCases(events: seq<Event>, best: Candidate)
    ensures var h := FirstHalt(events);
            (forall j :: 0 <= j < h ==> events[j].Try?) &&
            (h < |events| && events[h].Unreachable? ==> Outcome(events, best) == None) &&
            (h < |events| && events[h].Try? ==> Outcome(events, best) == Some(events[h].candidate)) &&
            (h == |events| ==> Outcome(events, best).Some? &&
                               IsLastMinimum(Tried(events), best, Outcome(events, best).value))
  {
    var h := FirstHalt(events);
    if h == |events| {
      OutcomeIsLastMinimum(events, best);
    } else if events != [] {
      var e := events[0];
      if !Halts(e) {
        var c := e.candidate;
        assert FirstHalt(events[1..]) == h - 1;
        assert forall j :: 0 <= j < |events[1..]| ==> events[1..][j] == events[j + 1];
        OutcomeCases(events[1..], if c.obstructions > best.obstructions then best else c);
      }
    }
  }

  /** The search returns no plan exactly when it meets an out-of-range offset before any clear shot. */
  lemma OutcomeNoneIff(events: seq<Event>, best: Candidate)
    ensures Outcome(events, best) == None <==>
            (FirstHalt(events) < |events| && events[FirstHalt(events)].Unreachable?)
  {
    OutcomeCases(events, best);
  }

  // ---------------------------------------------------------------- the events of the search

  /** `MathUtils.lerp`. */
  function Lerp(from: real, to: real, progress: real): real {
    from + (to - from) * progress
  }

  /** The velocity of index `i` of `iterations`, from the minimum velocity up to `MAX_VELOCITY`. */
  function Velocity(minimumVelocity: real, i: int, iterations: int): real
    requires iterations >= 2
  {
    Lerp(minimumVelocity, MAX_VELOCITY, i as real / (iterations - 1) as real)
  }

  /**
   * The first velocity is the minimum, the last is `MAX_VELOCITY`, and in
   * between they grow with the index and stay in that range.
   */
  lemma VelocityRange(minimumVelocity: real, i: int, j: int, iterations: int)
    requires iterations >= 2 && minimumVelocity <= MAX_VELOCITY
    requires 0 <= i <= j < iterations
    ensures Velocity(minimumVelocity, 0, iterations) == minimumVelocity
    ensures Velocity(minimumVelocity, iterations - 1, iterations) == MAX_VELOCITY
    ensures minimumVelocity <= Velocity(minimumVelocity, i, iterations)
    ensures Velocity(minimumVelocity, i, iterations) <= Velocity(minimumVelocity, j, iterations)
    ensures Velocity(minimumVelocity, j, iterations) <= MAX_VELOCITY
  {
    var d := (iterations - 1) as real;
    FractionBounds(0, i, d);
    FractionBounds(i, j, d);
    FractionBounds(j, iterations - 1, d);
    LerpMonotone(minimumVelocity, MAX_VELOCITY, 0 as real / d, i as real / d);
    LerpMonotone(minimumVelocity, MAX_VELOCITY, i as real / d, j as real / d);
    LerpMonotone(minimumVelocity, MAX_VELOCITY, j as real / d, (iterations - 1) as real / d);
  }

  lemma FractionBounds(i: int, j: int, d: real)
    requires 0 <= i <= j && 0.0 < d
    ensures 0.0 <= i as real / d <= j as real / d
    ensures 0 as real / d == 0.0 && d / d == 1.0
  {
  }

  lemma LerpMonotone(from: real, to: real, p: real, q: real)
    requires from <= to && p <= q
    ensures Lerp(from, to, p) <= Lerp(from, to, q)
    ensures Lerp(from, to, 0.0) == from && Lerp(from, to, 1.0) == to
  {
    assert (to - from) * p <= (to - from) * q;
  }

  /** The angles tried at velocity index `i`: one at the minimum velocity, the high and the low arc after it. */
  function Angles(b: Ballistics, i: int, v: real, t: Vec): (angles: seq<real>)
    ensures |angles| == if i == 0 then 1 else 2
  {
    if i == 0 then [b.flatAngle(v, t)] else [b.arcAngles(v, t).0, b.arcAngles(v, t).1]
  }

  /** The obstruction count of one shot: the distinct tiles its samples fall in. */
  function Cost(gs: GameState, b: Ballistics, position: Vec, v: real, angle: real): nat {
    |Obstructions.ObstructedCells(gs, b.trajectory(position, v, angle))|
  }

  function AngleEvents(gs: GameState, b: Ballistics, position: Vec, offset: int, v: real, angles: seq<real>)
    : (events: seq<Event>)
    ensures |events| == |angles|
  {
    if angles == [] then []
    else [Try(Candidate(Cost(gs, b, position, v, angles[0]), v, angles[0], offset))] +
         AngleEvents(gs, b, position, offset, v, angles[1..])
  }

  /** Event `k` of one velocity's events tries `angles[k]`, costed by its distinct tiles. */
  lemma {:induction false} AngleEventsAt(gs: GameState, b: Ballistics, position: Vec, offset: int, v: real,
                                         angles: seq<real>, k: nat)
    requires k < |angles|
    ensures AngleEvents(gs, b, position, offset, v, angles)[k] ==
            Try(Candidate(Cost(gs, b, position, v, angles[k]), v, angles[k], offset))
    decreases k
  {
    if k > 0 {
      AngleEventsAt(gs, b, position, offset, v, angles[1..], k - 1);
      assert angles[1..][k - 1] == angles[k];
    }
  }

  /** The candidates of velocity indices `i..iterations - 1` at one standing position. */
  function VelocityEvents(gs: GameState, b: Ballistics, target: Vec, position: Vec, offset: int,
                          minimumVelocity: real, iterations: int, i: nat): seq<Event>
    requires 2 <= iterations && i <= iterations
    decreases iterations - i
  {
    if i == iterations then []
    else
      var v := Velocity(minimumVelocity, i, iterations);
      AngleEvents(gs, b, position, offset, v, Angles(b, i, v, Sub(target, position))) +
      VelocityEvents(gs, b, target, position, offset, minimumVelocity, iterations, i + 1)
  }

  /** `new Vector2(start).add(offset, 0)`. */
  function Shifted(start: Vec, offset: int): Vec {
    Vec(start.x + offset as real, start.y)
  }

  /** The events of the offsets in order: `Unreachable` for an out-of-range one, its candidates otherwise. */
  function OffsetEvents(gs: GameState, b: Ballistics, start: Vec, target: Vec, offsets: seq<int>,
                        iterations: int): seq<Event>
    requires 2 <= iterations
  {
    if offsets == [] then []
    else
      var position := Shifted(start, offsets[0]);
      var minimumVelocity := b.minimumVelocity(Sub(target, position));
      (if minimumVelocity > MAX_VELOCITY then [Unreachable]
       else VelocityEvents(gs, b, target, position, offsets[0], minimumVelocity, iterations, 0)) +
      OffsetEvents(gs, b, start, target, offsets[1..], iterations)
  }

  /** `maxIterations`, raised to 2 when it is 1 or less. */
  function Iterations(maxIterations: int): (n: int)
    ensures maxIterations <= 1 ==> n == 2
    ensures maxIterations >= 2 ==> n == maxIterations
  {
    if maxIterations <= 1 then 2 else maxIterations
  }

  function Schedule(gs: GameState, b: Ballistics, character: Character, target: Vec, maxIterations: int)
    : seq<Event>
  {
    OffsetEvents(gs, b, character.pos, target, Offsets.PossibleOffsets(gs, character), Iterations(maxIterations))
  }

  /** `ShootInfo`; the aim direction is kept as its angle, and the strength is the velocity as a fraction of `MAX_VELOCITY`. */
  datatype ShootInfo = ShootInfo(obstructions: int, angle: real, strength: real, moveX: int)

  function ToShootInfo(c: Candidate): ShootInfo {
    ShootInfo(c.obstructions, c.angle, c.velocity / MAX_VELOCITY, c.offset)
  }

  /** The result of `calculateShootInfo`. */
  function ShotPlan(gs: GameState, b: Ballistics, character: Character, target: Vec, maxIterations: int)
    : Option<ShootInfo>
  {
    match Outcome(Schedule(gs, b, character, target, maxIterations), INITIAL)
    case None => None
    case Some(c) => Some(ToShootInfo(c))
  }

  /**
   * `calculateShootInfo` returns null exactly when an out-of-range offset
   * comes before any clear shot; a first clear shot is returned with no
   * obstructions; otherwise the plan is the last candidate with the fewest
   * obstructions over the whole schedule, or the initial record.
   */
  lemma ShotPlanCases(gs: GameState, b: Ballistics, character: Character, target: Vec, maxIterations: int)
    ensures var events := Schedule(gs, b, character, target, maxIterations);
            var h := FirstHalt(events);
            var plan := ShotPlan(gs, b, character, target, maxIterations);
            (plan.None? <==> h < |events| && events[h].Unreachable?) &&
            (h < |events| && events[h].Try? ==>
               plan == Some(ToShootInfo(events[h].candidate)) && plan.value.obstructions == 0) &&
            (h == |events| ==>
               exists c :: plan == Some(ToShootInfo(c)) && IsLastMinimum(Tried(events), INITIAL, c))
  {
    var events := Schedule(gs, b, character, target, maxIterations);
    OutcomeCases(events, INITIAL);
    if FirstHalt(events) == |events| {
      var c := Outcome(events, INITIAL).value;
      assert ShotPlan(gs, b, character, target, maxIterations) == Some(ToShootInfo(c));
    }
  }

  // ---------------------------------------------------------------- the method

  /**
   * The `FIND_IDEAL_ANGLE` loop: evaluate each angle at one velocity and
   * standing position, keeping the best record; `clear` reports the
   * zero-obstruction candidate that breaks out of the whole search.
   */
  method TryAngles(gs: GameState, b: Ballistics, position: Vec, offset: int, v: real, angles: seq<real>,
                   best: Candidate)
    returns (newBest: Candidate, clear: bool)
    ensures Walk(AngleEvents(gs, b, position, offset, v, angles), best) ==
            if clear then Stopped(Some(newBest)) else Running(newBest)
  {
    newBest := best;
    var j := 0;
    assert angles[j..] == angles;
    while j < |angles|
      invariant 0 <= j <= |angles|
      invariant Walk(AngleEvents(gs, b, position, offset, v, angles), best) ==
                Walk(AngleEvents(gs, b, position, offset, v, angles[j..]), newBest)
    {
      var angle := angles[j];
      var obstructions := Obstructions.NumberOfObstructions(gs, b.trajectory(position, v, angle));
      AngleEventsStep(gs, b, position, offset, v, angles, j, newBest);
      if obstructions > newBest.obstructions {
        j := j + 1;
        continue;
      }
      newBest := Candidate(obstructions, v, angle, offset);
      if obstructions == 0 {
        clear := true;
        return;
      }
      j := j + 1;
    }
    clear := false;
  }

  /**
   * The `FIND_IDEAL_VELOCITY` loop at one standing position: velocity index
   * 0 tries the single minimum-velocity angle, every later index the high
   * and the low arc.
   */
  method TryVelocities(gs: GameState, b: Ballistics, target: Vec, position: Vec, offset: int,
                       minimumVelocity: real, iterations: int, best: Candidate)
    returns (newBest: Candidate, clear: bool)
    requires 2 <= iterations
    ensures Walk(VelocityEvents(gs, b, target, position, offset, minimumVelocity, iterations, 0), best) ==
            if clear then Stopped(Some(newBest)) else Running(newBest)
  {
    newBest := best;
    var i := 0;
    while i < iterations
      invariant 0 <= i <= iterations
      invariant Walk(VelocityEvents(gs, b, target, position, offset, minimumVelocity, iterations, 0), best) ==
                Walk(VelocityEvents(gs, b, target, position, offset, minimumVelocity, iterations, i), newBest)
    {
      newBest, clear := TryVelocity(gs, b, target, position, offset, minimumVelocity, iterations, i, newBest);
      if clear {
        return;
      }
      i := i + 1;
    }
    clear := false;
  }

  /** One pass of the `FIND_IDEAL_VELOCITY` loop: the velocity of index `i` and the angles tried at it. */
  method TryVelocity(gs: GameState, b: Ballistics, target: Vec, position: Vec, offset: int,
                     minimumVelocity: real, iterations: int, i: nat, best: Candidate)
    returns (newBest: Candidate, clear: bool)
    requires 2 <= iterations && i < iterations
    ensures Walk(VelocityEvents(gs, b, target, position, offset, minimumVelocity, iterations, i), best) ==
            if clear then Stopped(Some(newBest))
            else Walk(VelocityEvents(gs, b, target, position, offset, minimumVelocity, iterations, i + 1), newBest)
  {
    var t := Sub(target, position);
    var v := Velocity(minimumVelocity, i, iterations);
    var angles: seq<real>;
    if i == 0 {
      angles := [b.flatAngle(v, t)];
    } else {
      var (high, low) := b.arcAngles(v, t);
      angles := [high, low];
    }
    VelocityEventsStep(gs, b, target, position, offset, minimumVelocity, iterations, i, v, angles, best);
    newBest, clear := TryAngles(gs, b, position, offset, v, angles, best);
  }

  /** What a walk yields as `calculateShootInfo`'s result: its stopping result, or its best record. */
  function PlanOf(p: Progress): Option<ShootInfo> {
    match p
    case Stopped(r) => if r.None? then None else Some(ToShootInfo(r.value))
    case Running(c) => Some(ToShootInfo(c))
  }

  /**
   * `calculateShootInfo`: try every standing offset in order; an offset
   * whose minimum velocity exceeds `MAX_VELOCITY` ends the search with no
   * plan, a clear shot ends it with that shot.
   */
  method CalculateShootInfo(gs: GameState, b: Ballistics, character: Character, target: Vec, maxIterations: int)
    returns (info: Option<ShootInfo>)
    ensures info == ShotPlan(gs, b, character, target, maxIterations)
  {
    var offsets := Offsets.PossiblePositionOffsets(gs, character);
    info := SearchOffsets(gs, b, character.pos, target, offsets, maxIterations);
  }

  /** The offset loop of `calculateShootInfo` over the standing offsets `offsets` from `start`. */
  method SearchOffsets(gs: GameState, b: Ballistics, start: Vec, target: Vec, offsets: seq<int>, maxIterations: int)
    returns (info: Option<ShootInfo>)
    ensures info == PlanOf(Walk(OffsetEvents(gs, b, start, target, offsets, Iterations(maxIterations)), INITIAL))
  {
    var best := INITIAL;
    var iterations := maxIterations;
    ghost var n := Iterations(maxIterations);
    ghost var goal := Walk(OffsetEvents(gs, b, start, target, offsets, n), INITIAL);
    var k := 0;
    assert offsets[k..] == offsets;
    while k < |offsets|
      invariant 0 <= k <= |offsets|
      invariant k == 0 ==> iterations == maxIterations
      invariant k > 0 ==> iterations == n
      invariant goal == Walk(OffsetEvents(gs, b, start, target, offsets[k..], n), best)
    {
      var offset := offsets[k];
      var position := Shifted(start, offset);
      var minimumVelocity := b.minimumVelocity(Sub(target, position));
      OffsetEventsStep(gs, b, start, target, offsets, k, n, best);
      if minimumVelocity > MAX_VELOCITY {
        info := None;
        return;
      }
      if iterations <= 1 {
        iterations := 2;
      }
      var clear;
      best, clear := TryVelocities(gs, b, target, position, offset, minimumVelocity, iterations, best);
      if clear {
        info := Some(ToShootInfo(best));
        return;
      }
      k := k + 1;
    }
    info := Some(ToShootInfo(best));
  }

  lemma OffsetEventsStep(gs: GameState, b: Ballistics, start: Vec, target: Vec, offsets: seq<int>, k: nat,
                         iterations: int, best: Candidate)
    requires 2 <= iterations && k < |offsets|
    ensures var position := Shifted(start, offsets[k]);
            var minimumVelocity := b.minimumVelocity(Sub(target, position));
            var rest := OffsetEvents(gs, b, start, target, offsets[k + 1..], iterations);
            Walk(OffsetEvents(gs, b, start, target, offsets[k..], iterations), best) ==
            if minimumVelocity > MAX_VELOCITY then Stopped(None)
            else Resume(Walk(VelocityEvents(gs, b, target, position, offsets[k], minimumVelocity, iterations, 0), best),
                        rest)
  {
    assert offsets[k..][1..] == offsets[k + 1..];
    var position := Shifted(start, offsets[k]);
    var minimumVelocity := b.minimumVelocity(Sub(target, position));
    var rest := OffsetEvents(gs, b, start, target, offsets[k + 1..], iterations);
    if minimumVelocity > MAX_VELOCITY {
      WalkAppend([Unreachable], rest, best);
    } else {
      WalkAppend(VelocityEvents(gs, b, target, position, offsets[k], minimumVelocity, iterations, 0), rest, best);
    }
  }

  lemma VelocityEventsStep(gs: GameState, b: Ballistics, target: Vec, position: Vec, offset: int,
                           minimumVelocity: real, iterations: int, i: nat, v: real, angles: seq<real>,
                           best: Candidate)
    requires 2 <= iterations && i < iterations
    requires v == Velocity(minimumVelocity, i, iterations)
    requires angles == Angles(b, i, v, Sub(target, position))
    ensures Walk(VelocityEvents(gs, b, target, position, offset, minimumVelocity, iterations, i), best) ==
            Resume(Walk(AngleEvents(gs, b, position, offset, v, angles), best),
                   VelocityEvents(gs, b, target, position, offset, minimumVelocity, iterations, i + 1))
  {
    WalkAppend(AngleEvents(gs, b, position, offset, v, angles),
               VelocityEvents(gs, b, target, position, offset, minimumVelocity, iterations, i + 1), best);
  }

  lemma AngleEventsStep(gs: GameState, b: Ballistics, position: Vec, offset: int, v: real, angles: seq<real>,
                        j: nat, best: Candidate)
    requires j < |angles|
    ensures var c := Candidate(Cost(gs, b, position, v, angles[j]), v, angles[j], offset);
            Walk(AngleEvents(gs, b, position, offset, v, angles[j..]), best) ==
            if c.obstructions > best.obstructions
            then Walk(AngleEvents(gs, b, position, offset, v, angles[j + 1..]), best)
            else if c.obstructions == 0 then Stopped(Some(c))
            else Walk(AngleEvents(gs, b, position, offset, v, angles[j + 1..]), c)
  {
    assert angles[j..][1..] == angles[j + 1..];
  }
}
