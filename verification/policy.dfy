/**
 The per-tick movement policy of the adaptive bot: a one-step validity check
 and the priority-ordered choice among zigzag, primary and fallback moves.

 The bot's only persistent memory is its primary direction (fixed at East)
 and a boolean zigzag phase; a decision returns the move together with the
 memory to use on the next tick.
 */
module Policy {
  import opened Options
  import opened Geometry

  /** What the policy remembers between ticks. */
  datatype Memory = Memory(primary: Direction, phase: bool)

  /** The memory a freshly constructed bot starts with: heading East, phase false. */
  const InitialMemory: Memory := Memory(East, false)

  /** A decision: the move to send and the memory for the next tick. */
  datatype Decision = Decision(dir: Direction, next: Memory)

  /** A move is valid when its destination lies on the grid and is empty. */
  predicate IsValidMove(g: Grid, p: Pos, d: Direction)
  {
    var q := Step(p, d);
    InsideGrid(g, q) && CellAt(g, q) == Empty
  }

  /**
   On a `width` by `height` grid, a move is valid exactly when the cell one
   step away has coordinates inside the board and holds 0.
   */
  lemma ValidMoveIff(g: Grid, width: int, height: int, p: Pos, d: Direction)
    requires Rectangular(g, width, height)
    ensures IsValidMove(g, p, d)
            <==> var q := Step(p, d);
                 0 <= q.x < width && 0 <= q.y < height && g[q.y][q.x] == 0
  {
    InsideGridBounds(g, width, height, Step(p, d));
  }

  /** Some move at all is open from `p`. */
  ghost predicate AnyValid(g: Grid, p: Pos)
  {
    exists d: Direction :: IsValidMove(g, p, d)
  }

  /** The zigzag step tried first: North in phase true, South in phase false. */
  function Zigzag(phase: bool): (d: Direction)
    ensures d == North || d == South
    ensures d == North <==> phase
  {
    if phase then North else South
  }

  /** A fresh bot heads East and its first zigzag attempt is South. */
  lemma InitialZigzagIsSouth()
    ensures InitialMemory.primary == East
    ensures Zigzag(InitialMemory.phase) == South
    ensures Zigzag(!InitialMemory.phase) == North
  {
  }

  /** The fixed order tried when both the zigzag and the primary moves are blocked. */
  const FallbackOrder: seq<Direction> := [West, North, South, East]

  /** `d` is the earliest entry of `ds` that is a valid move. */
  ghost predicate EarliestValid(g: Grid, p: Pos, ds: seq<Direction>, d: Direction)
  {
    exists i :: 0 <= i < |ds| && ds[i] == d && IsValidMove(g, p, ds[i])
                && forall j :: 0 <= j < i ==> !IsValidMove(g, p, ds[j])
  }

  /** The index of the first valid move of `ds`, if there is one. */
  function FirstValid(g: Grid, p: Pos, ds: seq<Direction>): (r: Option<nat>)
    ensures r.Some? ==> r.value < |ds| && IsValidMove(g, p, ds[r.value])
    ensures r.Some? ==> forall j :: 0 <= j < r.value ==> !IsValidMove(g, p, ds[j])
    ensures r.None? ==> forall j :: 0 <= j < |ds| ==> !IsValidMove(g, p, ds[j])
    decreases |ds|
  {
    if |ds| == 0 then None
    else if IsValidMove(g, p, ds[0]) then Some(0)
    else
      var rest := ds[1..];
      assert forall j :: 0 <= j < |rest| ==> rest[j] == ds[j + 1];
      match FirstValid(g, p, rest)
      case None => None
      case Some(i) => Some(i + 1)
  }

  /** The fallback list names every direction. */
  lemma FallbackCoversAll(d: Direction)
    ensures d in FallbackOrder
  {
  }

  /**
   One tick of the policy. Each ensures describes one branch of the priority
   order: zigzag step, primary step (flipping the phase), the earliest open
   fallback, and the doomed primary step when nothing is open.
   */
  function Decide(g: Grid, p: Pos, m: Memory): (r: Decision)
    ensures r.next.primary == m.primary
    ensures IsValidMove(g, p, Zigzag(m.phase))
            ==> r.dir == Zigzag(m.phase) && r.next == m
    ensures !IsValidMove(g, p, Zigzag(m.phase)) && IsValidMove(g, p, m.primary)
            ==> r.dir == m.primary && r.next.phase == !m.phase
    ensures !IsValidMove(g, p, Zigzag(m.phase)) && !IsValidMove(g, p, m.primary) && AnyValid(g, p)
            ==> EarliestValid(g, p, FallbackOrder, r.dir) && r.next == m
    ensures !AnyValid(g, p) ==> r.dir == m.primary && r.next == m
  {
    var zig := Zigzag(m.phase);
    if IsValidMove(g, p, zig) then
      Decision(zig, m)
    else if IsValidMove(g, p, m.primary) then
      Decision(m.primary, m.(phase := !m.phase))
    else
      match FirstValid(g, p, FallbackOrder)
      case Some(i) => Decision(FallbackOrder[i], m)
      case None =>
        assert forall d: Direction :: !IsValidMove(g, p, d) by {
          forall d: Direction ensures !IsValidMove(g, p, d) {
            FallbackCoversAll(d);
          }
        }
        Decision(m.primary, m)
  }

  /** Soundness: whenever some move is open, the chosen move is open. */
  lemma DecideSound(g: Grid, p: Pos, m: Memory)
    requires AnyValid(g, p)
    ensures IsValidMove(g, p, Decide(g, p, m).dir)
  {
  }

  /** The phase changes exactly when the zigzag step is blocked and the primary step is open. */
  lemma PhaseFlipsOnlyOnPrimary(g: Grid, p: Pos, m: Memory)
    ensures Decide(g, p, m).next.phase != m.phase
            <==> !IsValidMove(g, p, Zigzag(m.phase)) && IsValidMove(g, p, m.primary)
    ensures Decide(g, p, m).next.phase != m.phase ==> Decide(g, p, m).dir == m.primary
  {
  }

  /** After a forced primary step, the next tick tries the other zigzag direction first. */
  lemma FlipAlternatesZigzag(g: Grid, p: Pos, m: Memory)
    requires !IsValidMove(g, p, Zigzag(m.phase)) && IsValidMove(g, p, m.primary)
    ensures Zigzag(Decide(g, p, m).next.phase) == Opposite(Zigzag(m.phase))
  {
  }

  /** The full preference order: zigzag, primary, then the fallback list. */
  function Preference(m: Memory): (ds: seq<Direction>)
    ensures |ds| > 2 && forall d: Direction :: d in ds[2..]
  {
    var ds := [Zigzag(m.phase), m.primary] + FallbackOrder;
    assert ds[2..] == FallbackOrder;
    assert forall d: Direction :: d in FallbackOrder by {
      forall d: Direction ensures d in FallbackOrder {
        FallbackCoversAll(d);
      }
    }
    ds
  }

  /**
   Reference formulation: the chosen move is the first open entry of the
   preference order, or the primary direction when none is open.
   */
  lemma DecideFollowsPreference(g: Grid, p: Pos, m: Memory)
    ensures FirstValid(g, p, Preference(m)).Some?
            ==> Decide(g, p, m).dir == Preference(m)[FirstValid(g, p, Preference(m)).value]
    ensures FirstValid(g, p, Preference(m)).None?
            ==> Decide(g, p, m).dir == m.primary && !AnyValid(g, p)
  {
    var pref := Preference(m);
    assert pref[2..] == FallbackOrder;
    var r := FirstValid(g, p, pref);
    if r.None? {
      assert forall d: Direction :: !IsValidMove(g, p, d) by {
        forall d: Direction ensures !IsValidMove(g, p, d) {
          FallbackCoversAll(d);
          var k :| 0 <= k < |FallbackOrder| && FallbackOrder[k] == d;
          assert pref[k + 2] == d;
        }
      }
    } else if r.value >= 2 {
      assert IsValidMove(g, p, FallbackOrder[r.value - 2]);
      assert FirstValid(g, p, FallbackOrder).Some?;
    }
  }

  /**
   The decision as `AdaptiveBot::decideMove` writes it: statements, early
   returns and a loop over the fallback list. It agrees with `Decide`.
   */
  method DecideMove(g: Grid, p: Pos, m: Memory) returns (dir: Direction, next: Memory)
    ensures Decision(dir, next) == Decide(g, p, m)
  {
    var potential := if m.phase then North else South;
    if IsValidMove(g, p, potential) {
      return potential, m;
    }
    if IsValidMove(g, p, m.primary) {
      return m.primary, m.(phase := !m.phase);
    }
    var fallback := [West, North, South, East];
    var i := 0;
    while i < |fallback|
      invariant 0 <= i <= |fallback|
      invariant forall j :: 0 <= j < i ==> !IsValidMove(g, p, fallback[j])
    {
      if IsValidMove(g, p, fallback[i]) {
        return fallback[i], m;
      }
      i := i + 1;
    }
    return m.primary, m;
  }
}
