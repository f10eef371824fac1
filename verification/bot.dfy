/**
 One tick of the adaptive bot: read the snapshot to find the bot's own
 record, then decide the move from that record's position. The network
 session that delivers snapshots and carries moves away is not modelled;
 a run is a finite sequence of snapshots.
 */
module Bot {
  import opened Geometry
  import opened Policy
  import opened Roster

  /** One tick's complete game state as delivered to the bot. */
  datatype Snapshot = Snapshot(grid: Grid, players: seq<Player>)

  /** Everything the bot keeps from tick to tick. */
  datatype BotState = BotState(name: string, me: Player, memory: Memory)

  /** A freshly constructed bot called `name`, whose record starts as `me`. */
  function NewBot(name: string, me: Player): (b: BotState)
    ensures b.name == name && b.me == me
    ensures b.memory.primary == East && Zigzag(b.memory.phase) == South
  {
    BotState(name, me, InitialMemory)
  }

  datatype TickResult = TickResult(bot: BotState, move: Direction)

  /** Lookup, then decide. */
  function Tick(b: BotState, s: Snapshot): (r: TickResult)
    ensures r.bot.name == b.name
    ensures r.bot.me == LookupSelf(b.me, s.players, b.name)
    ensures r.bot.memory.primary == b.memory.primary
    ensures AnyValid(s.grid, r.bot.me.position) ==> IsValidMove(s.grid, r.bot.me.position, r.move)
    ensures !AnyValid(s.grid, r.bot.me.position) ==> r.move == b.memory.primary && r.bot.memory == b.memory
    ensures Decision(r.move, r.bot.memory) == Decide(s.grid, r.bot.me.position, b.memory)
  {
    var me := LookupSelf(b.me, s.players, b.name);
    var d := Decide(s.grid, me.position, b.memory);
    assert AnyValid(s.grid, me.position) ==> IsValidMove(s.grid, me.position, d.dir) by {
      if AnyValid(s.grid, me.position) {
        DecideSound(s.grid, me.position, b.memory);
      }
    }
    TickResult(BotState(b.name, me, d.next), d.dir)
  }

  /** The moves sent over a run of snapshots, and the bot afterwards. */
  function Run(b: BotState, snapshots: seq<Snapshot>): (r: (BotState, seq<Direction>))
    ensures |r.1| == |snapshots|
    ensures r.0.name == b.name && r.0.memory.primary == b.memory.primary
    ensures |snapshots| > 0 ==> r.1[0] == Tick(b, snapshots[0]).move
    ensures |snapshots| == 0 ==> r.0 == b
    decreases |snapshots|
  {
    if |snapshots| == 0 then (b, [])
    else
      var t := Tick(b, snapshots[0]);
      var rest := Run(t.bot, snapshots[1..]);
      (rest.0, [t.move] + rest.1)
  }

  /**
   The `k`-th move of a run is the move a tick makes from the bot left by the
   first `k` snapshots: each pass of the session loop decides with the memory
   the previous pass left behind.
   */
  lemma {:induction false} RunMoveAt(b: BotState, snapshots: seq<Snapshot>, k: nat)
    requires k < |snapshots|
    ensures Run(b, snapshots).1[k] == Tick(Run(b, snapshots[..k]).0, snapshots[k]).move
    decreases k
  {
    if k == 0 {
      assert snapshots[..0] == [];
    } else {
      var t := Tick(b, snapshots[0]);
      var rest := snapshots[1..];
      RunMoveAt(t.bot, rest, k - 1);
      assert rest[..k - 1] == snapshots[..k][1..];
      assert snapshots[..k][0] == snapshots[0];
      assert rest[k - 1] == snapshots[k];
    }
  }

  /** The bot after the first snapshot is one tick's bot. */
  lemma RunFirstState(b: BotState, snapshots: seq<Snapshot>)
    requires |snapshots| > 0
    ensures Run(b, snapshots[..0]).0 == b
    ensures Run(b, snapshots[..1]).0 == Tick(b, snapshots[0]).bot
  {
    assert snapshots[..0] == [];
    assert snapshots[..1][1..] == [];
  }

  /**
   The bot after `k + 1` snapshots is the bot one tick makes on the `k`-th
   snapshot from the bot left by the first `k`: the record and the phase are
   carried from each pass of the session loop to the next.
   */
  lemma {:induction false} RunStateAt(b: BotState, snapshots: seq<Snapshot>, k: nat)
    requires k < |snapshots|
    ensures Run(b, snapshots[..k + 1]).0 == Tick(Run(b, snapshots[..k]).0, snapshots[k]).bot
    decreases k
  {
    var pre := snapshots[..k];
    var pre1 := snapshots[..k + 1];
    if k == 0 {
      RunFirstState(b, snapshots);
    } else {
      var tb := Tick(b, snapshots[0]).bot;
      var rest := snapshots[1..];
      RunStateAt(tb, rest, k - 1);
      assert rest[..k] == pre1[1..];
      assert rest[..k - 1] == pre[1..];
      assert rest[k - 1] == snapshots[k];
      calc {
        Run(b, pre1).0;
        Run(tb, pre1[1..]).0;
        Run(tb, rest[..k]).0;
        Tick(Run(tb, rest[..k - 1]).0, rest[k - 1]).bot;
        Tick(Run(tb, pre[1..]).0, snapshots[k]).bot;
        Tick(Run(b, pre).0, snapshots[k]).bot;
      }
    }
  }

  /** A fresh bot heads East for the whole session. */
  lemma NewBotHeadsEast(name: string, me: Player, snapshots: seq<Snapshot>)
    ensures Run(NewBot(name, me), snapshots).0.memory.primary == East
  {
  }

  /**
   A concrete opening on an empty 5 by 5 board from (2, 2): the first move
   is South (phase false), and the phase is untouched.
   */
  lemma OpeningMoveIsSouth(name: string)
    ensures var s := Snapshot(EmptyGrid(5, 5), [Player(name, Pos(2, 2))]);
            Tick(NewBot(name, Player(name, Pos(0, 0))), s)
            == TickResult(BotState(name, Player(name, Pos(2, 2)), InitialMemory), South)
  {
    var g := EmptyGrid(5, 5);
    assert IsValidMove(g, Pos(2, 2), South);
  }

  /**
   At the bottom edge the zigzag step South leaves the board, so the bot
   steps East and flips its phase; the next tick then tries North first.
   */
  lemma BottomEdgeScenario(name: string)
    ensures var g := Mark(EmptyGrid(5, 5), Pos(2, 3), 1);
            var b := BotState(name, Player(name, Pos(2, 4)), InitialMemory);
            var s1 := Snapshot(g, [Player(name, Pos(2, 4))]);
            var t1 := Tick(b, s1);
            var s2 := Snapshot(Mark(g, Pos(2, 4), 1), [Player(name, Pos(3, 4))]);
            var t2 := Tick(t1.bot, s2);
            t1.move == East && t1.bot.memory.phase
            && t2.move == North && t2.bot.memory.phase
  {
    var g := Mark(EmptyGrid(5, 5), Pos(2, 3), 1);
    assert !IsValidMove(g, Pos(2, 4), South);
    assert IsValidMove(g, Pos(2, 4), East);
    var g2 := Mark(g, Pos(2, 4), 1);
    assert IsValidMove(g2, Pos(3, 4), North);
  }

  /** A player that has vanished from the roster keeps deciding from its last known position. */
  lemma MissingSelfUsesStalePosition(b: BotState, s: Snapshot)
    requires !Listed(s.players, b.name)
    ensures Tick(b, s).bot.me == b.me
    ensures Tick(b, s) == TickResult(BotState(b.name, b.me, Decide(s.grid, b.me.position, b.memory).next),
                                     Decide(s.grid, b.me.position, b.memory).dir)
  {
  }
}
