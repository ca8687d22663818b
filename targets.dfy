/**
 * Target enumeration (`findEnemies`, `findHealthBoxes`) and the ordering of
 * targets by distance from the shooter (`Vector2DistanceComparator`).
 */
module Targets {
  import opened Wrappers
  import opened World

  /** Character `index` of team `team`, as `getCharacterFromTeams(team, index)` addresses it. */
  datatype CharRef = CharRef(team: nat, index: nat)

  /** Team-major, then index order: the order of the nested scan in `findEnemies`. */
  predicate RefBefore(a: CharRef, b: CharRef) {
    a.team < b.team || (a.team == b.team && a.index < b.index)
  }

  predicate RefsOrdered(refs: seq<CharRef>) {
    forall i, j :: 0 <= i < j < |refs| ==> RefBefore(refs[i], refs[j])
  }

  /** A living character on a team other than the shooter's. */
  predicate IsLiveEnemy(gs: GameState, shooterTeam: int, r: CharRef) {
    r.team < |gs.teams| && r.team != shooterTeam &&
    r.index < |gs.teams[r.team]| && gs.teams[r.team][r.index].alive
  }

  /** The character a reference names is alive (false for a reference outside the teams). */
  predicate IsAlive(gs: GameState, r: CharRef) {
    r.team < |gs.teams| && r.index < |gs.teams[r.team]| && gs.teams[r.team][r.index].alive
  }

  /** The position of the character a reference names. Only references inside the teams are ever
      looked up (every scanned reference is); the origin returned for any other is never used. */
  function PositionOf(gs: GameState, r: CharRef): Vec {
    if r.team < |gs.teams| && r.index < |gs.teams[r.team]| then gs.teams[r.team][r.index].pos else Vec(0.0, 0.0)
  }

  /** The living characters among the first `n` of team `team`, in index order. */
  function AliveInTeam(gs: GameState, team: nat, n: nat): seq<CharRef> {
    if n == 0 then []
    else AliveInTeam(gs, team, n - 1) + (if IsAlive(gs, CharRef(team, n - 1)) then [CharRef(team, n - 1)] else [])
  }

  /** The living enemies on the first `n` teams, in team-major then index order. */
  function EnemyRefs(gs: GameState, shooterTeam: int, n: nat): seq<CharRef> {
    if n == 0 then []
    else EnemyRefs(gs, shooterTeam, n - 1) +
         (if n - 1 == shooterTeam then [] else AliveInTeam(gs, n - 1, gs.charactersPerTeam))
  }

  function PositionsOf(gs: GameState, refs: seq<CharRef>): seq<Vec> {
    if refs == [] then [] else [PositionOf(gs, refs[0])] + PositionsOf(gs, refs[1..])
  }

  lemma {:induction false} PositionsOfAt(gs: GameState, refs: seq<CharRef>)
    ensures |PositionsOf(gs, refs)| == |refs|
    ensures forall i :: 0 <= i < |refs| ==> PositionsOf(gs, refs)[i] == PositionOf(gs, refs[i])
  {
    if refs != [] {
      PositionsOfAt(gs, refs[1..]);
    }
  }

  lemma {:induction false} AliveInTeamMember(gs: GameState, team: nat, n: nat, r: CharRef)
    ensures r in AliveInTeam(gs, team, n) <==> r.team == team && r.index < n && IsAlive(gs, r)
  {
    if n > 0 {
      AliveInTeamMember(gs, team, n - 1, r);
    }
  }

  /** Every reference in `refs` names a character of team `t` with index below `n`. */
  predicate AllOfTeam(refs: seq<CharRef>, t: nat, n: nat) {
    forall i :: 0 <= i < |refs| ==> refs[i].team == t && refs[i].index < n
  }

  /** Every reference in `refs` names a character of a team below `t`. */
  predicate TeamsBelow(refs: seq<CharRef>, t: nat) {
    forall i :: 0 <= i < |refs| ==> refs[i].team < t
  }

  lemma {:induction false} AliveInTeamOrdered(gs: GameState, team: nat, n: nat)
    ensures RefsOrdered(AliveInTeam(gs, team, n)) && AllOfTeam(AliveInTeam(gs, team, n), team, n)
  {
    if n > 0 {
      AliveInTeamOrdered(gs, team, n - 1);
      var prefix := AliveInTeam(gs, team, n - 1);
      if IsAlive(gs, CharRef(team, n - 1)) {
        var refs := prefix + [CharRef(team, n - 1)];
        assert AliveInTeam(gs, team, n) == refs;
        forall i, j | 0 <= i < j < |refs| ensures RefBefore(refs[i], refs[j]) {
          if j == |prefix| {
            assert refs[i] == prefix[i];
          }
        }
      } else {
        assert AliveInTeam(gs, team, n) == prefix;
      }
    }
  }

  /**
   * The enemy scan yields exactly the living characters of the other teams
   * among the first `n` teams, each once, in team-major then index order.
   */
  lemma EnemyRefsExact(gs: GameState, shooterTeam: int, n: nat)
    requires gs.Valid() && n <= |gs.teams|
    ensures RefsOrdered(EnemyRefs(gs, shooterTeam, n))
    ensures forall r :: r in EnemyRefs(gs, shooterTeam, n) <==> IsLiveEnemy(gs, shooterTeam, r) && r.team < n
  {
    forall r ensures r in EnemyRefs(gs, shooterTeam, n) <==> IsLiveEnemy(gs, shooterTeam, r) && r.team < n {
      EnemyRefMember(gs, shooterTeam, n, r);
    }
    EnemyRefsOrdered(gs, shooterTeam, n);
  }

  lemma {:induction false} EnemyRefMember(gs: GameState, shooterTeam: int, n: nat, r: CharRef)
    requires gs.Valid() && n <= |gs.teams|
    ensures r in EnemyRefs(gs, shooterTeam, n) <==> IsLiveEnemy(gs, shooterTeam, r) && r.team < n
  {
    if n > 0 {
      var m: nat := n - 1;
      EnemyRefMember(gs, shooterTeam, m, r);
      var row := if m == shooterTeam then [] else AliveInTeam(gs, m, gs.charactersPerTeam);
      EnemyRefsStep(gs, shooterTeam, m);
      InConcat(r, EnemyRefs(gs, shooterTeam, m), row);
      if m != shooterTeam {
        AliveInTeamMember(gs, m, gs.charactersPerTeam, r);
        assert |gs.teams[m]| == gs.charactersPerTeam;
      }
    }
  }

  /** Scanning team `n` appends its living characters, unless it is the shooter's team. */
  lemma EnemyRefsStep(gs: GameState, shooterTeam: int, n: nat)
    ensures EnemyRefs(gs, shooterTeam, n + 1) ==
            EnemyRefs(gs, shooterTeam, n) + (if n == shooterTeam then [] else AliveInTeam(gs, n, gs.charactersPerTeam))
  {
  }

  lemma InConcat<T>(x: T, a: seq<T>, b: seq<T>)
    ensures x in a + b <==> x in a || x in b
  {
  }

  lemma {:induction false} EnemyRefsOrdered(gs: GameState, shooterTeam: int, n: nat)
    ensures RefsOrdered(EnemyRefs(gs, shooterTeam, n)) && TeamsBelow(EnemyRefs(gs, shooterTeam, n), n)
  {
    if n > 0 {
      EnemyRefsOrdered(gs, shooterTeam, n - 1);
      var prefix := EnemyRefs(gs, shooterTeam, n - 1);
      if n - 1 != shooterTeam {
        var row := AliveInTeam(gs, n - 1, gs.charactersPerTeam);
        AliveInTeamOrdered(gs, n - 1, gs.charactersPerTeam);
        RefsOrderedConcat(prefix, row, n - 1, gs.charactersPerTeam);
        assert EnemyRefs(gs, shooterTeam, n) == prefix + row;
      } else {
        assert EnemyRefs(gs, shooterTeam, n) == prefix;
      }
    }
  }

  /** Appending references of team `t` to ordered references of earlier teams keeps them ordered. */
  lemma RefsOrderedConcat(a: seq<CharRef>, b: seq<CharRef>, t: nat, n: nat)
    requires RefsOrdered(a) && TeamsBelow(a, t)
    requires RefsOrdered(b) && AllOfTeam(b, t, n)
    ensures RefsOrdered(a + b) && TeamsBelow(a + b, t + 1)
  {
    var ab := a + b;
    forall i, j | 0 <= i < j < |ab| ensures RefBefore(ab[i], ab[j]) {
      if j < |a| {
        assert ab[i] == a[i] && ab[j] == a[j];
      } else if i >= |a| {
        assert ab[i] == b[i - |a|] && ab[j] == b[j - |a|];
      } else {
        assert ab[i] == a[i] && ab[j] == b[j - |a|];
      }
    }
    forall i | 0 <= i < |ab| ensures ab[i].team < t + 1 {
      if i < |a| {
        assert ab[i] == a[i];
      } else {
        assert ab[i] == b[i - |a|];
      }
    }
  }

  /** The positions of the living characters among the first `n` of team `team`, in index order. */
  function LivingIn(gs: GameState, team: nat, n: nat): seq<Vec> {
    PositionsOf(gs, AliveInTeam(gs, team, n))
  }

  /** The positions of the living enemies on the first `n` teams, in scan order. */
  function EnemiesIn(gs: GameState, shooterTeam: int, n: nat): seq<Vec> {
    PositionsOf(gs, EnemyRefs(gs, shooterTeam, n))
  }

  /** The positions `findEnemies` returns. */
  function EnemyPositions(gs: GameState, shooterTeam: int): seq<Vec> {
    EnemiesIn(gs, shooterTeam, |gs.teams|)
  }

  /** `findEnemies`: scan every team but the shooter's and collect the positions of living characters. */
  method FindEnemies(gs: GameState, character: Character) returns (enemies: seq<Vec>)
    requires gs.Valid()
    ensures enemies == EnemyPositions(gs, character.team)
  {
    enemies := [];
    var team := 0;
    while team < |gs.teams|
      invariant 0 <= team <= |gs.teams|
      invariant enemies == EnemiesIn(gs, character.team, team)
    {
      enemies := ScanTeam(gs, character.team, team, enemies);
      team := team + 1;
    }
  }

  /** One pass of the outer loop of `findEnemies`: the shooter's team is skipped, any other team's living characters are appended. */
  method ScanTeam(gs: GameState, shooterTeam: int, team: nat, enemies: seq<Vec>) returns (result: seq<Vec>)
    requires gs.Valid() && team < |gs.teams|
    requires enemies == EnemiesIn(gs, shooterTeam, team)
    ensures result == EnemiesIn(gs, shooterTeam, team + 1)
  {
    EnemiesStep(gs, shooterTeam, team);
    if team == shooterTeam {
      return enemies;
    }
    var living := LivingPositions(gs, team);
    result := enemies + living;
  }

  /** The inner loop of `findEnemies`: the positions of the living characters of one team, in index order. */
  method LivingPositions(gs: GameState, team: nat) returns (living: seq<Vec>)
    requires gs.Valid() && team < |gs.teams|
    ensures living == LivingIn(gs, team, gs.charactersPerTeam)
  {
    living := [];
    var c := 0;
    assert |gs.teams[team]| == gs.charactersPerTeam;
    while c < gs.charactersPerTeam
      invariant 0 <= c <= gs.charactersPerTeam
      invariant living == LivingIn(gs, team, c)
    {
      LivingStep(gs, team, c);
      var enemy := gs.teams[team][c];
      if !enemy.alive {
        c := c + 1;
        continue;
      }
      living := living + [enemy.pos];
      c := c + 1;
    }
  }

  /** Scanning character `c` of a team appends its position exactly when it is alive. */
  lemma LivingStep(gs: GameState, team: nat, c: nat)
    requires team < |gs.teams| && c < |gs.teams[team]|
    ensures LivingIn(gs, team, c + 1) ==
            LivingIn(gs, team, c) + (if gs.teams[team][c].alive then [gs.teams[team][c].pos] else [])
  {
    var r := CharRef(team, c);
    if IsAlive(gs, r) {
      assert AliveInTeam(gs, team, c + 1) == AliveInTeam(gs, team, c) + [r];
      PositionsAppend(gs, AliveInTeam(gs, team, c), r);
    } else {
      assert AliveInTeam(gs, team, c + 1) == AliveInTeam(gs, team, c);
    }
  }

  /** Scanning team `n` appends its living characters' positions, unless it is the shooter's team. */
  lemma EnemiesStep(gs: GameState, shooterTeam: int, n: nat)
    ensures EnemiesIn(gs, shooterTeam, n + 1) ==
            EnemiesIn(gs, shooterTeam, n) +
            (if n == shooterTeam then [] else LivingIn(gs, n, gs.charactersPerTeam))
  {
    var prefix := EnemyRefs(gs, shooterTeam, n);
    if n == shooterTeam {
      assert EnemyRefs(gs, shooterTeam, n + 1) == prefix;
    } else {
      var row := AliveInTeam(gs, n, gs.charactersPerTeam);
      assert EnemyRefs(gs, shooterTeam, n + 1) == prefix + row;
      PositionsConcat(gs, prefix, row);
    }
  }

  lemma {:induction false} PositionsConcat(gs: GameState, a: seq<CharRef>, b: seq<CharRef>)
    ensures PositionsOf(gs, a + b) == PositionsOf(gs, a) + PositionsOf(gs, b)
  {
    if a != [] {
      assert (a + b)[1..] == a[1..] + b;
      PositionsConcat(gs, a[1..], b);
    } else {
      assert a + b == b;
    }
  }

  lemma {:induction false} PositionsAppend(gs: GameState, refs: seq<CharRef>, r: CharRef)
    ensures PositionsOf(gs, refs + [r]) == PositionsOf(gs, refs) + [PositionOf(gs, r)]
  {
    if refs != [] {
      assert (refs + [r])[1..] == refs[1..] + [r];
      PositionsAppend(gs, refs[1..], r);
    }
  }

  /** Every returned enemy position is that of a live enemy, and each live enemy is listed exactly once, in scan order. */
  lemma EnemyPositionsExact(gs: GameState, shooterTeam: int)
    requires gs.Valid()
    ensures var refs := EnemyRefs(gs, shooterTeam, |gs.teams|);
            RefsOrdered(refs) &&
            (forall r :: r in refs <==> IsLiveEnemy(gs, shooterTeam, r)) &&
            |EnemyPositions(gs, shooterTeam)| == |refs| &&
            forall i :: 0 <= i < |refs| ==>
              IsLiveEnemy(gs, shooterTeam, refs[i]) &&
              EnemyPositions(gs, shooterTeam)[i] == PositionOf(gs, refs[i])
  {
    var refs := EnemyRefs(gs, shooterTeam, |gs.teams|);
    EnemyRefsExact(gs, shooterTeam, |gs.teams|);
    PositionsOfAt(gs, refs);
    forall i | 0 <= i < |refs|
      ensures IsLiveEnemy(gs, shooterTeam, refs[i])
    {
      assert refs[i] in refs;
    }
  }

  /** A position is returned exactly when it is that of a live enemy. */
  lemma EnemyPositionsMembers(gs: GameState, shooterTeam: int)
    requires gs.Valid()
    ensures forall p :: p in EnemyPositions(gs, shooterTeam) <==>
                        exists r :: IsLiveEnemy(gs, shooterTeam, r) && p == PositionOf(gs, r)
  {
    EnemyPositionsExact(gs, shooterTeam);
    var refs := EnemyRefs(gs, shooterTeam, |gs.teams|);
    var ps := EnemyPositions(gs, shooterTeam);
    forall p | p in ps ensures exists r :: IsLiveEnemy(gs, shooterTeam, r) && p == PositionOf(gs, r) {
      var i :| 0 <= i < |ps| && ps[i] == p;
      assert IsLiveEnemy(gs, shooterTeam, refs[i]);
    }
    forall r | IsLiveEnemy(gs, shooterTeam, r) ensures PositionOf(gs, r) in ps {
      assert r in refs;
      var i :| 0 <= i < |refs| && refs[i] == r;
      assert ps[i] == PositionOf(gs, r);
    }
  }

  // ---------------------------------------------------------------- health boxes

  /** x-major then y order: the order of the nested scan in `findHealthBoxes`. */
  predicate CellBefore(a: Cell, b: Cell) {
    a.x < b.x || (a.x == b.x && a.y < b.y)
  }

  predicate CellsOrdered(cs: seq<Cell>) {
    forall i, j :: 0 <= i < j < |cs| ==> CellBefore(cs[i], cs[j])
  }

  predicate IsHealthBoxCell(gs: GameState, c: Cell) {
    0 <= c.x < gs.boardSizeX && 0 <= c.y < gs.boardSizeY && gs.GetTile(c) == Some(HealthBox)
  }

  /** Health-box cells of column `x` with `y < n`, in y order. */
  function BoxColumn(gs: GameState, x: int, n: nat): seq<Cell> {
    if n == 0 then []
    else BoxColumn(gs, x, n - 1) +
         (if gs.GetTile(Cell(x, n - 1)) == Some(HealthBox) then [Cell(x, n - 1)] else [])
  }

  /** Health-box cells of the first `n` columns, x-major. */
  function BoxCells(gs: GameState, n: nat): seq<Cell> {
    if n == 0 then [] else BoxCells(gs, n - 1) + BoxColumn(gs, n - 1, gs.boardSizeY)
  }

  function TilesToWorld(cs: seq<Cell>): seq<Vec> {
    if cs == [] then [] else [TileToWorld(cs[0])] + TilesToWorld(cs[1..])
  }

  lemma {:induction false} TilesToWorldAt(cs: seq<Cell>)
    ensures |TilesToWorld(cs)| == |cs|
    ensures forall i :: 0 <= i < |cs| ==> TilesToWorld(cs)[i] == TileToWorld(cs[i])
  {
    if cs != [] {
      TilesToWorldAt(cs[1..]);
    }
  }

  /** The positions `findHealthBoxes` returns. */
  function HealthBoxPositions(gs: GameState): seq<Vec> {
    TilesToWorld(BoxCells(gs, gs.boardSizeX))
  }

  /** `findHealthBoxes`: scan the board column by column and collect the corners of health-box tiles. */
  method FindHealthBoxes(gs: GameState) returns (boxes: seq<Vec>)
    ensures boxes == HealthBoxPositions(gs)
  {
    boxes := [];
    var x := 0;
    while x < gs.boardSizeX
      invariant 0 <= x <= gs.boardSizeX
      invariant boxes == TilesToWorld(BoxCells(gs, x))
    {
      var column := ColumnBoxes(gs, x);
      TilesToWorldConcat(BoxCells(gs, x), BoxColumn(gs, x, gs.boardSizeY));
      boxes := boxes + column;
      x := x + 1;
    }
  }

  /** The inner loop of `findHealthBoxes`: the health-box corners of column `x`, bottom to top. */
  method ColumnBoxes(gs: GameState, x: int) returns (column: seq<Vec>)
    ensures column == TilesToWorld(BoxColumn(gs, x, gs.boardSizeY))
  {
    column := [];
    var y := 0;
    while y < gs.boardSizeY
      invariant 0 <= y <= gs.boardSizeY
      invariant column == TilesToWorld(BoxColumn(gs, x, y))
    {
      var tile := gs.GetTile(Cell(x, y));
      if tile.Some? && tile.value == HealthBox {
        assert BoxColumn(gs, x, y + 1) == BoxColumn(gs, x, y) + [Cell(x, y)];
        TilesToWorldAppend(BoxColumn(gs, x, y), Cell(x, y));
        column := column + [TileToWorld(Cell(x, y))];
      } else {
        assert BoxColumn(gs, x, y + 1) == BoxColumn(gs, x, y);
      }
      y := y + 1;
    }
  }

  lemma {:induction false} TilesToWorldConcat(a: seq<Cell>, b: seq<Cell>)
    ensures TilesToWorld(a + b) == TilesToWorld(a) + TilesToWorld(b)
  {
    if a != [] {
      assert (a + b)[1..] == a[1..] + b;
      TilesToWorldConcat(a[1..], b);
    } else {
      assert a + b == b;
    }
  }

  lemma {:induction false} TilesToWorldAppend(cs: seq<Cell>, c: Cell)
    ensures TilesToWorld(cs + [c]) == TilesToWorld(cs) + [TileToWorld(c)]
  {
    if cs != [] {
      assert (cs + [c])[1..] == cs[1..] + [c];
      TilesToWorldAppend(cs[1..], c);
    }
  }

  lemma {:induction false} BoxColumnExact(gs: GameState, x: int, n: nat)
    ensures CellsOrdered(BoxColumn(gs, x, n))
    ensures forall c :: c in BoxColumn(gs, x, n) <==>
              c.x == x && 0 <= c.y < n && gs.GetTile(c) == Some(HealthBox)
  {
    if n > 0 {
      BoxColumnExact(gs, x, n - 1);
    }
  }

  /** The scan of the first `n` columns yields exactly their in-board health-box cells, each once, x-major. */
  lemma {:induction false} BoxCellsExact(gs: GameState, n: nat)
    ensures CellsOrdered(BoxCells(gs, n))
    ensures forall c :: c in BoxCells(gs, n) <==>
              c.x < n && 0 <= c.x && 0 <= c.y < gs.boardSizeY && gs.GetTile(c) == Some(HealthBox)
  {
    if n > 0 {
      BoxCellsExact(gs, n - 1);
      BoxColumnExact(gs, n - 1, gs.boardSizeY);
      var prefix := BoxCells(gs, n - 1);
      var col := BoxColumn(gs, n - 1, gs.boardSizeY);
      forall a, b | a in prefix && b in col ensures CellBefore(a, b) {
      }
      CellsOrderedConcat(prefix, col);
    }
  }

  lemma CellsOrderedConcat(a: seq<Cell>, b: seq<Cell>)
    requires CellsOrdered(a) && CellsOrdered(b)
    requires forall x, y :: x in a && y in b ==> CellBefore(x, y)
    ensures CellsOrdered(a + b)
  {
    forall i, j | 0 <= i < j < |a + b| ensures CellBefore((a + b)[i], (a + b)[j]) {
      if i < |a| && j >= |a| {
        assert a[i] in a && b[j - |a|] in b;
      }
    }
  }

  /**
   * Every returned position is `(16 x, 16 y)` of an in-board health-box cell,
   * and each such cell appears exactly once, x-major then y.
   */
  lemma HealthBoxPositionsExact(gs: GameState)
    ensures var cells := BoxCells(gs, gs.boardSizeX);
            CellsOrdered(cells) &&
            (forall c :: c in cells <==> IsHealthBoxCell(gs, c)) &&
            |HealthBoxPositions(gs)| == |cells| &&
            forall i :: 0 <= i < |cells| ==> HealthBoxPositions(gs)[i] == TileToWorld(cells[i])
  {
    BoxCellsExact(gs, gs.boardSizeX);
    TilesToWorldAt(BoxCells(gs, gs.boardSizeX));
  }

  /** A position is returned exactly when it is the corner of an in-board health-box cell. */
  lemma HealthBoxPositionsMembers(gs: GameState)
    ensures forall p :: p in HealthBoxPositions(gs) <==> exists c :: IsHealthBoxCell(gs, c) && p == TileToWorld(c)
  {
    HealthBoxPositionsExact(gs);
    var cells := BoxCells(gs, gs.boardSizeX);
    var ps := HealthBoxPositions(gs);
    forall p | p in ps ensures exists c :: IsHealthBoxCell(gs, c) && p == TileToWorld(c) {
      var i :| 0 <= i < |ps| && ps[i] == p;
      assert IsHealthBoxCell(gs, cells[i]);
    }
    forall c | IsHealthBoxCell(gs, c) ensures TileToWorld(c) in ps {
      assert c in cells;
      var i :| 0 <= i < |cells| && cells[i] == c;
      assert ps[i] == TileToWorld(c);
    }
  }

  // ---------------------------------------------------------------- ordering

  /**
   * The key `Vector2DistanceComparator` compares: the distance to the origin.
   * The squared distance orders points the same way and needs no square root.
   */
  function DistanceKey(p: Vec, origin: Vec): real {
    (p.x - origin.x) * (p.x - origin.x) + (p.y - origin.y) * (p.y - origin.y)
  }

  predicate SortedByDistance(ps: seq<Vec>, origin: Vec) {
    forall i, j :: 0 <= i < j < |ps| ==> DistanceKey(ps[i], origin) <= DistanceKey(ps[j], origin)
  }

  /** Puts `p` before the first element that is not nearer than it. */
  function InsertByDistance(p: Vec, ps: seq<Vec>, origin: Vec): (r: seq<Vec>)
    requires SortedByDistance(ps, origin)
    ensures multiset(r) == multiset(ps) + multiset{p}
    ensures SortedByDistance(r, origin)
  {
    if ps == [] || DistanceKey(p, origin) <= DistanceKey(ps[0], origin) then [p] + ps
    else
      var rest := InsertByDistance(p, ps[1..], origin);
      assert ps == [ps[0]] + ps[1..];
      InsertedAfterHead(p, ps, rest, origin);
      [ps[0]] + rest
  }

  lemma InsertedAfterHead(p: Vec, ps: seq<Vec>, rest: seq<Vec>, origin: Vec)
    requires ps != [] && SortedByDistance(ps, origin) && SortedByDistance(rest, origin)
    requires DistanceKey(ps[0], origin) < DistanceKey(p, origin)
    requires multiset(rest) == multiset(ps[1..]) + multiset{p}
    ensures SortedByDistance([ps[0]] + rest, origin)
  {
    forall k | 0 <= k < |rest|
      ensures DistanceKey(ps[0], origin) <= DistanceKey(rest[k], origin)
    {
      assert rest[k] in multiset(rest);
      if rest[k] != p {
        assert rest[k] in ps[1..];
        var m :| 0 <= m < |ps[1..]| && ps[1..][m] == rest[k];
        assert ps[m + 1] == rest[k];
      }
    }
  }

  /** `targets.sort(new Vector2DistanceComparator(origin))`: a stable sort, nearest first. */
  function SortByDistance(ps: seq<Vec>, origin: Vec): (r: seq<Vec>)
    ensures multiset(r) == multiset(ps)
    ensures SortedByDistance(r, origin)
  {
    if ps == [] then []
    else
      assert ps == [ps[0]] + ps[1..];
      InsertByDistance(ps[0], SortByDistance(ps[1..], origin), origin)
  }
}
