/**
 * `getPossiblePositionOffsets`: the horizontal moves (in world units) the bot
 * may try before shooting. Each side extends one unit at a time while there
 * is a tile below the shifted position, never beyond the character's stamina.
 *
 * The source shifts `character.getPlayerPos()` with libGDX `Vector2.add`,
 * which changes the vector it is called on; whether that is the character's
 * own position depends on host code outside this file. Here, as in the
 * explicit copy `calculateShootInfo` makes, every offset is taken relative
 * to the one fixed starting position.
 */
module Offsets {
  import opened World

  /** The side a loop of `getPossiblePositionOffsets` walks. */
  datatype Side = Right | Left

  /** Step `j` on a side as a signed offset. */
  function Signed(side: Side, j: int): int {
    if side == Right then j else -j
  }

  /** The position `offset` world units to the right of `pos` has a tile below it. */
  predicate HasFooting(gs: GameState, pos: Vec, offset: int) {
    TileBelow(gs, Vec(pos.x + offset as real, pos.y)).Some?
  }

  /**
   * How far one side's loop gets, starting at step `k`: the last step `n` such
   * that every step `k..n` is within stamina and has footing.
   */
  function RunFrom(gs: GameState, pos: Vec, side: Side, stamina: int, k: nat): (n: nat)
    requires 1 <= k
    ensures k - 1 <= n
    ensures n == k - 1 || n <= stamina
    ensures forall j :: k <= j <= n ==> HasFooting(gs, pos, Signed(side, j))
    ensures n < stamina ==> !HasFooting(gs, pos, Signed(side, n + 1))
    decreases stamina - k
  {
    if k > stamina || !HasFooting(gs, pos, Signed(side, k)) then k - 1
    else RunFrom(gs, pos, side, stamina, k + 1)
  }

  /** The number of standing positions on one side. */
  function Run(gs: GameState, pos: Vec, side: Side, stamina: int): nat {
    RunFrom(gs, pos, side, stamina, 1)
  }

  /** `[0, 1, ..., right, -1, ..., -left]`. */
  function OffsetList(right: nat, left: nat): (offsets: seq<int>)
    ensures |offsets| == 1 + right + left
  {
    if left == 0 then
      if right == 0 then [0] else OffsetList(right - 1, 0) + [right]
    else OffsetList(right, left - 1) + [-(left as int)]
  }

  /** The list `getPossiblePositionOffsets` returns. */
  function PossibleOffsets(gs: GameState, character: Character): seq<int> {
    OffsetList(Run(gs, character.pos, Right, character.stamina), Run(gs, character.pos, Left, character.stamina))
  }

  /** The offset list is 0, then `1..right` in order, then `-1..-left` in order. */
  lemma {:induction false} OffsetListAt(right: nat, left: nat)
    ensures var offsets := OffsetList(right, left);
            offsets[0] == 0 &&
            (forall i :: 1 <= i <= right ==> offsets[i] == i) &&
            (forall i :: right < i <= right + left ==> offsets[i] == right - i)
  {
    if left == 0 {
      if right > 0 {
        OffsetListAt(right - 1, 0);
      }
    } else {
      OffsetListAt(right, left - 1);
    }
  }

  method PossiblePositionOffsets(gs: GameState, character: Character) returns (offsets: seq<int>)
    ensures offsets == PossibleOffsets(gs, character)
  {
    offsets := [0];
    var pos := character.pos;
    var right := 1;
    while right <= character.stamina
      invariant 1 <= right
      invariant offsets == OffsetList(right - 1, 0)
      invariant Run(gs, pos, Right, character.stamina) == RunFrom(gs, pos, Right, character.stamina, right)
      decreases character.stamina - right
    {
      RunFromStep(gs, pos, Right, character.stamina, right);
      if TileBelow(gs, Vec(pos.x + right as real, pos.y)).None? {
        break;
      }
      offsets := offsets + [right];
      right := right + 1;
    }
    var r := right - 1;
    assert r == Run(gs, pos, Right, character.stamina);
    var left := 1;
    while left <= character.stamina
      invariant 1 <= left
      invariant offsets == OffsetList(r, left - 1)
      invariant Run(gs, pos, Left, character.stamina) == RunFrom(gs, pos, Left, character.stamina, left)
      decreases character.stamina - left
    {
      RunFromStep(gs, pos, Left, character.stamina, left);
      if TileBelow(gs, Vec(pos.x - left as real, pos.y)).None? {
        break;
      }
      offsets := offsets + [-left];
      left := left + 1;
    }
  }

  /** One step of a side's loop: stop before step `k`, or go on from it. */
  lemma RunFromStep(gs: GameState, pos: Vec, side: Side, stamina: int, k: nat)
    requires 1 <= k <= stamina
    ensures HasFooting(gs, pos, Signed(side, k)) ==
            TileBelow(gs, Vec(if side == Right then pos.x + k as real else pos.x - k as real, pos.y)).Some?
    ensures RunFrom(gs, pos, side, stamina, k) ==
            if HasFooting(gs, pos, Signed(side, k)) then RunFrom(gs, pos, side, stamina, k + 1) else k - 1
  {
    assert Signed(side, k) as real == if side == Right then k as real else -(k as real);
  }

  /**
   * The offsets start with 0, then `1..r` and `-1..-l` contiguously with
   * `r, l <= stamina`; every non-zero offset has a tile below it, and each
   * side stops at its first gap or at the stamina bound.
   */
  lemma PossibleOffsetsShape(gs: GameState, character: Character)
    ensures var s := character.stamina;
            var r := Run(gs, character.pos, Right, s);
            var l := Run(gs, character.pos, Left, s);
            var offsets := PossibleOffsets(gs, character);
            |offsets| == 1 + r + l && offsets[0] == 0 &&
            (r == 0 || r <= s) && (l == 0 || l <= s) &&
            (forall i :: 1 <= i <= r ==> offsets[i] == i) &&
            (forall i :: r < i <= r + l ==> offsets[i] == r - i) &&
            (forall i :: 1 <= i < |offsets| ==> HasFooting(gs, character.pos, offsets[i])) &&
            (r < s ==> !HasFooting(gs, character.pos, r + 1)) &&
            (l < s ==> !HasFooting(gs, character.pos, -(l + 1)))
  {
    var s := character.stamina;
    var r := Run(gs, character.pos, Right, s);
    var l := Run(gs, character.pos, Left, s);
    var offsets := PossibleOffsets(gs, character);
    OffsetListAt(r, l);
    forall i | 1 <= i < |offsets|
      ensures HasFooting(gs, character.pos, offsets[i])
    {
      if i <= r {
        assert offsets[i] == Signed(Right, i);
      } else {
        assert offsets[i] == Signed(Left, i - r);
      }
    }
  }
}
