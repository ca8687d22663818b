/**
 * `numberOfObstructions`: the number of distinct tiles a sampled trajectory
 * passes through. The time-stepping that produces the sample points
 * (sine, cosine, gravity) is supplied by the caller as the sequence of
 * sampled world positions; what is modelled is the mapping of each sample
 * to its cell and the set of non-empty tiles collected from them. A tile is
 * identified by its cell, so the set of tiles is a set of cells.
 */
module Obstructions {
  import opened World

  /** The sample falls in a cell that holds a tile. */
  predicate Blocked(gs: GameState, p: Vec) {
    gs.GetTile(WorldToTileCoords(p)).Some?
  }

  /** The tiles (by cell) hit by the samples, accumulated in sample order. */
  function ObstructedCells(gs: GameState, samples: seq<Vec>): set<Cell> {
    if samples == [] then {}
    else
      var last := samples[|samples| - 1];
      ObstructedCells(gs, samples[..|samples| - 1]) +
      (if Blocked(gs, last) then {WorldToTileCoords(last)} else {})
  }

  /** A cell is collected exactly when some sample falls in it and it holds a tile. */
  lemma {:induction false} ObstructedCellsMembers(gs: GameState, samples: seq<Vec>, c: Cell)
    ensures c in ObstructedCells(gs, samples) <==>
            gs.GetTile(c).Some? && exists i :: 0 <= i < |samples| && WorldToTileCoords(samples[i]) == c
  {
    if samples != [] {
      var init := samples[..|samples| - 1];
      ObstructedCellsMembers(gs, init, c);
      if exists i :: 0 <= i < |samples| && WorldToTileCoords(samples[i]) == c {
        var i :| 0 <= i < |samples| && WorldToTileCoords(samples[i]) == c;
        if i < |init| {
          assert init[i] == samples[i];
        }
      }
    }
  }

  /**
   * The count never exceeds the number of samples, and it is zero exactly
   * when every sample falls in an empty cell.
   */
  lemma {:induction false} ObstructedCellsBounds(gs: GameState, samples: seq<Vec>)
    ensures |ObstructedCells(gs, samples)| <= |samples|
    ensures |ObstructedCells(gs, samples)| == 0 <==>
            forall i :: 0 <= i < |samples| ==> !Blocked(gs, samples[i])
  {
    if samples != [] {
      var init := samples[..|samples| - 1];
      ObstructedCellsBounds(gs, init);
      var last := samples[|samples| - 1];
      if Blocked(gs, last) {
        assert WorldToTileCoords(last) in ObstructedCells(gs, samples);
      }
      if forall i :: 0 <= i < |init| ==> !Blocked(gs, init[i]) {
        assert forall i :: 0 <= i < |init| ==> !Blocked(gs, samples[i]) by {
          forall i | 0 <= i < |init| ensures !Blocked(gs, samples[i]) {
            assert init[i] == samples[i];
          }
        }
      } else {
        var i :| 0 <= i < |init| && Blocked(gs, init[i]);
        assert init[i] == samples[i];
      }
    }
  }

  /** `numberOfObstructions`: collect the non-empty tiles the samples fall in and count them. */
  method NumberOfObstructions(gs: GameState, samples: seq<Vec>) returns (count: nat)
    ensures count == |ObstructedCells(gs, samples)|
    ensures count <= |samples|
    ensures count == 0 <==> forall i :: 0 <= i < |samples| ==> !Blocked(gs, samples[i])
  {
    var tiles: set<Cell> := {};
    var k := 0;
    while k < |samples|
      invariant 0 <= k <= |samples|
      invariant tiles == ObstructedCells(gs, samples[..k])
    {
      var p := samples[k];
      var tile := gs.GetTile(WorldToTileCoords(p));
      assert samples[..k + 1][..k] == samples[..k];
      if tile.Some? {
        tiles := tiles + {WorldToTileCoords(p)};
      }
      k := k + 1;
    }
    assert samples[..k] == samples;
    count := |tiles|;
    ObstructedCellsBounds(gs, samples);
  }
}
