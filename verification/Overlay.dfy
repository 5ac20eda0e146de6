/** What players have done to the terrain: asked for at once, written down tick by tick, put back. */
module Overlay {
  import opened Wrappers
  import opened Stored
  import opened SharedState

  type Terrain = Voxel -> nat

  datatype Edit = Edit(voxel: Voxel, material: nat)

  /** The blocks that stand changed, and the edits nobody has written down, oldest first. */
  datatype Changes = Changes(voxels: map<Voxel, nat>, unsaved: seq<Edit>)

  function BlockAt(c: Changes, terrain: Terrain, voxel: Voxel): nat {
    if voxel in c.voxels then c.voxels[voxel] else terrain(voxel)
  }

  function Written(blocks: map<Voxel, nat>, edits: seq<Edit>): map<Voxel, nat> {
    if edits == [] then blocks
    else Written(blocks, edits[..|edits| - 1])[edits[|edits| - 1].voxel := edits[|edits| - 1].material]
  }

  class WorldBlocks {
    const terrain: Terrain
    var voxels: map<Voxel, nat>
    var unsaved: seq<Edit>

    function State(): Changes
      reads this
    {
      Changes(voxels, unsaved)
    }

    constructor (terrain: Terrain)
      ensures this.terrain == terrain && State() == Changes(map[], [])
    {
      this.terrain, voxels, unsaved := terrain, map[], [];
    }

    method SetBlock(voxel: Voxel, material: nat)
      modifies this
      ensures State() == Changes(old(voxels)[voxel := material], old(unsaved) + [Edit(voxel, material)])
    {
      voxels := voxels[voxel := material];
      unsaved := unsaved + [Edit(voxel, material)];
    }

    method TakeUnsavedEdits() returns (edits: seq<Edit>)
      modifies this`unsaved
      ensures edits == old(unsaved) && State() == Changes(old(voxels), [])
    {
      edits := unsaved;
      unsaved := [];
    }

    /** Put back edits from storage, without queueing them to be written again. */
    method RestoreBlockEdits(edits: seq<Edit>)
      modifies this`voxels
      ensures State() == Changes(Written(old(voxels), edits), old(unsaved))
    {
      for i := 0 to |edits|
        invariant voxels == Written(old(voxels), edits[..i])
      {
        assert edits[..i + 1][..i] == edits[..i];
        voxels := voxels[edits[i].voxel := edits[i].material];
      }
      assert edits[..|edits|] == edits;
    }

    /** One tick: everything unsaved goes to the shared state, which skips what it already holds. */
    method RecordBlocks(state: AppState)
      modifies this`unsaved, state
      ensures State() == Changes(old(voxels), [])
      ensures state.State() == old(state.State()).(blocks := Written(old(state.blocks), old(unsaved)))
    {
      var edits := TakeUnsavedEdits();
      for i := 0 to |edits|
        invariant State() == Changes(old(voxels), [])
        invariant state.State() == old(state.State()).(blocks := Written(old(state.blocks), edits[..i]))
      {
        assert edits[..i + 1][..i] == edits[..i];
        state.SetBlock(edits[i].voxel, edits[i].material);
      }
      assert edits[..|edits|] == edits;
    }
  }

  // --- any run of edits and ticks ---

  datatype Event = Set(voxel: Voxel, material: nat) | Tick

  /** The world's changes beside what the shared state has on record. */
  datatype Recorded = Recorded(changes: Changes, blocks: map<Voxel, nat>)

  function Stepped(r: Recorded, e: Event): Recorded {
    match e
    case Set(voxel, material) =>
      r.(changes := Changes(r.changes.voxels[voxel := material], r.changes.unsaved + [Edit(voxel, material)]))
    case Tick => Recorded(Changes(r.changes.voxels, []), Written(r.blocks, r.changes.unsaved))
  }

  function Ran(r: Recorded, events: seq<Event>): Recorded {
    if events == [] then r else Stepped(Ran(r, events[..|events| - 1]), events[|events| - 1])
  }

  /** The last thing put at a voxel, if anything was. */
  function LastSet(events: seq<Event>, voxel: Voxel): Option<nat> {
    if events == [] then None
    else
      var last := events[|events| - 1];
      if last.Set? && last.voxel == voxel then Some(last.material) else LastSet(events[..|events| - 1], voxel)
  }

  /** What is on record, with what is still queued, is what stands. */
  ghost predicate InStep(r: Recorded) {
    Written(r.blocks, r.changes.unsaved) == r.changes.voxels
  }

  /** A voxel answers with the last thing put there, or what it was before. */
  lemma {:induction false} LastWriteWins(r: Recorded, events: seq<Event>, terrain: Terrain, voxel: Voxel)
    ensures BlockAt(Ran(r, events).changes, terrain, voxel)
      == match LastSet(events, voxel)
         case Some(material) => material
         case None => BlockAt(r.changes, terrain, voxel)
  {
    if events != [] {
      LastWriteWins(r, events[..|events| - 1], terrain, voxel);
    }
  }

  lemma {:induction false} RanInStep(r: Recorded, events: seq<Event>)
    requires InStep(r)
    ensures InStep(Ran(r, events))
  {
    if events != [] {
      var before, last := Ran(r, events[..|events| - 1]), events[|events| - 1];
      RanInStep(r, events[..|events| - 1]);
      if last.Set? {
        var longer := before.changes.unsaved + [Edit(last.voxel, last.material)];
        assert longer[..|longer| - 1] == before.changes.unsaved;
      }
    }
  }

  /** Every block on record, each once, in whatever order they are read. */
  ghost predicate Lists(edits: seq<Edit>, blocks: map<Voxel, nat>) {
    (forall i, j | 0 <= i < j < |edits| :: edits[i].voxel != edits[j].voxel) &&
    (forall e | e in edits :: e.voxel in blocks && blocks[e.voxel] == e.material) &&
    forall voxel | voxel in blocks :: Edit(voxel, blocks[voxel]) in edits
  }

  lemma {:induction false} WrittenAt(edits: seq<Edit>, voxel: Voxel)
    requires forall i, j | 0 <= i < j < |edits| :: edits[i].voxel != edits[j].voxel
    ensures voxel in Written(map[], edits) <==> exists i :: 0 <= i < |edits| && edits[i].voxel == voxel
    ensures forall i | 0 <= i < |edits| && edits[i].voxel == voxel ::
      voxel in Written(map[], edits) && Written(map[], edits)[voxel] == edits[i].material
  {
    if edits != [] {
      WrittenAt(edits[..|edits| - 1], voxel);
    }
  }

  /** Putting back every block on record gives back the record, in any order. */
  lemma RestoredIs(edits: seq<Edit>, blocks: map<Voxel, nat>)
    requires Lists(edits, blocks)
    ensures Written(map[], edits) == blocks
  {
    forall voxel: Voxel
      ensures voxel in Written(map[], edits) <==> voxel in blocks
      ensures voxel in blocks ==> Written(map[], edits)[voxel] == blocks[voxel]
    {
      WrittenAt(edits, voxel);
      if voxel in blocks {
        var i :| 0 <= i < |edits| && edits[i] == Edit(voxel, blocks[voxel]);
      }
      if voxel in Written(map[], edits) {
        var i :| 0 <= i < |edits| && edits[i].voxel == voxel;
        assert edits[i] in edits;
      }
    }
  }

  /**
    However edits were batched into ticks, once nothing is waiting a world rebuilt from the record
    over the same terrain has the same block at every voxel.
   */
  lemma RebuiltTheSame(start: Recorded, events: seq<Event>, edits: seq<Edit>, terrain: Terrain, voxel: Voxel)
    requires InStep(start) && Ran(start, events).changes.unsaved == []
    requires Lists(edits, Ran(start, events).blocks)
    ensures BlockAt(Changes(Written(map[], edits), []), terrain, voxel) == BlockAt(Ran(start, events).changes, terrain, voxel)
  {
    RanInStep(start, events);
    RestoredIs(edits, Ran(start, events).blocks);
  }

  /** One last tick is enough, whatever came before. */
  lemma TickDrains(start: Recorded, events: seq<Event>)
    ensures Ran(start, events + [Tick]).changes == Changes(Ran(start, events).changes.voxels, [])
  {
    assert (events + [Tick])[..|events|] == events;
  }

  /**
    So a world that was rebuilt from the record, changed in any way and ticked once more is rebuilt
    from the record again with every block as the players left it.
   */
  lemma RebuiltAfterTick(blocks: map<Voxel, nat>, events: seq<Event>, edits: seq<Edit>, terrain: Terrain, voxel: Voxel)
    requires Lists(edits, Ran(Recorded(Changes(blocks, []), blocks), events + [Tick]).blocks)
    ensures BlockAt(Changes(Written(map[], edits), []), terrain, voxel)
         == BlockAt(Ran(Recorded(Changes(blocks, []), blocks), events).changes, terrain, voxel)
  {
    var start := Recorded(Changes(blocks, []), blocks);
    TickDrains(start, events);
    RebuiltTheSame(start, events + [Tick], edits, terrain, voxel);
  }
}
