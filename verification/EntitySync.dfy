/** An entity's sync body: flags for the parameters that wrote something, and what they wrote. */
module EntitySync {
  import opened Wrappers
  import opened BitStream
  import opened BitWriting
  import opened Text

  /** A component writes a fixed piece for a parameter, or declines it. */
  datatype Component = Component(name: string, pieces: map<string, seq<bool>>)

  datatype Entity = Entity(id: nat, components: seq<Component>)

  /** The component and the parameter at each sync index; an index may name nothing. */
  type Definition = seq<Option<(string, string)>>

  datatype SyncData = SyncData(present: seq<bool>, parameters: seq<bool>)

  /** The first component of that name, whatever its case. */
  function ComponentFrom(e: Entity, name: string, k: nat): Option<Component>
    decreases |e.components| - k
  {
    if k >= |e.components| then None
    else if SameName(e.components[k].name, name) then Some(e.components[k])
    else ComponentFrom(e, name, k + 1)
  }

  /** What is written at one sync index, if anything. */
  function Piece(e: Entity, d: Definition, index: nat): Option<seq<bool>> {
    if index >= |d| || d[index].None? then None
    else
      var (component, parameter) := d[index].value;
      var owner := ComponentFrom(e, component, 0);
      if owner.None? || parameter !in owner.value.pieces then None else Some(owner.value.pieces[parameter])
  }

  predicate Asked(d: Definition, wanted: seq<string>, index: nat) {
    index < |d| && d[index].Some? && exists i :: 0 <= i < |wanted| && SameName(wanted[i], d[index].value.1)
  }

  /** The pieces of the first `n` indices among those let through, one after another. */
  function Body(e: Entity, d: Definition, through: nat -> bool, n: nat): seq<bool> {
    if n == 0 then []
    else
      var piece := Piece(e, d, n - 1);
      Body(e, d, through, n - 1) + if through(n - 1) && piece.Some? then piece.value else []
  }

  function Flags(e: Entity, d: Definition, through: nat -> bool): (r: seq<bool>)
    ensures |r| == |d|
  {
    seq(|d|, i requires 0 <= i < |d| => through(i) && Piece(e, d, i).Some?)
  }

  function Everything(): nat -> bool { (i: nat) => true }

  function Only(d: Definition, wanted: seq<string>): nat -> bool { (i: nat) => Asked(d, wanted, i) }

  /** The body with a flag for each piece that is let through and written, and those pieces in order. */
  function Synced(e: Entity, d: Definition, through: nat -> bool): (r: SyncData)
    ensures |r.present| == |d|
  {
    SyncData(Flags(e, d, through), Body(e, d, through, |d|))
  }

  /** Ask one component to write one parameter; a refusal leaves the writer alone. */
  method WritePiece(e: Entity, d: Definition, index: nat, writer: BitWriter) returns (wrote: bool)
    requires writer.Valid()
    modifies writer
    ensures writer.Valid() && wrote == Piece(e, d, index).Some?
    ensures writer.Written() == old(writer.Written()) + if wrote then Piece(e, d, index).value else []
  {
    hide Tight, BufferBits;
    var piece := Piece(e, d, index);
    if piece.None? {
      return false;
    }
    for i := 0 to |piece.value|
      invariant writer.Valid() && writer.Written() == old(writer.Written()) + piece.value[..i]
    {
      writer.WriteBit(piece.value[i]);
      assert piece.value[..i + 1] == piece.value[..i] + [piece.value[i]];
    }
    return true;
  }

  /** A fresh entity offers every parameter. */
  method SyncEntity(e: Entity, d: Definition) returns (present: seq<bool>, writer: BitWriter)
    ensures writer.Valid() && SyncData(present, writer.Written()) == Synced(e, d, Everything())
    ensures |present| == |d| && forall i | 0 <= i < |d| :: present[i] == Piece(e, d, i).Some?
  {
    hide Tight, BufferBits, Piece;
    present := seq(|d|, _ => false);
    writer := new BitWriter();
    for index := 0 to |d|
      invariant writer.Valid() && fresh(writer) && writer.Written() == Body(e, d, Everything(), index)
      invariant |present| == |d| && forall i | 0 <= i < |d| :: present[i] == (i < index && Piece(e, d, i).Some?)
    {
      var wrote := WritePiece(e, d, index, writer);
      if wrote {
        present := present[index := true];
      }
    }
  }

  /** An update carries only the parameters named. */
  method SyncParameters(e: Entity, d: Definition, wanted: seq<string>) returns (present: seq<bool>, writer: BitWriter)
    ensures writer.Valid() && SyncData(present, writer.Written()) == Synced(e, d, Only(d, wanted))
    ensures |present| == |d| && forall i | 0 <= i < |d| ::
      present[i] == (Piece(e, d, i).Some? && exists w :: 0 <= w < |wanted| && SameName(wanted[w], d[i].value.1))
  {
    hide Tight, BufferBits, Piece, Asked;
    present := seq(|d|, _ => false);
    writer := new BitWriter();
    for index := 0 to |d|
      invariant writer.Valid() && fresh(writer) && writer.Written() == Body(e, d, Only(d, wanted), index)
      invariant |present| == |d|
      invariant forall i | 0 <= i < |d| :: present[i] == (i < index && Asked(d, wanted, i) && Piece(e, d, i).Some?)
    {
      if Asked(d, wanted, index) {
        var wrote := WritePiece(e, d, index, writer);
        if wrote {
          present := present[index := true];
        }
      }
    }
    AskedFlags(e, d, wanted, present);
  }

  lemma AskedFlags(e: Entity, d: Definition, wanted: seq<string>, present: seq<bool>)
    requires |present| == |d|
    requires forall i | 0 <= i < |d| :: present[i] == (Asked(d, wanted, i) && Piece(e, d, i).Some?)
    ensures forall i | 0 <= i < |d| ::
      present[i] == (Piece(e, d, i).Some? && exists w :: 0 <= w < |wanted| && SameName(wanted[w], d[i].value.1))
  {
    hide SameName;
  }

  // --- what the other side makes of it ---

  /** How many bits the parameter at an index takes off the front. */
  type Measure = (nat, seq<bool>) -> nat

  /** Every parameter's code says where it ends. */
  ghost predicate Delimits(measure: Measure, e: Entity, d: Definition) {
    forall i: nat, rest: seq<bool> | Piece(e, d, i).Some? :: measure(i, Piece(e, d, i).value + rest) == |Piece(e, d, i).value|
  }

  /** What a client holds of each parameter. */
  type Replica = seq<Option<seq<bool>>>

  /** Take the flagged parameters off the front of the body, from index `k` on. */
  function Received(replica: Replica, sync: SyncData, measure: Measure, k: nat, body: seq<bool>): Replica
    requires |replica| == |sync.present|
    decreases |replica| - k
  {
    if k >= |replica| then replica
    else if !sync.present[k] then Received(replica, sync, measure, k + 1, body)
    else
      var n := if measure(k, body) <= |body| then measure(k, body) else |body|;
      Received(replica[k := Some(body[..n])], sync, measure, k + 1, body[n..])
  }

  function Applied(replica: Replica, sync: SyncData, measure: Measure): Replica
    requires |replica| == |sync.present|
  {
    Received(replica, sync, measure, 0, sync.parameters)
  }

  /** A client that holds exactly what the entity writes. */
  function Full(e: Entity, d: Definition): (r: Replica)
    ensures |r| == |d|
  {
    seq(|d|, i requires 0 <= i < |d| => Piece(e, d, i))
  }

  /** The pieces from index `k` on. */
  function Rest(e: Entity, d: Definition, through: nat -> bool, k: nat): seq<bool>
    decreases |d| - k
  {
    if k >= |d| then []
    else (if through(k) && Piece(e, d, k).Some? then Piece(e, d, k).value else []) + Rest(e, d, through, k + 1)
  }

  lemma {:induction false} BodyIsRest(e: Entity, d: Definition, through: nat -> bool, k: nat)
    requires k <= |d|
    ensures Body(e, d, through, k) + Rest(e, d, through, k) == Body(e, d, through, |d|)
    decreases |d| - k
  {
    hide Piece;
    if k < |d| {
      BodyIsRest(e, d, through, k + 1);
      var piece := if through(k) && Piece(e, d, k).Some? then Piece(e, d, k).value else [];
      assert (Body(e, d, through, k) + piece) + Rest(e, d, through, k + 1)
          == Body(e, d, through, k) + (piece + Rest(e, d, through, k + 1));
    }
  }

  /** Reading the pieces from `k` on puts each under its own index, and leaves the rest alone. */
  lemma {:induction false} ReceivedIs(
    replica: Replica, e: Entity, d: Definition, through: nat -> bool, measure: Measure, k: nat, i: nat)
    requires |replica| == |d| && k <= |d| && i < |d| && Delimits(measure, e, d)
    ensures |Received(replica, Synced(e, d, through), measure, k, Rest(e, d, through, k))| == |d|
    ensures Received(replica, Synced(e, d, through), measure, k, Rest(e, d, through, k))[i]
         == if i >= k && through(i) && Piece(e, d, i).Some? then Piece(e, d, i) else replica[i]
    decreases |d| - k
  {
    hide Piece, Body;
    if k < |d| {
      if through(k) && Piece(e, d, k).Some? {
        var piece := Piece(e, d, k).value;
        var body := Rest(e, d, through, k);
        assert body == piece + Rest(e, d, through, k + 1);
        assert measure(k, body) == |piece|;
        assert body[..|piece|] == piece && body[|piece|..] == Rest(e, d, through, k + 1);
        ReceivedIs(replica[k := Some(piece)], e, d, through, measure, k + 1, i);
      } else {
        assert Rest(e, d, through, k) == Rest(e, d, through, k + 1);
        ReceivedIs(replica, e, d, through, measure, k + 1, i);
      }
    }
  }

  /** A client reads back each piece that was let through, and keeps what it held of the others. */
  lemma AppliedIs(replica: Replica, e: Entity, d: Definition, through: nat -> bool, measure: Measure, i: nat)
    requires |replica| == |d| && i < |d| && Delimits(measure, e, d)
    ensures |Applied(replica, Synced(e, d, through), measure)| == |d|
    ensures Applied(replica, Synced(e, d, through), measure)[i]
         == if through(i) && Piece(e, d, i).Some? then Piece(e, d, i) else replica[i]
  {
    hide Piece, Received, Delimits;
    BodyIsRest(e, d, through, 0);
    assert Body(e, d, through, 0) + Rest(e, d, through, 0) == Rest(e, d, through, 0);
    ReceivedIs(replica, e, d, through, measure, 0, i);
  }

  /** A full body gives a client that knew nothing all the entity writes. */
  lemma FullBodyIsFull(e: Entity, d: Definition, measure: Measure)
    requires Delimits(measure, e, d)
    ensures Applied(seq(|d|, _ => None), Synced(e, d, Everything()), measure) == Full(e, d)
  {
    hide Piece, Received, Delimits, Applied, Synced;
    var nothing: Replica := seq(|d|, _ => None);
    var after := Applied(nothing, Synced(e, d, Everything()), measure);
    if |d| > 0 {
      AppliedIs(nothing, e, d, Everything(), measure, 0);
    } else {
      AppliedNothing(nothing, e, d, Everything(), measure);
    }
    forall i | 0 <= i < |d| ensures after[i] == Full(e, d)[i] {
      AppliedIs(nothing, e, d, Everything(), measure, i);
    }
  }

  lemma AppliedNothing(replica: Replica, e: Entity, d: Definition, through: nat -> bool, measure: Measure)
    requires |replica| == |d| == 0
    ensures Applied(replica, Synced(e, d, through), measure) == replica
  {
  }

  /**
    A client that was right about everything else is brought up to date by a partial body if and
    only if it held nothing of the parameters that were named and wrote nothing.
   */
  lemma PartialBodyCatchesUp(replica: Replica, e: Entity, d: Definition, wanted: seq<string>, measure: Measure)
    requires |replica| == |d| && Delimits(measure, e, d)
    requires forall i | 0 <= i < |d| && !Asked(d, wanted, i) :: replica[i] == Piece(e, d, i)
    ensures Applied(replica, Synced(e, d, Only(d, wanted)), measure) == Full(e, d)
       <==> forall i | 0 <= i < |d| && Asked(d, wanted, i) && Piece(e, d, i).None? :: replica[i].None?
  {
    hide Piece, Received, Delimits, Applied, Synced, Asked;
    var after := Applied(replica, Synced(e, d, Only(d, wanted)), measure);
    if |d| > 0 {
      AppliedIs(replica, e, d, Only(d, wanted), measure, 0);
    } else {
      AppliedNothing(replica, e, d, Only(d, wanted), measure);
    }
    forall i | 0 <= i < |d|
      ensures after[i] == if Asked(d, wanted, i) && Piece(e, d, i).Some? then Piece(e, d, i) else replica[i]
    {
      AppliedIs(replica, e, d, Only(d, wanted), measure, i);
    }
    assert forall i | 0 <= i < |d| :: after[i] == Full(e, d)[i] <==>
      (Asked(d, wanted, i) && Piece(e, d, i).None? ==> replica[i].None?);
  }

  /** An index writes what the first component of its name, whatever the case, holds of its parameter. */
  lemma PieceIs(e: Entity, d: Definition, index: nat, k: nat)
    requires index < |d| && d[index].Some? && k <= |e.components|
    requires forall j | 0 <= j < k :: !SameName(e.components[j].name, d[index].value.0)
    requires k < |e.components| ==> SameName(e.components[k].name, d[index].value.0)
    ensures Piece(e, d, index)
         == if k < |e.components| && d[index].value.1 in e.components[k].pieces
            then Some(e.components[k].pieces[d[index].value.1]) else None
  {
    hide SameName;
    FirstOfName(e, d[index].value.0, 0, k);
  }

  lemma {:induction false} FirstOfName(e: Entity, name: string, from: nat, k: nat)
    requires from <= k <= |e.components|
    requires forall j | from <= j < k :: !SameName(e.components[j].name, name)
    requires k < |e.components| ==> SameName(e.components[k].name, name)
    ensures ComponentFrom(e, name, from) == if k < |e.components| then Some(e.components[k]) else None
    decreases k - from
  {
    hide SameName;
    if from < k {
      FirstOfName(e, name, from + 1, k);
    }
  }
}
