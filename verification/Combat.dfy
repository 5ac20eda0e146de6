/** Creatures everybody can hit: damage shared by all sessions, and one kill each. */
module Combat {
  import opened Numbers

  type Id = nat

  /** Maximum health by creature, the damage done so far, and who has been killed. */
  datatype Health = Health(creatures: map<Id, nat>, damage: map<Id, nat>, dead: set<Id>) {
    function DamageTo(id: Id): nat { if id in damage then damage[id] else 0 }
  }

  /** A swing is some session's; what it does depends only on its strength and its reach. */
  datatype Event = Spawned(id: Id, maxHealth: nat) | Swing(target: Id, strength: nat, inRange: bool)

  /** What a swing took, what it left, and whether it is the one that killed. */
  datatype Outcome = Refused | Landed(taken: nat, left: nat, kill: bool)

  predicate Lands(h: Health, e: Event) {
    e.Swing? && e.strength > 0 && e.target in h.creatures
    && !(e.target in h.dead || h.creatures[e.target] <= h.DamageTo(e.target)) && e.inRange
  }

  function Result(h: Health, e: Event): Outcome {
    if !Lands(h, e) then Refused
    else
      var before := Less(h.creatures[e.target], h.DamageTo(e.target));
      var left := Less(before, e.strength);
      Landed(before - left, left, left == 0 && e.target !in h.dead)
  }

  function After(h: Health, e: Event): Health {
    match e
    case Spawned(id, maxHealth) =>
      if id in h.creatures then h else h.(creatures := h.creatures[id := maxHealth])
    case Swing(target, _, _) =>
      if !Lands(h, e) then h
      else
        var left := Result(h, e).left;
        h.(damage := h.damage[target := Less(h.creatures[target], left)],
           dead := if left == 0 then h.dead + {target} else h.dead)
  }

  class WorldHealth {
    var creatures: map<Id, nat>
    var damage: map<Id, nat>
    var dead: set<Id>

    function State(): Health
      reads this
    {
      Health(creatures, damage, dead)
    }

    method SetDamage(id: Id, total: nat)
      modifies this`damage
      ensures damage == old(damage)[id := total]
    {
      damage := damage[id := total];
    }

    /** Say that `id` is dead, and answer whether this is the first time. */
    method MarkDead(id: Id) returns (first: bool)
      modifies this`dead
      ensures first <==> id !in old(dead)
      ensures dead == old(dead) + {id}
    {
      first := id !in dead;
      dead := dead + {id};
    }

    method Spawn(id: Id, maxHealth: nat)
      modifies this`creatures
      ensures State() == After(old(State()), Spawned(id, maxHealth))
      ensures creatures == if id in old(creatures) then old(creatures) else old(creatures)[id := maxHealth]
    {
      if id !in creatures {
        creatures := creatures[id := maxHealth];
      }
    }

    method Perform(target: Id, strength: nat, inRange: bool) returns (outcome: Outcome)
      modifies this
      ensures State() == After(old(State()), Swing(target, strength, inRange))
      ensures outcome == Result(old(State()), Swing(target, strength, inRange))
      ensures var was := if target in old(damage) then old(damage)[target] else 0;
        if !(strength > 0 && inRange && target in old(creatures) && target !in old(dead) && was < old(creatures)[target])
        then outcome == Refused && State() == old(State())
        else
          var health := old(creatures)[target] - was;
          var taken := if strength < health then strength else health;
          outcome == Landed(taken, health - taken, taken == health) && creatures == old(creatures)
          && damage == old(damage)[target := was + taken]
          && dead == if taken == health then old(dead) + {target} else old(dead)
    {
      if strength == 0 || target !in creatures {
        return Refused;
      }
      var maxHealth := creatures[target];
      if target in dead || maxHealth <= State().DamageTo(target) || !inRange {
        return Refused;
      }
      outcome := Hit(target, maxHealth, strength);
    }

    method Hit(target: Id, maxHealth: nat, strength: nat) returns (outcome: Outcome)
      requires target in creatures && creatures[target] == maxHealth && strength > 0
      requires target !in dead && State().DamageTo(target) < maxHealth
      modifies this`damage, this`dead
      ensures State() == After(old(State()), Swing(target, strength, true))
      ensures outcome == Result(old(State()), Swing(target, strength, true))
    {
      var before := Less(maxHealth, State().DamageTo(target));
      var left := Less(before, strength);
      SetDamage(target, Less(maxHealth, left));
      var kill := false;
      if left == 0 {
        kill := MarkDead(target);
      }
      outcome := Landed(before - left, left, kill);
    }
  }

  // --- over any interleaving ---

  function Ran(h: Health, events: seq<Event>): Health {
    if events == [] then h else After(Ran(h, events[..|events| - 1]), events[|events| - 1])
  }

  /** The points all the swings of a run took off one creature. */
  function Taken(h: Health, events: seq<Event>, id: Id): nat {
    if events == [] then 0
    else
      var before, e := events[..|events| - 1], events[|events| - 1];
      var r := Result(Ran(h, before), e);
      Taken(h, before, id) + if r.Landed? && e.target == id then r.taken else 0
  }

  /** How many swings of a run were the kill of one creature. */
  function Kills(h: Health, events: seq<Event>, id: Id): nat {
    if events == [] then 0
    else
      var before, e := events[..|events| - 1], events[|events| - 1];
      var r := Result(Ran(h, before), e);
      Kills(h, before, id) + if r.Landed? && r.kill && e.target == id then 1 else 0
  }

  /** The strength of every swing that could reach the creature once it existed. */
  function Aimed(h: Health, events: seq<Event>, id: Id): nat {
    if events == [] then 0
    else
      var before, e := events[..|events| - 1], events[|events| - 1];
      Aimed(h, before, id) + if e.Swing? && e.target == id && e.inRange && id in Ran(h, before).creatures then e.strength else 0
  }

  /** A creature is dead exactly when it had health and has lost all of it. */
  ghost predicate Sound(h: Health) {
    h.damage.Keys <= h.creatures.Keys && h.dead <= h.creatures.Keys &&
    forall id | id in h.creatures ::
      h.DamageTo(id) <= h.creatures[id] && (id in h.dead <==> h.creatures[id] > 0 && h.DamageTo(id) == h.creatures[id])
  }

  lemma AfterSound(h: Health, e: Event)
    requires Sound(h)
    ensures Sound(After(h, e))
    ensures forall id | id in h.creatures :: id in After(h, e).creatures && After(h, e).creatures[id] == h.creatures[id]
    ensures forall id: Id :: h.DamageTo(id) <= After(h, e).DamageTo(id)
    ensures h.dead <= After(h, e).dead
  {
  }

  lemma {:induction false} RanSound(h: Health, events: seq<Event>)
    requires Sound(h)
    ensures Sound(Ran(h, events))
  {
    if events != [] {
      RanSound(h, events[..|events| - 1]);
      AfterSound(Ran(h, events[..|events| - 1]), events[|events| - 1]);
    }
  }

  /** Damage never falls, nor does a maximum change, however a run goes on. */
  lemma {:induction false} NeverHeals(h: Health, events: seq<Event>, k: nat, id: Id)
    requires Sound(h) && k <= |events|
    ensures Ran(h, events[..k]).DamageTo(id) <= Ran(h, events).DamageTo(id)
    ensures Ran(h, events[..k]).dead <= Ran(h, events).dead
    ensures id in Ran(h, events[..k]).creatures
      ==> id in Ran(h, events).creatures && Ran(h, events).creatures[id] == Ran(h, events[..k]).creatures[id]
  {
    hide Sound, After;
    if k < |events| {
      var before := events[..|events| - 1];
      assert before[..k] == events[..k];
      NeverHeals(h, before, k, id);
      RanSound(h, before);
      AfterSound(Ran(h, before), events[|events| - 1]);
    } else {
      assert events[..k] == events;
    }
  }

  /** The points the swings took sum to the damage, and the kill came once: when it ran out. */
  lemma {:induction false} TakenIsDamage(h: Health, events: seq<Event>, id: Id)
    requires Sound(h)
    ensures h.DamageTo(id) + Taken(h, events, id) == Ran(h, events).DamageTo(id)
    ensures (if id in h.dead then 1 else 0) + Kills(h, events, id) == if id in Ran(h, events).dead then 1 else 0
  {
    if events != [] {
      var before, e := events[..|events| - 1], events[|events| - 1];
      TakenIsDamage(h, before, id);
      RanSound(h, before);
      var mid := Ran(h, before);
      assert Sound(mid);
    }
  }

  /** One kill at most, and exactly when the creature had health and has lost it all. */
  lemma KilledOnce(h: Health, events: seq<Event>, id: Id)
    requires Sound(h) && id !in h.dead
    ensures Kills(h, events, id) <= 1
    ensures Kills(h, events, id) == 1
       <==> id in Ran(h, events).creatures && Ran(h, events).creatures[id] > 0
            && Ran(h, events).DamageTo(id) == Ran(h, events).creatures[id]
  {
    TakenIsDamage(h, events, id);
    RanSound(h, events);
  }

  /** Whoever swings, and in whatever order: the damage is the sum of the blows, up to the maximum. */
  lemma {:induction false} DamageIsCapped(h: Health, events: seq<Event>, id: Id)
    requires Sound(h) && h.DamageTo(id) == 0
    ensures id in Ran(h, events).creatures ==>
      Ran(h, events).DamageTo(id)
        == if Aimed(h, events, id) < Ran(h, events).creatures[id] then Aimed(h, events, id) else Ran(h, events).creatures[id]
    ensures id !in Ran(h, events).creatures ==> Aimed(h, events, id) == 0 && Ran(h, events).DamageTo(id) == 0
  {
    if events != [] {
      var before, e := events[..|events| - 1], events[|events| - 1];
      DamageIsCapped(h, before, id);
      RanSound(h, before);
      var mid := Ran(h, before);
      assert Sound(mid);
    }
  }
}
