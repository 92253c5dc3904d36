/**
 * The kinds of damage the health analyzer reports (health_analyzer/src/lib.rs)
 * and the iterator over them. Reading the damage values themselves is a
 * floating-point register read and is not part of this model.
 */
module HealthAnalyzers {
  import opened Bytes
  import opened Wrappers

  /** `#[repr(u8)] enum DamageType`, discriminants 0 to 11 in declaration order. */
  datatype DamageType =
    | Asphyxiation | Bloodloss | Blunt | Cellular | Caustic | Cold
    | Heat | Piercing | Poison | Radiation | Shock | Slash
  {
    /** The declared discriminant. */
    function Discriminant(): (d: byte)
      ensures d <= 11
    {
      match this
      case Asphyxiation => 0 case Bloodloss => 1 case Blunt => 2 case Cellular => 3
      case Caustic => 4 case Cold => 5 case Heat => 6 case Piercing => 7
      case Poison => 8 case Radiation => 9 case Shock => 10 case Slash => 11
    }
  }

  /** `transmute::<u8, DamageType>`, which is defined only on the declared discriminants. */
  function Transmute(value: byte): (t: DamageType)
    requires value <= Slash.Discriminant()
    ensures t.Discriminant() == value
  {
    match value
    case 0 => Asphyxiation case 1 => Bloodloss case 2 => Blunt case 3 => Cellular
    case 4 => Caustic case 5 => Cold case 6 => Heat case 7 => Piercing
    case 8 => Poison case 9 => Radiation case 10 => Shock case _ => Slash
  }

  /** Every damage type, in declaration order. */
  const ALL: seq<DamageType> := [Asphyxiation, Bloodloss, Blunt, Cellular, Caustic, Cold,
                                 Heat, Piercing, Poison, Radiation, Shock, Slash]

  /** What the iterator yields from counter `next` on: the types whose discriminants are `next` and up. */
  function Remaining(next: nat): (s: seq<DamageType>)
    ensures |s| == if next <= 12 then 12 - next else 0
    decreases 12 - next
  {
    if next > Slash.Discriminant() then [] else [Transmute(next)] + Remaining(next + 1)
  }

  /** Yielded from the start, the iterator gives every damage type once, in declaration order. */
  lemma {:induction false} RemainingFromStart(next: nat)
    requires next <= 12
    ensures Remaining(next) == ALL[next..]
    decreases 12 - next
  {
    if next < 12 {
      RemainingFromStart(next + 1);
      assert ALL[next..] == [ALL[next]] + ALL[next + 1..];
    }
  }

  /** `struct DamageTypeIterator`: the discriminant of the next type to yield. */
  class DamageTypeIterator {
    var next: byte

    /** The counter never passes one past the last discriminant. */
    predicate Valid()
      reads this
    {
      next <= 12
    }

    /** `Default`: the iteration starts at the first type. */
    constructor ()
      ensures next == 0 && Valid()
    {
      next := 0;
    }

    /**
     * `next()`: past the last type, nothing, with the counter left alone;
     * otherwise the type whose discriminant the counter holds, and the
     * counter moves on by one. What is left to yield is then the rest of
     * what was left.
     */
    method Next() returns (item: Option<DamageType>)
      modifies this
      ensures old(Valid()) ==> Valid()
      ensures old(next) > Slash.Discriminant() ==> item == None && next == old(next)
      ensures old(next) <= Slash.Discriminant() ==> item == Some(Transmute(old(next))) && next == old(next) + 1
      ensures Remaining(old(next)) == (if item.Some? then [item.value] else []) + Remaining(next)
    {
      if next > Slash.Discriminant() {
        return None;
      }
      item := Some(Transmute(next));
      next := next + 1;
    }
  }
}
