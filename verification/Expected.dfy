/**
 `expected<T, E>`: a hand-written union with a flag.  Its members are constructed and destroyed in
 place by code that may throw half-way; what every normal and exceptional exit leaves behind.

 Which operations cannot throw is a property of the types (`Traits`); whether one that can throw
 does throw is an input (`Throws`).
 */
module Expected {
  import opened Common

  /** A union member: not constructed, or alive; the content of a moved-from object is unknown. */
  datatype Slot<X> = Dead | Alive(content: Option<X>)

  class Cell<X> {
    var slot: Slot<X>

    constructor (slot: Slot<X>)
      ensures this.slot == slot
    {
      this.slot := slot;
    }

    /** `destroy_at`. */
    method Destroy()
      requires slot.Alive?
      modifies this
      ensures slot == Dead
    {
      slot := Dead;
    }

    /** `construct_at`, with an argument that is moved or copied in. */
    method Construct(x: Option<X>, throws: bool) returns (threw: bool)
      requires slot.Dead?
      modifies this
      ensures threw == throws
      ensures slot == (if throws then Dead else Alive(x))
    {
      threw := throws;
      if !throws {
        slot := Alive(x);
      }
    }

    /** Assignment to a live object; if it throws, the content is unknown. */
    method Assign(x: X, throws: bool) returns (threw: bool)
      requires slot.Alive?
      modifies this
      ensures threw == throws
      ensures slot == Alive(if throws then None else Some(x))
    {
      threw := throws;
      slot := Alive(if throws then None else Some(x));
    }
  }

  /** Replaces the live member `oldval` by a `newval` constructed from `x`, whichever of the three
      strategies the types allow.  It throws exactly when constructing from the argument throws, and
      then nothing has changed. */
  method Reinit<N, O>(newval: Cell<N>, oldval: Cell<O>, x: N,
                      nothrowArg: bool, nothrowMoveNew: bool, nothrowMoveOld: bool,
                      argThrows: bool) returns (threw: bool)
    requires newval.slot.Dead? && oldval.slot.Alive?
    requires nothrowArg || nothrowMoveNew || nothrowMoveOld
    requires nothrowArg ==> !argThrows
    modifies newval, oldval
    ensures threw == argThrows
    ensures threw ==> newval.slot == Dead && oldval.slot == old(oldval.slot)
    ensures !threw ==> newval.slot == Alive(Some(x)) && oldval.slot == Dead
  {
    if nothrowArg {
      oldval.Destroy();
      threw := newval.Construct(Some(x), false);
    } else if nothrowMoveNew {
      var tmp := new Cell<N>(Dead);
      threw := tmp.Construct(Some(x), argThrows);
      if threw {
        return;
      }
      oldval.Destroy();
      threw := newval.Construct(tmp.slot.content, false);
    } else {
      var kept := oldval.slot.content;
      var tmp := new Cell<O>(Alive(kept));
      oldval.slot := Alive(None);
      oldval.Destroy();
      threw := newval.Construct(Some(x), argThrows);
      if threw {
        var again := oldval.Construct(tmp.slot.content, false);
      }
    }
  }

  class Expected<T, E> {
    const val: Cell<T>
    const unex: Cell<E>
    var hasVal: bool

    /** Exactly one union member is alive, and the flag names it. */
    ghost predicate Valid()
      reads this, val, unex
    {
      && (hasVal ==> val.slot.Alive? && unex.slot.Dead?)
      && (!hasVal ==> val.slot.Dead? && unex.slot.Alive?)
    }

    constructor OfValue(x: T)
      ensures Valid() && hasVal && val.slot == Alive(Some(x)) && fresh(val) && fresh(unex)
    {
      val := new Cell<T>(Alive(Some(x)));
      unex := new Cell<E>(Dead);
      hasVal := true;
    }

    constructor OfError(e: E)
      ensures Valid() && !hasVal && unex.slot == Alive(Some(e)) && fresh(val) && fresh(unex)
    {
      val := new Cell<T>(Dead);
      unex := new Cell<E>(Alive(Some(e)));
      hasVal := false;
    }

    /** Assignment from a value.  An exception from replacing an error leaves that error; one from
        assigning over a value leaves a value whose content is unknown. */
    method AssignValue(x: T, nothrowArg: bool, nothrowMoveT: bool, nothrowMoveE: bool, throws: bool)
      returns (threw: bool)
      requires Valid() && (nothrowArg || nothrowMoveT || nothrowMoveE)
      requires !hasVal && nothrowArg ==> !throws
      modifies this, val, unex
      ensures Valid() && threw == throws
      ensures !threw ==> hasVal && val.slot == Alive(Some(x))
      ensures threw ==> hasVal == old(hasVal) && unex.slot == old(unex.slot)
    {
      if hasVal {
        threw := val.Assign(x, throws);
        return;
      }
      threw := Reinit(val, unex, x, nothrowArg, nothrowMoveT, nothrowMoveE, throws);
      if threw {
        return;
      }
      hasVal := true;
    }

    /** Assignment from an `unexpected`, the mirror image. */
    method AssignError(e: E, nothrowArg: bool, nothrowMoveT: bool, nothrowMoveE: bool, throws: bool)
      returns (threw: bool)
      requires Valid() && (nothrowArg || nothrowMoveT || nothrowMoveE)
      requires hasVal && nothrowArg ==> !throws
      modifies this, val, unex
      ensures Valid() && threw == throws
      ensures !threw ==> !hasVal && unex.slot == Alive(Some(e))
      ensures threw ==> hasVal == old(hasVal) && val.slot == old(val.slot)
    {
      if hasVal {
        threw := Reinit(unex, val, e, nothrowArg, nothrowMoveE, nothrowMoveT, throws);
      } else {
        threw := unex.Assign(e, throws);
      }
      if threw {
        return;
      }
      hasVal := false;
    }

    /** `emplace` is offered only where construction cannot throw. */
    method Emplace(x: T)
      requires Valid()
      modifies this, val, unex
      ensures Valid() && hasVal && val.slot == Alive(Some(x))
    {
      if hasVal {
        val.Destroy();
      } else {
        unex.Destroy();
        hasVal := true;
      }
      var threw := val.Construct(Some(x), false);
    }

    /** Swap of a value (here) with an error (there), as the function `Crossed` says. */
    method SwapAcross(rhs: Expected<T, E>, nothrowMoveE: bool, throws: Throws) returns (threw: bool)
      requires Valid() && rhs.Valid() && hasVal && !rhs.hasVal
      requires Apart(rhs)
      modifies this, val, unex, rhs, rhs.val, rhs.unex
      ensures Pair(View(), rhs.View(), threw)
              == Crossed(old(val.slot.content), old(rhs.unex.slot.content), nothrowMoveE, throws)
    {
      if nothrowMoveE {
        var tmp := rhs.unex.slot.content;
        rhs.unex.slot := Alive(None);
        rhs.unex.Destroy();
        threw := rhs.val.Construct(val.slot.content, throws.t1);
        val.slot := Alive(None);
        if threw {
          var again := rhs.unex.Construct(tmp, false);
          return;
        }
        val.Destroy();
        threw := unex.Construct(tmp, false);
      } else {
        var tmp := val.slot.content;
        val.slot := Alive(None);
        if throws.t1 {
          return true;
        }
        val.Destroy();
        threw := unex.Construct(rhs.unex.slot.content, throws.e1);
        rhs.unex.slot := Alive(None);
        if !threw {
          rhs.unex.Destroy();
          threw := rhs.val.Construct(tmp, throws.t2);
          tmp := None;
        }
        if threw {
          var again := val.Construct(tmp, throws.t3);
          return;
        }
      }
      hasVal := false;
      rhs.hasVal := true;
    }

    /** The two objects share no storage. */
    ghost predicate Apart(rhs: Expected<T, E>) {
      this != rhs && val != rhs.val && unex != rhs.unex && (val as object) != rhs.unex && (rhs.val as object) != unex
    }

    /** `swap` in all four cases.  When T or E moves without throwing, every exit leaves both sides
        with one live member named by the flag, and a normal exit has exchanged the two sides; an
        exception from swapping a value with an error leaves the error untouched if errors move without
        throwing, and the value untouched otherwise. */
    method Swap(rhs: Expected<T, E>, nothrowMoveT: bool, nothrowMoveE: bool, swapThrows: bool, throws: Throws)
      returns (threw: bool)
      requires Valid() && rhs.Valid() && (this == rhs || Apart(rhs))
      requires (nothrowMoveT || nothrowMoveE) && Possible(throws, nothrowMoveT, nothrowMoveE)
      modifies this, val, unex, rhs, rhs.val, rhs.unex
      ensures Valid() && rhs.Valid()
      ensures !threw ==> View() == old(rhs.View()) && rhs.View() == old(View())
      ensures threw ==> hasVal == old(hasVal) && rhs.hasVal == old(rhs.hasVal)
      ensures threw && old(hasVal != rhs.hasVal) ==>
                if old(hasVal) == nothrowMoveE then rhs.View() == old(rhs.View()) else View() == old(View())
    {
      if rhs.hasVal {
        if hasVal {
          threw := swapThrows;
          if threw {
            val.slot := Alive(None);
            rhs.val.slot := Alive(None);
          } else {
            var tmp := val.slot;
            val.slot := rhs.val.slot;
            rhs.val.slot := tmp;
          }
        } else {
          threw := rhs.SwapAcross(this, nothrowMoveE, throws);
        }
      } else {
        if hasVal {
          threw := SwapAcross(rhs, nothrowMoveE, throws);
        } else {
          threw := swapThrows;
          if threw {
            unex.slot := Alive(None);
            rhs.unex.slot := Alive(None);
          } else {
            var tmp := unex.slot;
            unex.slot := rhs.unex.slot;
            rhs.unex.slot := tmp;
          }
        }
      }
    }

    /** Whole-object copy assignment overwrites the flag before testing it, so it always assigns to the
        member that the other side holds.  That is defined, because that member is alive here, if and
        only if both sides held the same kind of member before; a copy that throws leaves that member
        with unknown content. */
    method AssignWhole(rhs: Expected<T, E>, throws: bool) returns (defined: bool, threw: bool)
      requires Valid() && rhs.Valid() && (this == rhs || Apart(rhs))
      modifies this, val, unex
      ensures defined <==> old(hasVal == rhs.hasVal)
      ensures defined ==> Valid() && threw == throws && hasVal == old(hasVal)
      ensures defined && !threw ==> View() == old(rhs.View())
    {
      threw := throws;
      hasVal := rhs.hasVal;
      if hasVal && rhs.hasVal {
        defined := val.slot.Alive?;
        if defined {
          val.slot := if throws then Alive(None) else rhs.val.slot;
        }
      } else {
        defined := unex.slot.Alive?;
        if defined {
          unex.slot := if throws then Alive(None) else rhs.unex.slot;
        }
      }
    }

    ghost function View(): Union<T, E>
      reads this, val, unex
    {
      Union(val.slot, unex.slot, hasVal)
    }
  }

  // ---------------------------------------------------------------- swap, as a function

  /** Which of the moves in the else-branch throw, should they be reached: the first move of T, the
      move of E, the second move of T, and the move of T in the handler.  The other branch uses the
      first only. */
  datatype Throws = Throws(t1: bool, e1: bool, t2: bool, t3: bool)

  datatype Union<T, E> = Union(val: Slot<T>, unex: Slot<E>, hasVal: bool)

  datatype Pair<T, E> = Pair(lhs: Union<T, E>, rhs: Union<T, E>, threw: bool)

  predicate Sound<T, E>(u: Union<T, E>) {
    if u.hasVal then u.val.Alive? && u.unex.Dead? else u.val.Dead? && u.unex.Alive?
  }

  /** The outcome of swapping an expected that holds value `v` with one that holds error `e`. */
  function Crossed<T, E>(v: Option<T>, e: Option<E>, nothrowMoveE: bool, throws: Throws): Pair<T, E> {
    if nothrowMoveE then
      if throws.t1 then Pair(Union(Alive(None), Dead, true), Union(Dead, Alive(e), false), true)
      else Pair(Union(Dead, Alive(e), false), Union(Alive(v), Dead, true), false)
    else
      if throws.t1 then Pair(Union(Alive(None), Dead, true), Union(Dead, Alive(e), false), true)
      else if throws.e1 then
        Pair(Union(if throws.t3 then Dead else Alive(v), Dead, true), Union(Dead, Alive(None), false), true)
      else if throws.t2 then
        Pair(Union(if throws.t3 then Dead else Alive(None), Alive(e), true), Union(Dead, Dead, false), true)
      else
        Pair(Union(Dead, Alive(e), false), Union(Alive(v), Dead, true), false)
  }

  /** The moves throw only where the types allow it. */
  predicate Possible(throws: Throws, nothrowMoveT: bool, nothrowMoveE: bool) {
    (nothrowMoveT ==> !throws.t1 && !throws.t2 && !throws.t3) && (nothrowMoveE ==> !throws.e1)
  }

  /** Every exit of the swap leaves both sides with exactly one live member, named by the flag, if and
      only if T or E moves without throwing.  The declared constraint does not ask for that: it asks
      for a default constructor that does not throw. */
  lemma SwapIsExact<T, E>(v: Option<T>, e: Option<E>, nothrowMoveT: bool, nothrowMoveE: bool)
    ensures (forall throws: Throws :: Possible(throws, nothrowMoveT, nothrowMoveE) ==>
               Sound(Crossed(v, e, nothrowMoveE, throws).lhs) && Sound(Crossed(v, e, nothrowMoveE, throws).rhs))
            <==> nothrowMoveT || nothrowMoveE
  {
    if !nothrowMoveT && !nothrowMoveE {
      var worst := Throws(false, true, false, true);
      assert Possible(worst, nothrowMoveT, nothrowMoveE);
      assert !Sound(Crossed(v, e, nothrowMoveE, worst).lhs);
    }
  }
}
