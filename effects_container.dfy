/**
 * The effects panel: which effect is active, how a tap on an effect tile toggles it,
 * and which tile is drawn as active. The HTTP calls are represented by their outcome.
 */
module EffectsContainer {
  import opened Wrappers
  import opened JsString

  datatype Effect = Effect(name: string)

  /** The request a tap issues. */
  datatype Call = StopEffect(priority: int) | ApplyEffect(effect: string)

  /** The reply of the active-signal request: the component id and its value. */
  datatype ActiveSignal = ActiveSignal(componentId: string, value: string)

  /** A tap stops the active effect when it is the one tapped, otherwise applies the tapped one. */
  function CallFor(active: Option<Effect>, effect: string): Call
  {
    if active.Some? && active.value.name == effect then StopEffect(100) else ApplyEffect(effect)
  }

  /** The active effect after a tap whose request succeeded (`ok`) or failed. */
  function Tap(active: Option<Effect>, effect: string, ok: bool): Option<Effect>
  {
    if !ok then active
    else if CallFor(active, effect).StopEffect? then None
    else Some(Effect(effect))
  }

  /** The reply of the active-signal request names an effect source. */
  predicate NamesEffect(signal: ActiveSignal)
  {
    Includes(Lower(signal.componentId), "effect")
  }

  /** A tile is drawn as active when its name is the active effect's name. */
  predicate TileIsActive(name: string, active: Option<Effect>)
  {
    active.Some? && name == active.value.name
  }

  class EffectTileContainer {
    var effects: Option<seq<Effect>>
    var activeEffect: Option<Effect>

    constructor ()
      ensures effects.None? && activeEffect.None?
    {
      effects := None;
      activeEffect := None;
    }

    /** `ApplyLedEffects`: issues the tap's request; only a successful one changes the active effect. */
    method ApplyLedEffects(effect: string, callSucceeds: bool) returns (call: Call)
      modifies this`activeEffect
      ensures call == CallFor(old(activeEffect), effect)
      ensures activeEffect == Tap(old(activeEffect), effect, callSucceeds)
    {
      if activeEffect.Some? && activeEffect.value.name == effect {
        call := StopEffect(100);
        if callSucceeds {
          activeEffect := None;
        }
      } else {
        call := ApplyEffect(effect);
        if callSucceeds {
          activeEffect := Some(Effect(effect));
        }
      }
    }

    /** `fetchCurrentInputSource`: a reply naming an effect makes its value the active effect. */
    method FetchCurrentInputSource(response: Option<ActiveSignal>)
      modifies this`activeEffect
      ensures activeEffect == if response.Some? && NamesEffect(response.value)
                              then Some(Effect(response.value.value)) else old(activeEffect)
    {
      if response.Some? && Includes(Lower(response.value.componentId), "effect") {
        activeEffect := Some(Effect(response.value.value));
      }
    }

    /** `fetchLedEffects`: a successful reply replaces the effect list. */
    method FetchLedEffects(response: Option<seq<Effect>>)
      modifies this`effects
      ensures effects == if response.Some? then response else old(effects)
    {
      if response.Some? {
        effects := response;
      }
    }

    /** The effect hook on `hasCleared`: any change of the flag clears the active effect. */
    method OnHasClearedChanged()
      modifies this`activeEffect
      ensures activeEffect.None?
    {
      activeEffect := None;
    }
  }

  // ---------------------------------------------------------------- properties

  /** Tapping the active effect stops it (priority 100) and, on success, clears it. */
  lemma TapActiveStops(e: string)
    ensures CallFor(Some(Effect(e)), e) == StopEffect(100)
    ensures Tap(Some(Effect(e)), e, true) == None
  {
  }

  /** Tapping any other effect applies it and, on success, makes it the active one. */
  lemma TapOtherApplies(active: Option<Effect>, e: string)
    requires !TileIsActive(e, active)
    ensures CallFor(active, e) == ApplyEffect(e)
    ensures Tap(active, e, true) == Some(Effect(e))
  {
  }

  /** A failed request leaves the active effect as it was. */
  lemma FailedTapKeepsState(active: Option<Effect>, e: string)
    ensures Tap(active, e, false) == active
  {
  }

  /** Two successful taps on the same effect, from no active effect, end with none. */
  lemma TapTwiceRestores(e: string)
    ensures Tap(Tap(None, e, true), e, true) == None
  {
  }

  /** After a successful tap, the tapped tile is the only one that can be active. */
  lemma AfterTapOnlyTappedTile(active: Option<Effect>, e: string, name: string)
    requires TileIsActive(name, Tap(active, e, true))
    ensures name == e
  {
  }

  /** With distinct names at most one tile is active, and none without an active effect. */
  lemma AtMostOneTileActive(names: seq<string>, active: Option<Effect>)
    requires forall i, j :: 0 <= i < j < |names| ==> names[i] != names[j]
    ensures forall i, j ::
              0 <= i < |names| && 0 <= j < |names| && TileIsActive(names[i], active) && TileIsActive(names[j], active)
              ==> i == j
    ensures active.None? ==> forall i :: 0 <= i < |names| ==> !TileIsActive(names[i], active)
  {
  }

  /** The controller's "EFFECT" id names an effect source; "COLOR" does not. */
  lemma EffectIdsAreDetected()
    ensures NamesEffect(ActiveSignal("EFFECT", "Rainbow swirl"))
    ensures !NamesEffect(ActiveSignal("COLOR", "Rainbow swirl"))
  {
    assert Lower("EFFECT") == "effect";
    assert OccursAt(Lower("EFFECT"), "effect", 0);
    assert Lower("COLOR") == "color";
  }
}
