/**
 * Spin the bottle (pages/BottleGame.tsx): two pieces of state, a re-entry
 * guard, and a timeout that ends the spin. The draw of `Math.random()` is the
 * parameter `u` in [0, 1); the 5-second timeout firing is the method `Finish`.
 */
module BottleGame {

  /** Every spin turns the bottle at least four full turns. */
  const MinSpin: real := 1440.0
  /** ... plus a random part of up to one more turn. */
  const RandomSpan: real := 360.0

  /** `1440 + Math.random() * 360`. */
  function SpinAmount(u: real): (amount: real)
    requires 0.0 <= u < 1.0
    ensures MinSpin <= amount < MinSpin + RandomSpan
  {
    MinSpin + u * RandomSpan
  }

  class Bottle {
    var rotation: real
    var isSpinning: bool

    constructor ()
      ensures rotation == 0.0 && !isSpinning
    {
      rotation, isSpinning := 0.0, false;
    }

    /**
     * `handleSpin`: ignored while a spin is running; otherwise the bottle turns
     * on from where it stands, always forwards.
     */
    method Spin(u: real)
      requires 0.0 <= u < 1.0
      modifies this
      ensures old(isSpinning) ==> unchanged(this)
      ensures !old(isSpinning) ==> isSpinning && rotation == old(rotation) + SpinAmount(u)
      ensures old(rotation) <= rotation
      ensures !old(isSpinning) ==> old(rotation) + MinSpin <= rotation < old(rotation) + MinSpin + RandomSpan
    {
      if isSpinning {
        return;
      }
      isSpinning := true;
      var spinAmount := 1440.0 + u * 360.0;
      var newRotation := rotation + spinAmount;
      rotation := newRotation;
    }

    /** The timeout at the end of the spin animation. */
    method Finish()
      modifies this
      ensures !isSpinning && rotation == old(rotation)
    {
      isSpinning := false;
    }
  }
}
