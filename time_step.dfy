/**
 * `TimeStep` of src/world.rs: the world's speed and the last frame's delta
 * time. A speed of 0 means the game is paused; `toggle` switches between
 * paused and normal speed and returns the meter value the HUD shows.
 */
module TimeSteps {

  /** `TimeStep::STOP.0`, `PLAY.0`, `FAST.0` and `FASTER.0`. */
  const STOP: real := 0.0
  const PLAY: real := 1.0
  const FAST: real := 2.0
  const FASTER: real := 4.0

  /** What `toggle` does to a speed: the new speed and the value it returns. */
  datatype Toggled = Toggled(speed: real, meter: nat)

  /** `toggle` on a time step whose speed is `speed`. */
  function ToggleSpeed(speed: real): (r: Toggled)
    ensures (r.speed == STOP) <==> (speed != STOP)
    ensures r.meter == 3 <==> speed == STOP
  {
    if speed == STOP then Toggled(PLAY, 3) else Toggled(STOP, 1)
  }

  /**
   * A toggle always changes whether the game is paused, and the meter it
   * returns says which way: 3 when the game resumes, 1 when it pauses.
   */
  lemma ToggleFlipsPause(speed: real)
    ensures (ToggleSpeed(speed).speed == STOP) <==> (speed != STOP)
    ensures ToggleSpeed(speed).meter == 3 <==> speed == STOP
    ensures ToggleSpeed(speed).meter == 1 <==> speed != STOP
  {
  }

  /** Two toggles from paused come back to paused, returning 3 then 1. */
  lemma ToggleTwiceFromPaused()
    ensures ToggleSpeed(STOP) == Toggled(PLAY, 3)
    ensures ToggleSpeed(ToggleSpeed(STOP).speed) == Toggled(STOP, 1)
  {
  }

  /** Two toggles from any running speed resume at `PLAY`, not at the speed left. */
  lemma ToggleTwiceForgetsSpeed(speed: real)
    requires speed != STOP
    ensures ToggleSpeed(ToggleSpeed(speed).speed).speed == PLAY
    ensures speed == FAST ==> ToggleSpeed(ToggleSpeed(speed).speed).speed != speed
  {
  }

  class TimeStep {
    /** `self.0`: the speed factor. */
    var speed: real
    /** `self.1`: the last frame's delta time. */
    var dt: real

    constructor (speed: real, dt: real)
      ensures this.speed == speed && this.dt == dt
    {
      this.speed := speed;
      this.dt := dt;
    }

    /** `is_paused`: the speed is exactly 0. */
    predicate IsPaused()
      reads this
    {
      speed == STOP
    }

    /** `set_from`: only the speed is copied; the delta time stays. */
    method SetFrom(other: TimeStep)
      modifies this
      ensures speed == old(other.speed) && dt == old(dt)
    {
      speed := other.speed;
    }

    /** `set_speed` */
    method SetSpeed(s: real)
      modifies this
      ensures speed == s && dt == old(dt)
    {
      speed := s;
    }

    /** `set_delta_time` */
    method SetDeltaTime(d: real)
      modifies this
      ensures dt == d && speed == old(speed)
    {
      dt := d;
    }

    /**
     * `toggle`: paused becomes `PLAY` and returns 3, anything else becomes
     * `STOP` and returns 1. The delta time is untouched.
     */
    method Toggle() returns (meter: nat)
      modifies this
      ensures Toggled(speed, meter) == ToggleSpeed(old(speed))
      ensures IsPaused() <==> !old(IsPaused())
      ensures dt == old(dt)
    {
      if IsPaused() {
        speed := PLAY;
        meter := 3;
      } else {
        speed := STOP;
        meter := 1;
      }
    }
  }
}
