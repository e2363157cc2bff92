/**
 * The PWM vibrator driver: its duty-cycle setting, the timed-output enable
 * call that starts the motor with a one-shot timer or stops it, and the
 * probe, suspend and resume hooks. The PWM controller, the enable and
 * power GPIO lines and the hrtimer are represented by the state the driver
 * puts them in.
 */
module Vibrator {
  import opened Wrappers

  /** PLAYBACK_PERIOD_US: the PWM period, and the largest duty cycle accepted. */
  const PlaybackPeriodUs: int := 50000
  /** PLAYBACK_DUTY_US: the duty cycle set at probe and at resume. */
  const PlaybackDutyUs: int := 36000
  /** ZERO_DUTY_US: the duty cycle the PWM is left configured with when stopped. */
  const ZeroDutyUs: int := 25000

  /** What the driver last told the PWM controller. */
  datatype Pwm = Pwm(duty: int, period: int, enabled: bool)

  /** An armed one-shot timer, as the seconds and nanoseconds passed to ktime_set. */
  datatype Expiry = Expiry(sec: nat, nsec: nat)

  /** set_dutycycle's bounds: the value limited to [0, PLAYBACK_PERIOD_US]. */
  function ClampDuty(val: int): (d: int)
    ensures 0 <= d <= PlaybackPeriodUs
    ensures 0 <= val <= PlaybackPeriodUs ==> d == val
    ensures val > PlaybackPeriodUs ==> d == PlaybackPeriodUs
    ensures val < 0 ==> d == 0
  {
    var v := if val > PlaybackPeriodUs then PlaybackPeriodUs else val;
    if v < 0 then 0 else v
  }

  /** A timeout in ms as ktime_set's (seconds, nanoseconds); joining them back gives the milliseconds. */
  function SplitTimeout(ms: nat): (e: Expiry)
    ensures e.sec * 1_000_000_000 + e.nsec == ms * 1_000_000
    ensures e.nsec < 1_000_000_000 && e.nsec % 1_000_000 == 0
    ensures e.sec * 1000 + e.nsec / 1_000_000 == ms
  {
    Expiry(ms / 1000, (ms % 1000) * 1_000_000)
  }

  class Device {
    /** vib->pwm_duty. */
    var pwmDuty: int
    /** The static `timeout`: the last value passed to enable, unclamped. */
    var timeout: int
    var pwm: Pwm
    /** Whether the enable and power GPIO lines (those the board has) are driven high. */
    var linesHigh: bool
    var timer: Option<Expiry>

    ghost predicate Valid()
      reads this
    {
      0 <= pwmDuty <= PlaybackPeriodUs
    }

    /** vibrator_probe on its success path: both lines low, duty at the playback default. */
    constructor ()
      ensures Valid()
      ensures pwmDuty == PlaybackDutyUs && timeout == 0 && !linesHigh && timer == None
      ensures pwm == Pwm(0, 0, false)
    {
      pwmDuty := PlaybackDutyUs;
      timeout := 0;
      pwm := Pwm(0, 0, false);
      linesHigh := false;
      timer := None;
    }

    /** vibrator_start: PWM at the current duty over the playback period, lines high. */
    method Start()
      requires Valid()
      modifies this`pwm, this`linesHigh
      ensures Valid()
      ensures pwm == Pwm(pwmDuty, PlaybackPeriodUs, true) && linesHigh
    {
      pwm := Pwm(pwmDuty, PlaybackPeriodUs, true);
      linesHigh := true;
    }

    /** vibrator_stop: PWM configured at the zero duty and disabled, lines low. */
    method Stop()
      requires Valid()
      modifies this`pwm, this`linesHigh
      ensures Valid()
      ensures pwm == Pwm(ZeroDutyUs, PlaybackPeriodUs, false) && !linesHigh
    {
      pwm := Pwm(ZeroDutyUs, PlaybackPeriodUs, true);
      pwm := pwm.(enabled := false);
      linesHigh := false;
    }

    /**
     * vibrator_enable: remember the raw value; a positive value starts the
     * motor and (re)arms the timer for that many ms, anything else stops it
     * and leaves the timer as it was.
     */
    method Enable(value: int)
      requires Valid()
      modifies this`timeout, this`pwm, this`linesHigh, this`timer
      ensures Valid()
      ensures timeout == value && pwmDuty == old(pwmDuty)
      ensures value > 0 ==>
        && pwm == Pwm(pwmDuty, PlaybackPeriodUs, true) && linesHigh
        && timer == Some(SplitTimeout(value))
      ensures value <= 0 ==>
        && pwm == Pwm(ZeroDutyUs, PlaybackPeriodUs, false) && !linesHigh
        && timer == old(timer)
    {
      timeout := value;
      var v := value;
      if v < 0 {
        v := 0;
      }
      if v != 0 {
        Start();
        timer := Some(Expiry(v / 1000, (v % 1000) * 1_000_000));
      } else {
        Stop();
      }
    }

    /** vib_timer_func followed by the work it queues: lines low, then stop. */
    method TimerExpired()
      requires Valid()
      modifies this`pwm, this`linesHigh, this`timer
      ensures Valid()
      ensures timer == None && pwm == Pwm(ZeroDutyUs, PlaybackPeriodUs, false) && !linesHigh
    {
      linesHigh := false;
      timer := None;
      Stop();
    }

    /** set_dutycycle: store the clamped value; the whole write is consumed. */
    method SetDutycycle(val: int, count: nat) returns (r: nat)
      requires Valid()
      modifies this`pwmDuty
      ensures Valid()
      ensures r == count && pwmDuty == ClampDuty(val)
    {
      var v := val;
      if v > PlaybackPeriodUs {
        v := PlaybackPeriodUs;
      }
      if v < 0 {
        v := 0;
      }
      pwmDuty := v;
      r := count;
    }

    /** vibrator_suspend: stop the motor and cancel the timer. */
    method Suspend() returns (r: int)
      requires Valid()
      modifies this`pwm, this`linesHigh, this`timer
      ensures Valid()
      ensures r == 0 && timer == None && pwm == Pwm(ZeroDutyUs, PlaybackPeriodUs, false) && !linesHigh
    {
      Stop();
      timer := None;
      r := 0;
    }

    /** vibrator_resume: back to the playback duty cycle. */
    method Resume() returns (r: int)
      requires Valid()
      modifies this`pwmDuty
      ensures Valid()
      ensures r == 0 && pwmDuty == PlaybackDutyUs
    {
      pwmDuty := PlaybackDutyUs;
      r := 0;
    }
  }
}
