/** Alarms over a tick counter that wraps at 2^32 (src/timer.c, include/timer.h). */
module Timer {
  import opened Bits
  import opened Threads

  const CLOCK_INT_HZ: nat := 1000
  const CHK_ALM_HZ: nat := 1000
  const HALF: nat := 0x8000_0000

  datatype Alarm = Alarm(enabled: bool, start: Word, duration: Word)

  /** A word read as a two's-complement `long`. */
  function Signed(w: Word): int { if w < HALF then w else w - WORD_SIZE }

  /** `time_after(a, b)`, the subtraction wrapping. */
  predicate TimeAfter(a: Word, b: Word) { Signed(Sub(b, a)) < 0 }

  /** `alarm_check` at tick `now`. */
  predicate Check(alarm: Alarm, now: Word) {
    alarm.enabled && TimeAfter(now, Add(alarm.start, alarm.duration))
  }

  /** `alarm_set` at tick `now`, and `alarm_unset`. */
  function Set(now: Word, duration: Word): Alarm { Alarm(true, now, duration) }
  function Unset(alarm: Alarm): Alarm { alarm.(enabled := false) }

  /** `alarm_reset`. */
  function Reset(): Alarm { Alarm(false, 0, 0) }

  /** An alarm that is not set, has been unset or reset rings at no tick. */
  lemma {:induction false} SilentUnlessSet(alarm: Alarm, now: Word)
    ensures !alarm.enabled ==> !Check(alarm, now)
    ensures !Check(Unset(alarm), now) && !Check(Reset(), now)
    ensures !Unset(alarm).enabled && Unset(alarm).start == alarm.start && Unset(alarm).duration == alarm.duration
  {
  }

  /** `_HZ_DIV`: the number of ticks between events of frequency `hz`. */
  function HzDiv(hz: nat): nat
    requires hz > 0
  {
    if hz >= CLOCK_INT_HZ then 1 else CLOCK_INT_HZ / hz
  }

  /** Whether an alarm of this duration rings `elapsed` ticks after it was set. */
  predicate Rings(start: Word, duration: Word, elapsed: Word) {
    Check(Set(start, duration), Add(start, elapsed))
  }

  /** The tick and the deadline differ by duration minus elapsed, wherever they wrapped. */
  lemma {:induction false} AlarmDistance(start: Word, duration: Word, elapsed: Word)
    ensures Sub(Add(start, duration), Add(start, elapsed)) == Sub(duration, elapsed)
  {
  }

  /** An alarm shorter than 2^31 ticks is silent for its whole duration and rings for the next
      2^31 ticks, wherever the counter wraps. */
  lemma {:induction false} RingsExactly(start: Word, duration: Word, elapsed: Word)
    requires duration < HALF
    ensures Rings(start, duration, elapsed) <==> duration < elapsed <= duration + HALF
  {
    AlarmDistance(start, duration, elapsed);
  }

  /** The bound on the duration is exact: an alarm never rings early if and only if it is shorter
      than 2^31 ticks. */
  lemma {:induction false} NeverEarlyIff(start: Word, duration: Word)
    ensures (forall e: Word :: e <= duration ==> !Rings(start, duration, e)) <==> duration < HALF
  {
    if duration < HALF {
      forall e: Word | e <= duration ensures !Rings(start, duration, e) { RingsExactly(start, duration, e); }
    } else {
      AlarmDistance(start, duration, 0);
      assert Rings(start, duration, 0);
    }
  }

  /** The ticks `pause(sec)` asks for, the product wrapping. */
  function PauseTicks(sec: Word): Word { 1000 * sec % 0x1_0000_0000 }

  /** `pause(sec)` cannot end before `sec` seconds if and only if they are fewer than 2^31 ticks;
      longer pauses ring early because the product or the comparison wraps. */
  lemma {:induction false} PauseLongEnoughIff(start: Word, sec: Word)
    ensures (forall e: Word :: e <= 1000 * sec ==> !Rings(start, PauseTicks(sec), e)) <==> 1000 * sec < HALF
  {
    var d := PauseTicks(sec);
    if 1000 * sec < HALF {
      assert d == 1000 * sec;
      forall e: Word | e <= 1000 * sec ensures !Rings(start, d, e) { RingsExactly(start, d, e); }
    } else if d < HALF {
      assert 1000 * sec >= WORD_SIZE;
      RingsExactly(start, d, d + 1);
      assert Rings(start, d, d + 1);
    } else {
      AlarmDistance(start, d, 0);
      assert Rings(start, d, 0);
    }
  }

  /** A concrete pause that ends at the first tick: 2147484 seconds, about 25 days. */
  lemma {:induction false} PauseOf25DaysRingsAtOnce(start: Word)
    ensures Rings(start, PauseTicks(2147484), 1)
  {
    AlarmDistance(start, PauseTicks(2147484), 1);
  }

  /** A thread with its alarm, as the timer interrupt sees it. */
  datatype Sleeper = Sleeper(status: Status, alarm: Alarm)

  /** One timer interrupt for one thread: `ticks` advances, and alarms are checked on every tick
      divisible by `HzDiv(CHK_ALM_HZ)`. */
  function Tick(s: Sleeper, now: Word): Sleeper {
    if now % HzDiv(CHK_ALM_HZ) == 0 && s.status == Blocked && Check(s.alarm, now)
    then Sleeper(Ready, Unset(s.alarm)) else s
  }

  /** The counter `k` ticks after it showed `start`. */
  function Later(start: Word, k: nat): Word { (start + k) % 0x1_0000_0000 }

  /** State after `k` ticks from tick `start`. */
  function TickMany(s: Sleeper, start: Word, k: nat): Sleeper {
    if k == 0 then s else Tick(TickMany(s, start, k - 1), Later(start, k))
  }

  lemma {:induction false} EveryTick(now: Word)
    ensures now % HzDiv(CHK_ALM_HZ) == 0
  {
  }

  /** The interrupt `k` ticks after the alarm was set: nothing until its duration is over. */
  lemma {:induction false} TickAfter(start: Word, duration: Word, k: Word)
    requires duration < HALF && 0 < k <= duration + 1
    ensures var s := Sleeper(Blocked, Set(start, duration));
      Tick(s, Later(start, k)) == if k <= duration then s else Sleeper(Ready, Unset(Set(start, duration)))
  {
    RingsExactly(start, duration, k);
    assert Later(start, k) == Add(start, k);
    EveryTick(Add(start, k));
    hide Check, Add, HzDiv;
  }

  /** A paused thread is blocked through `duration` ticks and ready at exactly one more, across
      any wrap of the counter. */
  lemma {:induction false} WokenExactlyAfterDuration(start: Word, duration: Word, k: nat)
    requires duration < HALF && k <= duration + 1
    ensures var s := TickMany(Sleeper(Blocked, Set(start, duration)), start, k);
      if k <= duration then s == Sleeper(Blocked, Set(start, duration))
      else s == Sleeper(Ready, Unset(Set(start, duration)))
  {
    if k > 0 {
      WokenExactlyAfterDuration(start, duration, k - 1);
      TickAfter(start, duration, k);
      hide Tick, Later;
    }
  }
}
