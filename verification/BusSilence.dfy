/**
 * Bus timing of src/modbus_rtu_client.c: how long wait_bus_silence sleeps before a request
 * frame, and how much silence that leaves on the line.  Times are in nanoseconds of the
 * monotonic clock; a timespec holds them as whole seconds and the rest.
 */
module BusSilence {
  import opened Bytes

  const NS_PER_SEC := 1_000_000_000
  const TIMING_DISABLED := 0xFFFF_FFFF
  const DEFAULT_HANDOFF_MS := 30

  datatype Option<T> = None | Some(value: T)

  /** The end of the last transaction on a bus: last_unit_id and last_release_time. */
  datatype Release = Release(unit: byte, time: nat)

  /** mb_rtu_effective_timing */
  function EffectiveTiming(configured: nat, defaultValue: nat): nat {
    if configured == TIMING_DISABLED then 0 else if configured == 0 then defaultValue else configured
  }

  /** The / of C, which truncates toward zero. */
  function TruncDiv(a: int, b: nat): int
    requires b > 0
  {
    if a >= 0 then a / b else -(-a / b)
  }

  /** elapsed_us: whole seconds apart, plus the difference of the nanosecond parts. */
  function ElapsedUs(last: nat, now: nat): int {
    (now / NS_PER_SEC - last / NS_PER_SEC) * 1_000_000 + TruncDiv(now % NS_PER_SEC - last % NS_PER_SEC, 1000)
  }

  /** The silence to keep: the handoff silence applies when the unit changes and is longer. */
  function RequiredUs(last: Release, unit: byte, interFrameUs: nat, handoffMs: nat): (us: nat)
    ensures us == if last.unit == unit then interFrameUs else Max(interFrameUs, handoffMs * 1000)
  {
    if last.unit != unit && handoffMs * 1000 > interFrameUs then handoffMs * 1000 else interFrameUs
  }

  /** How long wait_bus_silence sleeps, in microseconds. */
  function SleepUs(last: Option<Release>, unit: byte, interFrameUs: nat, handoffMs: nat, now: nat): nat {
    if last.None? then 0
    else
      var required := RequiredUs(last.value, unit, interFrameUs, handoffMs);
      var elapsed := ElapsedUs(last.value.time, now);
      if 0 <= elapsed < required then required - elapsed else 0
  }

  method WaitBusSilence(hasLast: bool, lastUnit: byte, lastTime: nat, unit: byte,
                        interFrameUs: nat, handoffMs: nat, now: nat) returns (sleep: nat)
    ensures sleep == SleepUs(if hasLast then Some(Release(lastUnit, lastTime)) else None,
                             unit, interFrameUs, handoffMs, now)
  {
    var required := interFrameUs;
    if !hasLast {
      return 0;
    }
    if lastUnit != unit && handoffMs * 1000 > required {
      required := handoffMs * 1000;
    }
    if required == 0 {
      return 0;
    }
    var elapsed := (now / NS_PER_SEC - lastTime / NS_PER_SEC) * 1_000_000 +
                   TruncDiv(now % NS_PER_SEC - lastTime % NS_PER_SEC, 1000);
    if elapsed >= 0 && elapsed < required {
      return required - elapsed;
    }
    return 0;
  }

  /** Whether the truncation of a negative nanosecond difference loses a fraction. */
  predicate RoundsUp(last: nat, now: nat) {
    now % NS_PER_SEC < last % NS_PER_SEC && (last % NS_PER_SEC - now % NS_PER_SEC) % 1000 != 0
  }

  /** The measured time is at most the real one rounded up, and rounded up exactly if RoundsUp. */
  lemma ElapsedBounds(last: nat, now: nat)
    requires last <= now
    ensures ElapsedUs(last, now) >= 0
    ensures if RoundsUp(last, now) then now - last < 1000 * ElapsedUs(last, now) < now - last + 1000
            else now - last - 1000 < 1000 * ElapsedUs(last, now) <= now - last
  {
    var ds, dn := now / NS_PER_SEC - last / NS_PER_SEC, now % NS_PER_SEC - last % NS_PER_SEC;
    assert now - last == NS_PER_SEC * ds + dn;
    if dn < 0 {
      assert ds >= 1;
      assert -dn == 1000 * (-dn / 1000) + -dn % 1000;
    } else {
      assert dn == 1000 * (dn / 1000) + dn % 1000;
    }
  }

  /**
   * If the next frame goes out once the sleep is over, the real silence is more than the
   * required one minus a microsecond; if the truncation loses nothing, it is all of it.
   */
  lemma SilenceKept(last: Release, unit: byte, interFrameUs: nat, handoffMs: nat, now: nat, send: nat)
    requires last.time <= now
    requires send >= now + 1000 * SleepUs(Some(last), unit, interFrameUs, handoffMs, now)
    ensures send - last.time > 1000 * RequiredUs(last, unit, interFrameUs, handoffMs) - 1000
    ensures !RoundsUp(last.time, now) ==> send - last.time >= 1000 * RequiredUs(last, unit, interFrameUs, handoffMs)
  {
    ElapsedBounds(last.time, now);
  }

  /**
   * The sleep is no longer than needed: none without a transaction before, or a microsecond after
   * the silence is over, and otherwise it ends less than a microsecond after that.
   */
  lemma NoLongerThanNeeded(last: Option<Release>, unit: byte, interFrameUs: nat, handoffMs: nat, now: nat)
    requires last.Some? ==> last.value.time <= now
    ensures var sleep := SleepUs(last, unit, interFrameUs, handoffMs, now);
            (last.None? ==> sleep == 0) &&
            (last.Some? ==>
               var longer := last.value.unit != unit && handoffMs * 1000 > interFrameUs;
               var required := if longer then handoffMs * 1000 else interFrameUs;
               (now - last.value.time >= 1000 * required + 1000 ==> sleep == 0) &&
               (sleep > 0 ==> now + 1000 * sleep - last.value.time < 1000 * required + 1000))
  {
    if last.Some? {
      ElapsedBounds(last.value.time, now);
    }
  }

  /**
   * If the sleep takes exactly the computed time, or no sleep is asked for, the silence falls
   * short exactly if the truncation loses a fraction and the measured time is not past the
   * required one.
   */
  lemma ShortfallExactly(last: Release, unit: byte, interFrameUs: nat, handoffMs: nat, now: nat)
    requires last.time <= now
    ensures var send := now + 1000 * SleepUs(Some(last), unit, interFrameUs, handoffMs, now);
            var required := RequiredUs(last, unit, interFrameUs, handoffMs);
            send - last.time < 1000 * required <==>
            RoundsUp(last.time, now) && ElapsedUs(last.time, now) <= required
  {
    ElapsedBounds(last.time, now);
  }

  /** A silence 999 ns short of 2 s: released 999 ns into one second, asked for again at the next. */
  lemma ShortfallExample()
    ensures var last, now := Release(1, NS_PER_SEC + 999), 2 * NS_PER_SEC;
            now + 1000 * SleepUs(Some(last), 1, 2_000_000, 30, now) - last.time == 2 * NS_PER_SEC - 999
  {
  }
}
