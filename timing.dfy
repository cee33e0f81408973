/**
 * The pure timing pieces of src/flow/transition.js: the easing curve, the
 * durations read from the configuration record and the per-category
 * schedule table of a transition.
 */
module Timing {
  import opened Config

  /** `easeInOutQuad`: `2t²` up to the midpoint, `-1 + (4 - 2t)t` after it. */
  function EaseInOutQuad(t: real): (e: real)
    ensures t == 0.0 ==> e == 0.0
    ensures t == 0.5 ==> e == 0.5
    ensures t == 1.0 ==> e == 1.0
  {
    if t < 0.5 then 2.0 * t * t else -1.0 + (4.0 - 2.0 * t) * t
  }

  /** The curve is point-symmetric about the midpoint. */
  lemma EaseSymmetric(t: real)
    ensures EaseInOutQuad(1.0 - t) == 1.0 - EaseInOutQuad(t)
  {
    if t < 0.5 {
      assert 1.0 - t > 0.5;
      assert (4.0 - 2.0 * (1.0 - t)) * (1.0 - t) == 2.0 - 2.0 * t * t;
    } else if t > 0.5 {
      assert (1.0 - t) < 0.5;
      assert (4.0 - 2.0 * t) * t == 4.0 * t - 2.0 * t * t;
      assert 2.0 * (1.0 - t) * (1.0 - t) == 2.0 - 4.0 * t + 2.0 * t * t;
    }
  }

  /** On [0, 1] the curve stays in [0, 1] and never goes back. */
  lemma EaseMonotone(s: real, t: real)
    requires 0.0 <= s <= t <= 1.0
    ensures 0.0 <= EaseInOutQuad(s) <= EaseInOutQuad(t) <= 1.0
  {
    if t < 0.5 {
      EaseRising(s, t);
      EaseFalling(0.5, 0.5);
    } else if s >= 0.5 {
      EaseFalling(s, t);
      EaseRising(0.0, 0.0);
    } else {
      EaseRising(s, 0.5);
      EaseFalling(0.5, t);
    }
  }

  /** The first half: `2x²` grows on [0, 1/2]. */
  lemma EaseRising(s: real, t: real)
    requires 0.0 <= s <= t <= 0.5
    ensures 0.0 <= 2.0 * s * s <= 2.0 * t * t <= 0.5
  {
    MulLeq(s, 0.0, s);
    MulLeq(s, s, t);
    MulLeq(t, s, t);
    MulLeq(t, t, 0.5);
    assert t * t <= t * 0.5 <= 0.25;
    assert 2.0 * t * t == 2.0 * (t * t) && 2.0 * s * s == 2.0 * (s * s);
  }

  /** The second half: `-1 + (4 - 2x)x = 1 - 2(1 - x)²` grows on [1/2, 1]. */
  lemma EaseFalling(s: real, t: real)
    requires 0.5 <= s <= t <= 1.0
    ensures 0.5 <= -1.0 + (4.0 - 2.0 * s) * s <= -1.0 + (4.0 - 2.0 * t) * t <= 1.0
  {
    var a, b := 1.0 - t, 1.0 - s;
    assert -1.0 + (4.0 - 2.0 * s) * s == 1.0 - 2.0 * b * b;
    assert -1.0 + (4.0 - 2.0 * t) * t == 1.0 - 2.0 * a * a;
    EaseRising(a, b);
  }

  lemma MulLeq(k: real, x: real, y: real)
    requires 0.0 <= k && 0.0 <= x <= y
    ensures k * x <= k * y
  {
  }

  /** Start offset and duration (ms) of one node category's animations. */
  datatype Phase = Phase(delay: real, dur: real) {
    function End(): real { delay + dur }
  }

  /** The plan of a transition (`incoming` is the table's `fresh` entry); `gate` makes the orchestrator await phase by phase. */
  datatype Schedule = Schedule(shared: Phase, former: Phase, incoming: Phase, gate: bool)

  /**
   * `CONFIG.ANIM_EXPAND_MS ?? 900`: the setting whatever it holds unless it
   * is `null`/`undefined`, and then 900.
   */
  function ExpandBase(cfg: map<string, Value>): (d: Value)
    ensures d != Nullish
    ensures Setting(cfg, "ANIM_EXPAND_MS") != Nullish ==> d == Setting(cfg, "ANIM_EXPAND_MS")
    ensures d == Num(900.0) || d == Setting(cfg, "ANIM_EXPAND_MS")
  {
    var v := Setting(cfg, "ANIM_EXPAND_MS");
    if v.Nullish? then Num(900.0) else v
  }

  /**
   * `CONFIG.ANIM_TRANSLATE_MS || 500`: the setting unless it is falsy (a
   * missing, zero, empty or `false` value), and then 500.
   */
  function TranslateDuration(cfg: map<string, Value>): (d: Value)
    ensures !Falsy(d)
    ensures !Falsy(Setting(cfg, "ANIM_TRANSLATE_MS")) ==> d == Setting(cfg, "ANIM_TRANSLATE_MS")
    ensures d == Num(500.0) || d == Setting(cfg, "ANIM_TRANSLATE_MS")
  {
    var v := Setting(cfg, "ANIM_TRANSLATE_MS");
    if Falsy(v) then Num(500.0) else v
  }

  /**
   * With the shipped record the expansion's base duration is 950 ms, the
   * recentering lasts 1000 ms, and the side-by-side plan starts the fresh
   * sprites at 142.5 ms; every category ends by 950 ms.
   */
  lemma DefaultTimings(mode: string)
    requires mode != "serial"
    ensures ExpandBase(CONFIG) == Num(950.0) && TranslateDuration(CONFIG) == Num(1000.0)
    ensures MakeSchedule(mode, 950.0) ==
      Schedule(Phase(0.0, 950.0), Phase(0.0, 570.0), Phase(142.5, 807.5), false)
  {
  }

  /** An override that clears `ANIM_EXPAND_MS` to `null` brings back the 900 ms fallback; any other value is kept. */
  lemma ExpandOverride(overrides: map<string, Value>)
    requires "ANIM_EXPAND_MS" in overrides
    ensures overrides["ANIM_EXPAND_MS"] == Nullish ==> ExpandBase(CreateConfig(overrides)) == Num(900.0)
    ensures overrides["ANIM_EXPAND_MS"] != Nullish ==> ExpandBase(CreateConfig(overrides)) == overrides["ANIM_EXPAND_MS"]
  {
  }

  /** An override of `ANIM_TRANSLATE_MS` to `0` (or another falsy value) brings back the 500 ms fallback. */
  lemma TranslateOverride(overrides: map<string, Value>)
    requires "ANIM_TRANSLATE_MS" in overrides
    ensures Falsy(overrides["ANIM_TRANSLATE_MS"]) ==> TranslateDuration(CreateConfig(overrides)) == Num(500.0)
    ensures !Falsy(overrides["ANIM_TRANSLATE_MS"]) ==>
      TranslateDuration(CreateConfig(overrides)) == overrides["ANIM_TRANSLATE_MS"]
  {
  }

  /**
   * The schedule table: `'serial'` chains shared, former and fresh one after the
   * other; every other mode runs them side by side within the base duration.
   */
  function MakeSchedule(mode: string, d: real): (s: Schedule)
    ensures s.gate <==> mode == "serial"
    ensures s.gate ==> s.shared.delay == 0.0 && s.shared.dur == 0.5 * d
    ensures s.gate ==> s.former.delay == s.shared.End() && s.incoming.delay == s.former.End()
    ensures s.gate ==> s.former.dur == 0.3 * d && s.incoming.dur == 0.8 * d
    ensures !s.gate ==> s.shared.delay == 0.0 && s.former.delay == 0.0
    ensures !s.gate ==> s.shared.End() == d && s.incoming.End() == d && s.former.End() == 0.6 * d
    ensures d >= 0.0 ==> s.shared.delay <= s.former.delay <= s.incoming.delay
  {
    if mode == "serial" then
      Schedule(Phase(0.0, 0.5 * d), Phase(0.5 * d, 0.3 * d), Phase(0.8 * d, 0.8 * d), true)
    else
      Schedule(Phase(0.0, 1.0 * d), Phase(0.0, 0.6 * d), Phase(0.15 * d, 0.85 * d), false)
  }
}
