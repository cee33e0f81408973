/**
 * The application configuration record (src/config.js) and `createConfig`,
 * which overrides it key by key without touching the base record.
 */
module Config {

  /** The kinds of value the record holds; `Nullish` stands for `null`/`undefined`. */
  datatype Value = Num(n: real) | Text(s: string) | Flag(b: bool) | Nullish

  /**
   * `CONFIG`.  `API_BASE` is the fallback `''` of `import.meta.env.VITE_API_BASE ?? ''`;
   * `ROT_LIMIT` is the double nearest to `Math.PI / 2 - 0.01`.
   */
  const CONFIG: map<string, Value> := map[
    "API_BASE" := Text(""),
    "INITIAL_TERM_ID" := Text("6890af9c82f836005c903e18"),
    "CAMERA_FOV" := Num(75.0),
    "CAMERA_NEAR" := Num(0.1),
    "CAMERA_FAR" := Num(1000.0),
    "CAMERA_Z" := Num(300.0),
    "SPRITE_THRESHOLD" := Num(0.8),
    "ROT_SPEED" := Num(0.005),
    "INERTIA_DECAY" := Num(0.92),
    "ROT_LIMIT" := Num(1.5607963267948966),
    "VELOCITY_EPS" := Num(0.0001),
    "INVERT_X" := Flag(true),
    "INVERT_Y" := Flag(false),
    "SPRITE_COLOR" := Text("#bfbfbfff"),
    "SPRITE_FONT_SIZE" := Num(48.0),
    "SPRITE_PADDING" := Num(6.0),
    "SPRITE_SHADOW_BLUR" := Num(4.0),
    "SPRITE_SCALE_DIVISOR" := Num(4.0),
    "LINE_COLOR" := Num(11184810.0),
    "LINE_OPACITY_COLLAPSE_START" := Num(1.0),
    "LINE_OPACITY_EXPAND_TARGET" := Num(0.75),
    "ANIM_TRANSLATE_MS" := Num(1000.0),
    "ANIM_COLLAPSE_MS" := Num(1000.0),
    "ANIM_EXPAND_MS" := Num(950.0),
    "ANIM_EXPAND_JITTER_MS" := Num(200.0),
    "CLICK_THRESHOLD_PX" := Num(5.0)
  ]

  /** `Object.freeze({ ...CONFIG, ...overrides })`: later spreads win. */
  function CreateConfig(overrides: map<string, Value>): (cfg: map<string, Value>)
    ensures cfg.Keys == CONFIG.Keys + overrides.Keys
    ensures forall k :: k in overrides ==> cfg[k] == overrides[k]
    ensures forall k :: k in CONFIG && k !in overrides ==> cfg[k] == CONFIG[k]
  {
    CONFIG + overrides
  }

  /** `createConfig()` with the default `overrides = {}` is `CONFIG`, key for key. */
  lemma CreateConfigDefault()
    ensures CreateConfig(map[]) == CONFIG
  {
  }

  /** `cfg.KEY`: a key the record does not hold reads as `undefined`. */
  function Setting(cfg: map<string, Value>, key: string): Value {
    if key in cfg then cfg[key] else Nullish
  }

  /** The values `||` passes over: `null`/`undefined`, `0`, `''` and `false`. */
  predicate Falsy(v: Value) {
    v == Nullish || v == Num(0.0) || v == Text("") || v == Flag(false)
  }
}
