/**
 * The material configuration (`ConfigMaterial` in _configmaterial.py):
 * a list of materials, each with material-level entries and a list of
 * constituents, plus the phase and homogenization definitions that the
 * materials refer to by name.
 */
module Materials {
  import opened Wrappers

  /** A configuration value: a name, a number, an orientation or a nested dictionary. */
  datatype Value = Str(s: string) | Int(i: int) | Num(r: real) | Quat(q: seq<real>) | Tree(entries: map<string, Value>)

  /** A dictionary entry: one constituent, or the definition of one phase or homogenization. */
  type Entry = map<string, Value>

  /**
   * One material: its entries other than 'constituents' (typically
   * 'homogenization'), and its constituent list if it has one.
   */
  datatype Material = Material(fields: map<string, Value>, constituents: Option<seq<Entry>>)

  /** The three top-level keys; `None` stands for a key the dictionary lacks. */
  datatype Config = Config(
    material: Option<seq<Material>>,
    phase: Option<map<Value, Entry>>,
    homogenization: Option<map<Value, Entry>>)

  /** What `ConfigMaterial()` starts from: no materials and empty definitions. */
  const Default := Config(Some([]), Some(map[]), Some(map[]))

  /**
   * A `KeyError` for a missing key, a table numpy cannot broadcast to the
   * target shape, or a table without columns (`np.hstack` of nothing).
   */
  datatype ConfigError = MissingKey(key: string) | Unbroadcastable(key: string) | NothingToStack
}
