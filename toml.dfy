/**
  Already-parsed `pyproject.toml` contents and the dictionary look-ups the
  checker performs on them. `tomllib.load` itself is not modelled: a load
  either yields the top-level table or fails with `OSError`/`TOMLDecodeError`.
 */
module Toml {
  import opened Wrappers

  /** A TOML value as `tomllib` returns it: `str`, `list`, `dict`, or any other scalar (int, float, bool, date). */
  datatype TomlValue =
    | Str(s: string)
    | Arr(items: seq<TomlValue>)
    | Table(entries: map<string, TomlValue>)
    | Scalar

  /** Reading and decoding one file: the top-level table, or a caught failure. */
  datatype TomlLoad = Loaded(data: map<string, TomlValue>) | LoadFailed

  /** `d.get(key, default)` on a dictionary. */
  function Get(d: map<string, TomlValue>, key: string, default: TomlValue): (v: TomlValue)
    ensures key in d ==> v == d[key]
    ensures key !in d ==> v == default
  {
    if key in d then d[key] else default
  }

  const EmptyTable: TomlValue := Table(map[])

  /**
    `data.get("tool", {}).get(name, {})`, followed by a `.get` on the result:
    the section's entries, or `Raises` when "tool" or the section is present
    but is not a table (a `str` or `list` has no `.get`).
   */
  function ToolSection(data: map<string, TomlValue>, name: string): (r: Outcome<map<string, TomlValue>>)
    ensures r.Raises? <==>
              ("tool" in data && !data["tool"].Table?) ||
              ("tool" in data && data["tool"].Table? && name in data["tool"].entries
               && !data["tool"].entries[name].Table?)
    ensures r.Returns? && "tool" in data && name in data["tool"].entries ==>
              r.value == data["tool"].entries[name].entries
    ensures ("tool" !in data || (data["tool"].Table? && name !in data["tool"].entries)) ==>
              r == Returns(map[])
  {
    var tool := Get(data, "tool", EmptyTable);
    if !tool.Table? then Raises
    else
      var section := Get(tool.entries, name, EmptyTable);
      if !section.Table? then Raises else Returns(section.entries)
  }

  /** `value and isinstance(value, str)`: a non-empty string. */
  predicate IsNonEmptyStr(v: TomlValue) {
    v.Str? && v.s != ""
  }

  /** `if isinstance(v, str): v = [v]`. */
  function WrapString(v: TomlValue): (r: TomlValue)
    ensures v.Str? ==> r == Arr([v])
    ensures !v.Str? ==> r == v
  {
    if v.Str? then Arr([v]) else v
  }
}
