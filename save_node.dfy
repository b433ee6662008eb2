/**
 * The part of a YAML save node the geoscape targets use: a map from keys to
 * scalars, read with a fallback as `node[key].as<T>(fallback)` does.
 */
module SaveNode {
  import opened Common

  datatype Value = IntValue(i: int) | StrValue(s: string) | BoolValue(b: bool)

  type Node = map<string, Value>

  /** `as<int>(fallback)`: the stored integer when it exists and fits a C++ `int`. */
  function AsInt(node: Node, key: string, fallback: Int32): (r: Int32)
    ensures key !in node ==> r == fallback
    ensures r != fallback ==> key in node && node[key] == IntValue(r)
    ensures key in node && node[key].IntValue? && -0x8000_0000 <= node[key].i < 0x8000_0000 ==> r == node[key].i
    ensures key in node && !node[key].IntValue? ==> r == fallback
  {
    if key in node && node[key].IntValue? && -0x8000_0000 <= node[key].i < 0x8000_0000
    then node[key].i else fallback
  }

  /** `as<size_t>(fallback)`: the stored integer when it exists and fits a `size_t`. */
  function AsSize(node: Node, key: string, fallback: Size): (r: Size)
    ensures key !in node ==> r == fallback
    ensures r != fallback ==> key in node && node[key] == IntValue(r)
    ensures key in node && node[key].IntValue? && 0 <= node[key].i < 0x1_0000_0000_0000_0000 ==> r == node[key].i
    ensures key in node && !node[key].IntValue? ==> r == fallback
  {
    if key in node && node[key].IntValue? && 0 <= node[key].i < 0x1_0000_0000_0000_0000
    then node[key].i else fallback
  }

  /** `as<std::string>(fallback)`. */
  function AsString(node: Node, key: string, fallback: string): (r: string)
    ensures key !in node ==> r == fallback
    ensures r != fallback ==> key in node && node[key] == StrValue(r)
    ensures key in node && node[key].StrValue? ==> r == node[key].s
    ensures key in node && !node[key].StrValue? ==> r == fallback
  {
    if key in node && node[key].StrValue? then node[key].s else fallback
  }

  /** `as<bool>(fallback)`. */
  function AsBool(node: Node, key: string, fallback: bool): (r: bool)
    ensures key !in node ==> r == fallback
    ensures r != fallback ==> key in node && node[key] == BoolValue(r)
    ensures key in node && node[key].BoolValue? ==> r == node[key].b
    ensures key in node && !node[key].BoolValue? ==> r == fallback
  {
    if key in node && node[key].BoolValue? then node[key].b else fallback
  }

  /**
   * The rules of an alien deployment a target refers to: its type name, the name
   * and globe icon of its marker, and the hunt-mission maximum frequency.
   */
  datatype Deployment = Deployment(typeName: string, markerName: string, markerIcon: int, huntMissionMaxFrequency: Int32)
}
