/**
 * The structural check a navigation-graph document must pass before it is loaded, over the
 * values a JSON parser produces. The check is written against Python's own meaning of `in`,
 * indexing, `len` and slicing, so a document of the wrong shape can make it raise instead of
 * answering; the outcome type keeps that case apart from a false answer.
 */
module Helpers {
  /** A parsed JSON document: objects have string keys, numbers are integers or floats. */
  datatype Json =
    | JNull
    | JBool(b: bool)
    | JInt(i: int)
    | JFloat(f: real)
    | JString(s: string)
    | JList(items: seq<Json>)
    | JObject(fields: map<string, Json>)

  /** What a call does: return a value, or raise an exception out of it. */
  datatype Outcome<T> = Returns(value: T) | Raises

  /** `key` occurs in `s` as a contiguous piece. */
  predicate Occurs(key: string, s: string)
    decreases |s|
  {
    key <= s || (s != [] && Occurs(key, s[1..]))
  }

  /** Python's `key in x` for a string `key`: a key of a dict, an element of a list, a substring of a str. */
  function In(key: string, x: Json): Outcome<bool> {
    match x
    case JObject(fields) => Returns(key in fields)
    case JList(items) => Returns(JString(key) in items)
    case JString(s) => Returns(Occurs(key, s))
    case _ => Raises
  }

  /** Python's `x[key]` for a string `key`: only a dict holding the key answers. */
  function Lookup(x: Json, key: string): Outcome<Json> {
    if x.JObject? && key in x.fields then Returns(x.fields[key]) else Raises
  }

  /** Python's `len(x)`: a dict counts its keys; numbers, booleans and None have no length. */
  function Len(x: Json): Outcome<nat> {
    match x
    case JList(items) => Returns(|items|)
    case JString(s) => Returns(|s|)
    case JObject(fields) => Returns(|fields|)
    case _ => Raises
  }

  /** Python's `x[:2]`, as the sequence of what iterating it yields; a dict cannot be sliced. */
  function FirstTwo(x: Json): Outcome<seq<Json>> {
    match x
    case JList(items) => Returns(if |items| < 2 then items else items[..2])
    case JString(s) =>
      var t := if |s| < 2 then s else s[..2];
      Returns(seq(|t|, k requires 0 <= k < |t| => JString([t[k]])))
    case _ => Raises
  }

  /** Python's `isinstance(v, int)`, which holds for booleans too. */
  predicate IsInt(v: Json) {
    v.JInt? || v.JBool?
  }

  /** A lane the check accepts: a list whose first two entries are integers; later entries are free. */
  predicate GoodLane(lane: Json) {
    lane.JList? && |lane.items| >= 2 && IsInt(lane.items[0]) && IsInt(lane.items[1])
  }

  /** A lane on which the check raises: something without a length, or a dict long enough to be sliced. */
  predicate LaneRaises(lane: Json) {
    lane.JNull? || lane.JBool? || lane.JInt? || lane.JFloat? || (lane.JObject? && |lane.fields| >= 2)
  }

  /** The level data the check accepts: a dict with a list of vertices and a list of good lanes. */
  predicate GoodLevel(level: Json) {
    && level.JObject? && "vertices" in level.fields && "lanes" in level.fields
    && level.fields["vertices"].JList? && level.fields["lanes"].JList?
    && forall lane :: lane in level.fields["lanes"].items ==> GoodLane(lane)
  }

  /**
   * A document the check accepts: a dict that is good level data itself, or, when it has the key
   * "levels", whose "levels" is a dict with good level data under "level1".
   */
  predicate WellStructured(data: Json) {
    && data.JObject?
    && if "levels" in data.fields then
         var levels := data.fields["levels"];
         levels.JObject? && "level1" in levels.fields && GoodLevel(levels.fields["level1"])
       else
         GoodLevel(data)
  }

  /** The test one lane must pass: at least two entries, and the first two are integers. */
  function CheckLane(lane: Json): (r: Outcome<bool>)
    ensures r == Returns(true) <==> GoodLane(lane)
    ensures r == Raises <==> LaneRaises(lane)
  {
    match Len(lane)
    case Raises => Raises
    case Returns(n) =>
      if n < 2 then Returns(false)
      else
        match FirstTwo(lane)
        case Raises => Raises
        case Returns(head) =>
          assert lane.JList? ==> head == [lane.items[0], lane.items[1]] && head[0] in head && head[1] in head;
          assert lane.JString? ==> head[0] == JString([lane.s[0]]) && head[0] in head;
          Returns(forall v :: v in head ==> IsInt(v))
  }

  /** The loop over the lanes: the first lane that is not accepted decides, by answering false or raising. */
  function CheckLanes(lanes: seq<Json>): (r: Outcome<bool>)
    ensures r == Returns(true) <==> forall lane :: lane in lanes ==> GoodLane(lane)
    ensures forall k :: 0 <= k < |lanes| && !GoodLane(lanes[k]) && (forall j :: 0 <= j < k ==> GoodLane(lanes[j])) ==>
              r == CheckLane(lanes[k])
  {
    if lanes == [] then Returns(true)
    else
      match CheckLane(lanes[0])
      case Raises => Raises
      case Returns(ok) =>
        if !ok then Returns(false)
        else
          assert forall k :: 1 <= k < |lanes| ==> lanes[1..][k - 1] == lanes[k];
          assert lanes == [lanes[0]] + lanes[1..];
          CheckLanes(lanes[1..])
  }

  /** The checks on the level data: both keys present, both values lists, every lane good. */
  function ValidateLevel(level: Json): (r: Outcome<bool>)
    ensures r == Returns(true) <==> GoodLevel(level)
    ensures level.JObject? && ("vertices" !in level.fields || "lanes" !in level.fields) ==> r == Returns(false)
    ensures level.JObject? && "vertices" in level.fields && !level.fields["vertices"].JList? ==> r == Returns(false)
    ensures level.JObject? && "lanes" in level.fields && !level.fields["lanes"].JList? ==> r == Returns(false)
    ensures && level.JObject? && "vertices" in level.fields && "lanes" in level.fields
            && level.fields["vertices"].JList? && level.fields["lanes"].JList?
            ==> r == CheckLanes(level.fields["lanes"].items)
  {
    // `key in level` raises for both keys or for neither, so the order in which the two required
    // keys are tried does not matter.
    match In("vertices", level)
    case Raises => Raises
    case Returns(hasVertices) =>
      if !hasVertices || In("lanes", level) != Returns(true) then Returns(false)
      else
        match Lookup(level, "vertices")
        case Raises => Raises
        case Returns(vertices) =>
          if !vertices.JList? then Returns(false)
          else
            match Lookup(level, "lanes")
            case Raises => Raises
            case Returns(lanes) =>
              if !lanes.JList? then Returns(false) else CheckLanes(lanes.items)
  }

  /**
   * The whole check: a document with the key "levels" is judged by its "level1" entry, which must
   * exist inside a dict; any other document is judged as level data itself.
   */
  function ValidateNavGraph(data: Json): (r: Outcome<bool>)
    ensures r == Returns(true) <==> WellStructured(data)
    ensures data.JObject? && "levels" in data.fields ==>
              var levels := data.fields["levels"];
              if levels.JObject? && "level1" in levels.fields then r == ValidateLevel(levels.fields["level1"])
              else r == Returns(false)
    ensures data.JObject? && "levels" !in data.fields ==> r == ValidateLevel(data)
  {
    match In("levels", data)
    case Raises => Raises
    case Returns(hasLevels) =>
      if hasLevels then
        match Lookup(data, "levels")
        case Raises => Raises
        case Returns(levels) =>
          if !levels.JObject? then Returns(false)
          else if "level1" !in levels.fields then Returns(false)
          else ValidateLevel(levels.fields["level1"])
      else
        ValidateLevel(data)
  }

  /**
   * The loop over any sequence of lanes raises exactly when the first lane it does not accept is
   * one that raises: a value without a length, or a dict of two or more keys.
   */
  lemma {:induction false} LanesAnswer(lanes: seq<Json>)
    ensures CheckLanes(lanes).Raises? <==>
              exists k :: 0 <= k < |lanes| && LaneRaises(lanes[k]) && forall j :: 0 <= j < k ==> GoodLane(lanes[j])
  {
    if lanes != [] {
      LanesAnswer(lanes[1..]);
      if GoodLane(lanes[0]) {
        assert CheckLanes(lanes) == CheckLanes(lanes[1..]);
        if exists k :: 0 <= k < |lanes[1..]| && LaneRaises(lanes[1..][k]) && forall j :: 0 <= j < k ==> GoodLane(lanes[1..][j]) {
          var k :| 0 <= k < |lanes[1..]| && LaneRaises(lanes[1..][k]) && forall j :: 0 <= j < k ==> GoodLane(lanes[1..][j]);
          assert LaneRaises(lanes[k + 1]) && forall j :: 0 <= j < k + 1 ==> GoodLane(lanes[j]) by {
            forall j | 0 <= j < k + 1 ensures GoodLane(lanes[j]) {
              if j > 0 { assert lanes[j] == lanes[1..][j - 1]; }
            }
          }
        }
        if exists k :: 0 <= k < |lanes| && LaneRaises(lanes[k]) && forall j :: 0 <= j < k ==> GoodLane(lanes[j]) {
          var k :| 0 <= k < |lanes| && LaneRaises(lanes[k]) && forall j :: 0 <= j < k ==> GoodLane(lanes[j]);
          assert k > 0 && lanes[k] == lanes[1..][k - 1];
          assert forall j :: 0 <= j < k - 1 ==> GoodLane(lanes[1..][j]) by {
            forall j | 0 <= j < k - 1 ensures GoodLane(lanes[1..][j]) {
              assert lanes[1..][j] == lanes[j + 1];
            }
          }
        }
      }
    }
  }
}
