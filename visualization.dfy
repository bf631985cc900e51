/**
 * The section normaliser and the small decisions of
 * src/components/SmartVisualization.js: which visualisation type a section
 * has, how its nested `data` and `config` objects are folded into one, when
 * the purpose label shows, and when a network diagram has nothing to draw.
 */
module Visualization {
  import opened JsText

  // ---------------------------------------------------------------------------
  // JavaScript values

  /** A JSON value as JavaScript sees it, with `undefined` for a missing
      property. Numbers are integers here. */
  datatype Value =
    | Undefined
    | Null
    | Bool(b: bool)
    | Num(n: int)
    | Str(s: string)
    | Arr(items: seq<Value>)
    | Obj(fields: map<string, Value>)

  /** JavaScript truthiness. */
  predicate Truthy(v: Value) {
    match v
    case Undefined => false
    case Null => false
    case Bool(b) => b
    case Num(n) => n != 0
    case Str(s) => s != []
    case Arr(_) => true
    case Obj(_) => true
  }

  /** `v.key` (or `v?.key`) for a property a JSON value can carry. */
  function Get(v: Value, key: string): (r: Value)
    ensures r != Undefined ==> v.Obj? && key in v.fields && r == v.fields[key]
    ensures v.Obj? && key in v.fields ==> r == v.fields[key]
  {
    if v.Obj? && key in v.fields then v.fields[key] else Undefined
  }

  /** `a || b` */
  function Or(a: Value, b: Value): (r: Value)
    ensures Truthy(a) ==> r == a
    ensures !Truthy(a) ==> r == b
  {
    if Truthy(a) then a else b
  }

  /** `typeof v === 'object' && !Array.isArray(v)`: a plain object or
      `null`. */
  predicate IsPlainObjectOrNull(v: Value) {
    v.Obj? || v.Null?
  }

  /** The own properties `{...v}` copies: an object's fields, a string's or
      an array's elements under their indices, and nothing otherwise. */
  function Spread(v: Value): (m: map<string, Value>)
    ensures v.Obj? ==> m == v.fields
    ensures !v.Obj? && !v.Str? && !v.Arr? ==> m == map[]
  {
    match v
    case Obj(fields) => fields
    case Str(s) =>
      assert forall i, j :: 0 <= i < |s| && 0 <= j < |s| && NatToString(i) == NatToString(j) ==> i == j by {
        forall i, j | 0 <= i < |s| && 0 <= j < |s| && NatToString(i) == NatToString(j) ensures i == j {
          NatToStringInjective(i, j);
        }
      }
      map i | 0 <= i < |s| :: NatToString(i) := Str([s[i]])
    case Arr(items) =>
      assert forall i, j :: 0 <= i < |items| && 0 <= j < |items| && NatToString(i) == NatToString(j) ==> i == j by {
        forall i, j | 0 <= i < |items| && 0 <= j < |items| && NatToString(i) == NatToString(j) ensures i == j {
          NatToStringInjective(i, j);
        }
      }
      map i | 0 <= i < |items| :: NatToString(i) := items[i]
    case _ => map[]
  }

  /** `{ ...a, ...b }` without the property `drop` (the `delete` that
      follows each merge). */
  function MergeWithout(a: Value, b: Value, drop: string): (r: Value)
    ensures r.Obj? && drop !in r.fields
    ensures forall k :: k in r.fields <==> k != drop && (k in Spread(a) || k in Spread(b))
    ensures forall k :: k in r.fields ==> r.fields[k] == if k in Spread(b) then Spread(b)[k] else Spread(a)[k]
  {
    Obj((Spread(a) + Spread(b)) - {drop})
  }

  // ---------------------------------------------------------------------------
  // normalizedSection

  /** The test of the first loop: `data && typeof data.data === 'object' &&
      !Array.isArray(data.data)`. */
  predicate NestedData(data: Value) {
    Truthy(data) && IsPlainObjectOrNull(Get(data, "data"))
  }

  /** The body of the first loop: the nested object's properties override
      the outer ones, and `data` goes. */
  function FlattenData(data: Value): (r: Value)
    ensures !NestedData(data) ==> r == data
    ensures NestedData(data) ==> r.Obj? && "data" !in r.fields
    ensures !NestedData(r)
  {
    if NestedData(data) then MergeWithout(data, Get(data, "data"), "data") else data
  }

  /** The test of the second loop: `data && data.config`. */
  predicate NestedConfig(data: Value) {
    Truthy(data) && Truthy(Get(data, "config"))
  }

  /** The body of the second loop: the configuration's properties override
      the outer ones, and `config` goes. */
  function FlattenConfig(data: Value): (r: Value)
    ensures !NestedConfig(data) ==> r == data
    ensures NestedConfig(data) ==> r.Obj? && "config" !in r.fields
    ensures !NestedConfig(r)
  {
    if NestedConfig(data) then MergeWithout(data, Get(data, "config"), "config") else data
  }

  /** `if (!data && section.data.config) data = { ...section.data.config }` */
  function ConfigFallback(data: Value, sectionData: Value): (r: Value)
    ensures Truthy(data) ==> r == data
    ensures !Truthy(data) && Truthy(Get(sectionData, "config")) ==> r == Obj(Spread(Get(sectionData, "config")))
  {
    if !Truthy(data) && Truthy(Get(sectionData, "config")) then Obj(Spread(Get(sectionData, "config"))) else data
  }

  /** `data?.key || data?.data?.key` */
  function Lift(data: Value, key: string): (r: Value)
    ensures Truthy(Get(data, key)) ==> r == Get(data, key)
    ensures !Truthy(Get(data, key)) ==> r == Get(Get(data, "data"), key)
  {
    Or(Get(data, key), Get(Get(data, "data"), key))
  }

  /** The forced renaming of two type names. */
  function CanonicalType(t: Value): (r: Value)
    ensures t == Str("reactflow") ==> r == Str("flow")
    ensures t == Str("visnetwork") ==> r == Str("network")
    ensures t != Str("reactflow") && t != Str("visnetwork") ==> r == t
  {
    if t == Str("reactflow") then Str("flow") else if t == Str("visnetwork") then Str("network") else t
  }

  /** `visualization_type || type`, renamed. */
  function SectionType(sectionData: Value): Value {
    CanonicalType(Or(Get(sectionData, "visualization_type"), Get(sectionData, "type")))
  }

  /** The `data` of the normalised section: both loops, then the fallback. */
  function NormalizedData(sectionData: Value): Value {
    ConfigFallback(FlattenConfig(FlattenData(Get(sectionData, "data"))), sectionData)
  }

  const LiftedKeys: set<string> := {"headers", "rows", "nodes", "edges", "options"}

  /** The five properties read from `data` or `data.data` and put on top. */
  function WithLifted(fields: map<string, Value>, data: Value): (r: map<string, Value>)
    ensures r.Keys == fields.Keys + LiftedKeys
    ensures forall k :: k in fields && k !in LiftedKeys ==> r[k] == fields[k]
    ensures forall k :: k in LiftedKeys ==> r[k] == Lift(data, k)
  {
    map k | k in fields.Keys + LiftedKeys :: if k in LiftedKeys then Lift(data, k) else fields[k]
  }

  /** Setting the five properties one after the other. */
  lemma LiftedOneByOne(fields: map<string, Value>, data: Value)
    ensures fields["headers" := Lift(data, "headers")]["rows" := Lift(data, "rows")]["nodes" := Lift(data, "nodes")]
              ["edges" := Lift(data, "edges")]["options" := Lift(data, "options")] == WithLifted(fields, data)
  {
  }

  /** `{ ...section.data, type, data, headers, rows, nodes, edges, options }` */
  function NormalizedSectionData(sectionData: Value): (r: Value)
    ensures r.Obj?
    ensures r.fields.Keys == Spread(sectionData).Keys + LiftedKeys + {"type", "data"}
    ensures forall k :: k in Spread(sectionData) && k !in LiftedKeys && k != "type" && k != "data" ==>
              r.fields[k] == Spread(sectionData)[k]
    ensures r.fields["type"] == SectionType(sectionData)
    ensures r.fields["data"] == NormalizedData(sectionData)
    ensures forall k :: k in LiftedKeys ==> r.fields[k] == Lift(NormalizedData(sectionData), k)
  {
    var data := NormalizedData(sectionData);
    var spread := Spread(sectionData);
    var fields := spread["type" := SectionType(sectionData)]["data" := data];
    assert fields.Keys == spread.Keys + {"type", "data"};
    assert "type" !in LiftedKeys && "data" !in LiftedKeys;
    Obj(WithLifted(fields, data))
  }

  /** `normalizedSection`: a section without `data` is kept as it is;
      otherwise every other property of the section stays and `data` is the
      normalised one. */
  function Normalize(section: Value): (r: Value)
    ensures !Truthy(Get(section, "data")) ==> r == section
    ensures Truthy(Get(section, "data")) ==>
              r.Obj? && r.fields.Keys == section.fields.Keys
              && (forall k :: k in section.fields && k != "data" ==> r.fields[k] == section.fields[k])
              && r.fields["data"] == NormalizedSectionData(Get(section, "data"))
  {
    var sectionData := Get(section, "data");
    if !Truthy(sectionData) then section
    else Obj(Spread(section)["data" := NormalizedSectionData(sectionData)])
  }

  /** The `useMemo` body as written, with its two `while` loops. Each loop
      runs at most once: after one merge the key it tests is gone. */
  method NormalizeSection(section: Value) returns (r: Value, ghost dataRounds: nat, ghost configRounds: nat)
    ensures r == Normalize(section)
    ensures dataRounds <= 1 && configRounds <= 1
  {
    dataRounds, configRounds := 0, 0;
    var sectionData := Get(section, "data");
    if !Truthy(sectionData) {
      return section, dataRounds, configRounds;
    }
    var kind := Or(Get(sectionData, "visualization_type"), Get(sectionData, "type"));
    if kind == Str("reactflow") {
      kind := Str("flow");
    }
    if kind == Str("visnetwork") {
      kind := Str("network");
    }
    var data := Get(sectionData, "data");
    ghost var start := data;
    while NestedData(data)
      invariant dataRounds <= 1
      invariant dataRounds == 0 ==> data == start
      invariant dataRounds == 1 ==> data == FlattenData(start) && data.Obj? && "data" !in data.fields
      decreases 1 - dataRounds
    {
      data := MergeWithout(data, Get(data, "data"), "data");
      dataRounds := dataRounds + 1;
    }
    assert data == FlattenData(start);
    ghost var flat := data;
    while NestedConfig(data)
      invariant configRounds <= 1
      invariant configRounds == 0 ==> data == flat
      invariant configRounds == 1 ==> data == FlattenConfig(flat) && data.Obj? && "config" !in data.fields
      decreases 1 - configRounds
    {
      data := MergeWithout(data, Get(data, "config"), "config");
      configRounds := configRounds + 1;
    }
    if !Truthy(data) && Truthy(Get(sectionData, "config")) {
      data := Obj(Spread(Get(sectionData, "config")));
    }
    var fields := Spread(sectionData)["type" := kind]["data" := data];
    ghost var base := fields;
    fields := fields["headers" := Lift(data, "headers")]["rows" := Lift(data, "rows")];
    fields := fields["nodes" := Lift(data, "nodes")]["edges" := Lift(data, "edges")];
    fields := fields["options" := Lift(data, "options")];
    LiftedOneByOne(base, data);
    assert kind == SectionType(sectionData);
    assert data == NormalizedData(sectionData);
    r := Obj(Spread(section)["data" := Obj(fields)]);
  }

  /** Normalising twice gives what normalising once gave for the type and
      the flattening steps: each loop body is idempotent. */
  lemma FlatteningIdempotent(data: Value)
    ensures FlattenData(FlattenData(data)) == FlattenData(data)
    ensures FlattenConfig(FlattenConfig(data)) == FlattenConfig(data)
  {
  }

  /** A section whose `visualization_type` is `reactflow` is a `flow`
      section after normalisation, whatever its `type` says. */
  lemma ReactflowIsFlow(section: Value)
    requires Truthy(Get(section, "data")) && Get(Get(section, "data"), "visualization_type") == Str("reactflow")
    ensures Get(Get(Normalize(section), "data"), "type") == Str("flow")
  {
  }

  /** A `data` nested two levels deep is dropped, not merged: the inner
      `data.data.data` disappears with the `delete`. */
  lemma NestedDataDropped(x: Value, y: Value)
    ensures FlattenData(Obj(map["data" := Obj(map["data" := x, "a" := y])]))
            == Obj(map["a" := y])
  {
    var r := FlattenData(Obj(map["data" := Obj(map["data" := x, "a" := y])]));
    assert r.fields.Keys == {"a"};
  }

  /** How deep `data` objects nest. */
  function DataDepth(v: Value): nat {
    if v.Obj? && "data" in v.fields then 1 + DataDepth(v.fields["data"]) else 0
  }

  /** The flattening the comment above the loop describes: the outer `data`
      goes first, so the inner one is flattened on the next round. */
  function FlattenAllData(data: Value): (r: Value)
    ensures !NestedData(r)
    ensures !NestedData(data) ==> r == data
    decreases DataDepth(data)
  {
    if NestedData(data) then
      var inner := Get(data, "data");
      var next := Obj((Spread(data) - {"data"}) + Spread(inner));
      assert DataDepth(next) < DataDepth(data) by {
        assert inner.Null? ==> "data" !in next.fields;
        assert inner.Obj? ==> DataDepth(next) == DataDepth(inner);
      }
      FlattenAllData(next)
    else data
  }

  /** With the intended order, both levels' properties survive. */
  lemma NestedDataMerged(y: Value, z: Value)
    ensures FlattenAllData(Obj(map["data" := Obj(map["data" := Obj(map["x" := z]), "a" := y])]))
            == Obj(map["a" := y, "x" := z])
  {
    var d := Obj(map["data" := Obj(map["data" := Obj(map["x" := z]), "a" := y])]);
    var once := Obj(map["data" := Obj(map["x" := z]), "a" := y]);
    assert (Spread(d) - {"data"}) + Spread(Get(d, "data")) == once.fields;
    var twice := Obj(map["a" := y, "x" := z]);
    assert (Spread(once) - {"data"}) + Spread(Get(once, "data")) == twice.fields;
    assert !NestedData(twice);
  }

  // ---------------------------------------------------------------------------
  // Purpose label and network data

  const PurposeLabels := map[
    "overview" := "전체 개요", "detail" := "세부 분석", "comparison" := "비교", "process" := "프로세스",
    "data" := "데이터", "timeline" := "타임라인", "structure" := "구조"]

  /** `getPurposeLabel(purpose)`: the Korean label of a known purpose, the
      purpose itself otherwise; an absent purpose is the empty string. */
  function PurposeLabel(purpose: string): (name: string)
    ensures purpose in PurposeLabels ==> name == PurposeLabels[purpose] && name != []
    ensures purpose !in PurposeLabels ==> name == purpose
  {
    if purpose in PurposeLabels then PurposeLabels[purpose] else purpose
  }

  /** `showPurposeLabel`: there is a label and a title, and the title does
      not already say it. */
  function ShowPurposeLabel(purpose: string, title: string): (show: bool)
    ensures show <==> PurposeLabel(purpose) != [] && title != [] && !Contains(title, PurposeLabel(purpose))
  {
    var name := PurposeLabel(purpose);
    name != [] && title != [] && !Contains(title, name)
  }

  /** A title that begins with the label hides it; a known purpose always
      has a label to show under an unrelated title. */
  lemma PurposeLabelHidden(purpose: string, rest: string)
    ensures !ShowPurposeLabel(purpose, PurposeLabel(purpose) + rest)
  {
    var name := PurposeLabel(purpose);
    assert OccursAt(name + rest, name, 0);
  }

  /** `value.length` when the value has one. */
  function Length(v: Value): Option<nat> {
    match v
    case Str(s) => Some(Utf16Length(s))
    case Arr(items) => Some(|items|)
    case _ => None
  }

  /** The guard of `renderNetwork`: missing or empty nodes or edges are an
      error, never a placeholder diagram. */
  predicate NetworkDataMissing(nodes: Value, edges: Value) {
    !Truthy(nodes) || !Truthy(edges) || Length(nodes) == Some(0) || Length(edges) == Some(0)
  }

  /** A normalised section with neither `nodes` nor `data.nodes` in its
      data cannot be drawn as a network. */
  lemma NoNodesNoNetwork(section: Value)
    requires Truthy(Get(section, "data"))
    requires !Truthy(Get(NormalizedData(Get(section, "data")), "nodes"))
    requires !Truthy(Get(Get(NormalizedData(Get(section, "data")), "data"), "nodes"))
    ensures var d := Get(Normalize(section), "data");
            NetworkDataMissing(Get(d, "nodes"), Get(d, "edges"))
  {
    var sd := Get(section, "data");
    assert "nodes" in LiftedKeys;
    assert NormalizedSectionData(sd).fields["nodes"] == Lift(NormalizedData(sd), "nodes");
  }

  /** Arrays of nodes and edges that are both non-empty pass the guard. */
  lemma NetworkDataPresent(nodes: seq<Value>, edges: seq<Value>)
    requires nodes != [] && edges != []
    ensures !NetworkDataMissing(Arr(nodes), Arr(edges))
  {
  }
}
