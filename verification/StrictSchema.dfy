/** The strict-mode schema transform (`openai_strict_schema.py`): what the dictionary walk does,
    what it means for schemas of the shape pydantic writes, and that it keeps their meaning. */
module StrictSchema {
  import opened Common

  datatype Json =
    | Null
    | Bool(flag: bool)
    | Num(number: int)
    | Str(text: string)
    | Arr(items: seq<Json>)
    | Obj(fields: map<string, Json>)

  // ----- the walk over raw JSON ------------------------------------------------------------------

  const NULL_TYPE := Obj(map["type" := Str("null")])

  /** The keys of a dictionary as a list of strings; in some order, as `required` is a set. */
  ghost function Names(keys: set<string>): seq<Json> {
    if keys == {} then []
    else
      var k :| k in keys;
      [Str(k)] + Names(keys - {k})
  }

  /** `set(node.get("required") or [])`, of which only the strings can name a property. */
  ghost function RequiredOf(node: map<string, Json>): iset<string> {
    if "required" in node && node["required"].Arr? then iset s | Str(s) in node["required"].items else iset{}
  }

  predicate IsNullBranch(branch: Json) {
    branch.Obj? && "type" in branch.fields && branch.fields["type"] == Str("null")
  }

  /** `_is_nullable`. */
  predicate IsNullable(sub: Json) {
    && sub.Obj? && "anyOf" in sub.fields && sub.fields["anyOf"].Arr?
    && exists i :: 0 <= i < |sub.fields["anyOf"].items| && IsNullBranch(sub.fields["anyOf"].items[i])
  }

  predicate IsObjectNode(node: map<string, Json>) {
    && "type" in node && node["type"] == Str("object")
    && "properties" in node && node["properties"].Obj?
  }

  function OrNull(sub: Json): Json {
    Obj(map["anyOf" := Arr([sub, NULL_TYPE])])
  }

  /** `_walk`. */
  ghost function Walk(j: Json): Json
    decreases j, 2
  {
    match j
    case Arr(items) => Arr(seq(|items|, i requires 0 <= i < |items| => Walk(items[i])))
    case Obj(_) => Obj(Process(j))
    case _ => j
  }

  /** `_process`: drop `default`, go into every value, and close and complete an object node. */
  ghost function Process(j: Json): map<string, Json>
    requires j.Obj?
    decreases j, 1
  {
    if IsObjectNode(j.fields) then
      WalkValues(j)["properties" := Obj(WalkProperties(j))]
        ["additionalProperties" := Bool(false)]["required" := Arr(Names(j.fields["properties"].fields.Keys))]
    else WalkValues(j)
  }

  ghost function WalkValues(j: Json): map<string, Json>
    requires j.Obj?
    decreases j, 0
  {
    map k | k in j.fields && k != "default" :: Walk(j.fields[k])
  }

  /** The property map of an object node: optional properties made nullable. It is walked as a node
      of its own, so a property called `default` is dropped from it. */
  ghost function WalkProperties(j: Json): map<string, Json>
    requires j.Obj? && IsObjectNode(j.fields)
    decreases j, 0
  {
    var props := j.fields["properties"].fields;
    map k | k in props && k != "default" :: Widen(props[k], Walk(props[k]), k in RequiredOf(j.fields))
  }

  function Widen(sub: Json, walked: Json, needed: bool): Json {
    if !needed && sub.Obj? && !IsNullable(sub) then OrNull(walked) else walked
  }

  // ----- schemas as pydantic writes them ----------------------------------------------------------

  datatype Schema =
    | Atom(typ: string, default: Option<Json>)
    | Enum(values: seq<string>, default: Option<Json>)
    | Ref(name: string, default: Option<Json>)
    | AnyOf(branches: seq<Schema>, default: Option<Json>)
    | ArrayOf(element: Schema, default: Option<Json>)
    | DictOf(element: Schema, default: Option<Json>)
    | Object(props: map<string, Schema>, required: Option<set<string>>, extra: Option<bool>, default: Option<Json>)

  function WithDefault(fields: map<string, Json>, default: Option<Json>): map<string, Json> {
    if default.Some? then fields["default" := default.value] else fields
  }

  ghost function WithRequired(fields: map<string, Json>, required: Option<set<string>>): map<string, Json> {
    if required.Some? then fields["required" := Arr(Names(required.value))] else fields
  }

  function WithExtra(fields: map<string, Json>, extra: Option<bool>): map<string, Json> {
    if extra.Some? then fields["additionalProperties" := Bool(extra.value)] else fields
  }

  function Strings(values: seq<string>): seq<Json> {
    seq(|values|, i requires 0 <= i < |values| => Str(values[i]))
  }

  ghost function Encode(s: Schema): Json
    decreases s, 1
  {
    Obj(WithDefault(Bare(s), s.default))
  }

  /** The encoding without the `default` keyword. */
  ghost function Bare(s: Schema): map<string, Json>
    decreases s, 0
  {
    match s
    case Atom(typ, _) => map["type" := Str(typ)]
    case Enum(values, _) => map["type" := Str("string"), "enum" := Arr(Strings(values))]
    case Ref(name, _) => map["$ref" := Str(name)]
    case AnyOf(branches, _) =>
      map["anyOf" := Arr(seq(|branches|, i requires 0 <= i < |branches| => Encode(branches[i])))]
    case ArrayOf(element, _) => map["type" := Str("array"), "items" := Encode(element)]
    case DictOf(element, _) => map["type" := Str("object"), "additionalProperties" := Encode(element)]
    case Object(props, required, extra, _) =>
      WithRequired(WithExtra(map["type" := Str("object"), "properties" := Obj(map k | k in props :: Encode(props[k]))],
                             extra), required)
  }

  /** Does the property already accept null, as `_is_nullable` sees it. */
  predicate Nullable(s: Schema) {
    s.AnyOf? && exists i :: 0 <= i < |s.branches| && s.branches[i].Atom? && s.branches[i].typ == "null"
  }

  const NULL_ATOM := Atom("null", None)

  function Widened(sub: Schema, strict: Schema, needed: bool): Schema {
    if needed || Nullable(sub) then strict else AnyOf([strict, NULL_ATOM], None)
  }

  function Needed(required: Option<set<string>>): set<string> {
    if required.Some? then required.value else {}
  }

  /** The strict form of a schema. */
  function Strict(s: Schema): Schema {
    match s
    case Atom(typ, _) => Atom(typ, None)
    case Enum(values, _) => Enum(values, None)
    case Ref(name, _) => Ref(name, None)
    case AnyOf(branches, _) => AnyOf(seq(|branches|, i requires 0 <= i < |branches| => Strict(branches[i])), None)
    case ArrayOf(element, _) => ArrayOf(Strict(element), None)
    case DictOf(element, _) => DictOf(Strict(element), None)
    case Object(props, required, _, _) =>
      Object(map k | k in props :: Widened(props[k], Strict(props[k]), k in Needed(required)),
             Some(props.Keys), Some(false), None)
  }

  /** No object has a property called `default`. */
  ghost predicate NoDefaultName(s: Schema) {
    match s
    case AnyOf(branches, _) => forall i :: 0 <= i < |branches| ==> NoDefaultName(branches[i])
    case ArrayOf(element, _) => NoDefaultName(element)
    case DictOf(element, _) => NoDefaultName(element)
    case Object(props, _, _, _) => "default" !in props && forall k :: k in props ==> NoDefaultName(props[k])
    case _ => true
  }

  // ----- the walk computes the strict form ---------------------------------------------------------

  lemma BareHasNoDefault(s: Schema)
    ensures "default" !in Bare(s)
    ensures forall k :: k in Encode(s).fields && k != "default" <==> k in Bare(s)
    ensures forall k :: k in Bare(s) ==> Encode(s).fields[k] == Bare(s)[k]
  {
    hide Names, Strings;
  }

  lemma {:induction false} NamesAre(keys: set<string>)
    ensures forall s :: Str(s) in Names(keys) <==> s in keys
    ensures forall i :: 0 <= i < |Names(keys)| ==> Names(keys)[i].Str?
    decreases keys
  {
    if keys != {} {
      var k :| k in keys && Names(keys) == [Str(k)] + Names(keys - {k});
      NamesAre(keys - {k});
    }
  }

  lemma NullableRead(s: Schema)
    ensures IsNullable(Encode(s)) <==> Nullable(s)
  {
    hide Names;
    BareHasNoDefault(s);
    if s.AnyOf? {
      var items := Encode(s).fields["anyOf"].items;
      forall i | 0 <= i < |s.branches|
        ensures IsNullBranch(items[i]) <==> s.branches[i].Atom? && s.branches[i].typ == "null"
      {
        assert items[i] == Encode(s.branches[i]);
        NullBranchRead(s.branches[i]);
      }
    }
  }

  lemma NullBranchRead(s: Schema)
    ensures IsNullBranch(Encode(s)) <==> s.Atom? && s.typ == "null"
  {
    hide Names;
  }

  /** Going into the values of an encoded schema. */
  lemma WalkValuesRead(s: Schema)
    ensures WalkValues(Encode(s)) == map k | k in Bare(s) :: Walk(Bare(s)[k])
  {
    hide Walk, Bare, Encode, Names;
    BareHasNoDefault(s);
  }

  lemma WalkPlain(s: Schema)
    requires !s.Object?
    ensures Walk(Encode(s)) == Obj(map k | k in Bare(s) :: Walk(Bare(s)[k]))
  {
    hide Names, RequiredOf, WalkValues, Strings;
    BareHasNoDefault(s);
    WalkValuesRead(s);
    assert !IsObjectNode(Encode(s).fields);
  }

  ghost function EncodedProps(s: Schema): map<string, Json>
    requires s.Object?
  {
    map k | k in s.props :: Encode(s.props[k])
  }

  lemma ObjectRead(s: Schema)
    requires s.Object?
    ensures IsObjectNode(Encode(s).fields) && Encode(s).fields["properties"] == Obj(EncodedProps(s))
    ensures Bare(s).Keys <= {"type", "properties", "additionalProperties", "required"} && "type" in Bare(s)
    ensures Bare(s)["type"] == Str("object")
    ensures forall k :: k in RequiredOf(Encode(s).fields) <==> k in Needed(s.required)
  {
    hide Names;
    if s.required.Some? {
      NamesAre(s.required.value);
    }
  }

  /** What the walk makes of the properties of an object. */
  ghost function WalkedProps(s: Schema): map<string, Json>
    requires s.Object?
  {
    map k | k in s.props && k != "default" ::
      if k in Needed(s.required) || Nullable(s.props[k]) then Walk(Encode(s.props[k]))
      else OrNull(Walk(Encode(s.props[k])))
  }

  /** An object node in strict shape. */
  ghost function StrictNode(props: map<string, Json>, names: set<string>): Json {
    Obj(map["type" := Str("object"), "properties" := Obj(props),
            "additionalProperties" := Bool(false), "required" := Arr(Names(names))])
  }

  lemma WalkPropertiesRead(s: Schema)
    requires s.Object?
    ensures IsObjectNode(Encode(s).fields) && WalkProperties(Encode(s)) == WalkedProps(s)
  {
    hide Names, Walk, Encode, RequiredOf, IsNullable, Nullable, IsObjectNode;
    ObjectRead(s);
    var props := EncodedProps(s);
    forall k | k in s.props ensures IsNullable(props[k]) <==> Nullable(s.props[k]) {
      NullableRead(s.props[k]);
    }
    forall k | k in s.props ensures props[k].Obj? {
      EncodeIsObj(s.props[k]);
    }
  }

  lemma EncodeIsObj(s: Schema)
    ensures Encode(s).Obj?
  {
  }

  lemma WalkObject(s: Schema)
    requires s.Object?
    ensures Walk(Encode(s)) == StrictNode(WalkedProps(s), s.props.Keys)
  {
    hide Names, Encode, RequiredOf, WalkValues, WalkProperties, WalkedProps, IsObjectNode, Bare;
    ObjectRead(s);
    WalkPropertiesRead(s);
    WalkValuesRead(s);
    assert EncodedProps(s).Keys == s.props.Keys;
    EncodeIsObj(s);
    var values := WalkValues(Encode(s));
    assert values.Keys == Bare(s).Keys && values["type"] == Str("object");
    ProcessObject(Encode(s), WalkedProps(s), s.props.Keys);
  }

  lemma ProcessObject(j: Json, props: map<string, Json>, names: set<string>)
    requires j.Obj? && IsObjectNode(j.fields)
    requires WalkProperties(j) == props && j.fields["properties"].fields.Keys == names
    requires "type" in WalkValues(j) && WalkValues(j)["type"] == Str("object")
    requires WalkValues(j).Keys <= {"type", "properties", "additionalProperties", "required"}
    ensures Walk(j) == StrictNode(props, names)
  {
    hide Names, WalkValues, WalkProperties, IsObjectNode;
    assert Process(j) == StrictNode(props, names).fields;
  }

  lemma EncodeStrictObject(s: Schema)
    requires s.Object?
    ensures Strict(s).Object? && Strict(s).props.Keys == s.props.Keys
    ensures Encode(Strict(s)) == StrictNode(EncodedProps(Strict(s)), s.props.Keys)
  {
    hide Names, Nullable;
    var t := Strict(s);
    assert t.props.Keys == s.props.Keys;
    EncodeClosed(t.props, s.props.Keys);
  }

  lemma EncodeClosed(props: map<string, Schema>, names: set<string>)
    ensures var t := Object(props, Some(names), Some(false), None); Encode(t) == StrictNode(EncodedProps(t), names)
  {
    hide Names;
    var t := Object(props, Some(names), Some(false), None);
    assert Bare(t)["properties"] == Obj(EncodedProps(t));
    assert Bare(t) == StrictNode(EncodedProps(t), names).fields;
  }

  lemma EncodeOrNull(s: Schema)
    ensures Encode(AnyOf([s, NULL_ATOM], None)) == OrNull(Encode(s))
  {
    var branches := [s, NULL_ATOM];
    var items := seq(|branches|, i requires 0 <= i < |branches| => Encode(branches[i]));
    assert Encode(NULL_ATOM) == NULL_TYPE by { EncodeNull(); }
    hide Encode;
    assert items == [Encode(s), Encode(NULL_ATOM)];
    EncodeAnyOf(branches);
  }

  lemma EncodeNull()
    ensures Encode(NULL_ATOM) == NULL_TYPE
  {
  }

  ghost function EncodeEach(branches: seq<Schema>): seq<Json> {
    seq(|branches|, i requires 0 <= i < |branches| => Encode(branches[i]))
  }

  lemma EncodeAnyOf(branches: seq<Schema>)
    ensures Encode(AnyOf(branches, None)) == Obj(map["anyOf" := Arr(EncodeEach(branches))])
  {
  }

  lemma OrNullInjective(a: Json, b: Json)
    ensures OrNull(a) == OrNull(b) ==> a == b
  {
    if OrNull(a) == OrNull(b) {
      assert OrNull(a).fields["anyOf"].items[0] == a;
    }
  }

  lemma StrictProp(s: Schema, k: string)
    requires s.Object? && k in s.props && k != "default"
    ensures Strict(s).Object? && k in Strict(s).props
    ensures WalkedProps(s)[k] == Encode(Strict(s).props[k]) <==> Walk(Encode(s.props[k])) == Encode(Strict(s.props[k]))
  {
    hide Names, Walk, Encode, Nullable, OrNull;
    EncodeOrNull(Strict(s.props[k]));
    OrNullInjective(Walk(Encode(s.props[k])), Encode(Strict(s.props[k])));
  }

  lemma WalkObjectIsStrict(s: Schema)
    requires s.Object?
    requires forall k :: k in s.props ==>
               (Walk(Encode(s.props[k])) == Encode(Strict(s.props[k])) <==> NoDefaultName(s.props[k]))
    ensures Walk(Encode(s)) == Encode(Strict(s)) <==> NoDefaultName(s)
  {
    hide Names, Walk, Encode, Strict, Nullable, WalkedProps;
    WalkObject(s);
    EncodeStrictObject(s);
    var walked, strict := WalkedProps(s), EncodedProps(Strict(s));
    WalkedKeys(s);
    forall k | k in s.props && k != "default" ensures walked[k] == strict[k] <==> NoDefaultName(s.props[k]) {
      StrictProp(s, k);
    }
    assert StrictNode(walked, s.props.Keys).fields["properties"] == Obj(walked);
    assert StrictNode(strict, s.props.Keys).fields["properties"] == Obj(strict);
    if NoDefaultName(s) {
      assert walked == strict;
    } else if "default" in s.props {
      assert "default" in strict && "default" !in walked;
    } else {
      var k :| k in s.props && !NoDefaultName(s.props[k]);
      assert walked[k] != strict[k];
    }
  }

  lemma WalkedKeys(s: Schema)
    requires s.Object?
    ensures WalkedProps(s).Keys == s.props.Keys - {"default"}
  {
    hide Walk, Encode, Nullable;
  }

  lemma WalkStrings(values: seq<string>)
    ensures Walk(Arr(Strings(values))) == Arr(Strings(values))
  {
    assert Walk(Arr(Strings(values))).items == Strings(values);
  }

  lemma WalkAnyOf(s: Schema)
    requires s.AnyOf?
    requires forall i :: 0 <= i < |s.branches| ==>
               (Walk(Encode(s.branches[i])) == Encode(Strict(s.branches[i])) <==> NoDefaultName(s.branches[i]))
    ensures Walk(Encode(s)) == Encode(Strict(s)) <==> NoDefaultName(s)
  {
    var branches := s.branches;
    WalkPlain(s);
    var walked := seq(|branches|, i requires 0 <= i < |branches| => Walk(Encode(branches[i])));
    var stricts := seq(|branches|, i requires 0 <= i < |branches| => Strict(branches[i]));
    WalkEncodedEach(branches, walked);
    assert Bare(s) == map["anyOf" := Arr(EncodeEach(branches))] by { hide Walk, Strict, NoDefaultName; }
    assert Strict(s) == AnyOf(stricts, None) by { hide Walk, Encode; }
    hide Walk, Encode, Bare, Strict;
    EncodeAnyOf(stricts);
    assert Walk(Encode(s)) == Obj(map["anyOf" := Arr(walked)]);
    assert Obj(map["anyOf" := Arr(walked)]).fields["anyOf"].items == walked;
    assert Obj(map["anyOf" := Arr(EncodeEach(stricts))]).fields["anyOf"].items == EncodeEach(stricts);
    assert walked == EncodeEach(stricts) <==> forall i :: 0 <= i < |branches| ==> walked[i] == EncodeEach(stricts)[i];
  }

  lemma WalkEncodedEach(branches: seq<Schema>, walked: seq<Json>)
    requires |walked| == |branches| && forall i :: 0 <= i < |branches| ==> walked[i] == Walk(Encode(branches[i]))
    ensures Walk(Arr(EncodeEach(branches))) == Arr(walked)
  {
    hide Encode;
    assert Walk(Arr(EncodeEach(branches))).items == walked;
  }

  /** The walk over an encoded schema yields the encoding of its strict form exactly when no object
      in it has a property called `default`. */
  lemma {:induction false} WalkIsStrict(s: Schema)
    ensures Walk(Encode(s)) == Encode(Strict(s)) <==> NoDefaultName(s)
  {
    match s
    case Atom(_, _) => WalkLeaf(s);
    case Enum(_, _) => WalkLeaf(s);
    case Ref(_, _) => WalkLeaf(s);
    case AnyOf(branches, _) =>
      forall i | 0 <= i < |branches|
        ensures Walk(Encode(branches[i])) == Encode(Strict(branches[i])) <==> NoDefaultName(branches[i])
      {
        WalkIsStrict(branches[i]);
      }
      WalkAnyOf(s);
    case ArrayOf(element, _) =>
      WalkIsStrict(element);
      WalkElement(s);
    case DictOf(element, _) =>
      WalkIsStrict(element);
      WalkElement(s);
    case Object(props, _, _, _) =>
      forall k | k in props ensures Walk(Encode(props[k])) == Encode(Strict(props[k])) <==> NoDefaultName(props[k]) {
        WalkIsStrict(props[k]);
      }
      WalkObjectIsStrict(s);
  }

  lemma WalkLeaf(s: Schema)
    requires s.Atom? || s.Enum? || s.Ref?
    ensures Walk(Encode(s)) == Encode(Strict(s))
  {
    WalkPlain(s);
    if s.Enum? {
      WalkStrings(s.values);
    }
  }

  /** A one-child node: `items` of an array or `additionalProperties` of a dictionary. */
  ghost function ElementNode(isArray: bool, child: Json): Json {
    if isArray then Obj(map["type" := Str("array"), "items" := child])
    else Obj(map["type" := Str("object"), "additionalProperties" := child])
  }

  lemma BareElement(s: Schema)
    requires s.ArrayOf? || s.DictOf?
    ensures Obj(Bare(s)) == ElementNode(s.ArrayOf?, Encode(s.element))
    ensures s.default.None? ==> Encode(s) == Obj(Bare(s))
  {
  }

  lemma WalkElementNode(m: map<string, Json>, isArray: bool, child: Json)
    requires Obj(m) == ElementNode(isArray, child)
    ensures Obj(map k | k in m :: Walk(m[k])) == ElementNode(isArray, Walk(child))
  {
    hide Walk;
    WalkStr("array");
    WalkStr("object");
    if isArray {
      WalkTwo("type", Str("array"), "items", child);
    } else {
      WalkTwo("type", Str("object"), "additionalProperties", child);
    }
  }

  lemma WalkTwo(a: string, x: Json, b: string, y: Json)
    ensures var m := map[a := x, b := y]; (map k | k in m :: Walk(m[k])) == map[a := Walk(x), b := Walk(y)]
  {
    hide Walk;
  }

  lemma WalkStr(text: string)
    ensures Walk(Str(text)) == Str(text)
  {
  }

  lemma StrictElement(s: Schema)
    requires s.ArrayOf? || s.DictOf?
    ensures Strict(s) == if s.ArrayOf? then ArrayOf(Strict(s.element), None) else DictOf(Strict(s.element), None)
  {
  }

  lemma WalkElement(s: Schema)
    requires s.ArrayOf? || s.DictOf?
    ensures Walk(Encode(s)) == Encode(Strict(s)) <==> Walk(Encode(s.element)) == Encode(Strict(s.element))
  {
    hide Encode, Bare, Strict, Walk, ElementNode;
    StrictElement(s);
    BareElement(s);
    BareElement(Strict(s));
    WalkPlain(s);
    WalkElementNode(Bare(s), s.ArrayOf?, Encode(s.element));
    ElementInjective(s.ArrayOf?, Walk(Encode(s.element)), Encode(Strict(s.element)));
  }

  lemma ElementInjective(isArray: bool, a: Json, b: Json)
    ensures ElementNode(isArray, a) == ElementNode(isArray, b) ==> a == b
  {
    var key := if isArray then "items" else "additionalProperties";
    assert ElementNode(isArray, a).fields[key] == a && ElementNode(isArray, b).fields[key] == b;
  }
}
