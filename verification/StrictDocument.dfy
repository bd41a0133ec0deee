/** Whole schema documents with `$defs`, and when a second walk changes nothing. */
module StrictDocument {
  import opened Common
  import opened StrictSchema
  import opened StrictMeaning

  datatype Document = Document(defs: Defs, root: Schema)

  ghost function EncodeMap(schemas: map<string, Schema>): map<string, Json> {
    map k | k in schemas :: Encode(schemas[k])
  }

  ghost function EncodeDocument(d: Document): Json {
    Obj(Encode(d.root).fields["$defs" := Obj(EncodeMap(d.defs))])
  }

  /** The document `to_openai_strict_schema` is meant to return. */
  ghost function StrictDoc(d: Document): Document {
    Document(StrictDefs(d.defs), Strict(d.root))
  }

  /** No property and no definition is called `default`. */
  ghost predicate DefaultFree(d: Document) {
    && NoDefaultName(d.root) && "default" !in d.defs
    && forall k :: k in d.defs ==> NoDefaultName(d.defs[k])
  }

  predicate Plain(key: string) {
    key != "default" && key != "type" && key != "properties" && key != "required" && key != "additionalProperties"
  }

  /** A keyword the walk does not know only has its own value walked. */
  lemma WalkExtra(j: Json, key: string, value: Json)
    requires j.Obj? && Plain(key)
    ensures Walk(Obj(j.fields[key := value])) == Obj(Process(j)[key := Walk(value)])
  {
    hide Names, IsNullable;
    var more := Obj(j.fields[key := value]);
    assert WalkValues(more) == WalkValues(j)[key := Walk(value)];
    assert IsObjectNode(more.fields) == IsObjectNode(j.fields);
    if IsObjectNode(j.fields) {
      assert RequiredOf(more.fields) == RequiredOf(j.fields);
      assert WalkProperties(more) == WalkProperties(j);
      Reorder(WalkValues(j), key, Walk(value), Obj(WalkProperties(j)), Arr(Names(j.fields["properties"].fields.Keys)));
    }
  }

  lemma Reorder(m: map<string, Json>, key: string, value: Json, props: Json, names: Json)
    requires Plain(key)
    ensures m[key := value]["properties" := props]["additionalProperties" := Bool(false)]["required" := names]
         == m["properties" := props]["additionalProperties" := Bool(false)]["required" := names][key := value]
  {
  }

  /** What a walk makes of the definitions: one called `default` is dropped. */
  ghost function WalkedDefs(defs: Defs): map<string, Json> {
    map k | k in defs && k != "default" :: Walk(Encode(defs[k]))
  }

  lemma WalkMap(schemas: map<string, Schema>)
    ensures Walk(Obj(EncodeMap(schemas))) == Obj(WalkedDefs(schemas))
  {
    hide Names, Encode;
    var j := Obj(EncodeMap(schemas));
    if "type" in schemas {
      EncodeIsObj(schemas["type"]);
    }
    assert !IsObjectNode(j.fields);
    assert WalkValues(j) == WalkedDefs(schemas);
  }

  lemma NoDefs(s: Schema)
    ensures "$defs" !in Encode(s).fields
    ensures "$defs" !in Process(Encode(s))
  {
    hide Names, Walk, Strings;
    EncodeIsObj(s);
    assert "$defs" !in Bare(s);
    hide Bare, WalkProperties;
  }

  lemma UpdateInjective(f: map<string, Json>, g: map<string, Json>, key: string, a: Json, b: Json)
    requires key !in f && key !in g
    ensures f[key := a] == g[key := b] <==> f == g && a == b
  {
    if f[key := a] == g[key := b] {
      assert f[key := a][key] == a && g[key := b][key] == b;
      forall k | k in f ensures k in g && f[k] == g[k] { assert k in f[key := a] && f[key := a][k] == f[k]; }
      forall k | k in g ensures k in f { assert k in g[key := b]; }
    }
  }

  /** The transform of a whole document is the strict document exactly when nothing in it is called
      `default`. */
  lemma DocumentIsStrict(d: Document)
    ensures Walk(EncodeDocument(d)) == EncodeDocument(StrictDoc(d)) <==> DefaultFree(d)
  {
    hide Names, Walk, Encode, Process, Strict, NoDefaultName;
    EncodeIsObj(d.root);
    EncodeIsObj(Strict(d.root));
    WalkExtra(Encode(d.root), "$defs", Obj(EncodeMap(d.defs)));
    NoDefs(d.root);
    NoDefs(Strict(d.root));
    WalkUnfold(Encode(d.root));
    UpdateInjective(Process(Encode(d.root)), Encode(Strict(d.root)).fields, "$defs",
                    Walk(Obj(EncodeMap(d.defs))), Obj(EncodeMap(StrictDefs(d.defs))));
    WalkIsStrict(d.root);
    DefsAreStrict(d.defs);
  }

  lemma WalkUnfold(j: Json)
    requires j.Obj?
    ensures Walk(j) == Obj(Process(j))
  {
  }

  lemma DefsAreStrict(defs: Defs)
    ensures Walk(Obj(EncodeMap(defs))) == Obj(EncodeMap(StrictDefs(defs)))
       <==> "default" !in defs && forall k :: k in defs ==> NoDefaultName(defs[k])
  {
    hide Names, Walk, Encode, Strict, NoDefaultName;
    WalkMap(defs);
    var walked, strict := WalkedDefs(defs), EncodeMap(StrictDefs(defs));
    forall k | k in defs ensures Walk(Encode(defs[k])) == Encode(Strict(defs[k])) <==> NoDefaultName(defs[k]) {
      WalkIsStrict(defs[k]);
    }
    assert strict.Keys == defs.Keys && forall k :: k in defs ==> strict[k] == Encode(Strict(defs[k]));
    if "default" in defs {
      assert "default" in strict && "default" !in walked;
    } else if k :| k in defs && !NoDefaultName(defs[k]) {
      assert walked[k] != strict[k];
    } else {
      assert walked == strict;
    }
  }

  // ----- a second walk ---------------------------------------------------------------------------

  lemma {:induction false} StrictDefaultFree(s: Schema)
    requires NoDefaultName(s)
    ensures NoDefaultName(Strict(s))
  {
    match s
    case AnyOf(branches, _) =>
      forall i | 0 <= i < |branches| ensures NoDefaultName(Strict(branches[i])) { StrictDefaultFree(branches[i]); }
    case ArrayOf(element, _) => StrictDefaultFree(element);
    case DictOf(element, _) => StrictDefaultFree(element);
    case Object(props, required, _, _) =>
      forall k | k in props ensures NoDefaultName(Strict(s).props[k]) {
        StrictDefaultFree(props[k]);
        WidenedFree(props[k], Strict(props[k]), k in Needed(required));
      }
    case _ =>
  }

  lemma WidenedFree(sub: Schema, strict: Schema, needed: bool)
    requires NoDefaultName(strict)
    ensures NoDefaultName(Widened(sub, strict, needed))
  {
    hide Nullable;
    var w := AnyOf([strict, NULL_ATOM], None);
    forall i | 0 <= i < 2 ensures NoDefaultName(w.branches[i]) {
      assert w.branches[i] == strict || w.branches[i] == NULL_ATOM;
    }
  }

  /** Without such a name, walking twice is walking once. */
  lemma WalkTwice(s: Schema)
    requires NoDefaultName(s)
    ensures Walk(Walk(Encode(s))) == Walk(Encode(s))
  {
    hide Walk, Encode, Strict, NoDefaultName;
    WalkIsStrict(s);
    StrictDefaultFree(s);
    WalkIsStrict(Strict(s));
    StrictIdempotent(s);
  }

  lemma WalkOrNull(y: Json)
    ensures Walk(OrNull(y)) == OrNull(Walk(y))
  {
    var j := OrNull(y);
    assert !IsObjectNode(j.fields);
    assert Walk(NULL_TYPE) == NULL_TYPE by { WalkNullType(); }
    var items := [y, NULL_TYPE];
    assert Walk(Arr(items)).items == [Walk(y), Walk(NULL_TYPE)];
    assert WalkValues(j) == map["anyOf" := Walk(Arr(items))];
  }

  lemma WalkNullType()
    ensures Walk(NULL_TYPE) == NULL_TYPE
  {
    WalkStr("null");
    assert !IsObjectNode(NULL_TYPE.fields);
    assert WalkValues(NULL_TYPE) == NULL_TYPE.fields;
  }

  lemma NamesInjective(a: set<string>, b: set<string>)
    requires Names(a) == Names(b)
    ensures a == b
  {
    NamesAre(a);
    NamesAre(b);
  }

  ghost function WalkEach(props: map<string, Json>): map<string, Json> {
    map k | k in props :: Walk(props[k])
  }

  /** A second walk over an object in strict shape. */
  lemma WalkStrictNode(props: map<string, Json>, names: set<string>)
    requires props.Keys <= names && "default" !in props
    ensures Walk(StrictNode(props, names)) == StrictNode(WalkEach(props), props.Keys)
  {
    hide Names, Walk, IsNullable;
    var j := StrictNode(props, names);
    NamesAre(names);
    StrictNodeFields(props, names);
    assert WalkProperties(j) == WalkEach(props);
    WalkStr("object");
    assert WalkValues(j)["type"] == Str("object");
    ProcessObject(j, WalkProperties(j), props.Keys);
  }

  lemma StrictNodeFields(props: map<string, Json>, names: set<string>)
    ensures var f := StrictNode(props, names).fields;
            && IsObjectNode(f) && f["properties"] == Obj(props)
            && f.Keys == {"type", "properties", "additionalProperties", "required"}
            && forall s :: s in RequiredOf(f) <==> s in names
  {
    hide Names;
    NamesAre(names);
    var f := StrictNode(props, names).fields;
    assert f["required"] == Arr(Names(names));
    assert f["type"] == Str("object") && f["properties"] == Obj(props);
  }

  lemma StrictNodeInjective(a: map<string, Json>, x: set<string>, b: map<string, Json>, y: set<string>)
    requires StrictNode(a, x) == StrictNode(b, y)
    ensures a == b && x == y
  {
    hide Names;
    var f, g := StrictNode(a, x).fields, StrictNode(b, y).fields;
    assert f["required"] == Arr(Names(x)) && g["required"] == Arr(Names(y));
    assert f["properties"] == Obj(a) && g["properties"] == Obj(b);
    NamesInjective(x, y);
  }

  lemma WalkBranches(items: seq<Json>)
    ensures Walk(Obj(map["anyOf" := Arr(items)])) == Obj(map["anyOf" := Walk(Arr(items))])
  {
    var j := Obj(map["anyOf" := Arr(items)]);
    assert !IsObjectNode(j.fields);
    assert WalkValues(j) == map["anyOf" := Walk(Arr(items))];
  }

  lemma WalkedAnyOf(s: Schema) returns (walked: seq<Json>)
    requires s.AnyOf?
    ensures |walked| == |s.branches| && forall i :: 0 <= i < |walked| ==> walked[i] == Walk(Encode(s.branches[i]))
    ensures Walk(Encode(s)) == Obj(map["anyOf" := Arr(walked)])
  {
    var branches := s.branches;
    WalkPlain(s);
    walked := seq(|branches|, i requires 0 <= i < |branches| => Walk(Encode(branches[i])));
    WalkEncodedEach(branches, walked);
    assert Bare(s) == map["anyOf" := Arr(EncodeEach(branches))] by { hide Walk; }
    hide Walk, Encode, Bare;
  }

  lemma WalkedElement(s: Schema)
    requires s.ArrayOf? || s.DictOf?
    ensures Walk(Encode(s)) == ElementNode(s.ArrayOf?, Walk(Encode(s.element)))
  {
    hide Encode, Bare, Walk, ElementNode;
    BareElement(s);
    WalkPlain(s);
    WalkElementNode(Bare(s), s.ArrayOf?, Encode(s.element));
  }

  lemma WalkElementAgain(isArray: bool, child: Json)
    ensures Walk(ElementNode(isArray, child)) == ElementNode(isArray, Walk(child))
  {
    var j := ElementNode(isArray, child);
    assert !IsObjectNode(j.fields);
    hide Walk, ElementNode;
    WalkUnfold(j);
    assert WalkValues(j) == map k | k in j.fields :: Walk(j.fields[k]) by { ElementNoDefault(isArray, child); }
    WalkElementNode(j.fields, isArray, child);
  }

  lemma ElementNoDefault(isArray: bool, child: Json)
    ensures "default" !in ElementNode(isArray, child).fields
  {
  }

  /** A second walk that changes nothing shows that no property is called `default`. */
  lemma {:induction false} FixedPointIsFree(s: Schema)
    requires Walk(Walk(Encode(s))) == Walk(Encode(s))
    ensures NoDefaultName(s)
  {
    match s
    case AnyOf(branches, _) =>
      forall i | 0 <= i < |branches| ensures NoDefaultName(branches[i]) {
        AnyOfFixed(s, i);
        FixedPointIsFree(branches[i]);
      }
    case ArrayOf(element, _) => ElementFixed(s); FixedPointIsFree(element);
    case DictOf(element, _) => ElementFixed(s); FixedPointIsFree(element);
    case Object(props, _, _, _) =>
      ObjectFixed(s);
      forall k | k in props ensures NoDefaultName(props[k]) {
        PropertyFixed(s, k);
        FixedPointIsFree(props[k]);
      }
    case _ =>
  }

  lemma AnyOfFixed(s: Schema, i: nat)
    requires s.AnyOf? && i < |s.branches| && Walk(Walk(Encode(s))) == Walk(Encode(s))
    ensures Walk(Walk(Encode(s.branches[i]))) == Walk(Encode(s.branches[i]))
  {
    hide Encode;
    var walked := WalkedAnyOf(s);
    WalkBranches(walked);
    assert Obj(map["anyOf" := Arr(walked)]).fields["anyOf"] == Arr(walked);
    assert Obj(map["anyOf" := Walk(Arr(walked))]).fields["anyOf"] == Walk(Arr(walked));
    assert Walk(Arr(walked)).items[i] == Walk(walked[i]);
  }

  lemma ElementFixed(s: Schema)
    requires (s.ArrayOf? || s.DictOf?) && Walk(Walk(Encode(s))) == Walk(Encode(s))
    ensures Walk(Walk(Encode(s.element))) == Walk(Encode(s.element))
  {
    hide Encode, Walk, ElementNode;
    WalkedElement(s);
    WalkElementAgain(s.ArrayOf?, Walk(Encode(s.element)));
    ElementInjective(s.ArrayOf?, Walk(Walk(Encode(s.element))), Walk(Encode(s.element)));
  }

  lemma ObjectFixed(s: Schema)
    requires s.Object? && Walk(Walk(Encode(s))) == Walk(Encode(s))
    ensures "default" !in s.props
    ensures forall k :: k in WalkedProps(s) ==> Walk(WalkedProps(s)[k]) == WalkedProps(s)[k]
  {
    hide Names, Walk, Encode, WalkedProps, StrictNode;
    WalkObject(s);
    WalkedKeys(s);
    var props := WalkedProps(s);
    WalkStrictNode(props, s.props.Keys);
    StrictNodeInjective(WalkEach(props), props.Keys, props, s.props.Keys);
  }

  lemma PropertyFixed(s: Schema, k: string)
    requires s.Object? && k in s.props && "default" !in s.props
    requires forall k :: k in WalkedProps(s) ==> Walk(WalkedProps(s)[k]) == WalkedProps(s)[k]
    ensures Walk(Walk(Encode(s.props[k]))) == Walk(Encode(s.props[k]))
  {
    hide Walk, Encode, Nullable, OrNull;
    var y := Walk(Encode(s.props[k]));
    assert k in WalkedProps(s) && (WalkedProps(s)[k] == y || WalkedProps(s)[k] == OrNull(y));
    WalkOrNull(y);
    OrNullInjective(Walk(y), y);
  }

  /** The walk is idempotent on an encoded schema exactly when no object in it has a property called
      `default`. */
  lemma IdempotentExact(s: Schema)
    ensures Walk(Walk(Encode(s))) == Walk(Encode(s)) <==> NoDefaultName(s)
  {
    hide Walk, Encode, NoDefaultName;
    if NoDefaultName(s) {
      WalkTwice(s);
    }
    if Walk(Walk(Encode(s))) == Walk(Encode(s)) {
      FixedPointIsFree(s);
    }
  }

  /** What goes wrong with such a property: it stays required and is no longer a property. */
  lemma DefaultPropertyIsLost(s: Schema)
    requires s.Object? && "default" in s.props
    ensures var f := Walk(Encode(s)).fields;
            && "required" in f && f["required"].Arr? && Str("default") in f["required"].items
            && "properties" in f && f["properties"].Obj? && "default" !in f["properties"].fields
  {
    hide Names, Walk, Encode, WalkedProps;
    WalkObject(s);
    WalkedKeys(s);
    NamesAre(s.props.Keys);
    var f := StrictNode(WalkedProps(s), s.props.Keys).fields;
    assert f["required"] == Arr(Names(s.props.Keys)) && f["properties"] == Obj(WalkedProps(s));
  }

  /** The smallest such schema. */
  lemma DefaultPropertyExample()
    ensures var s := Object(map["default" := Atom("string", None)], None, None, None);
            Walk(Encode(s)) != Encode(Strict(s)) && Walk(Walk(Encode(s))) != Walk(Encode(s))
  {
    var s := Object(map["default" := Atom("string", None)], None, None, None);
    hide Walk, Encode, Strict;
    assert "default" in s.props && !NoDefaultName(s);
    WalkIsStrict(s);
    IdempotentExact(s);
  }

  // ----- a second walk over a document -----------------------------------------------------------------

  lemma WalkIsObj(s: Schema)
    ensures Walk(Encode(s)).Obj?
  {
    EncodeIsObj(s);
    WalkUnfold(Encode(s));
  }

  lemma WalkDefsAgain(defs: Defs)
    ensures Walk(Obj(WalkedDefs(defs))) == Obj(WalkEach(WalkedDefs(defs)))
  {
    hide Names, Encode, Walk;
    var m := WalkedDefs(defs);
    var j := Obj(m);
    if "type" in defs {
      WalkIsObj(defs["type"]);
    }
    assert !IsObjectNode(j.fields);
    WalkUnfold(j);
    assert WalkValues(j) == WalkEach(m);
  }

  lemma NoDefsAgain(j: Json)
    requires j.Obj? && "$defs" !in j.fields
    ensures "$defs" !in Process(j)
  {
    hide Names, Walk, WalkProperties;
  }

  /** A second walk leaves the walked definitions as they are exactly when each is a fixed point. */
  lemma DefsFixed(defs: Defs)
    ensures Walk(Obj(WalkedDefs(defs))) == Obj(WalkedDefs(defs))
       <==> forall k :: k in defs && k != "default" ==> NoDefaultName(defs[k])
  {
    hide Names, Encode, Walk, NoDefaultName;
    var m := WalkedDefs(defs);
    WalkDefsAgain(defs);
    forall k | k in m ensures WalkEach(m)[k] == m[k] <==> NoDefaultName(defs[k]) {
      IdempotentExact(defs[k]);
    }
    if forall k :: k in defs && k != "default" ==> NoDefaultName(defs[k]) {
      assert WalkEach(m) == m;
    } else {
      var k :| k in defs && k != "default" && !NoDefaultName(defs[k]);
      assert k in m && WalkEach(m)[k] != m[k];
    }
  }

  /** A second walk over a whole document changes nothing exactly when no property is called `default`,
      in the root or in a definition that survived the first. */
  lemma DocumentIdempotentExact(d: Document)
    ensures Walk(Walk(EncodeDocument(d))) == Walk(EncodeDocument(d))
       <==> NoDefaultName(d.root) && forall k :: k in d.defs && k != "default" ==> NoDefaultName(d.defs[k])
  {
    hide Names, Walk, Encode, Process, NoDefaultName;
    var root, defs := Encode(d.root), Obj(WalkedDefs(d.defs));
    EncodeIsObj(d.root);
    NoDefs(d.root);
    WalkExtra(root, "$defs", Obj(EncodeMap(d.defs)));
    WalkMap(d.defs);
    WalkUnfold(root);
    var once := Walk(root);
    assert Walk(EncodeDocument(d)) == Obj(once.fields["$defs" := defs]);
    WalkExtra(once, "$defs", defs);
    WalkUnfold(once);
    NoDefsAgain(once);
    UpdateInjective(Process(once), once.fields, "$defs", Walk(defs), defs);
    IdempotentExact(d.root);
    DefsFixed(d.defs);
  }
}
