/** What a schema accepts, and that its strict form accepts the same values up to nulls on
    optional fields (sections 10.2.1.2, 10.3.2.1 and 10.3.2.3 of JSON Schema Core 2020-12). */
module StrictMeaning {
  import opened Common
  import opened StrictSchema

  type Defs = map<string, Schema>

  predicate TypeOk(typ: string, v: Json) {
    match v
    case Null => typ == "null"
    case Bool(_) => typ == "boolean"
    case Num(_) => typ == "integer" || typ == "number"
    case Str(_) => typ == "string"
    case Arr(_) => typ == "array"
    case Obj(_) => typ == "object"
  }

  /** `v` is valid under `s` with at most `n` references followed in a row. With `closed`, no object
      may hold a property its schema does not list. */
  ghost predicate Valid(defs: Defs, s: Schema, v: Json, n: nat, closed: bool)
    decreases n, s
  {
    match s
    case Atom(typ, _) => TypeOk(typ, v)
    case Enum(values, _) => v.Str? && v.text in values
    case Ref(name, _) => n > 0 && name in defs && Valid(defs, defs[name], v, n - 1, closed)
    case AnyOf(branches, _) => exists i :: 0 <= i < |branches| && Valid(defs, branches[i], v, n, closed)
    case ArrayOf(element, _) => v.Arr? && forall i :: 0 <= i < |v.items| ==> Valid(defs, element, v.items[i], n, closed)
    case DictOf(element, _) => v.Obj? && forall k :: k in v.fields ==> Valid(defs, element, v.fields[k], n, closed)
    case Object(props, required, extra, _) =>
      && v.Obj? && Needed(required) <= v.fields.Keys
      && (forall k :: k in props && k in v.fields ==> Valid(defs, props[k], v.fields[k], n, closed))
      && (closed || extra == Some(false) ==> v.fields.Keys <= props.Keys)
  }

  ghost function StrictDefs(defs: Defs): Defs {
    map k | k in defs :: Strict(defs[k])
  }

  /** `less` is `more` with some null fields left out. */
  ghost predicate Drops(more: Json, less: Json) {
    match more
    case Arr(items) =>
      && less.Arr? && |less.items| == |items|
      && forall i :: 0 <= i < |items| ==> Drops(items[i], less.items[i])
    case Obj(fields) =>
      && less.Obj? && less.fields.Keys <= fields.Keys
      && forall k :: k in fields ==> if k in less.fields then Drops(fields[k], less.fields[k]) else fields[k] == Null
    case _ => less == more
  }

  lemma {:induction false} DropsSelf(v: Json)
    ensures Drops(v, v)
  {
    match v
    case Arr(items) =>
      forall i | 0 <= i < |items| ensures Drops(items[i], items[i]) { DropsSelf(items[i]); }
    case Obj(fields) =>
      forall k | k in fields ensures Drops(fields[k], fields[k]) { DropsSelf(fields[k]); }
    case _ =>
  }

  /** Which branch of an `anyOf` accepts the value. */
  ghost function Branch(defs: Defs, branches: seq<Schema>, v: Json, n: nat, closed: bool): (i: int)
    ensures 0 <= i < |branches| ==> Valid(defs, branches[i], v, n, closed)
    ensures !(0 <= i < |branches|) ==> forall k :: 0 <= k < |branches| ==> !Valid(defs, branches[k], v, n, closed)
  {
    if exists k :: 0 <= k < |branches| && Valid(defs, branches[k], v, n, closed) then
      var k :| 0 <= k < |branches| && Valid(defs, branches[k], v, n, closed);
      k
    else -1
  }

  // ----- filling ---------------------------------------------------------------------------------

  /** The null-filled form: null for every listed property an object does not have. */
  ghost function Fill(defs: Defs, s: Schema, v: Json, n: nat): Json
    decreases n, s
  {
    match s
    case Ref(name, _) => if n > 0 && name in defs then Fill(defs, defs[name], v, n - 1) else v
    case AnyOf(branches, _) =>
      var i := Branch(defs, branches, v, n, true);
      if 0 <= i < |branches| then Fill(defs, branches[i], v, n) else v
    case ArrayOf(element, _) =>
      if v.Arr? then Arr(seq(|v.items|, i requires 0 <= i < |v.items| => Fill(defs, element, v.items[i], n))) else v
    case DictOf(element, _) =>
      if v.Obj? then Obj(map k | k in v.fields :: Fill(defs, element, v.fields[k], n)) else v
    case Object(props, _, _, _) =>
      if v.Obj? then
        Obj(map k | k in props :: if k in v.fields then Fill(defs, props[k], v.fields[k], n) else Null)
      else v
    case _ => v
  }

  ghost predicate Filled(defs: Defs, s: Schema, v: Json, n: nat) {
    Valid(StrictDefs(defs), Strict(s), Fill(defs, s, v, n), n, false) && Drops(Fill(defs, s, v, n), v)
  }

  /** Every closed value of a schema, null-filled, is valid under the strict form. */
  lemma {:induction false} FillValid(defs: Defs, s: Schema, v: Json, n: nat)
    requires Valid(defs, s, v, n, true)
    ensures Valid(StrictDefs(defs), Strict(s), Fill(defs, s, v, n), n, false)
    ensures Drops(Fill(defs, s, v, n), v)
    decreases n, s
  {
    match s
    case Atom(_, _) => DropsSelf(v);
    case Enum(_, _) =>
    case Ref(name, _) => FillValid(defs, defs[name], v, n - 1);
    case AnyOf(branches, _) =>
      var i := Branch(defs, branches, v, n, true);
      FillValid(defs, branches[i], v, n);
      assert Strict(s).branches[i] == Strict(branches[i]);
    case ArrayOf(element, _) =>
      forall i | 0 <= i < |v.items| ensures Filled(defs, element, v.items[i], n) {
        FillValid(defs, element, v.items[i], n);
      }
    case DictOf(element, _) =>
      forall k | k in v.fields ensures Filled(defs, element, v.fields[k], n) {
        FillValid(defs, element, v.fields[k], n);
      }
    case Object(props, _, _, _) =>
      forall k | k in props && k in v.fields ensures Filled(defs, props[k], v.fields[k], n) {
        FillValid(defs, props[k], v.fields[k], n);
      }
      FillObject(defs, s, v, n);
  }

  lemma FillObject(defs: Defs, s: Schema, v: Json, n: nat)
    requires s.Object? && Valid(defs, s, v, n, true)
    requires forall k :: k in s.props && k in v.fields ==> Filled(defs, s.props[k], v.fields[k], n)
    ensures Valid(StrictDefs(defs), Strict(s), Fill(defs, s, v, n), n, false)
    ensures Drops(Fill(defs, s, v, n), v)
  {
    hide StrictDefs, Filled, Nullable;
    var w := Fill(defs, s, v, n);
    assert w.fields.Keys == s.props.Keys;
    forall k | k in s.props ensures Valid(StrictDefs(defs), Strict(s).props[k], w.fields[k], n, false) {
      var more := w.fields[k];
      if k in v.fields {
        assert Valid(StrictDefs(defs), Strict(s.props[k]), more, n, false) by {
          FilledValid(defs, s.props[k], v.fields[k], n);
        }
        WidenedKeeps(StrictDefs(defs), s.props[k], more, n, k in Needed(s.required));
      } else {
        WidenedNull(StrictDefs(defs), s.props[k], n);
      }
    }
    forall k | k in w.fields && k in v.fields ensures Drops(w.fields[k], v.fields[k]) {
      FilledValid(defs, s.props[k], v.fields[k], n);
    }
  }

  lemma FilledValid(defs: Defs, s: Schema, v: Json, n: nat)
    requires Filled(defs, s, v, n)
    ensures Valid(StrictDefs(defs), Strict(s), Fill(defs, s, v, n), n, false) && Drops(Fill(defs, s, v, n), v)
  {
  }

  lemma WidenedKeeps(defs: Defs, sub: Schema, v: Json, n: nat, needed: bool)
    requires Valid(defs, Strict(sub), v, n, false)
    ensures Valid(defs, Widened(sub, Strict(sub), needed), v, n, false)
  {
    hide Strict, Nullable;
    var w := Widened(sub, Strict(sub), needed);
    if w != Strict(sub) {
      assert w.branches[0] == Strict(sub);
    }
  }

  /** An optional property accepts null in the strict form. */
  lemma WidenedNull(defs: Defs, sub: Schema, n: nat)
    ensures Valid(defs, Widened(sub, Strict(sub), false), Null, n, false)
  {
    if Nullable(sub) {
      var i :| 0 <= i < |sub.branches| && sub.branches[i].Atom? && sub.branches[i].typ == "null";
      assert Strict(sub).branches[i] == NULL_ATOM;
      assert Valid(defs, NULL_ATOM, Null, n, false);
    } else {
      hide Strict;
      assert AnyOf([Strict(sub), NULL_ATOM], None).branches[1] == NULL_ATOM;
      assert Valid(defs, NULL_ATOM, Null, n, false);
    }
  }

  // ----- restoring -------------------------------------------------------------------------------

  /** Every listed requirement of an object is one of its properties, as pydantic writes it. */
  ghost predicate WellFormed(s: Schema) {
    match s
    case AnyOf(branches, _) => forall i :: 0 <= i < |branches| ==> WellFormed(branches[i])
    case ArrayOf(element, _) => WellFormed(element)
    case DictOf(element, _) => WellFormed(element)
    case Object(props, required, _, _) =>
      Needed(required) <= props.Keys && forall k :: k in props ==> WellFormed(props[k])
    case _ => true
  }

  ghost predicate WellFormedDefs(defs: Defs) {
    forall k :: k in defs ==> WellFormed(defs[k])
  }

  ghost function Stricts(branches: seq<Schema>): seq<Schema> {
    seq(|branches|, i requires 0 <= i < |branches| => Strict(branches[i]))
  }

  /** Drop the nulls on optional fields. */
  ghost function Restore(defs: Defs, s: Schema, v: Json, n: nat): Json
    decreases n, s
  {
    match s
    case Ref(name, _) => if n > 0 && name in defs then Restore(defs, defs[name], v, n - 1) else v
    case AnyOf(branches, _) =>
      var i := Branch(StrictDefs(defs), Stricts(branches), v, n, false);
      if 0 <= i < |branches| then Restore(defs, branches[i], v, n) else v
    case ArrayOf(element, _) =>
      if v.Arr? then Arr(seq(|v.items|, i requires 0 <= i < |v.items| => Restore(defs, element, v.items[i], n))) else v
    case DictOf(element, _) =>
      if v.Obj? then Obj(map k | k in v.fields :: Restore(defs, element, v.fields[k], n)) else v
    case Object(props, required, _, _) =>
      if v.Obj? then
        Obj(map k | k in v.fields && k in props && (k in Needed(required) || v.fields[k] != Null) ::
              Restore(defs, props[k], v.fields[k], n))
      else v
    case _ => v
  }

  ghost predicate Restored(defs: Defs, s: Schema, v: Json, n: nat) {
    Valid(defs, s, Restore(defs, s, v, n), n, true) && Drops(v, Restore(defs, s, v, n))
  }

  /** Every value valid under the strict form becomes, with its nulls on optional fields dropped, a
      closed value of the source schema. */
  lemma {:induction false} RestoreValid(defs: Defs, s: Schema, v: Json, n: nat)
    requires WellFormed(s) && WellFormedDefs(defs)
    requires Valid(StrictDefs(defs), Strict(s), v, n, false)
    ensures Valid(defs, s, Restore(defs, s, v, n), n, true)
    ensures Drops(v, Restore(defs, s, v, n))
    decreases n, s
  {
    match s
    case Atom(_, _) => DropsSelf(v);
    case Enum(_, _) =>
    case Ref(name, _) => RestoreValid(defs, defs[name], v, n - 1);
    case AnyOf(branches, _) =>
      assert Strict(s).branches == Stricts(branches);
      var i := Branch(StrictDefs(defs), Stricts(branches), v, n, false);
      RestoreValid(defs, branches[i], v, n);
    case ArrayOf(element, _) =>
      forall i | 0 <= i < |v.items| ensures Restored(defs, element, v.items[i], n) {
        RestoreValid(defs, element, v.items[i], n);
      }
    case DictOf(element, _) =>
      forall k | k in v.fields ensures Restored(defs, element, v.fields[k], n) {
        RestoreValid(defs, element, v.fields[k], n);
      }
    case Object(props, required, _, _) =>
      forall k | k in v.fields && (k in Needed(required) || v.fields[k] != Null)
        ensures k in props && Restored(defs, props[k], v.fields[k], n)
      {
        assert Valid(StrictDefs(defs), Strict(s).props[k], v.fields[k], n, false);
        WidenedNotNull(StrictDefs(defs), props[k], v.fields[k], n, k in Needed(required));
        RestoreValid(defs, props[k], v.fields[k], n);
      }
      RestoreObject(defs, s, v, n);
  }

  /** A value of a widened property that is not the added null is a value of the property. */
  lemma WidenedNotNull(defs: Defs, sub: Schema, v: Json, n: nat, needed: bool)
    requires Valid(defs, Widened(sub, Strict(sub), needed), v, n, false) && (needed || v != Null)
    ensures Valid(defs, Strict(sub), v, n, false)
  {
    hide Strict, Nullable;
    var w := Widened(sub, Strict(sub), needed);
    if w != Strict(sub) {
      var i :| 0 <= i < |w.branches| && Valid(defs, w.branches[i], v, n, false);
      assert w.branches == [Strict(sub), NULL_ATOM];
      assert !Valid(defs, NULL_ATOM, v, n, false);
    }
  }

  lemma RestoreObject(defs: Defs, s: Schema, v: Json, n: nat)
    requires s.Object? && WellFormed(s) && Valid(StrictDefs(defs), Strict(s), v, n, false)
    requires forall k :: k in v.fields && (k in Needed(s.required) || v.fields[k] != Null) ==>
               k in s.props && Restored(defs, s.props[k], v.fields[k], n)
    ensures Valid(defs, s, Restore(defs, s, v, n), n, true)
    ensures Drops(v, Restore(defs, s, v, n))
  {
    hide StrictDefs, Restored, Nullable;
    var u := Restore(defs, s, v, n);
    assert v.fields.Keys == s.props.Keys;
    assert u.fields.Keys <= s.props.Keys && Needed(s.required) <= u.fields.Keys;
    forall k | k in u.fields ensures Valid(defs, s.props[k], u.fields[k], n, true) && Drops(v.fields[k], u.fields[k]) {
      RestoredValid(defs, s.props[k], v.fields[k], n);
    }
  }

  /** That is needed: an object that requires a name it does not list has no closed value at all, while
      its strict form no longer asks for the name. */
  lemma UnlistedRequirement(defs: Defs, s: Schema, v: Json, n: nat)
    requires s.Object? && !(Needed(s.required) <= s.props.Keys)
    ensures !Valid(defs, s, v, n, true) && Strict(s).required == Some(s.props.Keys)
  {
  }

  lemma RestoredValid(defs: Defs, s: Schema, v: Json, n: nat)
    requires Restored(defs, s, v, n)
    ensures Valid(defs, s, Restore(defs, s, v, n), n, true) && Drops(v, Restore(defs, s, v, n))
  {
  }

  // ----- the strict form is a fixed point ------------------------------------------------------------

  /** What the transform settles at every node: no `default`, and objects with a property map closed
      and all of it required. */
  ghost predicate Settled(s: Schema) {
    && s.default.None?
    && match s
       case AnyOf(branches, _) => forall i :: 0 <= i < |branches| ==> Settled(branches[i])
       case ArrayOf(element, _) => Settled(element)
       case DictOf(element, _) => Settled(element)
       case Object(props, required, extra, _) =>
         required == Some(props.Keys) && extra == Some(false) && forall k :: k in props ==> Settled(props[k])
       case _ => true
  }

  lemma {:induction false} StrictSettles(s: Schema)
    ensures Settled(Strict(s))
  {
    match s
    case AnyOf(branches, _) =>
      forall i | 0 <= i < |branches| ensures Settled(Strict(s).branches[i]) { StrictSettles(branches[i]); }
    case ArrayOf(element, _) => StrictSettles(element);
    case DictOf(element, _) => StrictSettles(element);
    case Object(props, required, _, _) =>
      forall k | k in props ensures Settled(Strict(s).props[k]) {
        StrictSettles(props[k]);
        WidenedSettled(props[k], Strict(props[k]), k in Needed(required));
      }
      assert Strict(s).props.Keys == props.Keys;
    case _ =>
  }

  lemma WidenedSettled(sub: Schema, strict: Schema, needed: bool)
    requires Settled(strict)
    ensures Settled(Widened(sub, strict, needed))
  {
    hide Nullable;
    var w := AnyOf([strict, NULL_ATOM], None);
    forall i | 0 <= i < 2 ensures Settled(w.branches[i]) {
      assert w.branches[i] == strict || w.branches[i] == NULL_ATOM;
    }
  }

  /** A settled schema is its own strict form. */
  lemma {:induction false} SettledKept(s: Schema)
    requires Settled(s)
    ensures Strict(s) == s
  {
    match s
    case AnyOf(branches, _) =>
      forall i | 0 <= i < |branches| ensures Strict(branches[i]) == branches[i] { SettledKept(branches[i]); }
      assert Strict(s).branches == branches;
    case ArrayOf(element, _) => SettledKept(element);
    case DictOf(element, _) => SettledKept(element);
    case Object(props, _, _, _) =>
      forall k | k in props ensures Strict(props[k]) == props[k] { SettledKept(props[k]); }
      assert Strict(s).props == props;
    case _ =>
  }

  lemma StrictIdempotent(s: Schema)
    ensures Strict(Strict(s)) == Strict(s)
  {
    StrictSettles(s);
    SettledKept(Strict(s));
  }

  // ----- when the strict form is strict ----------------------------------------------------------------

  /** What strict mode demands: no node carries a `default`, and every node of type object is closed
      and requires all its properties. A dictionary and a bare object are objects that stay open. */
  ghost predicate AllStrict(s: Schema) {
    && s.default.None?
    && match s
       case Atom(typ, _) => typ != "object"
       case AnyOf(branches, _) => forall i :: 0 <= i < |branches| ==> AllStrict(branches[i])
       case ArrayOf(element, _) => AllStrict(element)
       case DictOf(_, _) => false
       case Object(props, required, extra, _) =>
         required == Some(props.Keys) && extra == Some(false) && forall k :: k in props ==> AllStrict(props[k])
       case _ => true
  }

  /** Every object of the schema has a property map. */
  ghost predicate ObjectsHaveProperties(s: Schema) {
    match s
    case Atom(typ, _) => typ != "object"
    case AnyOf(branches, _) => forall i :: 0 <= i < |branches| ==> ObjectsHaveProperties(branches[i])
    case ArrayOf(element, _) => ObjectsHaveProperties(element)
    case DictOf(_, _) => false
    case Object(props, _, _, _) => forall k :: k in props ==> ObjectsHaveProperties(props[k])
    case _ => true
  }

  /** The strict form meets strict mode exactly when every object of the schema has a property map. */
  lemma {:induction false} StrictExactly(s: Schema)
    ensures AllStrict(Strict(s)) <==> ObjectsHaveProperties(s)
  {
    match s
    case AnyOf(branches, _) =>
      forall i | 0 <= i < |branches|
        ensures Strict(s).branches[i] == Strict(branches[i])
        ensures AllStrict(Strict(branches[i])) <==> ObjectsHaveProperties(branches[i])
      {
        StrictExactly(branches[i]);
      }
    case ArrayOf(element, _) => StrictExactly(element);
    case Object(props, required, _, _) =>
      assert Strict(s).props.Keys == props.Keys;
      forall k | k in props ensures AllStrict(Strict(s).props[k]) <==> ObjectsHaveProperties(props[k]) {
        StrictExactly(props[k]);
        WidenedStrict(props[k], Strict(props[k]), k in Needed(required));
      }
    case _ =>
  }

  lemma WidenedStrict(sub: Schema, strict: Schema, needed: bool)
    ensures AllStrict(Widened(sub, strict, needed)) <==> AllStrict(strict)
  {
    hide Nullable;
    var w := AnyOf([strict, NULL_ATOM], None);
    assert w.branches[0] == strict && w.branches[1] == NULL_ATOM;
    assert AllStrict(NULL_ATOM);
  }

  /** A dictionary of strings, the smallest schema the transform leaves open. */
  lemma DictionaryStaysOpen()
    ensures var s := DictOf(Atom("string", None), None);
            Strict(s) == s && !AllStrict(Strict(s)) && Valid(map[], Strict(s), Obj(map["any" := Str("")]), 0, false)
  {
    var s := DictOf(Atom("string", None), None);
    assert Strict(s.element) == s.element;
    assert Valid(map[], Atom("string", None), Str(""), 0, false);
  }
}
