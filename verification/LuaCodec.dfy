/** The rules engine carries a JSON payload into Lua tables and a script result back.
    A table has an array part and a string-keyed part, as the Lua runtime keeps them. */
module LuaCodec {
  import opened Text

  /** A decoded JSON value as the Go code sees it. `Number` is a `json.Number`: the
      outcome of `Float64()` is its value and whether the conversion reported an error. */
  datatype Json =
    | Null
    | Bool(b: bool)
    | Float(f: real)
    | Int(i: int)
    | Number(value: real, invalid: bool)
    | String(s: string)
    | Array(elems: seq<Json>)
    | Object(members: map<string, Json>)

  datatype LuaValue =
    | LNil
    | LBool(b: bool)
    | LNumber(n: real)
    | LString(s: string)
    | LTable(arr: seq<LuaValue>, dict: map<string, LuaValue>)
    | LOther(text: string)

  // ----- the table operations of the Lua runtime

  const EMPTY_TABLE := LTable([], map[])

  function Nils(n: nat): (r: seq<LuaValue>)
    ensures |r| == n && forall i | 0 <= i < n :: r[i] == LNil
  {
    seq(n, _ => LNil)
  }

  /** Positions past the end are filled with nil, one-based. */
  function RawSetInt(t: LuaValue, key: nat, v: LuaValue): LuaValue
    requires t.LTable? && key >= 1
  {
    if key - 1 < |t.arr| then t.(arr := t.arr[key - 1 := v])
    else t.(arr := t.arr + Nils(key - 1 - |t.arr|) + [v])
  }

  /** Storing nil under a string key removes the key. */
  function RawSetString(t: LuaValue, key: string, v: LuaValue): LuaValue
    requires t.LTable?
  {
    if v == LNil then t.(dict := t.dict - {key}) else t.(dict := t.dict[key := v])
  }

  /** The string keys that `ForEach` visits. */
  function LiveKeys(dict: map<string, LuaValue>): set<string> {
    set k | k in dict && dict[k] != LNil
  }

  // ----- JSON to Lua

  function ToLua(v: Json): LuaValue
    decreases v, 1
  {
    match v
    case Null => LNil
    case Bool(b) => LBool(b)
    case Float(f) => LNumber(f)
    case Int(i) => LNumber(i as real)
    case Number(value, invalid) => if invalid then LNumber(value) else LNil
    case String(s) => LString(s)
    case Array(elems) => LTable(ToLuaAll(elems), map[])
    case Object(_) => LTable([], ToLuaMembers(v))
  }

  /** The members that are stored: those that do not turn into nil. */
  function ToLuaMembers(v: Json): map<string, LuaValue>
    requires v.Object?
    decreases v, 0
  {
    map k | k in v.members && ToLua(v.members[k]) != LNil :: ToLua(v.members[k])
  }

  function ToLuaAll(vs: seq<Json>): (r: seq<LuaValue>)
    ensures |r| == |vs| && forall i | 0 <= i < |vs| :: r[i] == ToLua(vs[i])
    decreases vs, 0
  {
    if vs == [] then [] else ToLuaAll(vs[..|vs| - 1]) + [ToLua(vs[|vs| - 1])]
  }

  /** `traverseJson` fills the tables in place, one slot or key at a time. */
  method TraverseJson(value: Json) returns (lv: LuaValue)
    ensures lv == ToLua(value)
    decreases value, 1
  {
    match value
    case Null => lv := LNil;
    case Bool(b) => lv := LBool(b);
    case Float(f) => lv := LNumber(f);
    case Int(i) => lv := LNumber(i as real);
    case Number(num, invalid) =>
      if invalid {
        lv := LNumber(num);
      } else {
        lv := LNil;
      }
    case String(s) => lv := LString(s);
    case Array(_) => lv := TraverseArray(value);
    case Object(_) => lv := TraverseObject(value);
  }

  method TraverseArray(value: Json) returns (t: LuaValue)
    requires value.Array?
    ensures t == ToLua(value)
    decreases value, 0
  {
    var elems := value.elems;
    t := EMPTY_TABLE;
    for i := 0 to |elems|
      invariant t == LTable(ToLuaAll(elems[..i]), map[])
    {
      var x := TraverseJson(elems[i]);
      assert elems[..i + 1][..i] == elems[..i];
      t := RawSetInt(t, i + 1, x);
    }
    assert elems[..|elems|] == elems;
  }

  method TraverseObject(value: Json) returns (t: LuaValue)
    requires value.Object?
    ensures t == ToLua(value)
    decreases value, 0
  {
    var members := value.members;
    t := EMPTY_TABLE;
    var todo := members.Keys;
    while todo != {}
      invariant todo <= members.Keys
      invariant t.LTable? && t.arr == []
      invariant t.dict == map k | k in members.Keys - todo && ToLua(members[k]) != LNil :: ToLua(members[k])
      decreases |todo|
    {
      var k :| k in todo;
      var x := TraverseJson(members[k]);
      t := RawSetString(t, k, x);
      todo := todo - {k};
    }
  }

  // ----- Lua to JSON

  /** A table with no live string key is an array of its non-nil slots; any other table is
      an object, where a string key wins over a slot whose index prints alike. */
  function FromLua(lv: LuaValue): Json
    decreases lv, 1
  {
    match lv
    case LNil => Null
    case LBool(b) => Bool(b)
    case LNumber(n) => Float(n)
    case LString(s) => String(s)
    case LOther(text) => String(text)
    case LTable(arr, dict) =>
      if LiveKeys(dict) == {} then Array(FromLuaAll(arr))
      else Object(SlotMembers(arr) + LiveMembers(lv))
  }

  function LiveMembers(lv: LuaValue): map<string, Json>
    requires lv.LTable?
    decreases lv, 0
  {
    map k | k in lv.dict && lv.dict[k] != LNil :: FromLua(lv.dict[k])
  }

  function FromLuaAll(arr: seq<LuaValue>): seq<Json>
    decreases arr, 0
  {
    if arr == [] then []
    else
      var init, last := arr[..|arr| - 1], arr[|arr| - 1];
      FromLuaAll(init) + if last == LNil then [] else [FromLua(last)]
  }

  function SlotMembers(arr: seq<LuaValue>): map<string, Json>
    decreases arr, 0
  {
    if arr == [] then map[]
    else
      var init, last := arr[..|arr| - 1], arr[|arr| - 1];
      if last == LNil then SlotMembers(init) else SlotMembers(init)[Decimal(|arr|) := FromLua(last)]
  }

  /** `convertLua`: one pass over a table to classify it, another to build the result; what the
      result holds is said by `MixedTable` and the round trip. */
  method ConvertLua(lv: LuaValue) returns (v: Json)
    ensures v == FromLua(lv)
    decreases lv, 1
  {
    match lv
    case LNil => v := Null;
    case LBool(b) => v := Bool(b);
    case LNumber(n) => v := Float(n);
    case LString(s) => v := String(s);
    case LOther(text) => v := String(text);
    case LTable(_, dict) =>
      var isArray := OnlyNumberKeys(dict);
      if isArray {
        v := ConvertArray(lv);
      } else {
        v := ConvertObject(lv);
      }
  }

  method OnlyNumberKeys(dict: map<string, LuaValue>) returns (isArray: bool)
    ensures isArray <==> LiveKeys(dict) == {}
  {
    isArray := true;
    var todo := dict.Keys;
    while todo != {}
      invariant todo <= dict.Keys
      invariant isArray <==> LiveKeys(dict) * (dict.Keys - todo) == {}
      decreases |todo|
    {
      var k :| k in todo;
      if dict[k] != LNil {
        isArray := false;
        assert k in LiveKeys(dict);
      }
      todo := todo - {k};
    }
    assert LiveKeys(dict) * (dict.Keys - {}) == LiveKeys(dict);
  }

  method ConvertArray(lv: LuaValue) returns (v: Json)
    requires lv.LTable? && LiveKeys(lv.dict) == {}
    ensures v == FromLua(lv)
    decreases lv, 0
  {
    var arr := lv.arr;
    var out := [];
    for i := 0 to |arr|
      invariant out == FromLuaAll(arr[..i])
    {
      assert arr[..i + 1][..i] == arr[..i];
      if arr[i] != LNil {
        var x := ConvertLua(arr[i]);
        out := out + [x];
      }
    }
    assert arr[..|arr|] == arr;
    v := Array(out);
  }

  /** `obj` is `base` with the members of `keys` written over it. */
  ghost predicate Overlaid(obj: map<string, Json>, base: map<string, Json>, dict: map<string, LuaValue>,
                           keys: set<string>)
    requires keys <= dict.Keys
  {
    && obj.Keys == base.Keys + keys
    && forall k | k in obj :: if k in keys then obj[k] == FromLua(dict[k]) else obj[k] == base[k]
  }

  /** The numbered slots of an object, under their printed index. */
  method ConvertSlots(lv: LuaValue) returns (obj: map<string, Json>)
    requires lv.LTable?
    ensures obj == SlotMembers(lv.arr)
    decreases lv, 0, 0
  {
    var arr := lv.arr;
    obj := map[];
    for i := 0 to |arr|
      invariant obj == SlotMembers(arr[..i])
    {
      assert arr[..i + 1][..i] == arr[..i];
      if arr[i] != LNil {
        var x := ConvertLua(arr[i]);
        obj := obj[Decimal(i + 1) := x];
      }
    }
    assert arr[..|arr|] == arr;
  }

  /** The string keys of an object, written over what is there. */
  method ConvertKeys(lv: LuaValue, base: map<string, Json>) returns (obj: map<string, Json>)
    requires lv.LTable?
    ensures Overlaid(obj, base, lv.dict, LiveKeys(lv.dict))
    decreases lv, 0, 0
  {
    var dict := lv.dict;
    obj := base;
    var todo := dict.Keys;
    while todo != {}
      invariant todo <= dict.Keys
      invariant Overlaid(obj, base, dict, LiveKeys(dict) - todo)
      decreases |todo|
    {
      var k :| k in todo;
      if dict[k] != LNil {
        var x := ConvertLua(dict[k]);
        obj := obj[k := x];
      }
      todo := todo - {k};
    }
    assert LiveKeys(dict) - todo == LiveKeys(dict);
  }

  method ConvertObject(lv: LuaValue) returns (v: Json)
    requires lv.LTable? && LiveKeys(lv.dict) != {}
    ensures v == FromLua(lv)
    decreases lv, 0, 1
  {
    var slots := ConvertSlots(lv);
    var obj := ConvertKeys(lv, slots);
    assert obj == slots + LiveMembers(lv);
    v := Object(obj);
  }

  // ----- what the two images hold

  /** The Lua image keeps scalars, the order of elements, and every member that is not nil. */
  lemma {:induction false} LuaImage(v: Json)
    ensures v.Null? ==> ToLua(v) == LNil
    ensures v.Bool? ==> ToLua(v) == LBool(v.b)
    ensures v.String? ==> ToLua(v) == LString(v.s)
    ensures v.Float? ==> ToLua(v) == LNumber(v.f)
    ensures v.Int? ==> ToLua(v) == LNumber(v.i as real)
    ensures v.Number? ==> ToLua(v) == if v.invalid then LNumber(v.value) else LNil
    ensures v.Array? ==> ToLua(v).LTable? && ToLua(v).dict == map[] && |ToLua(v).arr| == |v.elems|
    ensures v.Array? ==> forall i | 0 <= i < |v.elems| :: ToLua(v).arr[i] == ToLua(v.elems[i])
    ensures v.Object? ==> ToLua(v).LTable? && ToLua(v).arr == [] && ToLua(v).dict.Keys <= v.members.Keys
    ensures v.Object? ==> forall k | k in v.members ::
      (k in ToLua(v).dict <==> ToLua(v.members[k]) != LNil)
      && (k in ToLua(v).dict ==> ToLua(v).dict[k] == ToLua(v.members[k]))
  {
  }

  /** Scalars of a script result keep their value; anything else is printed. */
  lemma ScriptScalars(lv: LuaValue)
    ensures lv.LNil? ==> FromLua(lv) == Null
    ensures lv.LBool? ==> FromLua(lv) == Bool(lv.b)
    ensures lv.LNumber? ==> FromLua(lv) == Float(lv.n)
    ensures lv.LString? ==> FromLua(lv) == String(lv.s)
    ensures lv.LOther? ==> FromLua(lv) == String(lv.text)
  {}

  /** Slot `i` of the array part, counted from one, is not nil. */
  predicate LiveSlot(arr: seq<LuaValue>, i: nat) {
    1 <= i <= |arr| && arr[i - 1] != LNil
  }

  lemma {:induction false} SlotsByIndex(arr: seq<LuaValue>)
    ensures forall i: nat | LiveSlot(arr, i) ::
      Decimal(i) in SlotMembers(arr) && SlotMembers(arr)[Decimal(i)] == FromLua(arr[i - 1])
    ensures forall k | k in SlotMembers(arr) :: exists i: nat :: LiveSlot(arr, i) && k == Decimal(i)
  {
    if arr != [] {
      var init, n := arr[..|arr| - 1], |arr|;
      SlotsByIndex(init);
      forall i: nat | LiveSlot(arr, i)
        ensures Decimal(i) in SlotMembers(arr) && SlotMembers(arr)[Decimal(i)] == FromLua(arr[i - 1])
      {
        if i < n {
          assert LiveSlot(init, i) && init[i - 1] == arr[i - 1];
          if Decimal(i) == Decimal(n) {
            DecimalInjective(i, n);
          }
        }
      }
      forall k | k in SlotMembers(arr) ensures exists i: nat :: LiveSlot(arr, i) && k == Decimal(i) {
        if k in SlotMembers(init) {
          var i: nat :| LiveSlot(init, i) && k == Decimal(i);
          assert LiveSlot(arr, i);
        } else {
          assert LiveSlot(arr, n);
        }
      }
    }
  }

  /** A table with a live string key becomes an object. It holds every live string key with its
      own value, every live slot under its printed index unless a string key prints alike, and
      nothing else. */
  lemma {:induction false} MixedTable(lv: LuaValue)
    requires lv.LTable? && LiveKeys(lv.dict) != {}
    ensures FromLua(lv).Object?
    ensures forall k | k in LiveKeys(lv.dict) ::
      k in FromLua(lv).members && FromLua(lv).members[k] == FromLua(lv.dict[k])
    ensures forall i: nat | LiveSlot(lv.arr, i) && Decimal(i) !in LiveKeys(lv.dict) ::
      Decimal(i) in FromLua(lv).members && FromLua(lv).members[Decimal(i)] == FromLua(lv.arr[i - 1])
    ensures forall k | k in FromLua(lv).members ::
      k in LiveKeys(lv.dict) || exists i: nat :: LiveSlot(lv.arr, i) && k == Decimal(i)
  {
    SlotsByIndex(lv.arr);
  }

  // ----- the normal form

  /** Null, and a `json.Number` that does convert, turn into nil on the way in. */
  predicate Vanishes(v: Json) {
    v.Null? || (v.Number? && !v.invalid)
  }

  function Kept(members: map<string, Json>): set<string> {
    set k | k in members && !Vanishes(members[k])
  }

  /** Vanishing elements and members are dropped in order, an object left without members
      becomes the empty array, and every number is a float. */
  function Normal(v: Json): Json
    decreases v, 1
  {
    match v
    case Int(i) => Float(i as real)
    case Number(value, invalid) => if invalid then Float(value) else Null
    case Array(elems) => Array(NormalAll(elems))
    case Object(members) =>
      if Kept(members) == {} then Array([]) else Object(NormalMembers(v))
    case _ => v
  }

  function NormalMembers(v: Json): map<string, Json>
    requires v.Object?
    decreases v, 0
  {
    map k | k in v.members && !Vanishes(v.members[k]) :: Normal(v.members[k])
  }

  function NormalAll(vs: seq<Json>): seq<Json>
    decreases vs, 0
  {
    if vs == [] then []
    else
      var init, last := vs[..|vs| - 1], vs[|vs| - 1];
      NormalAll(init) + if Vanishes(last) then [] else [Normal(last)]
  }

  lemma NilIffVanishes(v: Json)
    ensures ToLua(v) == LNil <==> Vanishes(v)
  {}

  lemma {:induction false} RoundTripMembers(v: Json)
    requires v.Object? && forall k | k in v.members :: FromLua(ToLua(v.members[k])) == Normal(v.members[k])
    ensures LiveKeys(ToLuaMembers(v)) == Kept(v.members)
    ensures LiveMembers(LTable([], ToLuaMembers(v))) == NormalMembers(v)
  {
    var dict := ToLuaMembers(v);
    forall k | k in v.members ensures k in dict <==> !Vanishes(v.members[k]) {
      NilIffVanishes(v.members[k]);
    }
  }

  lemma {:induction false} RoundTripElems(elems: seq<Json>)
    requires FromLuaAll(ToLuaAll(elems)) == NormalAll(elems)
    ensures FromLua(ToLua(Array(elems))) == Normal(Array(elems))
  {
    assert LiveKeys(map[]) == {};
  }

  lemma {:induction false} RoundTripObject(v: Json)
    requires v.Object? && forall k | k in v.members :: FromLua(ToLua(v.members[k])) == Normal(v.members[k])
    ensures FromLua(ToLua(v)) == Normal(v)
  {
    RoundTripMembers(v);
    assert SlotMembers([]) + NormalMembers(v) == NormalMembers(v);
  }

  /** For every tree, going into Lua and back gives its normal form. */
  lemma {:induction false} RoundTrip(v: Json)
    ensures FromLua(ToLua(v)) == Normal(v)
    decreases v
  {
    match v
    case Array(elems) =>
      RoundTripAll(elems);
      RoundTripElems(elems);
    case Object(members) =>
      forall k | k in members ensures FromLua(ToLua(members[k])) == Normal(members[k]) {
        RoundTrip(members[k]);
      }
      RoundTripObject(v);
    case _ =>
  }

  lemma {:induction false} RoundTripAll(vs: seq<Json>)
    ensures FromLuaAll(ToLuaAll(vs)) == NormalAll(vs)
    decreases vs
  {
    if vs != [] {
      RoundTripAll(vs[..|vs| - 1]);
      RoundTrip(vs[|vs| - 1]);
      NilIffVanishes(vs[|vs| - 1]);
      assert ToLuaAll(vs)[..|vs| - 1] == ToLuaAll(vs[..|vs| - 1]);
    }
  }

  // ----- which trees survive unchanged

  /** No null, no empty object and no number that is not a float, at any depth. */
  predicate Canonical(v: Json) {
    match v
    case Null => false
    case Int(_) => false
    case Number(_, _) => false
    case Array(elems) => forall e | e in elems :: Canonical(e)
    case Object(members) => members != map[] && forall k | k in members :: Canonical(members[k])
    case _ => true
  }

  lemma {:induction false} NormalIsCanonical(v: Json)
    requires !Vanishes(v)
    ensures Canonical(Normal(v))
    decreases v
  {
    match v
    case Array(elems) => NormalAllIsCanonical(elems);
    case Object(members) =>
      forall k | k in members && !Vanishes(members[k]) ensures Canonical(Normal(members[k])) {
        NormalIsCanonical(members[k]);
      }
      if Kept(members) != {} {
        var k :| k in Kept(members);
        assert k in Normal(v).members;
      }
    case _ =>
  }

  lemma {:induction false} NormalAllIsCanonical(vs: seq<Json>)
    ensures forall e | e in NormalAll(vs) :: Canonical(e)
    decreases vs
  {
    if vs != [] {
      NormalAllIsCanonical(vs[..|vs| - 1]);
      if !Vanishes(vs[|vs| - 1]) {
        NormalIsCanonical(vs[|vs| - 1]);
      }
    }
  }

  lemma {:induction false} CanonicalIsNormal(v: Json)
    requires Canonical(v)
    ensures Normal(v) == v
    decreases v
  {
    match v
    case Array(elems) => CanonicalAllIsNormal(elems);
    case Object(members) =>
      forall k | k in members ensures Normal(members[k]) == members[k] && !Vanishes(members[k]) {
        CanonicalIsNormal(members[k]);
      }
      assert Kept(members) == members.Keys;
      assert members.Keys != {};
      assert NormalMembers(v) == members;
    case _ =>
  }

  lemma {:induction false} CanonicalAllIsNormal(vs: seq<Json>)
    requires forall e | e in vs :: Canonical(e)
    ensures NormalAll(vs) == vs
    decreases vs
  {
    if vs != [] {
      var init, last := vs[..|vs| - 1], vs[|vs| - 1];
      assert vs == init + [last] && last in vs;
      CanonicalAllIsNormal(init);
      CanonicalIsNormal(last);
    }
  }

  /** The round trip is the identity on exactly the canonical trees, and on a bare null. */
  lemma {:induction false} RoundTripIdentity(v: Json)
    ensures FromLua(ToLua(v)) == v <==> v == Null || Canonical(v)
  {
    RoundTrip(v);
    if Canonical(v) {
      CanonicalIsNormal(v);
    }
    if !Vanishes(v) {
      NormalIsCanonical(v);
    }
  }

  /** A second round trip changes nothing more. */
  lemma {:induction false} RoundTripTwice(v: Json)
    ensures FromLua(ToLua(FromLua(ToLua(v)))) == FromLua(ToLua(v))
  {
    RoundTrip(v);
    if !Vanishes(v) {
      NormalIsCanonical(v);
    }
    RoundTripIdentity(Normal(v));
  }
}
