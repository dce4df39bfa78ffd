/**
 * The JavaScript values that occur in a parsed ArchieML document, and the
 * few pieces of JavaScript semantics that the transformer relies on:
 * property lookup and assignment, `Object.keys` of an array, truthiness,
 * and the string conversion that `RegExp.prototype.test` applies to its
 * argument.
 */
module JsValues {
  import opened Results

  /**
   * A value of the document tree. `Obj` lists its own properties in
   * `Object.keys` order; `Arr` is a dense array. The parser never gives an
   * object two own properties of one name; the type does not exclude it, and
   * `Lookup` and `SetField` then act on the first property of that name.
   */
  datatype Value =
    | Str(s: string)
    | Null
    | Arr(items: seq<Value>)
    | Obj(fields: seq<Property>)
  {
    /** `typeof v === 'object'`: true of objects, arrays and `null`. */
    predicate IsObjectTyped() {
      !Str?
    }
  }

  /** An own property of an object. */
  datatype Property = Property(key: string, value: Value)

  /** The exceptions the transformer can raise. */
  datatype Exception =
    | KeysOfNull            // `Object.keys(null)`
    | PropertyOfNull        // reading a property (`entry.type`) of `null`
    | NotConvertible        // `String(o)` where `o` has an own `toString` that is not a function
    | RenderInputNotString  // the Markdown renderer was handed something other than a string

  /** Truthiness of a property value that is present. */
  predicate Truthy(v: Value) {
    match v
    case Str(s) => s != ""
    case Null => false
    case _ => true
  }

  function Keys(fields: seq<Property>): (ks: seq<string>)
    ensures |ks| == |fields|
    ensures forall i :: 0 <= i < |fields| ==> ks[i] == fields[i].key
  {
    seq(|fields|, i requires 0 <= i < |fields| => fields[i].key)
  }

  /** The position of the own property `key`, if there is one. */
  function KeyIndex(fields: seq<Property>, key: string): (r: Option<nat>)
    ensures r.Some? ==> r.value < |fields| && fields[r.value].key == key
    ensures r.Some? ==> forall j :: 0 <= j < r.value ==> fields[j].key != key
    ensures r.None? <==> forall j :: 0 <= j < |fields| ==> fields[j].key != key
  {
    if |fields| == 0 then None
    else if fields[0].key == key then Some(0)
    else match KeyIndex(fields[1..], key)
      case None => None
      case Some(j) => Some(j + 1)
  }

  /** `obj[key]` for an own property; `None` stands for `undefined`. */
  function Lookup(fields: seq<Property>, key: string): Option<Value> {
    match KeyIndex(fields, key)
    case None => None
    case Some(i) => Some(fields[i].value)
  }

  /** `obj[key]` is defined iff `key` is an own key, and is then the first property of that name. */
  lemma LookupFirst(fields: seq<Property>, key: string)
    ensures Lookup(fields, key).Some? <==> key in Keys(fields)
    ensures Lookup(fields, key).Some? ==> exists i | 0 <= i < |fields| ::
      fields[i] == Property(key, Lookup(fields, key).value) && forall j | 0 <= j < i :: fields[j].key != key
  {
    if key in Keys(fields) {
      var i :| 0 <= i < |fields| && Keys(fields)[i] == key;
      assert fields[i].key == key;
    }
  }

  /** `obj[key] = v`: an existing property keeps its place; a new one is appended. */
  function SetField(fields: seq<Property>, key: string, v: Value): (r: seq<Property>)
    ensures Lookup(r, key) == Some(v)
    ensures forall k :: k != key ==> Lookup(r, k) == Lookup(fields, k)
    ensures Lookup(fields, key).Some? ==> Keys(r) == Keys(fields)
  {
    match KeyIndex(fields, key)
    case Some(i) =>
      var r := fields[i := Property(key, v)];
      assert forall k :: KeyIndex(r, k) == KeyIndex(fields, k) by {
        forall k ensures KeyIndex(r, k) == KeyIndex(fields, k) {
          KeyIndexOfSameKeys(r, fields, k);
        }
      }
      r
    case None =>
      var r := fields + [Property(key, v)];
      assert r[|fields|].key == key;
      assert forall k :: k != key ==> KeyIndex(r, k) == KeyIndex(fields, k) by {
        forall k | k != key ensures KeyIndex(r, k) == KeyIndex(fields, k) {
          KeyIndexOfAppended(fields, key, v, k);
        }
      }
      r
  }

  lemma {:induction false} KeyIndexOfSameKeys(f: seq<Property>, g: seq<Property>, key: string)
    requires Keys(f) == Keys(g)
    ensures KeyIndex(f, key) == KeyIndex(g, key)
  {
    if |f| > 0 && f[0].key != key {
      assert Keys(f[1..]) == Keys(g[1..]) by {
        assert forall i :: 0 <= i < |f| - 1 ==> f[1..][i].key == Keys(f)[i + 1] == Keys(g)[i + 1] == g[1..][i].key;
      }
      KeyIndexOfSameKeys(f[1..], g[1..], key);
    }
  }

  lemma {:induction false} KeyIndexOfAppended(f: seq<Property>, key: string, v: Value, other: string)
    requires other != key
    ensures KeyIndex(f + [Property(key, v)], other) == KeyIndex(f, other)
  {
    if |f| > 0 && f[0].key != other {
      assert (f + [Property(key, v)])[1..] == f[1..] + [Property(key, v)];
      KeyIndexOfAppended(f[1..], key, v, other);
    }
  }

  function DigitChar(d: nat): (c: char)
    requires d < 10
    ensures '0' <= c <= '9' && c as int - '0' as int == d
  {
    ('0' as int + d) as char
  }

  /** The decimal string of `i`: the key that `Object.keys` gives the `i`-th element of an array. */
  function IndexKey(i: nat): (r: string)
    ensures |r| > 0
    ensures forall j :: 0 <= j < |r| ==> '0' <= r[j] <= '9'
    ensures i < 10 <==> |r| == 1
  {
    if i < 10 then [DigitChar(i)] else IndexKey(i / 10) + [DigitChar(i % 10)]
  }

  /** Distinct indices have distinct keys. */
  lemma {:induction false} IndexKeyInjective(a: nat, b: nat)
    requires IndexKey(a) == IndexKey(b)
    ensures a == b
  {
    if a >= 10 && b >= 10 {
      var ka, kb := IndexKey(a), IndexKey(b);
      assert ka[..|ka| - 1] == IndexKey(a / 10) && kb[..|kb| - 1] == IndexKey(b / 10);
      assert ka[|ka| - 1] == DigitChar(a % 10) && kb[|kb| - 1] == DigitChar(b % 10);
      IndexKeyInjective(a / 10, b / 10);
    }
  }

  /** The own property of an array named by the index string of `j` is its `j`-th element. */
  lemma ArrayChild(items: seq<Value>, j: nat)
    requires j < |items|
    ensures Child(Arr(items), IndexKey(j)) == Some(items[j])
  {
    var fields := Indexed(items);
    var r := KeyIndex(fields, IndexKey(j));
    assert fields[j].key == IndexKey(j);
    if r.value != j {
      IndexKeyInjective(r.value, j);
    }
  }

  /** `Object.keys` of an array, paired with the elements. */
  function Indexed(items: seq<Value>): (fields: seq<Property>)
    ensures |fields| == |items|
    ensures forall i :: 0 <= i < |items| ==> fields[i] == Property(IndexKey(i), items[i])
  {
    seq(|items|, i requires 0 <= i < |items| => Property(IndexKey(i), items[i]))
  }

  /** The values of the properties, in order. */
  function ItemsOf(fields: seq<Property>): (items: seq<Value>)
    ensures |items| == |fields|
    ensures forall i :: 0 <= i < |fields| ==> items[i] == fields[i].value
  {
    seq(|fields|, i requires 0 <= i < |fields| => fields[i].value)
  }

  /**
   * `String(v)` as `RegExp.prototype.test` computes it. An object with an own
   * `toString` property (none of which is a function in a parsed document)
   * makes the conversion throw; `Array.prototype.join` writes `null` as "".
   */
  function ToJsString(v: Value): (r: Result<string, Exception>)
    ensures r.Err? ==> r == Err(NotConvertible)
    decreases v, 1
  {
    match v
    case Str(s) => Ok(s)
    case Null => Ok("null")
    case Obj(fields) => if Lookup(fields, "toString").Some? then Err(NotConvertible) else Ok("[object Object]")
    case Arr(items) => JoinItems(items)
  }

  /** `items.join(",")`: one comma between each two neighbours. */
  function JoinItems(items: seq<Value>): (r: Result<string, Exception>)
    ensures r.Err? ==> r == Err(NotConvertible)
    ensures r.Ok? && |items| > 0 ==> |r.value| >= |items| - 1
    decreases items, 0
  {
    if |items| == 0 then Ok("")
    else
      var init :- JoinItems(items[..|items| - 1]);
      var last := items[|items| - 1];
      var text :- if last.Null? then Ok("") else ToJsString(last);
      Ok(if |items| == 1 then text else init + "," + text)
  }

  /** An object with an own `toString` property, reachable through arrays only. */
  predicate Unconvertible(v: Value) {
    match v
    case Obj(fields) => Lookup(fields, "toString").Some?
    case Arr(items) => exists i | 0 <= i < |items| :: Unconvertible(items[i])
    case _ => false
  }

  /** The conversion throws exactly when an unconvertible object is reached through arrays. */
  lemma {:induction false} ConversionFails(v: Value)
    ensures ToJsString(v).Err? <==> Unconvertible(v)
    decreases v, 1
  {
    if v.Arr? {
      JoinFails(v.items);
    }
  }

  lemma {:induction false} JoinFails(items: seq<Value>)
    ensures JoinItems(items).Err? <==> exists i | 0 <= i < |items| :: Unconvertible(items[i])
    decreases items, 0
  {
    if |items| > 0 {
      var init, last := items[..|items| - 1], items[|items| - 1];
      JoinFails(init);
      ConversionFails(last);
      assert forall i | 0 <= i < |init| :: init[i] == items[i];
      if exists i | 0 <= i < |items| :: Unconvertible(items[i]) {
        var i :| 0 <= i < |items| && Unconvertible(items[i]);
        if i < |init| {
          assert Unconvertible(init[i]);
        }
      }
    }
  }

  /** `String` of some array-shaped entry types: elements joined by commas, `null` written as "". */
  lemma ConversionExamples()
    ensures ToJsString(Arr([Str("a"), Null, Str("b")])) == Ok("a,,b")
    ensures ToJsString(Arr([Arr([Str("a"), Str("b")]), Str("c")])) == Ok("a,b,c")
    ensures ToJsString(Arr([Null])) == Ok("")
    ensures ToJsString(Null) == Ok("null")
    ensures ToJsString(Obj([])) == Ok("[object Object]")
    ensures ToJsString(Arr([Str("a"), Obj([Property("toString", Str("x"))])])) == Err(NotConvertible)
  {
    var abc := [Str("a"), Null, Str("b")];
    assert abc[..1] == [Str("a")] && abc[..2] == [Str("a"), Null] && [Str("a"), Null][..1] == [Str("a")];
    assert JoinItems([Str("a")]) == Ok("a");
    assert "a" + "," + "" == "a," && "a," + "," + "b" == "a,,b" && "a" + "," + "b" == "a,b" && "a,b" + "," + "c" == "a,b,c";
    assert JoinItems([Str("a"), Null]) == Ok("a,");
    assert JoinItems(abc) == Ok("a,,b");
    var ab := [Str("a"), Str("b")];
    assert ab[..1] == [Str("a")];
    assert JoinItems(ab) == Ok("a,b");
    var nested := [Arr(ab), Str("c")];
    assert nested[..1] == [Arr(ab)];
    assert JoinItems([Arr(ab)]) == Ok("a,b");
    assert JoinItems(nested) == Ok("a,b,c");
    var bad := [Str("a"), Obj([Property("toString", Str("x"))])];
    assert bad[..1] == [Str("a")];
    assert Lookup([Property("toString", Str("x"))], "toString").Some?;
  }

  /** Reading the values back off the keyed form of an array gives the array. */
  lemma ItemsOfIndexed(items: seq<Value>)
    ensures ItemsOf(Indexed(items)) == items
  {
  }

  /** The keys `Object.keys` gives an array are pairwise distinct. */
  lemma IndexedKeysDistinct(items: seq<Value>)
    ensures forall i, j | 0 <= i < |items| && 0 <= j < |items| && i != j :: Indexed(items)[i].key != Indexed(items)[j].key
  {
    forall i, j | 0 <= i < |items| && 0 <= j < |items| && Indexed(items)[i].key == Indexed(items)[j].key
      ensures i == j
    {
      IndexKeyInjective(i, j);
    }
  }

  /** The number of nodes of a tree; the walk preserves it, which bounds its recursion. */
  function Size(v: Value): (n: nat)
    ensures n >= 1
    decreases v, 1
  {
    match v
    case Arr(items) => 1 + SizeOfItems(items)
    case Obj(fields) => 1 + SizeOfFields(fields)
    case _ => 1
  }

  function SizeOfItems(items: seq<Value>): nat
    decreases items, 0
  {
    if |items| == 0 then 0 else SizeOfItems(items[..|items| - 1]) + Size(items[|items| - 1])
  }

  function SizeOfFields(fields: seq<Property>): nat
    decreases fields, 0
  {
    if |fields| == 0 then 0
    else
      SizeOfFields(fields[..|fields| - 1]) + Size(fields[|fields| - 1].value)
  }

  /** The property `key` of an object or an array; strings and `null` have none here. */
  function Child(v: Value, key: string): Option<Value> {
    match v
    case Obj(fields) => Lookup(fields, key)
    case Arr(items) => Lookup(Indexed(items), key)
    case _ => None
  }

  /** The value reached from `v` by following the property names in `path`. */
  function At(v: Value, path: seq<string>): Option<Value>
    decreases |path|
  {
    if |path| == 0 then Some(v)
    else match Child(v, path[0])
      case None => None
      case Some(c) => At(c, path[1..])
  }

  /** Two nodes of the same kind with the same keys (objects) or the same length (arrays). */
  predicate SameNode(a: Value, b: Value) {
    match a
    case Str(_) => b.Str?
    case Null => b.Null?
    case Arr(x) => b.Arr? && |b.items| == |x|
    case Obj(f) => b.Obj? && Keys(b.fields) == Keys(f)
  }

  predicate SameNodeAt(a: Option<Value>, b: Option<Value>) {
    match a
    case None => b.None?
    case Some(x) => b.Some? && SameNode(x, b.value)
  }
  lemma {:induction false} SizeOfFieldsUpdate(fields: seq<Property>, i: nat, p: Property)
    requires i < |fields| && Size(p.value) == Size(fields[i].value)
    ensures SizeOfFields(fields[i := p]) == SizeOfFields(fields)
  {
    var n := |fields|;
    if i < n - 1 {
      assert fields[i := p][..n - 1] == fields[..n - 1][i := p];
      SizeOfFieldsUpdate(fields[..n - 1], i, p);
    } else {
      assert fields[i := p][..n - 1] == fields[..n - 1];
    }
  }

  /** Replacing a property by one of the same size leaves the size of the object unchanged. */
  lemma SizeOfSetField(fields: seq<Property>, key: string, v: Value)
    requires Lookup(fields, key).Some? && Size(Lookup(fields, key).value) == Size(v)
    ensures SizeOfFields(SetField(fields, key, v)) == SizeOfFields(fields)
  {
    var i := KeyIndex(fields, key).value;
    SizeOfFieldsUpdate(fields, i, Property(key, v));
  }

  lemma {:induction false} SizeOfIndexed(items: seq<Value>)
    ensures SizeOfFields(Indexed(items)) == SizeOfItems(items)
  {
    if |items| > 0 {
      assert Indexed(items)[..|items| - 1] == Indexed(items[..|items| - 1]);
      SizeOfIndexed(items[..|items| - 1]);
    }
  }

  lemma {:induction false} SizeOfFieldBound(fields: seq<Property>, i: nat)
    requires i < |fields|
    ensures Size(fields[i].value) <= SizeOfFields(fields)
  {
    if i < |fields| - 1 {
      SizeOfFieldBound(fields[..|fields| - 1], i);
    }
  }
}

