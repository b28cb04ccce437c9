/**
 * The request-side rules of the product controller: the `sortBy` parser that
 * builds the sort object field by field, the product lookup, the required
 * search term of `searchProducts` with its paging, and the brand list
 * filter. The database's own matching (regular expressions, `distinct`,
 * executing a sort) is not modelled; where a handler's result depends on it,
 * the matched documents are a parameter.
 */
module ProductController {
  import opened Wrappers
  import opened Http
  import Js
  import opened ProductModel
  import Inventory
  import Pagination

  /** One `fieldName: order` property of the sort object; the sequence is the object's enumeration order. */
  datatype SortKey = SortKey(field: string, order: int)

  /** `field.startsWith('-') ? -1 : 1`. */
  function FieldOrder(f: string): (o: int)
    ensures o == -1 <==> |f| > 0 && f[0] == '-'
    ensures o == 1 || o == -1
  {
    if |f| > 0 && f[0] == '-' then -1 else 1
  }

  /** `field.replace('-', '')`: the first '-' anywhere in the field is dropped, later ones stay. */
  function FieldName(f: string): (n: string)
    ensures '-' !in f ==> n == f
    ensures '-' in f ==> |n| == |f| - 1
    ensures |f| > 0 && f[0] == '-' ==> n == f[1..]
  {
    Js.RemoveFirst(f, '-')
  }

  /** The position of the property named `field`, if there is one: the first position with that name. */
  function FindField(obj: seq<SortKey>, field: string): (r: Option<nat>)
    ensures r.None? <==> forall k :: 0 <= k < |obj| ==> obj[k].field != field
    ensures r.Some? ==> r.value < |obj| && obj[r.value].field == field
    ensures r.Some? ==> forall k :: 0 <= k < r.value ==> obj[k].field != field
    decreases |obj|
  {
    if obj == [] then None
    else
      match FindField(obj[..|obj| - 1], field)
      case Some(k) => Some(k)
      case None => if obj[|obj| - 1].field == field then Some(|obj| - 1) else None
  }

  /** The value stored under `field`, if the object has that property. */
  function Lookup(obj: seq<SortKey>, field: string): Option<int> {
    match FindField(obj, field)
    case Some(k) => Some(obj[k].order)
    case None => None
  }

  /** A lookup succeeds exactly when some property has that name, and then returns a value stored under it. */
  lemma LookupFindsProperty(obj: seq<SortKey>, field: string)
    ensures Lookup(obj, field).Some? <==> exists k :: 0 <= k < |obj| && obj[k].field == field
    ensures Lookup(obj, field).Some? ==> exists k :: 0 <= k < |obj| && obj[k] == SortKey(field, Lookup(obj, field).value)
  {
  }

  /** No property name occurs twice. */
  predicate DistinctFields(obj: seq<SortKey>) {
    forall i, j :: 0 <= i < j < |obj| ==> obj[i].field != obj[j].field
  }

  /** Lookups depend only on the names, position by position. */
  lemma SameFieldsSameFind(a: seq<SortKey>, b: seq<SortKey>, f: string)
    requires |a| == |b| && forall i :: 0 <= i < |a| ==> a[i].field == b[i].field
    ensures FindField(a, f) == FindField(b, f)
  {
  }

  /** A property with another name added at the end does not change where `f` is found. */
  lemma AppendOtherKeepsFind(obj: seq<SortKey>, s: SortKey, f: string)
    requires s.field != f
    ensures FindField(obj + [s], f) == FindField(obj, f)
  {
    assert (obj + [s])[..|obj|] == obj;
  }

  /** A name the object stores as an ordinary string key: neither an array index nor `__proto__`. */
  predicate OrdinaryName(f: string) {
    f != "__proto__" && Js.ArrayIndex(f).None?
  }

  /**
   * The own properties of a JavaScript object, in the order the language
   * enumerates them (section 10.1.11.1 of ECMA-262): distinct names, never
   * `__proto__` (assigning it a number sets no property), the array-index
   * names first in ascending numeric order, then the other names.
   */
  predicate WellFormed(obj: seq<SortKey>) {
    DistinctFields(obj) && NoProto(obj) && IndexNamesFirst(obj)
  }

  /** No property is named `__proto__`. */
  predicate NoProto(obj: seq<SortKey>) {
    forall k :: 0 <= k < |obj| ==> obj[k].field != "__proto__"
  }

  /** Every property before an array-index property is an array index with a smaller value. */
  predicate IndexNamesFirst(obj: seq<SortKey>) {
    forall i, j :: 0 <= i < j < |obj| && Js.ArrayIndex(obj[j].field).Some? ==>
      Js.ArrayIndex(obj[i].field).Some? && Js.ArrayIndex(obj[i].field).value < Js.ArrayIndex(obj[j].field).value
  }

  /** How many leading properties are array indices below `n`: where a new index `n` belongs. */
  function IndexSlot(obj: seq<SortKey>, n: nat): (p: nat)
    ensures p <= |obj|
    ensures forall k :: 0 <= k < p ==> Js.ArrayIndex(obj[k].field).Some? && Js.ArrayIndex(obj[k].field).value < n
    ensures p < |obj| ==> !(Js.ArrayIndex(obj[p].field).Some? && Js.ArrayIndex(obj[p].field).value < n)
    decreases |obj|
  {
    if obj == [] then 0
    else if Js.ArrayIndex(obj[0].field).Some? && Js.ArrayIndex(obj[0].field).value < n then 1 + IndexSlot(obj[1..], n)
    else 0
  }

  /** `s` inserted at position `p`: the properties before it stay put, the ones after it move up by one. */
  function InsertAt(obj: seq<SortKey>, p: nat, s: SortKey): (r: seq<SortKey>)
    requires p <= |obj|
    ensures |r| == |obj| + 1 && r[p] == s
    ensures forall k :: 0 <= k < p ==> r[k] == obj[k]
    ensures forall k :: p < k < |r| ==> r[k] == obj[k - 1]
  {
    obj[..p] + [s] + obj[p..]
  }

  /** Inserting a name the object lacks keeps the names distinct. */
  lemma InsertNewKeepsDistinct(obj: seq<SortKey>, p: nat, s: SortKey)
    requires p <= |obj| && DistinctFields(obj)
    requires forall k :: 0 <= k < |obj| ==> obj[k].field != s.field
    ensures DistinctFields(InsertAt(obj, p, s))
  {
    var r := InsertAt(obj, p, s);
    forall i, j | 0 <= i < j < |r| ensures r[i].field != r[j].field {
      var i' := if i < p then i else i - 1;
      var j' := if j < p then j else j - 1;
      if i != p && j != p {
        assert r[i] == obj[i'] && r[j] == obj[j'];
      }
    }
  }

  /** The property at a new index's slot, if it is an index, is above it: not below (by the slot) and not equal (the name is new). */
  lemma SlotIsBelowNext(obj: seq<SortKey>, s: SortKey)
    requires Js.ArrayIndex(s.field).Some?
    requires forall k :: 0 <= k < |obj| ==> obj[k].field != s.field
    ensures var p := IndexSlot(obj, Js.ArrayIndex(s.field).value);
      p < |obj| && Js.ArrayIndex(obj[p].field).Some? ==> Js.ArrayIndex(obj[p].field).value > Js.ArrayIndex(s.field).value
  {
    var p := IndexSlot(obj, Js.ArrayIndex(s.field).value);
    if p < |obj| && Js.ArrayIndex(obj[p].field).Some? && Js.ArrayIndex(obj[p].field).value == Js.ArrayIndex(s.field).value {
      Js.ArrayIndexInjective(obj[p].field, s.field);
    }
  }

  /** One instance of `IndexNamesFirst`. */
  lemma IndexBelow(obj: seq<SortKey>, i: nat, j: nat)
    requires IndexNamesFirst(obj) && i < j < |obj| && Js.ArrayIndex(obj[j].field).Some?
    ensures Js.ArrayIndex(obj[i].field).Some? && Js.ArrayIndex(obj[i].field).value < Js.ArrayIndex(obj[j].field).value
  {
  }

  /** One pair of positions after inserting a new array index at its slot. */
  lemma InsertIndexPair(obj: seq<SortKey>, s: SortKey, i: nat, j: nat)
    requires IndexNamesFirst(obj) && Js.ArrayIndex(s.field).Some?
    requires forall k :: 0 <= k < |obj| ==> obj[k].field != s.field
    requires var r := InsertAt(obj, IndexSlot(obj, Js.ArrayIndex(s.field).value), s);
      i < j < |r| && Js.ArrayIndex(r[j].field).Some?
    ensures var r := InsertAt(obj, IndexSlot(obj, Js.ArrayIndex(s.field).value), s);
      Js.ArrayIndex(r[i].field).Some? && Js.ArrayIndex(r[i].field).value < Js.ArrayIndex(r[j].field).value
  {
    var n := Js.ArrayIndex(s.field).value;
    var p := IndexSlot(obj, n);
    var r := InsertAt(obj, p, s);
    if j < p {
      assert r[i] == obj[i] && r[j] == obj[j];
      IndexBelow(obj, i, j);
    } else if j == p {
      assert r[i] == obj[i];
    } else if i > p {
      assert r[i] == obj[i - 1] && r[j] == obj[j - 1];
      IndexBelow(obj, i - 1, j - 1);
    } else {
      assert r[j] == obj[j - 1];
      SlotIsBelowNext(obj, s);
      // the index after the slot is above n
      if j - 1 > p {
        IndexBelow(obj, p, j - 1);
      }
      assert n < Js.ArrayIndex(obj[j - 1].field).value;
      if i < p {
        assert r[i] == obj[i];
      } else {
        assert r[i] == s;
      }
    }
  }

  /** A new array-index property placed at its slot keeps the index names first and ascending. */
  lemma InsertIndexKeepsOrder(obj: seq<SortKey>, s: SortKey)
    requires IndexNamesFirst(obj) && Js.ArrayIndex(s.field).Some?
    requires forall k :: 0 <= k < |obj| ==> obj[k].field != s.field
    ensures IndexNamesFirst(InsertAt(obj, IndexSlot(obj, Js.ArrayIndex(s.field).value), s))
  {
    var r := InsertAt(obj, IndexSlot(obj, Js.ArrayIndex(s.field).value), s);
    forall i, j | 0 <= i < j < |r| && Js.ArrayIndex(r[j].field).Some?
      ensures Js.ArrayIndex(r[i].field).Some? && Js.ArrayIndex(r[i].field).value < Js.ArrayIndex(r[j].field).value
    {
      InsertIndexPair(obj, s, i, j);
    }
  }

  /** A new array-index property placed at its slot keeps the object well formed. */
  lemma InsertIndexKeepsWellFormed(obj: seq<SortKey>, s: SortKey)
    requires WellFormed(obj) && Js.ArrayIndex(s.field).Some?
    requires forall k :: 0 <= k < |obj| ==> obj[k].field != s.field
    ensures WellFormed(InsertAt(obj, IndexSlot(obj, Js.ArrayIndex(s.field).value), s))
  {
    var p := IndexSlot(obj, Js.ArrayIndex(s.field).value);
    var r := InsertAt(obj, p, s);
    InsertIndexKeepsOrder(obj, s);
    InsertNewKeepsDistinct(obj, p, s);
    assert NoProto(r) by {
      forall k | 0 <= k < |r| ensures r[k].field != "__proto__" {
        if k < p {
          assert r[k] == obj[k];
        } else if k > p {
          assert r[k] == obj[k - 1];
        }
      }
    }
  }

  /** A new ordinary name placed last keeps the object well formed. */
  lemma AppendOrdinaryKeepsWellFormed(obj: seq<SortKey>, s: SortKey)
    requires WellFormed(obj) && OrdinaryName(s.field)
    requires forall k :: 0 <= k < |obj| ==> obj[k].field != s.field
    ensures WellFormed(InsertAt(obj, |obj|, s))
  {
    var r := InsertAt(obj, |obj|, s);
    assert forall i, j :: 0 <= i < j < |r| && j < |obj| ==> r[i] == obj[i] && r[j] == obj[j];
  }

  /** Where a new name goes: an array index into its numeric slot, any other name last. */
  function NewSlot(obj: seq<SortKey>, field: string): (p: nat)
    ensures p <= |obj|
    ensures OrdinaryName(field) ==> p == |obj|
  {
    match Js.ArrayIndex(field)
    case Some(n) => IndexSlot(obj, n)
    case None => |obj|
  }

  /**
   * `obj[field] = order` on a JavaScript object: an existing property keeps
   * its place and takes the new value; a new array-index name goes into its
   * numeric place among the index names; any other new name goes last;
   * `__proto__` creates no property.
   */
  function Assign(obj: seq<SortKey>, field: string, order: int): (r: seq<SortKey>)
    requires WellFormed(obj)
    ensures WellFormed(r)
  {
    if field == "__proto__" then obj
    else
      match FindField(obj, field)
      case Some(k) =>
        var r := obj[k := SortKey(field, order)];
        assert forall i :: 0 <= i < |obj| ==> r[i].field == obj[i].field;
        r
      case None =>
        var s := SortKey(field, order);
        assert WellFormed(InsertAt(obj, NewSlot(obj, field), s)) by {
          if Js.ArrayIndex(field).Some? {
            InsertIndexKeepsWellFormed(obj, s);
          } else {
            AppendOrdinaryKeepsWellFormed(obj, s);
          }
        }
        InsertAt(obj, NewSlot(obj, field), s)
  }

  /** In an object with distinct names, a lookup reads the one property with that name. */
  lemma LookupOfDistinct(obj: seq<SortKey>, f: string)
    requires DistinctFields(obj)
    ensures Lookup(obj, f).None? <==> forall k :: 0 <= k < |obj| ==> obj[k].field != f
    ensures forall k :: 0 <= k < |obj| && obj[k].field == f ==> Lookup(obj, f) == Some(obj[k].order)
  {
  }

  /** Inserting a property leaves every lookup of another name as it was. */
  lemma InsertKeepsOtherLookups(obj: seq<SortKey>, p: nat, s: SortKey, f: string)
    requires p <= |obj| && DistinctFields(obj) && DistinctFields(InsertAt(obj, p, s)) && f != s.field
    ensures Lookup(InsertAt(obj, p, s), f) == Lookup(obj, f)
  {
    var r := InsertAt(obj, p, s);
    LookupOfDistinct(obj, f);
    LookupOfDistinct(r, f);
    if Lookup(obj, f).Some? {
      var k :| 0 <= k < |obj| && obj[k].field == f;
      assert r[if k < p then k else k + 1] == obj[k];
    } else {
      forall i | 0 <= i < |r| ensures r[i].field != f {
        if i < p { assert r[i] == obj[i]; } else if i > p { assert r[i] == obj[i - 1]; }
      }
    }
  }

  /**
   * After the assignment the property holds the new value (unless the name
   * is `__proto__`, which changes nothing), and every other property reads
   * as before.
   */
  lemma AssignLookup(obj: seq<SortKey>, field: string, order: int)
    requires WellFormed(obj)
    ensures field != "__proto__" ==> Lookup(Assign(obj, field, order), field) == Some(order)
    ensures field == "__proto__" ==> Assign(obj, field, order) == obj && Lookup(obj, field) == None
    ensures forall f :: f != field ==> Lookup(Assign(obj, field, order), f) == Lookup(obj, f)
  {
    var r := Assign(obj, field, order);
    var s := SortKey(field, order);
    LookupOfDistinct(obj, field);
    if field != "__proto__" {
      match FindField(obj, field)
      case Some(k) =>
        assert r[k] == s;
        LookupOfDistinct(r, field);
        forall f | f != field ensures Lookup(r, f) == Lookup(obj, f) {
          LookupOfDistinct(obj, f);
          LookupOfDistinct(r, f);
          assert forall i :: 0 <= i < |obj| ==> r[i].field == f ==> r[i] == obj[i];
        }
      case None =>
        var p := NewSlot(obj, field);
        assert r == InsertAt(obj, p, s);
        assert r[p] == s;
        LookupOfDistinct(r, field);
        forall f | f != field ensures Lookup(r, f) == Lookup(obj, f) {
          InsertKeepsOtherLookups(obj, p, s, f);
        }
    }
  }

  /**
   * Where the assignment puts things: `__proto__` changes nothing; an
   * existing name moves nothing; a new name is inserted once, at the end
   * when it is an ordinary name.
   */
  lemma AssignPlaces(obj: seq<SortKey>, field: string, order: int)
    requires WellFormed(obj)
    ensures field == "__proto__" ==> Assign(obj, field, order) == obj
    ensures field != "__proto__" && FindField(obj, field).Some? ==>
              |Assign(obj, field, order)| == |obj| &&
              forall k :: 0 <= k < |obj| ==> Assign(obj, field, order)[k].field == obj[k].field
    ensures field != "__proto__" && FindField(obj, field).None? ==>
              exists p :: 0 <= p <= |obj| && (OrdinaryName(field) ==> p == |obj|) &&
                Assign(obj, field, order) == InsertAt(obj, p, SortKey(field, order))
  {
    if field != "__proto__" && FindField(obj, field).None? {
      var p := NewSlot(obj, field);
      assert Assign(obj, field, order) == InsertAt(obj, p, SortKey(field, order));
    }
  }

  /** A name stands before another in the object. */
  predicate Before(obj: seq<SortKey>, a: string, b: string) {
    exists i, j :: 0 <= i < j < |obj| && obj[i].field == a && obj[j].field == b
  }

  /** An insertion never swaps two properties already there. */
  lemma InsertKeepsBefore(obj: seq<SortKey>, p: nat, s: SortKey, a: string, b: string)
    requires p <= |obj| && Before(obj, a, b)
    ensures Before(InsertAt(obj, p, s), a, b)
  {
    var r := InsertAt(obj, p, s);
    var i, j :| 0 <= i < j < |obj| && obj[i].field == a && obj[j].field == b;
    var i' := if i < p then i else i + 1;
    var j' := if j < p then j else j + 1;
    assert r[i'] == obj[i] && r[j'] == obj[j];
  }

  /** The assignment never swaps two properties already there. */
  lemma AssignKeepsBefore(obj: seq<SortKey>, field: string, order: int, a: string, b: string)
    requires WellFormed(obj) && Before(obj, a, b)
    ensures Before(Assign(obj, field, order), a, b)
  {
    AssignPlaces(obj, field, order);
    var r := Assign(obj, field, order);
    if field != "__proto__" {
      if FindField(obj, field).Some? {
        var i, j :| 0 <= i < j < |obj| && obj[i].field == a && obj[j].field == b;
        assert r[i].field == a && r[j].field == b;
      } else {
        var p :| 0 <= p <= |obj| && r == InsertAt(obj, p, SortKey(field, order));
        InsertKeepsBefore(obj, p, SortKey(field, order), a, b);
      }
    }
  }

  /** The sort object the `forEach` builds from the comma-separated fields, field by field. */
  function SortFromFields(fields: seq<string>): (obj: seq<SortKey>)
    ensures WellFormed(obj)
    decreases |fields|
  {
    if fields == [] then []
    else
      var last := fields[|fields| - 1];
      Assign(SortFromFields(fields[..|fields| - 1]), FieldName(last), FieldOrder(last))
  }

  /** The default sort: newest first. */
  const DefaultSort: seq<SortKey> := [SortKey("meta.createdAt", -1)]

  /** The sort object `getProducts` hands to the database: always well formed, and newest first when no `sortBy` is given. */
  function SortOption(sortBy: Option<string>): (r: seq<SortKey>)
    ensures WellFormed(r)
    ensures !Js.Truthy(sortBy) ==> |r| == 1 && Lookup(r, "meta.createdAt") == Some(-1)
  {
    if Js.Truthy(sortBy) then SortFromFields(Js.Split(sortBy.value, ',')) else DefaultSort
  }

  /** The order the LAST field with this name asked for, if any field has it. */
  function LastOrder(fields: seq<string>, name: string): Option<int>
    decreases |fields|
  {
    if fields == [] then None
    else if FieldName(fields[|fields| - 1]) == name then Some(FieldOrder(fields[|fields| - 1]))
    else LastOrder(fields[..|fields| - 1], name)
  }

  /**
   * The sort object has a property for exactly the names the fields carry
   * (except `__proto__`, which never becomes one), and each holds the order
   * of the last field with that name: a repeated field's later entry
   * overrides the earlier one.
   */
  lemma {:induction false} LaterFieldWins(fields: seq<string>, name: string)
    ensures Lookup(SortFromFields(fields), name) == if name == "__proto__" then None else LastOrder(fields, name)
    decreases |fields|
  {
    if fields != [] {
      var last := fields[|fields| - 1];
      LaterFieldWins(fields[..|fields| - 1], name);
      AssignLookup(SortFromFields(fields[..|fields| - 1]), FieldName(last), FieldOrder(last));
    } else {
      LookupOfDistinct([], name);
    }
  }

  /** The last field is the last assignment. */
  lemma SortLast(fields: seq<string>)
    requires fields != []
    ensures SortFromFields(fields) == Assign(SortFromFields(fields[..|fields| - 1]), FieldName(fields[|fields| - 1]), FieldOrder(fields[|fields| - 1]))
  {
  }

  /** Adding fields never reorders two properties the earlier fields created. */
  lemma {:induction false} EarlierFieldsKeepTheirOrder(fields: seq<string>, more: seq<string>, a: string, b: string)
    requires Before(SortFromFields(fields), a, b)
    ensures Before(SortFromFields(fields + more), a, b)
    decreases |more|
  {
    if more == [] {
      assert fields + more == fields;
    } else {
      var init := more[..|more| - 1];
      EarlierFieldsKeepTheirOrder(fields, init, a, b);
      var all := fields + more;
      assert all[..|all| - 1] == fields + init;
      var last := all[|all| - 1];
      SortLast(all);
      AssignKeepsBefore(SortFromFields(fields + init), FieldName(last), FieldOrder(last), a, b);
    }
  }

  /** A field with an ordinary name not seen before adds its property at the end. */
  lemma NewOrdinaryNameGoesLast(fields: seq<string>, f: string)
    requires OrdinaryName(FieldName(f)) && LastOrder(fields, FieldName(f)) == None
    ensures SortFromFields(fields + [f]) == SortFromFields(fields) + [SortKey(FieldName(f), FieldOrder(f))]
  {
    var all := fields + [f];
    assert all[..|all| - 1] == fields;
    SortLast(all);
    LaterFieldWins(fields, FieldName(f));
    LookupOfDistinct(SortFromFields(fields), FieldName(f));
    AssignNew(SortFromFields(fields), FieldName(f), FieldOrder(f));
  }

  /** One more field is one more assignment. */
  lemma SortStep(fields: seq<string>, i: nat)
    requires i < |fields|
    ensures SortFromFields(fields[..i + 1]) == Assign(SortFromFields(fields[..i]), FieldName(fields[i]), FieldOrder(fields[i]))
  {
    assert fields[..i + 1][..i] == fields[..i];
  }

  /** `getProducts`' sort-building step: the `forEach` loop over the split `sortBy`. */
  method BuildSortOption(sortBy: Option<string>) returns (obj: seq<SortKey>)
    ensures obj == SortOption(sortBy)
    ensures WellFormed(obj)
    ensures Js.Truthy(sortBy) ==> forall name :: Lookup(obj, name) == if name == "__proto__" then None else LastOrder(Js.Split(sortBy.value, ','), name)
    ensures !Js.Truthy(sortBy) ==> obj == [SortKey("meta.createdAt", -1)]
  {
    if !(sortBy.Some? && sortBy.value != "") {
      return [SortKey("meta.createdAt", -1)];
    }
    var fields := Js.Split(sortBy.value, ',');
    obj := [];
    var i := 0;
    while i < |fields|
      invariant 0 <= i <= |fields|
      invariant obj == SortFromFields(fields[..i])
    {
      var field := fields[i];
      var order := if |field| > 0 && field[0] == '-' then -1 else 1;
      var name := Js.RemoveFirst(field, '-');
      SortStep(fields, i);
      obj := Assign(obj, name, order);
      i := i + 1;
    }
    assert fields[..i] == fields;
    forall name ensures Lookup(obj, name) == if name == "__proto__" then None else LastOrder(fields, name) {
      LaterFieldWins(fields, name);
    }
  }

  /** Assigning an ordinary name the object does not have appends it. */
  lemma AssignNew(obj: seq<SortKey>, field: string, order: int)
    requires WellFormed(obj) && OrdinaryName(field) && FindField(obj, field) == None
    ensures Assign(obj, field, order) == obj + [SortKey(field, order)]
  {
  }

  /** A single field gives a single property, unless its name is `__proto__`. */
  lemma SortOne(f: string)
    ensures FieldName(f) != "__proto__" ==> SortFromFields([f]) == [SortKey(FieldName(f), FieldOrder(f))]
    ensures FieldName(f) == "__proto__" ==> SortFromFields([f]) == []
  {
    SortLast([f]);
    assert [f][..0] == [];
  }

  /** Two fields with different ordinary names give two properties, in the order given. */
  lemma SortTwo(f: string, g: string)
    requires FieldName(f) != FieldName(g)
    requires OrdinaryName(FieldName(f)) && OrdinaryName(FieldName(g))
    ensures SortFromFields([f, g]) == [SortKey(FieldName(f), FieldOrder(f)), SortKey(FieldName(g), FieldOrder(g))]
  {
    SortLast([f, g]);
    assert [f, g][..1] == [f];
    SortOne(f);
    var first := [SortKey(FieldName(f), FieldOrder(f))];
    assert FindField(first, FieldName(g)) == None;
    AssignNew(first, FieldName(g), FieldOrder(g));
  }

  /** An array-index name assigned to a one-property object with an ordinary name goes in front of it. */
  lemma AssignIndexAfterOrdinary(s: SortKey, field: string, order: int)
    requires OrdinaryName(s.field) && Js.ArrayIndex(field).Some?
    ensures Assign([s], field, order) == [SortKey(field, order), s]
  {
    assert FindField([s], field) == None;
    assert IndexSlot([s], Js.ArrayIndex(field).value) == 0;
  }

  /** An array-index field given after an ordinary one still comes first: `price,0` gives `{ 0: 1, price: 1 }`. */
  lemma IndexFieldComesFirst(f: string, g: string)
    requires OrdinaryName(FieldName(f)) && Js.ArrayIndex(FieldName(g)).Some?
    ensures SortFromFields([f, g]) == [SortKey(FieldName(g), FieldOrder(g)), SortKey(FieldName(f), FieldOrder(f))]
  {
    SortLast([f, g]);
    assert [f, g][..1] == [f];
    SortOne(f);
    AssignIndexAfterOrdinary(SortKey(FieldName(f), FieldOrder(f)), FieldName(g), FieldOrder(g));
  }

  /** The concrete case: `sortBy=price,0`. */
  lemma PriceThenZero()
    ensures SortFromFields(["price", "0"]) == [SortKey("0", 1), SortKey("price", 1)]
  {
    assert Js.ArrayIndex("price") == None by { assert !Js.IsDigit("price"[0]); }
    Js.ArrayIndexOfRendering(0);
    assert Js.NatToString(0) == "0";
    IndexFieldComesFirst("price", "0");
  }

  /** A field named `__proto__` (or `-__proto__`) leaves the sort object as it was. */
  lemma ProtoFieldIgnored(fields: seq<string>, f: string)
    requires FieldName(f) == "__proto__"
    ensures SortFromFields(fields + [f]) == SortFromFields(fields)
  {
    var all := fields + [f];
    assert all[..|all| - 1] == fields;
    SortLast(all);
  }

  /** A leading '-' sorts that field descending and a plain field ascending, each in the order given: `-price,rating` becomes `{ price: -1, rating: 1 }`. */
  lemma DescendingThenAscending(a: string, b: string)
    requires '-' !in a && '-' !in b && a != b
    requires OrdinaryName(a) && OrdinaryName(b)
    ensures SortFromFields(["-" + a, b]) == [SortKey(a, -1), SortKey(b, 1)]
  {
    assert ("-" + a)[1..] == a;
    SortTwo("-" + a, b);
  }

  /** Only the first '-' is dropped: a second leading '-' stays in the name. */
  lemma DoubleDashExample()
    ensures FieldName("--price") == "-price" && FieldOrder("--price") == -1
  {
  }

  /** A '-' inside a field is dropped too (the first one, wherever it stands), and the field still sorts ascending. */
  lemma DashInsideField(a: string, b: string)
    requires '-' !in a && a != ""
    ensures FieldName(a + "-" + b) == a + b
    ensures FieldOrder(a + "-" + b) == 1
  {
    var s := a + "-" + b;
    assert s[|a|] == '-';
    assert s[..|a|] == a;
    assert s[..|a|] == a && s[|a| + 1..] == b;
    assert s[0] == a[0];
  }

  /** `getProductById`. */
  function GetProductById(t: Inventory.Table, id: ProductId): (r: Result<Product, Failure>)
    ensures r.Ok? <==> id in t
    ensures r.Ok? ==> r.value == t[id]
    ensures r.Err? ==> r.error == Failure(NotFound, "Product not found")
  {
    if id in t then Ok(t[id]) else Err(Failure(NotFound, "Product not found"))
  }

  /**
   * `searchProducts`: without a truthy `q` the answer is a 400 before any
   * query runs. Otherwise `q` is used as a case-insensitive regular
   * expression; `patternValid` says whether it is a well-formed one (an
   * ill-formed pattern makes `new RegExp` throw, and the catch-all answers
   * 500). `matches` stands for the documents the database's five-way match
   * returns, best rated first, and the response is one page of them (a
   * negative skip is refused by the database: the catch-all 500 again).
   */
  function SearchProducts(q: Option<string>, patternValid: bool, pageQuery: Option<int>, limitQuery: Option<int>, matches: seq<Product>): (r: Result<(seq<Product>, Pagination.PageMeta), Failure>)
    ensures !Js.Truthy(q) ==> r == Err(Failure(BadRequest, "Search query is required"))
    ensures Js.Truthy(q) ==> (r.Err? <==> Pagination.ParsePaging(pageQuery, limitQuery).skip < 0 || !patternValid)
    ensures Js.Truthy(q) && r.Err? ==> r.error == ServerErrorFailure
    ensures r.Ok? ==>
      var paging := Pagination.ParsePaging(pageQuery, limitQuery);
      && paging.skip >= 0
      && r.value == (Pagination.Window(matches, paging.skip, paging.limit), Pagination.Meta(|matches|, paging.page, paging.limit))
      && |r.value.0| <= Pagination.Abs(paging.limit)
      && forall k :: 0 <= k < |r.value.0| ==> paging.skip + k < |matches| && r.value.0[k] == matches[paging.skip + k]
  {
    var paging := Pagination.ParsePaging(pageQuery, limitQuery);
    if !Js.Truthy(q) then Err(Failure(BadRequest, "Search query is required"))
    else if !patternValid || paging.skip < 0 then Err(ServerErrorFailure)
    else
      var page := Pagination.Window(matches, paging.skip, paging.limit);
      assert |page| <= Pagination.Abs(paging.limit);
      assert forall k :: 0 <= k < |page| ==> paging.skip + k < |matches| && page[k] == matches[paging.skip + k];
      Ok((page, Pagination.Meta(|matches|, paging.page, paging.limit)))
  }

  /**
   * `getBrands`: the distinct brand values with the falsy ones (missing,
   * null, "") filtered out, in their order. The list holds exactly the
   * non-empty brand values: nothing falsy survives and nothing truthy is lost.
   */
  function GetBrands(distinct: seq<Option<string>>): (r: seq<string>)
    ensures |r| <= |distinct|
    ensures forall b :: b in r <==> Some(b) in distinct && b != ""
    decreases |distinct|
  {
    if distinct == [] then []
    else
      assert forall x :: x in distinct <==> x == distinct[0] || x in distinct[1..];
      if Js.Truthy(distinct[0]) then [distinct[0].value] + GetBrands(distinct[1..])
      else GetBrands(distinct[1..])
  }

  /** Filtering keeps the original order: the brands of a concatenation are the brands of each part, in turn. */
  lemma {:induction false} BrandsKeepOrder(a: seq<Option<string>>, b: seq<Option<string>>)
    ensures GetBrands(a + b) == GetBrands(a) + GetBrands(b)
    decreases |a|
  {
    if a == [] {
      assert a + b == b;
    } else {
      BrandsKeepOrder(a[1..], b);
      assert (a + b)[1..] == a[1..] + b;
    }
  }
}
