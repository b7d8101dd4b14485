/**
 * The payload a producer hands to the queue: a PHP array, i.e. an ordered
 * map from integer or string keys to values, where a value may itself be a
 * nested array. Objects are the one kind of value the queue refuses to store;
 * `_validateArrayData` drops them at every depth before the payload is
 * serialised.
 */
module Payload {

  /** A PHP array key. */
  datatype Key = IntKey(i: int) | StrKey(s: string)

  /** The PHP values a payload can hold. Floats and resources are not modelled. */
  datatype Value =
    | Null
    | Bool(b: bool)
    | Int(i: int)
    | Str(s: string)
    | Arr(entries: seq<Entry>)
    | Obj(className: string)

  /** One `key => value` pair of a PHP array, in insertion order. */
  datatype Entry = Entry(key: Key, value: Value)

  /** A value that is neither an array nor an object. */
  predicate IsScalar(v: Value) {
    !v.Arr? && !v.Obj?
  }

  /** No object occurs in the array, at any depth. */
  predicate ObjectFree(data: seq<Entry>)
    decreases data
  {
    forall i | 0 <= i < |data| :: EntryObjectFree(data[i])
  }

  predicate EntryObjectFree(e: Entry)
    decreases e
  {
    ValueObjectFree(e.value)
  }

  predicate ValueObjectFree(v: Value)
    decreases v
  {
    match v
    case Obj(_) => false
    case Arr(es) => ObjectFree(es)
    case _ => true
  }

  /** PHP array keys are unique. */
  predicate UniqueKeys(data: seq<Entry>) {
    forall i, j | 0 <= i < j < |data| :: data[i].key != data[j].key
  }

  /**
   * Reference definition of the top level of the sanitiser: the entries whose
   * value is not an object, in their original order.
   */
  function DropObjects(data: seq<Entry>): (r: seq<Entry>)
    ensures forall e :: e in r <==> e in data && !e.value.Obj?
    ensures |r| <= |data|
  {
    if data == [] then []
    else if data[0].value.Obj? then DropObjects(data[1..])
    else [data[0]] + DropObjects(data[1..])
  }

  /**
   * `_validateArrayData`: walk the array in order; an array value is
   * replaced by its own sanitised copy, an object value is dropped together
   * with its key, every other value is kept as it is. It never fails.
   */
  function ValidateArrayData(data: seq<Entry>): (r: seq<Entry>)
    ensures ObjectFree(r)
    ensures |r| <= |data|
    decreases data
  {
    if data == [] then []
    else if data[0].value.Obj? then ValidateArrayData(data[1..])
    else [SanitizeEntry(data[0])] + ValidateArrayData(data[1..])
  }

  /** The sanitised copy of one kept entry: same key, sanitised value. */
  function SanitizeEntry(e: Entry): (r: Entry)
    requires !e.value.Obj?
    ensures r.key == e.key
    ensures EntryObjectFree(r)
    ensures IsScalar(e.value) ==> r == e
    // a nested array keeps its non-object entries, themselves sanitised
    ensures e.value.Arr? ==> r.value == Arr(ValidateArrayData(e.value.entries))
    decreases e
  {
    Entry(e.key, SanitizeValue(e.value))
  }

  /** A scalar is kept verbatim; an array is sanitised recursively. */
  function SanitizeValue(v: Value): (r: Value)
    requires !v.Obj?
    ensures ValueObjectFree(r)
    ensures IsScalar(v) ==> r == v
    ensures v.Arr? <==> r.Arr?
    // a nested array is sanitised by the same walk, so its non-object
    // entries survive under their keys at every depth
    ensures v.Arr? ==> r.entries == ValidateArrayData(v.entries)
    decreases v
  {
    match v
    case Arr(inner) => Arr(ValidateArrayData(inner))
    case _ => v
  }

  /**
   * The sanitiser keeps exactly the non-object entries, in order; each kept
   * entry becomes its sanitised copy (same key, scalars unchanged, arrays
   * sanitised in turn).
   */
  lemma {:induction false} ValidateArrayDataShape(data: seq<Entry>)
    ensures |ValidateArrayData(data)| == |DropObjects(data)|
    ensures forall i | 0 <= i < |DropObjects(data)| ::
              !DropObjects(data)[i].value.Obj?
              && ValidateArrayData(data)[i]
                 == Entry(DropObjects(data)[i].key, SanitizeValue(DropObjects(data)[i].value))
    decreases data
  {
    if data != [] {
      ValidateArrayDataShape(data[1..]);
      var r, kept := ValidateArrayData(data), DropObjects(data);
      var r', kept' := ValidateArrayData(data[1..]), DropObjects(data[1..]);
      if data[0].value.Obj? {
        assert r == r' && kept == kept';
      } else {
        assert r == [SanitizeEntry(data[0])] + r';
        assert kept == [data[0]] + kept';
        forall i | 0 <= i < |kept|
          ensures !kept[i].value.Obj? && r[i] == Entry(kept[i].key, SanitizeValue(kept[i].value))
        {
          if i > 0 {
            assert kept[i] == kept'[i - 1] && r[i] == r'[i - 1];
          }
        }
      }
    }
  }

  /** An array without objects is returned exactly as it was. */
  lemma {:induction false} ValidateArrayDataFixpoint(data: seq<Entry>)
    requires ObjectFree(data)
    ensures ValidateArrayData(data) == data
    decreases data
  {
    if data != [] {
      assert EntryObjectFree(data[0]);
      SanitizeEntryFixpoint(data[0]);
      assert ObjectFree(data[1..]) by {
        forall i | 0 <= i < |data[1..]| ensures EntryObjectFree(data[1..][i]) {
          assert data[1..][i] == data[i + 1];
        }
      }
      ValidateArrayDataFixpoint(data[1..]);
      assert data == [data[0]] + data[1..];
    }
  }

  lemma {:induction false} SanitizeEntryFixpoint(e: Entry)
    requires EntryObjectFree(e)
    ensures !e.value.Obj? && SanitizeEntry(e) == e
    decreases e
  {
    SanitizeValueFixpoint(e.value);
  }

  lemma {:induction false} SanitizeValueFixpoint(v: Value)
    requires ValueObjectFree(v)
    ensures !v.Obj? && SanitizeValue(v) == v
    decreases v
  {
    match v
    case Arr(inner) => ValidateArrayDataFixpoint(inner);
    case _ =>
  }

  /** Sanitising twice is the same as sanitising once. */
  lemma ValidateArrayDataIdempotent(data: seq<Entry>)
    ensures ValidateArrayData(ValidateArrayData(data)) == ValidateArrayData(data)
  {
    ValidateArrayDataFixpoint(ValidateArrayData(data));
  }

  /** Dropping entries never introduces a duplicate key. */
  lemma {:induction false} DropObjectsUniqueKeys(data: seq<Entry>)
    requires UniqueKeys(data)
    ensures UniqueKeys(DropObjects(data))
    decreases data
  {
    if data != [] {
      var tail := data[1..];
      assert UniqueKeys(tail) by {
        forall i, j | 0 <= i < j < |tail| ensures tail[i].key != tail[j].key {
          assert tail[i] == data[i + 1] && tail[j] == data[j + 1];
        }
      }
      DropObjectsUniqueKeys(tail);
      var rest := DropObjects(tail);
      forall e | e in rest ensures e.key != data[0].key {
        assert e in tail;
        var k :| 0 <= k < |tail| && tail[k] == e;
        assert tail[k] == data[k + 1];
      }
    }
  }

  /** A payload with unique keys keeps unique keys after sanitising. */
  lemma ValidateArrayDataUniqueKeys(data: seq<Entry>)
    requires UniqueKeys(data)
    ensures UniqueKeys(ValidateArrayData(data))
  {
    ValidateArrayDataShape(data);
    DropObjectsUniqueKeys(data);
  }
}
