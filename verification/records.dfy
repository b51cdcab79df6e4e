/**
 A scan record as the fingerprinting engine sees it: a Python dict from field
 names to string values, kept as a sequence of fields so that the dict's
 iteration order (insertion order) is part of the model.
 */
module Records {
  import opened Wrappers

  datatype Field = Field(key: string, value: string)

  type Record = seq<Field>

  /** `key.startswith("_")`: metadata fields, `_type` among them. */
  predicate IsMetadata(key: string) {
    |key| > 0 && key[0] == '_'
  }

  /** `key in d` */
  predicate HasKey(r: Record, key: string) {
    exists i :: 0 <= i < |r| && r[i].key == key
  }

  /** A Python dict never holds the same key twice. */
  predicate UniqueKeys(r: Record) {
    forall i, j :: 0 <= i < j < |r| ==> r[i].key != r[j].key
  }

  /** `d[key]`, with None standing for the KeyError raised on a missing key. */
  function Lookup(r: Record, key: string): (o: Option<string>)
    ensures o.None? <==> !HasKey(r, key)
  {
    if |r| == 0 then None
    else if r[0].key == key then Some(r[0].value)
    else
      assert HasKey(r, key) ==> HasKey(r[1..], key) by {
        if HasKey(r, key) {
          var i :| 0 <= i < |r| && r[i].key == key;
          assert r[1..][i - 1].key == key;
        }
      }
      Lookup(r[1..], key)
  }

  /** In a dict, looking up a field's key yields that field's value. */
  lemma {:induction false} LookupField(r: Record, i: nat)
    requires UniqueKeys(r)
    requires i < |r|
    ensures Lookup(r, r[i].key) == Some(r[i].value)
  {
    if i > 0 {
      assert r[0].key != r[i].key;
      assert r[1..][i - 1] == r[i];
      LookupField(r[1..], i - 1);
    }
  }

  /** A look-up in a concatenation finds the first part's entry before the second's. */
  lemma {:induction false} LookupAppend(a: Record, b: Record, key: string)
    ensures Lookup(a + b, key) == if HasKey(a, key) then Lookup(a, key) else Lookup(b, key)
  {
    if |a| > 0 {
      assert (a + b)[1..] == a[1..] + b;
      LookupAppend(a[1..], b, key);
      if a[0].key != key {
        assert HasKey(a, key) <==> HasKey(a[1..], key) by {
          if HasKey(a, key) {
            var i :| 0 <= i < |a| && a[i].key == key;
            assert a[1..][i - 1].key == key;
          }
        }
      }
    } else {
      assert a + b == b;
    }
  }

  /** Inserting a field anywhere leaves the look-up of every other key unchanged. */
  lemma LookupInsert(r: Record, i: nat, f: Field, key: string)
    requires i <= |r|
    requires f.key != key
    ensures Lookup(r[..i] + [f] + r[i..], key) == Lookup(r, key)
  {
    assert r[..i] + [f] + r[i..] == r[..i] + ([f] + r[i..]);
    LookupAppend(r[..i], [f] + r[i..], key);
    LookupAppend([f], r[i..], key);
    LookupAppend(r[..i], r[i..], key);
    assert r[..i] + r[i..] == r;
  }

  /** The values of the fields whose key does not start with `_`, in record order. */
  function DataValues(r: Record): (vs: seq<string>)
    ensures |vs| <= |r|
  {
    if |r| == 0 then []
    else (if IsMetadata(r[0].key) then [] else [r[0].value]) + DataValues(r[1..])
  }

  /** Without metadata fields, the data values are all the values, in order. */
  lemma {:induction false} DataValuesWithoutMetadata(r: Record)
    requires forall i :: 0 <= i < |r| ==> !IsMetadata(r[i].key)
    ensures |DataValues(r)| == |r|
    ensures forall i :: 0 <= i < |r| ==> DataValues(r)[i] == r[i].value
  {
    if |r| > 0 {
      assert forall i :: 0 < i < |r| ==> r[i] == r[1..][i - 1];
      DataValuesWithoutMetadata(r[1..]);
    }
  }

  /** A record of metadata fields only has no data values. */
  lemma {:induction false} DataValuesOnlyMetadata(r: Record)
    requires forall i :: 0 <= i < |r| ==> IsMetadata(r[i].key)
    ensures DataValues(r) == []
  {
    if |r| > 0 {
      assert forall i :: 0 < i < |r| ==> r[i] == r[1..][i - 1];
      DataValuesOnlyMetadata(r[1..]);
    }
  }

  lemma {:induction false} DataValuesAppend(a: Record, b: Record)
    ensures DataValues(a + b) == DataValues(a) + DataValues(b)
  {
    if |a| == 0 {
      assert a + b == b;
    } else {
      assert (a + b)[1..] == a[1..] + b;
      DataValuesAppend(a[1..], b);
    }
  }

  /** A metadata field between two parts contributes nothing to the data values. */
  lemma DataValuesSkipMetadata(a: Record, f: Field, b: Record)
    requires IsMetadata(f.key)
    ensures DataValues(a + [f] + b) == DataValues(a + b)
  {
    assert DataValues([f]) == [] by {
      assert [f][1..] == [];
    }
    calc {
      DataValues(a + [f] + b);
      { DataValuesAppend(a + [f], b); }
      DataValues(a + [f]) + DataValues(b);
      { DataValuesAppend(a, [f]); }
      DataValues(a) + DataValues(b);
      { DataValuesAppend(a, b); }
      DataValues(a + b);
    }
  }

  /** Adding a metadata field anywhere does not change the data values. */
  lemma DataValuesInsertMetadata(r: Record, i: nat, f: Field)
    requires i <= |r|
    requires IsMetadata(f.key)
    ensures DataValues(r[..i] + [f] + r[i..]) == DataValues(r)
  {
    DataValuesSkipMetadata(r[..i], f, r[i..]);
    assert r[..i] + r[i..] == r;
  }

  /** A record is the fields before position `i`, the field at `i`, and the fields after it. */
  lemma SplitAround(r: Record, i: nat)
    requires i < |r|
    ensures r == r[..i] + [r[i]] + r[i + 1..]
  {
    assert r[..i + 1] == r[..i] + [r[i]];
    assert r[..i + 1] + r[i + 1..] == r;
  }

  /** Removing a metadata field does not change the data values. */
  lemma DataValuesRemoveMetadata(r: Record, i: nat)
    requires i < |r|
    requires IsMetadata(r[i].key)
    ensures DataValues(r[..i] + r[i + 1..]) == DataValues(r)
  {
    SplitAround(r, i);
    DataValuesSkipMetadata(r[..i], r[i], r[i + 1..]);
  }

  /** Changing the value of a metadata field does not change the data values. */
  lemma DataValuesEditMetadata(r: Record, i: nat, v: string)
    requires i < |r|
    requires IsMetadata(r[i].key)
    ensures DataValues(r[i := Field(r[i].key, v)]) == DataValues(r)
  {
    var f := Field(r[i].key, v);
    DataValuesSkipMetadata(r[..i], f, r[i + 1..]);
    assert r[..i] + [f] + r[i + 1..] == r[i := f];
    DataValuesRemoveMetadata(r, i);
  }
}
