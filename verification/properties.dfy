/**
 What `calculate_hash` promises about the records it fingerprints: which
 fields each typed rule reads, when the KeyError fallback applies, that
 metadata never reaches the fallback string, and how the final fold depends
 on the per-record hashes.
 */
module HasherProperties {
  import opened Wrappers
  import opened Text
  import opened Records
  import opened Hashers

  // ----- typed rules -----

  /** An `ip` record that has its `ip` field hashes to the hash of that value alone. */
  lemma IpRecordHash(hash: Hasher, r: Record, i: nat)
    requires UniqueKeys(r)
    requires Lookup(r, "_type") == Some("ip")
    requires i < |r| && r[i].key == "ip"
    ensures RecordHash(hash, r) == hash(r[i].value)
  {
    LookupField(r, i);
  }

  /** A `domain` record that has its `domain` field hashes to the hash of that value alone. */
  lemma DomainRecordHash(hash: Hasher, r: Record, i: nat)
    requires UniqueKeys(r)
    requires Lookup(r, "_type") == Some("domain")
    requires i < |r| && r[i].key == "domain"
    ensures RecordHash(hash, r) == hash(r[i].value)
  {
    LookupField(r, i);
  }

  /** Two `ip` records with the same `ip` value get the same hash, whatever else they hold. */
  lemma IpIgnoresOtherFields(hash: Hasher, r1: Record, r2: Record)
    requires Lookup(r1, "_type") == Some("ip") && Lookup(r2, "_type") == Some("ip")
    requires HasKey(r1, "ip") && Lookup(r1, "ip") == Lookup(r2, "ip")
    ensures RecordHash(hash, r1) == RecordHash(hash, r2)
  {
  }

  /** A `vulnerability` record never falls back, even when it has none of its four fields. */
  lemma VulnerabilityNeverFallsBack(hash: Hasher, r: Record)
    requires Lookup(r, "_type") == Some("vulnerability")
    ensures RecordHash(hash, r) == hash(Join(Separator, PresentValues(r, VulnerabilityKeys)))
    ensures (forall i :: 0 <= i < |VulnerabilityKeys| ==> !HasKey(r, VulnerabilityKeys[i])) ==> RecordHash(hash, r) == hash("")
  {
    if forall i :: 0 <= i < |VulnerabilityKeys| ==> !HasKey(r, VulnerabilityKeys[i]) {
      PresentValuesNonePresent(r, VulnerabilityKeys);
    }
  }

  /** Records that agree on the lookup of every key in `keys` select the same present values. */
  lemma {:induction false} PresentValuesCongruent(r1: Record, r2: Record, keys: seq<string>)
    requires forall i :: 0 <= i < |keys| ==> Lookup(r1, keys[i]) == Lookup(r2, keys[i])
    ensures PresentValues(r1, keys) == PresentValues(r2, keys)
  {
    if |keys| > 0 {
      assert forall i :: 0 < i < |keys| ==> keys[i] == keys[1..][i - 1];
      PresentValuesCongruent(r1, r2, keys[1..]);
    }
  }

  /** The vulnerability string reads `cve`, `id`, `cwe` and `title` and nothing else. */
  lemma VulnerabilityReadsOnlyItsFields(r1: Record, r2: Record)
    requires forall i :: 0 <= i < |VulnerabilityKeys| ==> Lookup(r1, VulnerabilityKeys[i]) == Lookup(r2, VulnerabilityKeys[i])
    ensures VulnerabilityCanonical(r1) == VulnerabilityCanonical(r2)
  {
    PresentValuesCongruent(r1, r2, VulnerabilityKeys);
  }

  /** The record of the example below selects "CVE-1" and "T", in that order. */
  lemma VulnerabilityExampleValues()
    ensures PresentValues([Field("_type", "vulnerability"), Field("cve", "CVE-1"), Field("title", "T")], VulnerabilityKeys)
            == ["CVE-1", "T"]
  {
    var r := [Field("_type", "vulnerability"), Field("cve", "CVE-1"), Field("title", "T")];
    var keys := VulnerabilityKeys;
    assert keys[1..] == ["id", "cwe", "title"];
    assert keys[1..][1..] == ["cwe", "title"];
    assert keys[1..][1..][1..] == ["title"];
    assert PresentValues(r, ["title"]) == ["T"] by {
      assert Lookup(r, "title") == Some("T");
    }
    assert PresentValues(r, ["cwe", "title"]) == ["T"] by {
      assert Lookup(r, "cwe") == None;
    }
    assert PresentValues(r, ["id", "cwe", "title"]) == ["T"] by {
      assert Lookup(r, "id") == None;
    }
    assert Lookup(r, "cve") == Some("CVE-1");
  }

  /** `{_type: vulnerability, cve: "CVE-1", title: "T"}`: absent `id` and `cwe` leave no placeholder. */
  lemma VulnerabilityExample(hash: Hasher)
    ensures RecordHash(hash, [Field("_type", "vulnerability"), Field("cve", "CVE-1"), Field("title", "T")])
            == hash("CVE-1#T")
  {
    var r := [Field("_type", "vulnerability"), Field("cve", "CVE-1"), Field("title", "T")];
    assert TypedCanonical(r) == Some(VulnerabilityCanonical(r)) by {
      assert Lookup(r, "_type") == Some("vulnerability");
    }
    assert VulnerabilityCanonical(r) == "CVE-1#T" by {
      VulnerabilityExampleValues();
      JoinPairExample();
    }
  }

  /** The two selected values of the example above, joined. */
  lemma JoinPairExample()
    ensures Join(Separator, ["CVE-1", "T"]) == "CVE-1#T"
  {
    var parts := ["CVE-1", "T"];
    assert parts[1..] == ["T"];
    assert Join(Separator, parts) == "CVE-1" + [Separator] + "T";
  }

  // ----- dispatch and fallback -----

  /** Whenever the `try` block raises KeyError, the record hashes to its fallback string. */
  lemma FallbackRecordHash(hash: Hasher, r: Record)
    requires FallsBack(r)
    ensures RecordHash(hash, r) == hash(Join(Separator, DataValues(r)))
  {
  }

  /** A typed `ip` or `domain` record without its field does not fail: it takes the fallback. */
  lemma MissingFieldFallsBack(hash: Hasher, r: Record)
    requires Lookup(r, "_type") == Some("ip") || Lookup(r, "_type") == Some("domain")
    requires !HasKey(r, Lookup(r, "_type").value)
    ensures RecordHash(hash, r) == hash(FallbackCanonical(r))
  {
  }

  /** `{_type: "x", a: "1", _note: "n", b: "2"}` hashes as "1#2". */
  lemma FallbackExample(hash: Hasher)
    ensures RecordHash(hash, [Field("_type", "x"), Field("a", "1"), Field("_note", "n"), Field("b", "2")])
            == hash("1#2")
  {
    var r := [Field("_type", "x"), Field("a", "1"), Field("_note", "n"), Field("b", "2")];
    assert Lookup(r, "_type") == Some("x");
    assert r[1..] == [Field("a", "1"), Field("_note", "n"), Field("b", "2")];
    assert r[1..][1..] == [Field("_note", "n"), Field("b", "2")];
    assert r[1..][1..][1..] == [Field("b", "2")];
    assert DataValues([Field("b", "2")]) == ["2"];
    assert DataValues(r) == ["1", "2"];
    assert Join(Separator, ["1", "2"]) == "1#2";
    assert TypedCanonical(r) == None;
    assert Canonical(r) == "1#2";
  }

  /** A record with no data fields at all still hashes, to the hash of the empty string. */
  lemma EmptyFallback(hash: Hasher, r: Record)
    requires FallsBack(r)
    requires forall i :: 0 <= i < |r| ==> IsMetadata(r[i].key)
    ensures RecordHash(hash, r) == hash("")
  {
    DataValuesOnlyMetadata(r);
  }

  /** The type tag is not hashed: an `ip` and a `domain` record carrying the same text collide. */
  lemma TypeTagNotHashed(hash: Hasher, r1: Record, r2: Record)
    requires Lookup(r1, "_type") == Some("ip") && Lookup(r2, "_type") == Some("domain")
    requires HasKey(r1, "ip") && Lookup(r1, "ip") == Lookup(r2, "domain")
    ensures RecordHash(hash, r1) == RecordHash(hash, r2)
  {
  }

  // ----- metadata -----

  /** Adding a `_`-prefixed field, `_type` included, leaves the fallback string unchanged. */
  lemma FallbackIgnoresAddedMetadata(r: Record, i: nat, f: Field)
    requires i <= |r| && IsMetadata(f.key)
    ensures FallbackCanonical(r[..i] + [f] + r[i..]) == FallbackCanonical(r)
  {
    DataValuesInsertMetadata(r, i, f);
  }

  /** Removing a `_`-prefixed field leaves the fallback string unchanged. */
  lemma FallbackIgnoresRemovedMetadata(r: Record, i: nat)
    requires i < |r| && IsMetadata(r[i].key)
    ensures FallbackCanonical(r[..i] + r[i + 1..]) == FallbackCanonical(r)
  {
    DataValuesRemoveMetadata(r, i);
  }

  /** Editing a `_`-prefixed field's value leaves the fallback string unchanged. */
  lemma FallbackIgnoresEditedMetadata(r: Record, i: nat, v: string)
    requires i < |r| && IsMetadata(r[i].key)
    ensures FallbackCanonical(r[i := Field(r[i].key, v)]) == FallbackCanonical(r)
  {
    DataValuesEditMetadata(r, i, v);
  }

  /** The canonical string reads the record only through these look-ups and its data values. */
  lemma CanonicalCongruent(r1: Record, r2: Record)
    requires Lookup(r1, "_type") == Lookup(r2, "_type")
    requires Lookup(r1, "ip") == Lookup(r2, "ip")
    requires Lookup(r1, "domain") == Lookup(r2, "domain")
    requires forall j :: 0 <= j < |VulnerabilityKeys| ==> Lookup(r1, VulnerabilityKeys[j]) == Lookup(r2, VulnerabilityKeys[j])
    requires DataValues(r1) == DataValues(r2)
    ensures Canonical(r1) == Canonical(r2)
  {
    assert TypedCanonical(r1) == TypedCanonical(r2) by {
      PresentValuesCongruent(r1, r2, VulnerabilityKeys);
      assert forall rule :: RuleCanonical(rule, r1) == RuleCanonical(rule, r2);
    }
    assert FallbackCanonical(r1) == FallbackCanonical(r2);
  }

  /**
   Adding a metadata field other than `_type` changes no record's hash,
   whatever its type: no rule reads a `_`-prefixed field except the dispatch
   on `_type`.
   */
  lemma RecordHashIgnoresAddedMetadata(hash: Hasher, r: Record, i: nat, f: Field)
    requires i <= |r| && IsMetadata(f.key) && f.key != "_type"
    ensures RecordHash(hash, r[..i] + [f] + r[i..]) == RecordHash(hash, r)
  {
    var r' := r[..i] + [f] + r[i..];
    assert f.key[0] == '_';
    LookupInsert(r, i, f, "_type");
    assert "ip"[0] != '_';
    LookupInsert(r, i, f, "ip");
    assert "domain"[0] != '_';
    LookupInsert(r, i, f, "domain");
    forall j | 0 <= j < |VulnerabilityKeys|
      ensures Lookup(r', VulnerabilityKeys[j]) == Lookup(r, VulnerabilityKeys[j])
    {
      assert VulnerabilityKeys[j] in ["cve", "id", "cwe", "title"];
      assert VulnerabilityKeys[j][0] != '_';
      LookupInsert(r, i, f, VulnerabilityKeys[j]);
    }
    DataValuesInsertMetadata(r, i, f);
    CanonicalCongruent(r', r);
  }

  // ----- the final fold -----

  /** A record on its own and the one-element list holding it get the same fingerprint. */
  lemma SingleIsSingletonBatch(hash: Hasher, r: Record)
    ensures CalculateHash(hash, Single(r)) == CalculateHash(hash, Batch([r]))
  {
  }

  /** Even one record goes through the fold: the fingerprint is the hash of its hash's decimal string. */
  lemma SingletonFold(hash: Hasher, r: Record)
    ensures CalculateHash(hash, Single(r)) == hash(Decimal(RecordHash(hash, r)))
  {
    assert Carry(hash, [r]) == [RecordHash(hash, r)];
  }

  /** An empty list folds the empty string. */
  lemma EmptyBatch(hash: Hasher)
    ensures CalculateHash(hash, Batch([])) == hash("")
  {
  }

  /** The fold string determines the `carry` list it came from: no two lists fold to the same string. */
  lemma FoldStringInjective(c1: seq<nat>, c2: seq<nat>)
    ensures FoldString(c1) == FoldString(c2) ==> c1 == c2
  {
    var p1 := seq(|c1|, i requires 0 <= i < |c1| => Decimal(c1[i]));
    var p2 := seq(|c2|, i requires 0 <= i < |c2| => Decimal(c2[i]));
    if Join(Separator, p1) == Join(Separator, p2) {
      if |c1| == 0 || |c2| == 0 {
        if |p1| > 0 { JoinNonEmpty(Separator, p1); }
        if |p2| > 0 { JoinNonEmpty(Separator, p2); }
      } else {
        SplitJoin(Separator, p1);
        SplitJoin(Separator, p2);
        assert |c1| == |c2|;
        forall i | 0 <= i < |c1|
          ensures c1[i] == c2[i]
        {
          assert p1[i] == p2[i];
          DecimalInjective(c1[i], c2[i]);
        }
      }
    }
  }

  /** Swapping two records whose hashes differ changes the string the fold hashes. */
  lemma BatchOrderMatters(hash: Hasher, r1: Record, r2: Record)
    requires RecordHash(hash, r1) != RecordHash(hash, r2)
    ensures FoldString(Carry(hash, [r1, r2])) != FoldString(Carry(hash, [r2, r1]))
  {
    var c, d := Carry(hash, [r1, r2]), Carry(hash, [r2, r1]);
    FoldStringInjective(c, d);
    assert c[0] != d[0];
  }
}
