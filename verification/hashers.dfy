/**
 The fingerprinting engine: per-type canonical strings (`hash_ip`,
 `hash_domain`, `hash_vulnerability`), the closed registry that dispatches on
 `_type`, the KeyError fallback to all non-metadata values, and the final fold
 of the per-record hashes in `calculate_hash`.
 */
module Hashers {
  import opened Wrappers
  import opened Text
  import opened Records

  /**
   `mmh3.hash128`, left uninterpreted: any total map from strings to
   non-negative integers. Every result below holds for every such map.
   */
  type Hasher = string -> nat

  /** The entries of `DATA_TYPES_HASHERS`. */
  datatype Rule = IpRule | DomainRule | VulnerabilityRule

  /** The `_type` value each rule is registered under. */
  function RuleName(rule: Rule): string {
    match rule
    case IpRule => "ip"
    case DomainRule => "domain"
    case VulnerabilityRule => "vulnerability"
  }

  /** `DATA_TYPES_HASHERS[t]`; None is the KeyError for a type nobody registered. */
  function Registry(t: string): (rule: Option<Rule>)
    ensures rule.Some? ==> RuleName(rule.value) == t
    ensures rule.None? ==> forall q: Rule :: RuleName(q) != t
  {
    if t == "ip" then Some(IpRule)
    else if t == "domain" then Some(DomainRule)
    else if t == "vulnerability" then Some(VulnerabilityRule)
    else None
  }

  /** The fields `hash_vulnerability` reads, in the order it reads them. */
  const VulnerabilityKeys: seq<string> := ["cve", "id", "cwe", "title"]

  /** The values of those `keys` the record has, in the order of `keys`; absent keys are skipped. */
  function PresentValues(r: Record, keys: seq<string>): (vs: seq<string>)
    ensures |vs| <= |keys|
  {
    if |keys| == 0 then []
    else (match Lookup(r, keys[0]) case Some(v) => [v] case None => []) + PresentValues(r, keys[1..])
  }

  /** When every key is present, each value is the look-up of the key in the same position. */
  lemma {:induction false} PresentValuesAllPresent(r: Record, keys: seq<string>)
    requires forall i :: 0 <= i < |keys| ==> HasKey(r, keys[i])
    ensures |PresentValues(r, keys)| == |keys|
    ensures forall i :: 0 <= i < |keys| ==> Lookup(r, keys[i]) == Some(PresentValues(r, keys)[i])
  {
    if |keys| > 0 {
      assert forall i :: 0 < i < |keys| ==> keys[i] == keys[1..][i - 1];
      PresentValuesAllPresent(r, keys[1..]);
    }
  }

  /** When no key is present, nothing is selected: there are no placeholders. */
  lemma {:induction false} PresentValuesNonePresent(r: Record, keys: seq<string>)
    requires forall i :: 0 <= i < |keys| ==> !HasKey(r, keys[i])
    ensures PresentValues(r, keys) == []
  {
    if |keys| > 0 {
      assert forall i :: 0 < i < |keys| ==> keys[i] == keys[1..][i - 1];
      PresentValuesNonePresent(r, keys[1..]);
    }
  }

  /** Selecting over two runs of keys selects over the first run, then over the second. */
  lemma {:induction false} PresentValuesAppend(r: Record, a: seq<string>, b: seq<string>)
    ensures PresentValues(r, a + b) == PresentValues(r, a) + PresentValues(r, b)
  {
    if |a| == 0 {
      assert a + b == b;
    } else {
      assert (a + b)[0] == a[0];
      assert (a + b)[1..] == a[1..] + b;
      PresentValuesAppend(r, a[1..], b);
    }
  }

  /** An absent key anywhere in the list is skipped: it leaves no placeholder. */
  lemma PresentValuesSkipAbsent(r: Record, a: seq<string>, k: string, b: seq<string>)
    requires !HasKey(r, k)
    ensures PresentValues(r, a + [k] + b) == PresentValues(r, a + b)
  {
    assert PresentValues(r, [k]) == [] by {
      assert [k][1..] == [];
    }
    PresentValuesAppend(r, a + [k], b);
    PresentValuesAppend(r, a, [k]);
    PresentValuesAppend(r, a, b);
  }

  /** A present key anywhere in the list contributes its value, at its place in the order. */
  lemma PresentValuesKeepPresent(r: Record, a: seq<string>, k: string, b: seq<string>)
    requires HasKey(r, k)
    ensures PresentValues(r, a + [k] + b) == PresentValues(r, a) + [Lookup(r, k).value] + PresentValues(r, b)
  {
    assert PresentValues(r, [k]) == [Lookup(r, k).value] by {
      assert [k][1..] == [];
    }
    PresentValuesAppend(r, a + [k], b);
    PresentValuesAppend(r, a, [k]);
  }

  /** The string `hash_vulnerability` hashes; it never raises. */
  function VulnerabilityCanonical(r: Record): string {
    Join(Separator, PresentValues(r, VulnerabilityKeys))
  }

  /** The string a registered rule hashes; None is the KeyError of `d['ip']` or `d['domain']`. */
  function RuleCanonical(rule: Rule, r: Record): Option<string> {
    match rule
    case IpRule => Lookup(r, "ip")
    case DomainRule => Lookup(r, "domain")
    case VulnerabilityRule => Some(VulnerabilityCanonical(r))
  }

  /** The string the `except KeyError` branch hashes: every non-metadata value, in record order. */
  function FallbackCanonical(r: Record): string {
    Join(Separator, DataValues(r))
  }

  /** When the `try` block raises KeyError, stated key by key. */
  predicate FallsBack(r: Record) {
    match Lookup(r, "_type")
    case None => true
    case Some(t) =>
      || (t != "ip" && t != "domain" && t != "vulnerability")
      || (t == "ip" && !HasKey(r, "ip"))
      || (t == "domain" && !HasKey(r, "domain"))
  }

  /** The string the `try` block hashes, or None when it raises KeyError. */
  function TypedCanonical(r: Record): (o: Option<string>)
    ensures o.None? <==> FallsBack(r)
    ensures o.Some? ==> Lookup(r, "_type").Some? && Registry(Lookup(r, "_type").value).Some?
  {
    match Lookup(r, "_type")
    case None => None
    case Some(t) =>
      match Registry(t)
      case None => None
      case Some(rule) => RuleCanonical(rule, r)
  }

  /** The string whose hash is the record's entry in `carry`. */
  function Canonical(r: Record): string {
    TypedCanonical(r).GetOr(FallbackCanonical(r))
  }

  /** `h` in the loop body of `calculate_hash`. */
  function RecordHash(hash: Hasher, r: Record): nat {
    hash(Canonical(r))
  }

  /** The argument of `calculate_hash`: a list of records, or anything else, taken as one record. */
  datatype Input = Single(record: Record) | Batch(records: seq<Record>)

  /** A non-list argument becomes a one-element list; a list is taken as it is. */
  function Normalize(input: Input): seq<Record> {
    match input
    case Single(r) => [r]
    case Batch(rs) => rs
  }

  /** The `carry` list after the loop has visited every record. */
  function Carry(hash: Hasher, rs: seq<Record>): (carry: seq<nat>)
    ensures |carry| == |rs|
    ensures forall i :: 0 <= i < |rs| ==> carry[i] == RecordHash(hash, rs[i])
  {
    if |rs| == 0 then []
    else Carry(hash, rs[..|rs| - 1]) + [RecordHash(hash, rs[|rs| - 1])]
  }

  /** The decimal strings of the `carry` hashes, in order, joined by `#`. */
  function FoldString(carry: seq<nat>): string {
    Join(Separator, seq(|carry|, i requires 0 <= i < |carry| => Decimal(carry[i])))
  }

  /** `calculate_hash(data)` */
  function CalculateHash(hash: Hasher, input: Input): nat {
    hash(FoldString(Carry(hash, Normalize(input))))
  }

  /**
   `calculate_hash` as the source writes it, one record per loop iteration;
   `carry` is returned alongside the fingerprint.
   */
  method ComputeFingerprint(hash: Hasher, input: Input) returns (carry: seq<nat>, fingerprint: nat)
    ensures |carry| == |Normalize(input)|
    ensures forall i :: 0 <= i < |carry| ==> carry[i] == RecordHash(hash, Normalize(input)[i])
    ensures fingerprint == hash(FoldString(carry))
    ensures fingerprint == CalculateHash(hash, input)
  {
    var data := Normalize(input);
    carry := [];
    var k := 0;
    while k < |data|
      invariant k <= |data|
      invariant carry == Carry(hash, data[..k])
    {
      var d := data[k];
      var h: nat;
      match TypedCanonical(d) {
        case Some(s) => h := hash(s);
        case None => h := hash(FallbackCanonical(d));
      }
      assert data[..k + 1][..k] == data[..k];
      carry := carry + [h];
      k := k + 1;
    }
    assert data[..k] == data;
    fingerprint := hash(FoldString(carry));
  }
}
