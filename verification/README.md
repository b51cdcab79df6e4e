# Record fingerprinting in Dafny

A verified model of the fingerprinting engine of the golismero Python helpers
(`calculate_hash` and the per-type hashers in `golismero_helpers/hashers.py`).
The engine turns one scan record, or a list of them, into a single hash, so
that the same finding reported twice can be recognised as a duplicate.

- A record is a Python dict of string fields. Here it is a `Records.Record`:
  a sequence of `Field(key, value)` pairs, in dict insertion order. The
  generic fallback hashes the values in that order.
- `mmh3.hash128` is a parameter `hash: string -> nat` (`Hashers.Hasher`).
  Every result holds for every such function.
- `str(int)` is `Text.Decimal`, a concrete base-10 rendering of a `nat`.
  Python's `"#".join` is `Text.Join`.
- Each record is reduced to a canonical string, which is then hashed
  (`Hashers.Canonical`, `Hashers.RecordHash`):
  - `ip` hashes the value of `ip`.
  - `domain` hashes the value of `domain`.
  - `vulnerability` hashes the values of `cve`, `id`, `cwe`, `title` that
    are present, in that order, joined by `#`.
  - Anything else hashes all values whose key does not start with `_`,
    joined by `#`.
- `DATA_TYPES_HASHERS` is the closed `Hashers.Rule` datatype together with
  `Hashers.Registry`.
- A Python `KeyError` is `Option.None`. The source wraps both the look-up of
  `_type` and the typed rule in one `try ... except KeyError`. So a record
  with no `_type`, with an unregistered `_type`, or of type `ip`/`domain`
  without that field falls back to the generic string. It does not fail.
- `calculate_hash` is `Hashers.CalculateHash`. `Hashers.ComputeFingerprint`
  is the same computation written as the source's loop.
- A non-list argument is `Input.Single`; a list is `Input.Batch`.

Modules: `Wrappers` (Option), `Text` (join, split, decimal rendering),
`Records` (fields, look-up, non-metadata values), `Hashers` (the engine),
`HasherProperties` (the properties the engine promises).

An `ip` or `domain` record without its field does not raise. The `KeyError`
from `d['ip']` / `d['domain']` is caught by the same handler as an unknown
type, and the record is hashed by the generic rule
(`golismero_helpers/hashers.py:41-49`); see
`HasherProperties.MissingFieldFallsBack`.

## Model

| member | source | states |
|---|---|---|
| Records.Lookup | golismero_helpers/hashers.py:42 | `d[key]` raises KeyError (None) exactly when no field has that key |
| Records.LookupField | golismero_helpers/hashers.py:7 | in a dict with unique keys, looking up a field's key returns that field's value |
| Records.LookupInsert | golismero_helpers/hashers.py:17-18 | adding a field leaves the look-up of every other key unchanged |
| Records.DataValuesWithoutMetadata | golismero_helpers/hashers.py:47-48 | with no `_` fields, the fallback takes every value, position by position, in record order |
| Records.DataValuesOnlyMetadata | golismero_helpers/hashers.py:47-48 | a record made only of `_` fields contributes no values |
| Records.DataValuesAppend | golismero_helpers/hashers.py:47-48 | the fallback values of two concatenated parts are the first part's values followed by the second's, so record order is kept |
| Records.DataValuesInsertMetadata | golismero_helpers/hashers.py:47-48 | inserting a `_` field at any position leaves the fallback values unchanged |
| Records.DataValuesRemoveMetadata | golismero_helpers/hashers.py:47-48 | removing a `_` field leaves the fallback values unchanged |
| Records.DataValuesEditMetadata | golismero_helpers/hashers.py:47-48 | changing a `_` field's value leaves the fallback values unchanged |
| Text.SplitJoin | golismero_helpers/hashers.py:53 | joining `#`-free strings with `#` and splitting again gives back the same list |
| Text.Decimal | golismero_helpers/hashers.py:53 | `str(x)` of a hash is a non-empty string of digits, without `#`, with a leading `0` only for zero |
| Text.ParseDecimalOfDecimal | golismero_helpers/hashers.py:53 | parsing `str(x)` gives back `x` |
| Text.DecimalInjective | golismero_helpers/hashers.py:53 | different hashes have different decimal strings |
| Hashers.Registry | golismero_helpers/hashers.py:23-27 | a rule is found only under its own name (`ip`, `domain`, `vulnerability`); any other name gives KeyError |
| Hashers.PresentValuesAllPresent | golismero_helpers/hashers.py:14-18 | when all of `cve`, `id`, `cwe`, `title` are present, the values are taken one per key, in the order of the keys |
| Hashers.PresentValuesNonePresent | golismero_helpers/hashers.py:14-18 | with none of the keys present, nothing is selected |
| Hashers.PresentValuesAppend | golismero_helpers/hashers.py:15-18 | selecting over two runs of keys gives the first run's values followed by the second's, so the key order is kept |
| Hashers.PresentValuesSkipAbsent | golismero_helpers/hashers.py:16-18 | an absent key at any position is skipped with no placeholder: the selection equals the one over the list without that key |
| Hashers.PresentValuesKeepPresent | golismero_helpers/hashers.py:16-18 | a present key at any position contributes its value, between the values selected before it and after it |
| Hashers.TypedCanonical | golismero_helpers/hashers.py:41-43 | the `try` block raises KeyError exactly when `_type` is missing or unregistered, or the record is `ip`/`domain` without that field; when it succeeds, `_type` is present and registered |
| Hashers.Carry | golismero_helpers/hashers.py:38-51 | `carry` holds exactly one hash per input record, in input order |
| Hashers.ComputeFingerprint | golismero_helpers/hashers.py:35-53 | the loop builds `carry` one record at a time, and the result is the hash of the `#`-joined decimal strings of `carry`. The loop is equal to `CalculateHash`, so the result depends only on the hash function and the input |
| HasherProperties.IpRecordHash | golismero_helpers/hashers.py:6-7 | an `ip` record that has an `ip` field hashes to the hash of that value alone |
| HasherProperties.DomainRecordHash | golismero_helpers/hashers.py:10-11 | a `domain` record that has a `domain` field hashes to the hash of that value alone |
| HasherProperties.IpIgnoresOtherFields | golismero_helpers/hashers.py:6-7 | two `ip` records with the same `ip` value hash alike, whatever other fields (metadata included) they carry |
| HasherProperties.TypeTagNotHashed | golismero_helpers/hashers.py:6-11 | the type tag is not part of the hashed string: an `ip` and a `domain` record with the same text hash alike |
| HasherProperties.VulnerabilityNeverFallsBack | golismero_helpers/hashers.py:14-20 | a `vulnerability` record always uses its rule: the hash of its present fields joined by `#`, and the hash of "" when it has none of them |
| HasherProperties.PresentValuesCongruent | golismero_helpers/hashers.py:16-18 | the vulnerability selection depends only on the look-ups of the listed keys |
| HasherProperties.VulnerabilityReadsOnlyItsFields | golismero_helpers/hashers.py:14-20 | the vulnerability string depends only on the `cve`, `id`, `cwe` and `title` fields |
| HasherProperties.VulnerabilityExampleValues | golismero_helpers/hashers.py:16-18 | `{cve: "CVE-1", title: "T"}` selects `["CVE-1", "T"]` |
| HasherProperties.VulnerabilityExample | golismero_helpers/hashers.py:14-20 | `{_type: vulnerability, cve: "CVE-1", title: "T"}` hashes to the hash of `"CVE-1#T"` |
| HasherProperties.FallbackRecordHash | golismero_helpers/hashers.py:43-49 | whenever the typed path raises KeyError, the record hashes to the hash of its non-`_` values joined by `#` |
| HasherProperties.MissingFieldFallsBack | golismero_helpers/hashers.py:41-49 | an `ip`/`domain` record missing its field does not fail; it gets the fallback hash |
| HasherProperties.FallbackExample | golismero_helpers/hashers.py:47-48 | `{_type: "x", a: "1", _note: "n", b: "2"}` hashes to the hash of `"1#2"` |
| HasherProperties.EmptyFallback | golismero_helpers/hashers.py:47-49 | a falling-back record with no non-`_` field still hashes, to the hash of "" |
| HasherProperties.FallbackIgnoresAddedMetadata | golismero_helpers/hashers.py:47-48 | adding a `_` field (`_type` included) anywhere does not change the fallback string |
| HasherProperties.FallbackIgnoresRemovedMetadata | golismero_helpers/hashers.py:47-48 | removing a `_` field does not change the fallback string |
| HasherProperties.FallbackIgnoresEditedMetadata | golismero_helpers/hashers.py:47-48 | editing a `_` field's value, `_type` included, does not change the fallback string |
| HasherProperties.CanonicalCongruent | golismero_helpers/hashers.py:40-49 | a record's canonical string depends only on the look-ups of `_type`, `ip`, `domain` and the vulnerability keys, and on its non-`_` values |
| HasherProperties.RecordHashIgnoresAddedMetadata | golismero_helpers/hashers.py:40-49 | adding any `_` field other than `_type` does not change a record's hash, whatever its type |
| HasherProperties.SingleIsSingletonBatch | golismero_helpers/hashers.py:35-36 | `calculate_hash(r) == calculate_hash([r])` |
| HasherProperties.SingletonFold | golismero_helpers/hashers.py:38-53 | a single record is still folded: the result is the hash of `str` of its record hash |
| HasherProperties.EmptyBatch | golismero_helpers/hashers.py:38-53 | an empty list gives the hash of "" |
| HasherProperties.FoldStringInjective | golismero_helpers/hashers.py:53 | two different `carry` lists never produce the same fold string |
| HasherProperties.BatchOrderMatters | golismero_helpers/hashers.py:40-53 | swapping two records with different hashes changes the string the final hash is taken of |

## Left out

- `golismero_helpers/os_helpers.py` (`launch_command`) is not part of this
  model. It spawns a process, reads its pipe, deletes and reads files, and
  logs. All of that is operating-system I/O.
- The internals of `mmh3.hash128` (MurmurHash3 x64, 128-bit) are left out.
  The hash is an arbitrary function from strings to natural numbers. Its
  128-bit range and its collision behaviour are not assumed. Whether the
  hash is stable across processes is a property of that function, outside
  the model.
- Python runtime type errors are left out: non-string field values in
  `"#".join`, a non-dict record, or a `_type` value that cannot be a dict
  key. Every field value is a string by construction.
- Duplicate keys are left out, because a Python dict cannot hold them. The
  model's functions are total on any field sequence; a look-up takes the
  first match. The lemma that needs dict semantics (`Records.LookupField`)
  requires `UniqueKeys`.
- Which Python values count as "a list" (`type(data) is list`) is the
  caller's choice of `Input.Single` or `Input.Batch`. A tuple of records is
  therefore a `Single` in the source, and fails there with a non-KeyError.
  That failure is not modelled.
- `Hashers.ComputeFingerprint` returns `carry` as well as the result. In the
  source, `carry` is a local variable; it is returned here so the contract
  can describe it.
- Purity and determinism are not stated as separate lemmas. Dafny functions
  are pure, so equal inputs always give equal results. The source's code
  reads records and never mutates them.
