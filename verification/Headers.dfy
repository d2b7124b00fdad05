/** Configured response headers: what validation accepts and how the service
    defaults and a response's own headers merge
    (internal/config/validate.go, internal/engine/router.go). */
module Headers {
  import opened Wrappers
  import opened Bytes
  import opened Sorting

  type HeaderMap = map<Bytes, Bytes>

  const MAX_CONFIGURED_HEADERS: nat := 128
  const MAX_NAME_BYTES: nat := 256
  const MAX_VALUE_BYTES: nat := 8192

  const CONTENT_LENGTH: Bytes := Text("Content-Length")
  const TRANSFER_ENCODING: Bytes := Text("Transfer-Encoding")
  const CONNECTION: Bytes := Text("Connection")

  // ---------- names ----------

  function LowerByte(c: byte): byte {
    if 65 <= c <= 90 then c + 32 else c
  }

  function ToLower(s: Bytes): (r: Bytes)
    ensures |r| == |s|
  {
    if s == [] then [] else [LowerByte(s[0])] + ToLower(s[1..])
  }

  predicate EqualFold(a: Bytes, b: Bytes) {
    ToLower(a) == ToLower(b)
  }

  /** The separators of isHTTPToken: ( ) < > @ , ; : \ " / [ ] ? = { } space tab. */
  predicate Separator(c: byte) {
    c in [40, 41, 60, 62, 64, 44, 59, 58, 92, 34, 47, 91, 93, 63, 61, 123, 125, 32, 9]
  }

  /** Neither control, separator nor above ASCII. These are also the bytes the
      header canonicalizer of the standard library accepts. */
  predicate TokenByte(c: byte) {
    32 <= c < 127 && !Separator(c)
  }

  predicate IsToken(s: Bytes) {
    s != [] && AllTokenBytes(s)
  }

  function CanonicalFrom(s: Bytes, upper: bool): (r: Bytes)
    ensures |r| == |s|
  {
    if s == [] then []
    else
      var c := if upper && 97 <= s[0] <= 122 then s[0] - 32
               else if !upper && 65 <= s[0] <= 90 then s[0] + 32
               else s[0];
      [c] + CanonicalFrom(s[1..], s[0] == 45)
  }

  /** http.CanonicalHeaderKey: unchanged unless every byte is a token byte. */
  function Canonical(s: Bytes): (r: Bytes)
    ensures |r| == |s|
  {
    if AllTokenBytes(s) then CanonicalFrom(s, true) else s
  }

  lemma {:induction false} CanonicalFromFolds(s: Bytes, upper: bool)
    ensures ToLower(CanonicalFrom(s, upper)) == ToLower(s)
  {
    if s != [] {
      CanonicalFromFolds(s[1..], s[0] == 45);
      assert CanonicalFrom(s, upper)[1..] == CanonicalFrom(s[1..], s[0] == 45);
    }
  }

  predicate AllTokenBytes(s: Bytes) {
    s == [] || (TokenByte(s[0]) && AllTokenBytes(s[1..]))
  }

  lemma {:induction false} CanonicalFromIsToken(s: Bytes, upper: bool)
    ensures AllTokenBytes(s) ==> AllTokenBytes(CanonicalFrom(s, upper))
  {
    if s != [] {
      CanonicalFromIsToken(s[1..], s[0] == 45);
      assert CanonicalFrom(s, upper)[1..] == CanonicalFrom(s[1..], s[0] == 45);
    }
  }

  lemma {:induction false} CanonicalFromAt(s: Bytes, upper: bool, i: nat)
    requires i < |s|
    ensures CanonicalFrom(s, upper)[i]
            == var first := if i == 0 then upper else s[i - 1] == 45;
               if first && 97 <= s[i] <= 122 then s[i] - 32 else if !first && 65 <= s[i] <= 90 then s[i] + 32 else s[i]
  {
    if i > 0 {
      CanonicalFromAt(s[1..], s[0] == 45, i - 1);
    }
  }

  /** The canonical form of a token begins every word between dashes with a
      capital letter, and has no other; anything else is left as it is. */
  lemma CanonicalShape(s: Bytes)
    ensures !AllTokenBytes(s) ==> Canonical(s) == s
    ensures AllTokenBytes(s) ==>
              forall i | 0 <= i < |s| ::
                if i == 0 || s[i - 1] == 45 then !(97 <= Canonical(s)[i] <= 122) else !(65 <= Canonical(s)[i] <= 90)
  {
    forall i | 0 <= i < |s|
      ensures CanonicalFrom(s, true)[i]
              == var first := i == 0 || s[i - 1] == 45;
                 if first && 97 <= s[i] <= 122 then s[i] - 32 else if !first && 65 <= s[i] <= 90 then s[i] + 32 else s[i]
    {
      CanonicalFromAt(s, true, i);
    }
  }

  lemma {:induction false} CanonicalFromByFold(a: Bytes, b: Bytes, upper: bool)
    requires ToLower(a) == ToLower(b)
    ensures CanonicalFrom(a, upper) == CanonicalFrom(b, upper)
  {
    assert |a| == |ToLower(a)| == |b|;
    if a != [] {
      assert ToLower(a)[0] == ToLower(b)[0];
      assert ToLower(a)[1..] == ToLower(a[1..]) && ToLower(b)[1..] == ToLower(b[1..]);
      assert (a[0] == 45) == (b[0] == 45);
      CanonicalFromByFold(a[1..], b[1..], a[0] == 45);
    }
  }

  /** On tokens, canonical names coincide exactly when the names are equal
      ignoring case; canonicalizing twice changes nothing. */
  lemma CanonicalOfTokens(a: Bytes, b: Bytes)
    requires IsToken(a) && IsToken(b)
    ensures Canonical(a) == Canonical(b) <==> ToLower(a) == ToLower(b)
    ensures Canonical(Canonical(a)) == Canonical(a) && ToLower(Canonical(a)) == ToLower(a) && IsToken(Canonical(a))
  {
    hide CanonicalFrom, ToLower;
    CanonicalFromFolds(a, true);
    CanonicalFromFolds(b, true);
    CanonicalFromIsToken(a, true);
    if ToLower(a) == ToLower(b) {
      CanonicalFromByFold(a, b, true);
    }
    CanonicalFromByFold(a, CanonicalFrom(a, true), true);
  }

  // ---------- validation ----------

  predicate Prohibited(name: Bytes) {
    ToLower(name) in [Text("content-length"), Text("transfer-encoding"), Text("connection"), Text("upgrade"), Text("trailer")]
  }

  predicate NameAllowed(name: Bytes) {
    |name| <= MAX_NAME_BYTES && IsToken(name) && !Prohibited(name)
  }

  predicate ValueAllowed(value: Bytes) {
    |value| <= MAX_VALUE_BYTES && 13 !in value && 10 !in value
  }

  ghost predicate NoFoldedDuplicates(headers: HeaderMap) {
    forall a, b | a in headers && b in headers && EqualFold(a, b) :: a == b
  }

  ghost predicate ValidHeaders(headers: HeaderMap) {
    && |headers| <= MAX_CONFIGURED_HEADERS
    && NoFoldedDuplicates(headers)
    && forall k | k in headers :: NameAllowed(k) && ValueAllowed(headers[k])
  }

  /** Accepts exactly the valid maps, whatever order the map is visited in. */
  method ValidateHeaders(headers: HeaderMap) returns (ok: bool)
    ensures ok <==> ValidHeaders(headers)
  {
    if |headers| > MAX_CONFIGURED_HEADERS {
      return false;
    }
    var seen: set<Bytes> := {};
    var todo := headers.Keys;
    while todo != {}
      invariant todo <= headers.Keys
      invariant seen == set k | k in headers.Keys - todo :: ToLower(k)
      invariant forall a, b | a in headers.Keys - todo && b in headers.Keys - todo && EqualFold(a, b) :: a == b
      invariant forall k | k in headers.Keys - todo :: NameAllowed(k) && ValueAllowed(headers[k])
      decreases todo
    {
      var key :| key in todo;
      var lower := ToLower(key);
      ghost var done := headers.Keys - todo;
      assert headers.Keys - (todo - {key}) == done + {key};
      if lower in seen {
        assert exists k :: k in headers.Keys - todo && EqualFold(k, key);
        return false;
      }
      seen := seen + {lower};
      if key == [] || |key| > MAX_NAME_BYTES || !IsToken(key) {
        return false;
      }
      if |headers[key]| > MAX_VALUE_BYTES || 13 in headers[key] || 10 in headers[key] {
        return false;
      }
      if Prohibited(key) {
        return false;
      }
      todo := todo - {key};
    }
    return true;
  }

  // ---------- merging ----------

  /** The canonical forms of some names. */
  ghost function Names(ks: set<Bytes>): set<Bytes> {
    set k | k in ks :: Canonical(k)
  }

  ghost predicate Overridden(name: Bytes, overrides: HeaderMap) {
    exists k :: k in overrides && EqualFold(k, name)
  }

  /** Canonical names that frame nothing, and values without line ends. */
  ghost predicate SafeHeaders(headers: HeaderMap) {
    forall k | k in headers :: Canonical(k) == k && IsToken(k) && !Prohibited(k) && ValueAllowed(headers[k])
  }

  /** The case-insensitive union in which the overrides win: one canonical
      entry per name ignoring case, values from the right map. */
  ghost predicate MergedFrom(result: HeaderMap, defaults: HeaderMap, overrides: HeaderMap) {
    && result.Keys == Names(defaults.Keys) + Names(overrides.Keys)
    && NoFoldedDuplicates(result)
    && SafeHeaders(result)
    && (forall k | k in overrides :: Canonical(k) in result && result[Canonical(k)] == overrides[k])
    && (forall k | k in defaults && !Overridden(k, overrides) :: Canonical(k) in result && result[Canonical(k)] == defaults[k])
  }

  /** A map's keys in sorted order. */
  method SortedNames(headers: HeaderMap) returns (keys: seq<Bytes>)
    ensures keys == SortedKeys(headers.Keys)
  {
    var found: seq<Bytes> := [];
    var todo := headers.Keys;
    while todo != {}
      invariant todo <= headers.Keys
      invariant Enumerates(found, headers.Keys - todo)
      decreases todo
    {
      var key :| key in todo;
      found := found + [key];
      todo := todo - {key};
    }
    SortingForgetsOrder(found, headers.Keys);
    keys := SortStrings(found);
  }

  ghost function Elements(ks: seq<Bytes>): set<Bytes> {
    set k | k in ks
  }

  lemma AllElements(keys: seq<Bytes>, s: set<Bytes>)
    requires keys == SortedKeys(s)
    ensures Elements(keys[..|keys|]) == s && Elements(keys[..0]) == {}
  {
    assert keys[..|keys|] == keys;
    assert forall k :: k in keys <==> k in s;
  }

  lemma ElementsGrow(keys: seq<Bytes>, i: nat, s: set<Bytes>)
    requires i < |keys| && keys == SortedKeys(s)
    ensures keys[i] in s && Elements(keys[..i + 1]) == Elements(keys[..i]) + {keys[i]}
  {
    assert keys[i] in keys;
    assert keys[..i + 1] == keys[..i] + [keys[i]];
  }

  method MergeHeaders(defaults: HeaderMap, overrides: HeaderMap) returns (result: HeaderMap)
    ensures ValidHeaders(defaults) && ValidHeaders(overrides) ==> MergedFrom(result, defaults, overrides)
  {
    hide Canonical, ToLower, ValidHeaders, Merging, MergedFrom, Elements, SortedKeys;
    result := map[];
    var canonicalKeys: map<Bytes, Bytes> := map[];
    var keys := SortedNames(defaults);
    var i := 0;
    ghost var valid := ValidHeaders(defaults) && ValidHeaders(overrides);
    AllElements(keys, defaults.Keys);
    if valid {
      StartMerge(defaults, overrides);
    }
    while i < |keys|
      invariant i <= |keys|
      invariant valid ==> Merging(result, canonicalKeys, defaults, overrides, Elements(keys[..i]), {})
    {
      var key := keys[i];
      var canonical := Canonical(key);
      ElementsGrow(keys, i, defaults.Keys);
      if valid {
        AddDefault(result, canonicalKeys, defaults, overrides, Elements(keys[..i]), key);
      }
      result := result[canonical := defaults[key]];
      canonicalKeys := canonicalKeys[ToLower(canonical) := canonical];
      i := i + 1;
    }
    AllElements(keys, defaults.Keys);
    keys := SortedNames(overrides);
    i := 0;
    AllElements(keys, overrides.Keys);
    while i < |keys|
      invariant i <= |keys|
      invariant valid ==> Merging(result, canonicalKeys, defaults, overrides, defaults.Keys, Elements(keys[..i]))
    {
      var key := keys[i];
      var canonical := Canonical(key);
      var lower := ToLower(canonical);
      ElementsGrow(keys, i, overrides.Keys);
      if valid {
        AddOverride(result, canonicalKeys, defaults, overrides, defaults.Keys, Elements(keys[..i]), key);
      }
      if lower in canonicalKeys && canonicalKeys[lower] != canonical {
        result := result - {canonicalKeys[lower]};
      }
      result := result[canonical := overrides[key]];
      canonicalKeys := canonicalKeys[lower := canonical];
      i := i + 1;
    }
    AllElements(keys, overrides.Keys);
    if valid {
      FinishMerge(result, canonicalKeys, defaults, overrides);
    }
  }

  /** State of the merging loops after the defaults `ds` and the overrides `os`. */
  ghost predicate Merging(result: HeaderMap, canonicalKeys: map<Bytes, Bytes>, defaults: HeaderMap, overrides: HeaderMap,
                          ds: set<Bytes>, os: set<Bytes>) {
    && ValidHeaders(defaults) && ValidHeaders(overrides)
    && ds <= defaults.Keys && os <= overrides.Keys
    && result.Keys == Names(ds) + Names(os)
    && (forall l | l in canonicalKeys :: canonicalKeys[l] in result && ToLower(canonicalKeys[l]) == l)
    && (forall k | k in os :: Canonical(k) in result && result[Canonical(k)] == overrides[k])
    && (forall k | k in ds && Canonical(k) !in Names(os) :: Canonical(k) in result && result[Canonical(k)] == defaults[k])
  }

  lemma StartMerge(defaults: HeaderMap, overrides: HeaderMap)
    requires ValidHeaders(defaults) && ValidHeaders(overrides)
    ensures Merging(map[], map[], defaults, overrides, {}, {})
  {
  }

  lemma ValidNames(headers: HeaderMap, a: Bytes, b: Bytes)
    requires ValidHeaders(headers) && a in headers && b in headers
    ensures IsToken(a) && IsToken(b) && !Prohibited(a) && (Canonical(a) == Canonical(b) ==> a == b)
  {
    hide Canonical, ToLower, IsToken, Prohibited;
    CanonicalOfTokens(a, b);
  }

  lemma NamesGrow(ks: set<Bytes>, key: Bytes)
    ensures Names(ks + {key}) == Names(ks) + {Canonical(key)}
  {
    hide Canonical;
  }

  lemma AddDefault(result: HeaderMap, canonicalKeys: map<Bytes, Bytes>, defaults: HeaderMap, overrides: HeaderMap,
                   ds: set<Bytes>, key: Bytes)
    requires key in defaults && Merging(result, canonicalKeys, defaults, overrides, ds, {})
    ensures var canonical := Canonical(key);
            Merging(result[canonical := defaults[key]], canonicalKeys[ToLower(canonical) := canonical],
                    defaults, overrides, ds + {key}, {})
  {
    hide Canonical, ToLower, ValidHeaders, Names;
    NamesGrow(ds, key);
    forall k | k in ds
      ensures Canonical(k) == Canonical(key) ==> k == key
    {
      ValidNames(defaults, k, key);
    }
  }

  lemma SameCanonicalName(result: HeaderMap, canonicalKeys: map<Bytes, Bytes>, defaults: HeaderMap, overrides: HeaderMap,
                          ds: set<Bytes>, os: set<Bytes>, key: Bytes)
    requires key in overrides && Merging(result, canonicalKeys, defaults, overrides, ds, os)
    requires ToLower(Canonical(key)) in canonicalKeys
    ensures canonicalKeys[ToLower(Canonical(key))] == Canonical(key)
  {
    hide Canonical, ToLower, ValidHeaders;
    var c := canonicalKeys[ToLower(Canonical(key))];
    var k :| (k in ds || k in os) && c == Canonical(k);
    ValidNames(overrides, key, key);
    if k in ds { ValidNames(defaults, k, k); } else { ValidNames(overrides, k, k); }
    CanonicalOfTokens(k, key);
    CanonicalOfTokens(key, k);
  }

  lemma AddOverride(result: HeaderMap, canonicalKeys: map<Bytes, Bytes>, defaults: HeaderMap, overrides: HeaderMap,
                    ds: set<Bytes>, os: set<Bytes>, key: Bytes)
    requires key in overrides && Merging(result, canonicalKeys, defaults, overrides, ds, os)
    ensures var canonical := Canonical(key);
            var lower := ToLower(canonical);
            && (lower in canonicalKeys ==> canonicalKeys[lower] == canonical)
            && Merging(result[canonical := overrides[key]], canonicalKeys[lower := canonical],
                       defaults, overrides, ds, os + {key})
  {
    hide Canonical, ToLower, ValidHeaders, Names;
    if ToLower(Canonical(key)) in canonicalKeys {
      SameCanonicalName(result, canonicalKeys, defaults, overrides, ds, os, key);
    }
    NamesGrow(os, key);
    forall k | k in os
      ensures Canonical(k) == Canonical(key) ==> k == key
    {
      ValidNames(overrides, k, key);
    }
  }

  lemma MergedName(headers: HeaderMap, c: Bytes) returns (k: Bytes)
    requires ValidHeaders(headers) && c in Names(headers.Keys)
    ensures k in headers && c == Canonical(k) && IsToken(k) && IsToken(c) && Canonical(c) == c && ToLower(c) == ToLower(k)
    ensures !Prohibited(c)
  {
    hide Canonical, ToLower, IsToken, ValidHeaders;
    k :| k in headers && c == Canonical(k);
    ValidNames(headers, k, k);
    CanonicalOfTokens(k, k);
  }

  lemma FinishMerge(result: HeaderMap, canonicalKeys: map<Bytes, Bytes>, defaults: HeaderMap, overrides: HeaderMap)
    requires Merging(result, canonicalKeys, defaults, overrides, defaults.Keys, overrides.Keys)
    ensures MergedFrom(result, defaults, overrides)
  {
    hide Canonical, ToLower, IsToken, Prohibited, ValidHeaders, Names, ValueAllowed;
    forall c | c in result
      ensures Canonical(c) == c && IsToken(c) && !Prohibited(c) && ValueAllowed(result[c])
    {
      if c in Names(overrides.Keys) {
        var k := MergedName(overrides, c);
        ValidValue(overrides, k);
      } else {
        var k := MergedName(defaults, c);
        ValidValue(defaults, k);
      }
    }
    forall a, b | a in result && b in result && EqualFold(a, b)
      ensures a == b
    {
      CanonicalOfTokens(a, b);
    }
    forall k | k in defaults && !Overridden(k, overrides)
      ensures Canonical(k) !in Names(overrides.Keys)
    {
      if Canonical(k) in Names(overrides.Keys) {
        var o := MergedName(overrides, Canonical(k));
        ValidNames(defaults, k, k);
        CanonicalOfTokens(k, o);
      }
    }
  }

  lemma ValidValue(headers: HeaderMap, k: Bytes)
    requires ValidHeaders(headers) && k in headers
    ensures ValueAllowed(headers[k])
  {
  }
}
