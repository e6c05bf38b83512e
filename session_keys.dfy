/** The strings the rating page builds to key its session state: the dataset
    signature, the star-widget keys and the slider keys, and the prefixes by which
    stale widget state is cleared. */
module SessionKeys {

  const RatingPrefix: string := "rating_"
  const WeightPrefix: string := "weight_"

  predicate StartsWith(s: string, prefix: string) {
    |prefix| <= |s| && s[..|prefix|] == prefix
  }

  // ---------------------------------------------------------------------------
  // Decimal rendering of counters (Python's `str` of a non-negative int)
  // ---------------------------------------------------------------------------

  predicate IsDigit(c: char) {
    '0' <= c <= '9'
  }

  function DigitChar(d: nat): (c: char)
    requires d < 10
    ensures IsDigit(c)
  {
    "0123456789"[d]
  }

  function DigitValue(c: char): (d: nat)
    requires IsDigit(c)
    ensures d < 10
  {
    (c as int - '0' as int) as nat
  }

  function Decimal(n: nat): (s: string)
    ensures |s| > 0
    ensures forall k :: 0 <= k < |s| ==> IsDigit(s[k])
  {
    if n < 10 then [DigitChar(n)] else Decimal(n / 10) + [DigitChar(n % 10)]
  }

  /** Reads a string of digits back as a number. */
  function ParseDecimal(s: string): nat
    requires forall k :: 0 <= k < |s| ==> IsDigit(s[k])
  {
    if |s| == 0 then 0 else ParseDecimal(s[..|s| - 1]) * 10 + DigitValue(s[|s| - 1])
  }

  /** Reading a rendered counter gives the counter back, so distinct counters render
      differently. */
  lemma {:induction false} DecimalRoundTrip(n: nat)
    ensures ParseDecimal(Decimal(n)) == n
  {
    var s := Decimal(n);
    if n >= 10 {
      DecimalRoundTrip(n / 10);
      assert s[..|s| - 1] == Decimal(n / 10);
    }
  }

  // ---------------------------------------------------------------------------
  // `.replace(" ", "_").lower()`
  // ---------------------------------------------------------------------------

  predicate IsUpper(c: char) {
    'A' <= c <= 'Z'
  }

  /** Lower-casing, for the ASCII letters. */
  function LowerChar(c: char): (l: char)
    ensures !IsUpper(l)
    ensures !IsUpper(c) ==> l == c
  {
    if IsUpper(c) then (c as int + 32) as char else c
  }

  /** Spaces become underscores, then letters are lower-cased. */
  function Normalize(s: string): (r: string)
    ensures |r| == |s|
    ensures forall k :: 0 <= k < |r| ==> r[k] != ' ' && !IsUpper(r[k])
    ensures forall k :: 0 <= k < |s| && s[k] != ' ' && !IsUpper(s[k]) ==> r[k] == s[k]
  {
    seq(|s|, k requires 0 <= k < |s| => LowerChar(if s[k] == ' ' then '_' else s[k]))
  }

  lemma NormalizeConcat(a: string, b: string)
    ensures Normalize(a + b) == Normalize(a) + Normalize(b)
  {
  }

  /** A string with no spaces and no capitals is left as it is. */
  lemma NormalizeKeepsNormal(s: string)
    requires forall k :: 0 <= k < |s| ==> s[k] != ' ' && !IsUpper(s[k])
    ensures Normalize(s) == s
  {
  }

  /** Normalizing twice is normalizing once. */
  lemma NormalizeIdempotent(s: string)
    ensures Normalize(Normalize(s)) == Normalize(s)
  {
    NormalizeKeepsNormal(Normalize(s));
  }

  // ---------------------------------------------------------------------------
  // Widget keys
  // ---------------------------------------------------------------------------

  /** The key of a dimension's star widget. Both counters are part of it, so raising
      either one gives the widget a fresh key and resets it. */
  function RatingKey(ratingsNonce: nat, dimNonce: nat, datasetSig: string, useCase: string,
                     dim: string): (key: string)
    ensures StartsWith(key, RatingPrefix)
    ensures forall k :: 0 <= k < |key| ==> key[k] != ' ' && !IsUpper(key[k])
    ensures key == RatingPrefix + Decimal(ratingsNonce) + "_" + Decimal(dimNonce) + "_" +
                   Normalize(datasetSig + "_" + useCase + "_" + dim)
  {
    var raw := "rating_" + Decimal(ratingsNonce) + "_" + Decimal(dimNonce) + "_" + datasetSig +
               "_" + useCase + "_" + dim;
    var fixedPart := RatingPrefix + Decimal(ratingsNonce) + "_" + Decimal(dimNonce) + "_";
    var rest := datasetSig + "_" + useCase + "_" + dim;
    assert raw == fixedPart + rest;
    NormalizeConcat(fixedPart, rest);
    NormalizeKeepsNormal(fixedPart);
    Normalize(raw)
  }

  /** Cutting at the first underscore: a prefix without underscores is recovered. */
  lemma SplitAtUnderscore(x: string, y: string, x': string, y': string)
    requires forall k :: 0 <= k < |x| ==> x[k] != '_'
    requires forall k :: 0 <= k < |x'| ==> x'[k] != '_'
    requires x + "_" + y == x' + "_" + y'
    ensures x == x' && y == y'
  {
    var s := x + "_" + y;
    assert |x| == |x'| by {
      assert s[|x|] == '_' && s[|x'|] == '_';
    }
    assert x == s[..|x|] == x';
    assert y == s[|x| + 1..] == y';
  }

  lemma DecimalHasNoUnderscore(n: nat)
    ensures forall k :: 0 <= k < |Decimal(n)| ==> Decimal(n)[k] != '_'
  {
  }

  lemma DecimalInjective(a: nat, b: nat)
    requires Decimal(a) == Decimal(b)
    ensures a == b
  {
    DecimalRoundTrip(a);
    DecimalRoundTrip(b);
  }

  /** Equal star-widget keys have equal counters: a raised counter always yields a
      key the widget has not had before. */
  lemma RatingKeyDeterminesNonces(a: nat, b: nat, sig: string, use: string, dim: string,
                                  a': nat, b': nat, sig': string, use': string, dim': string)
    requires RatingKey(a, b, sig, use, dim) == RatingKey(a', b', sig', use', dim')
    ensures a == a' && b == b'
  {
    var n := Normalize(sig + "_" + use + "_" + dim);
    var n' := Normalize(sig' + "_" + use' + "_" + dim');
    KeyTail(a, b, n);
    KeyTail(a', b', n');
    DecimalHasNoUnderscore(a);
    DecimalHasNoUnderscore(a');
    DecimalHasNoUnderscore(b);
    DecimalHasNoUnderscore(b');
    SplitAtUnderscore(Decimal(a), Decimal(b) + "_" + n, Decimal(a'), Decimal(b') + "_" + n');
    SplitAtUnderscore(Decimal(b), n, Decimal(b'), n');
    DecimalInjective(a, a');
    DecimalInjective(b, b');
  }

  lemma KeyTail(a: nat, b: nat, n: string)
    ensures (RatingPrefix + Decimal(a) + "_" + Decimal(b) + "_" + n)[|RatingPrefix|..] ==
            Decimal(a) + "_" + (Decimal(b) + "_" + n)
  {
    var t := Decimal(a) + "_" + (Decimal(b) + "_" + n);
    assert RatingPrefix + Decimal(a) + "_" + Decimal(b) + "_" + n == RatingPrefix + t;
  }

  /** The key of a dimension's weight slider. */
  function WeightKey(datasetSig: string, dim: string): (key: string)
    ensures StartsWith(key, WeightPrefix)
    ensures forall k :: 0 <= k < |key| ==> key[k] != ' ' && !IsUpper(key[k])
  {
    var rest := datasetSig + "_" + dim;
    assert "weight_" + datasetSig + "_" + dim == WeightPrefix + rest;
    NormalizeConcat(WeightPrefix, rest);
    NormalizeKeepsNormal(WeightPrefix);
    Normalize("weight_" + datasetSig + "_" + dim)
  }

  /** The keys cleared when a new dataset is uploaded. */
  predicate IsDependentKey(key: string) {
    StartsWith(key, RatingPrefix) || StartsWith(key, WeightPrefix)
  }

  /** The keys the page keeps under fixed names. */
  const NamedKeys: seq<string> := [
    "ratings_nonce", "scores_confirmed", "calculate_scores", "saved_submit_id", "dim_nonce",
    "dataset_sig", "selected_use_case", "apply_weights", "submit_id", "dataset_uploader"]

  /** No fixed-name key is cleared by prefix: "ratings_nonce" shares "rating" with the
      star-widget keys but not the underscore after it. */
  lemma NamedKeysAreNotDependent()
    ensures forall i :: 0 <= i < |NamedKeys| ==> !IsDependentKey(NamedKeys[i])
  {
    forall i | 0 <= i < |NamedKeys| ensures !IsDependentKey(NamedKeys[i]) {
      var key := NamedKeys[i];
      assert key[..|RatingPrefix|][6] == key[6] && key[..|WeightPrefix|][0] == key[0];
      assert key[..|RatingPrefix|][0] == key[0];
    }
  }

  // ---------------------------------------------------------------------------
  // Dataset signature
  // ---------------------------------------------------------------------------

  /** `name-size-digest`; the digest of the file's bytes is an input. */
  function FileSignature(name: string, size: nat, digest: string): (sig: string)
    ensures StartsWith(sig, name + "-" + Decimal(size) + "-")
    ensures sig[|name + "-" + Decimal(size) + "-"|..] == digest
  {
    name + "-" + Decimal(size) + "-" + digest
  }

  /** Files with the same name and size but different content get different
      signatures, as long as their digests differ. */
  lemma SignatureSeparatesContent(name: string, size: nat, digest: string, digest': string)
    requires digest != digest'
    ensures FileSignature(name, size, digest) != FileSignature(name, size, digest')
  {
    var prefix := name + "-" + Decimal(size) + "-";
    assert FileSignature(name, size, digest)[|prefix|..] == digest;
    assert FileSignature(name, size, digest')[|prefix|..] == digest';
  }
}
