/** Normalisation of a raw request path into the key under which the metrics
    aggregator groups its counters. A path is a sequence of runes, one `char`
    per rune, as `strings.Map` walks it. */
module PathKey {

  /** The runes the mapping keeps unchanged: ASCII letters, ASCII digits and '/'. */
  predicate IsKept(c: char) {
    ('a' <= c <= 'z') || ('A' <= c <= 'Z') || ('0' <= c <= '9') || c == '/'
  }

  /** The rune every other rune is replaced by. */
  const Placeholder: char := '_'

  /** The literal put in front of a key that would otherwise be empty or start
      with the placeholder. */
  const RootPrefix: string := "root"

  /** The runes a normalised key is made of. */
  predicate IsKeyChar(c: char) {
    IsKept(c) || c == Placeholder
  }

  /** A well-formed metrics key: non-empty, made of key runes only, and not
      starting with the placeholder. */
  predicate IsKey(k: string) {
    && |k| > 0
    && k[0] != Placeholder
    && forall i :: 0 <= i < |k| ==> IsKeyChar(k[i])
  }

  /** The per-rune mapping function handed to `strings.Map`. */
  function MapRune(c: char): (r: char) {
    if IsKept(c) then c else Placeholder
  }

  /** `strings.Map(MapRune, p)`: the mapping applied rune by rune, in order. */
  function MapRunes(p: string): (q: string)
    ensures |q| == |p|
    ensures forall i :: 0 <= i < |p| ==> q[i] == MapRune(p[i])
    decreases |p|
  {
    if |p| == 0 then [] else [MapRune(p[0])] + MapRunes(p[1..])
  }

  /** Whether the raw path gets the root prefix: exactly when it is empty or its
      first rune is not kept, i.e. when the mapped string is empty or starts
      with the placeholder. */
  predicate NeedsRoot(p: string) {
    |p| == 0 || !IsKept(p[0])
  }

  /** The key under which a request for raw path `p` is recorded. */
  function Normalize(p: string): (k: string)
    ensures IsKey(k)
    ensures NeedsRoot(p) ==> k == RootPrefix + MapRunes(p)
    ensures !NeedsRoot(p) ==> k == MapRunes(p)
    ensures |k| == |p| || |k| == |p| + |RootPrefix|
  {
    var mapped := MapRunes(p);
    if mapped == [] || mapped[0] == Placeholder then RootPrefix + mapped else mapped
  }

  /** Rune by rune, the key ends with the input in which every kept rune is
      unchanged and every other rune is the placeholder. */
  lemma NormalizeRunewise(p: string)
    ensures var k := Normalize(p);
      forall i :: 0 <= i < |p| ==>
        && (IsKept(p[i]) ==> k[|k| - |p| + i] == p[i])
        && (!IsKept(p[i]) ==> k[|k| - |p| + i] == Placeholder)
  {
    var k := Normalize(p);
    var mapped := MapRunes(p);
    var offset := |k| - |p|;
    assert k[offset..] == mapped by {
      if NeedsRoot(p) {
        assert k == RootPrefix + mapped;
      }
    }
    forall i | 0 <= i < |p|
      ensures k[offset + i] == MapRune(p[i])
    {
      assert mapped[i] == MapRune(p[i]);
      assert k[offset + i] == k[offset..][i];
    }
  }

  /** The root prefix is added exactly when the path is empty or starts with a
      rune that is not kept; this decides the length of the key. */
  lemma RootPrefixExactly(p: string)
    ensures NeedsRoot(p) <==> |Normalize(p)| == |p| + |RootPrefix|
    ensures !NeedsRoot(p) <==> |Normalize(p)| == |p|
  {
  }

  /** Mapping changes nothing in a string made of key runes only. */
  lemma MapRunesFixesKeyRunes(s: string)
    requires forall i :: 0 <= i < |s| ==> IsKeyChar(s[i])
    ensures MapRunes(s) == s
    decreases |s|
  {
  }

  /** The fixed points of normalisation are exactly the well-formed keys. */
  lemma NormalizeFixedPoints(k: string)
    ensures Normalize(k) == k <==> IsKey(k)
  {
  }

  /** Normalising a key a second time changes nothing. */
  lemma NormalizeIdempotent(p: string)
    ensures Normalize(Normalize(p)) == Normalize(p)
  {
  }

  /** A plain path is its own key. */
  lemma NormalizePlainPath()
    ensures Normalize("/a/b") == "/a/b"
  {
  }

  /** Query punctuation becomes the placeholder. */
  lemma NormalizeQueryPath()
    ensures Normalize("/a?b=1") == "/a_b_1"
  {
  }

  /** The empty path and a placeholder-led path get the root prefix. */
  lemma NormalizeRootExamples()
    ensures Normalize("") == "root"
    ensures Normalize("_x") == "root_x"
  {
  }
}
