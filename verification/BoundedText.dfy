/** The runner's output artifacts: text cut at a byte limit without splitting a character. */
module BoundedText {
  import opened Characters
  import opened Utf8

  /** The text that is encoded: a surrogate cannot be, and becomes a question mark. */
  function Replaced(value: seq<CodePoint>): (text: seq<CodePoint>)
    ensures IsText(text) && |text| == |value|
    ensures forall k :: 0 <= k < |value| ==> text[k] == if IsScalar(value[k]) then value[k] else '?' as nat
  {
    seq(|value|, k requires 0 <= k < |value| => if IsScalar(value[k]) then value[k] else '?' as nat)
  }

  datatype Artifact = Artifact(byteCount: nat, sha256: string, truncated: bool, text: seq<CodePoint>)

  /** What the receiver of an artifact checks. */
  predicate ContentMatches(artifact: Artifact, digest: seq<Byte> -> string) {
    |Encode(artifact.text)| == artifact.byteCount && digest(Encode(artifact.text)) == artifact.sha256
  }

  /** The longest prefix of a text whose bytes fit. */
  predicate LongestFit(text: seq<CodePoint>, limit: nat, prefix: seq<CodePoint>) {
    && prefix <= text && |Encode(prefix)| <= limit
    && (prefix != text ==> |Encode(text[..|prefix| + 1])| > limit)
  }

  /** Cuts the bytes at the limit, then drops bytes from the end until what is left decodes. */
  method Bound(value: seq<CodePoint>, limit: nat, digest: seq<Byte> -> string) returns (artifact: Artifact)
    ensures LongestFit(Replaced(value), limit, artifact.text)
    ensures ContentMatches(artifact, digest)
    ensures artifact.truncated <==> artifact.text != Replaced(value)
    ensures artifact.truncated ==> limit - 3 <= artifact.byteCount <= limit
  {
    hide Encode, Decode, LongestFit, Replaced;
    NothingDecodes();
    var encoded := Encode(Replaced(value));
    var truncated := |encoded| > limit;
    var bounded := if truncated then encoded[..limit] else encoded;
    ghost var start := |bounded|;
    var rendered := Decode(bounded);
    while bounded != [] && rendered.None?
      invariant |bounded| <= start && bounded == encoded[..|bounded|] && rendered == Decode(bounded)
      invariant forall m :: |bounded| < m <= start ==> Decode(encoded[..m]).None?
    {
      bounded := bounded[..|bounded| - 1];
      rendered := Decode(bounded);
    }
    artifact := Artifact(|bounded|, digest(bounded), truncated, rendered.value);
    CutIsLongestFit(Replaced(value), limit, |bounded|, start);
    EncodeDecode(bounded);
  }

  lemma NothingDecodes()
    ensures Decode([]).Some?
  {
  }

  /** Where decoding from the limit backwards first succeeds, the longest fitting prefix ends. */
  lemma CutIsLongestFit(text: seq<CodePoint>, limit: nat, n: nat, start: nat)
    requires IsText(text) && n <= start && start == if |Encode(text)| > limit then limit else |Encode(text)|
    requires Decode(Encode(text)[..n]).Some?
    requires forall m :: n < m <= start ==> Decode(Encode(text)[..m]).None?
    ensures LongestFit(text, limit, Decode(Encode(text)[..n]).value)
    ensures |Encode(text)| > limit <==> Decode(Encode(text)[..n]).value != text
    ensures |Encode(text)| > limit ==> limit - 3 <= n
  {
    hide Encode, Decode, IsText;
    var prefix := Decode(Encode(text)[..n]).value;
    EncodeDecode(Encode(text)[..n]);
    PrefixOfBytes(prefix, text);
    if prefix != text {
      var k := |prefix|;
      assert prefix == text[..k];
      PrefixBytes(text, k);
      PrefixDecodes(text, k + 1);
    }
  }

  /** The bytes of a prefix of a text are a prefix of its bytes, and decode. */
  lemma PrefixDecodes(text: seq<CodePoint>, k: nat)
    requires IsText(text) && k <= |text|
    ensures |Encode(text[..k])| <= |Encode(text)|
    ensures Encode(text)[..|Encode(text[..k])|] == Encode(text[..k]) && Decode(Encode(text[..k])).Some?
  {
    hide Encode, Decode;
    assert text == text[..k] + text[k..];
    EncodeAppend(text[..k], text[k..]);
    DecodeEncode(text[..k]);
  }

  /** There is only one longest fitting prefix. */
  lemma LongestFitIsUnique(text: seq<CodePoint>, limit: nat, a: seq<CodePoint>, b: seq<CodePoint>)
    requires LongestFit(text, limit, a) && LongestFit(text, limit, b)
    ensures a == b
  {
    if |a| < |b| {
      LongerIsMore(text, |a| + 1, |b|);
    }
    if |b| < |a| {
      LongerIsMore(text, |b| + 1, |a|);
    }
    assert a == text[..|a|] && b == text[..|b|];
  }

  lemma LongerIsMore(text: seq<CodePoint>, i: nat, j: nat)
    requires i <= j <= |text|
    ensures |Encode(text[..i])| <= |Encode(text[..j])|
  {
    assert text[..j] == text[..i] + text[i..j];
    EncodeAppend(text[..i], text[i..j]);
  }
}
