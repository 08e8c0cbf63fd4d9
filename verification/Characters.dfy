/** Code points and what is known about some of them. */
module Characters {

  type CodePoint = n: nat | n < 0x11_0000

  type Text = seq<CodePoint>

  function Points(s: string): (text: Text)
    ensures |text| == |s| && forall k :: 0 <= k < |s| ==> text[k] == s[k] as int
  {
    seq(|s|, k requires 0 <= k < |s| => s[k] as int)
  }

  lemma PointsAreDistinct(a: string, b: string)
    requires Points(a) == Points(b)
    ensures a == b
  {
    forall k | 0 <= k < |a| ensures a[k] == b[k] {
      assert Points(a)[k] == Points(b)[k];
    }
  }

  /** White space, as Unicode text is split. */
  predicate IsSpace(c: CodePoint) {
    || 0x09 <= c <= 0x0D || 0x1C <= c <= 0x20 || c == 0x85 || c == 0xA0 || c == 0x1680 || 0x2000 <= c <= 0x200A
    || c == 0x2028 || c == 0x2029 || c == 0x202F || c == 0x205F || c == 0x3000
  }
}
