/** What redacted output shows: every replaced stretch, and nothing but the mark behind the name of a secret. */
module Secrets {
  import opened Wrappers
  import opened Characters
  import opened Redaction

  // --- The password ----------------------------------------------------------------------------------

  /** The parts with the separator between them. */
  function Joined(parts: seq<Text>, separator: Text): (text: Text)
    requires parts != []
  {
    if |parts| == 1 then parts[0] else parts[0] + separator + Joined(parts[1..], separator)
  }

  /** The parts into which the occurrences of `p`, taken from the left, split a text. */
  ghost predicate IsSplit(parts: seq<Text>, p: Text) {
    && parts != [] && !Occurs(p, parts[|parts| - 1])
    && forall k, j: nat :: 0 <= k < |parts| - 1 && j < |parts[k]| ==> !OccursAt(p, parts[k] + p, j)
  }

  lemma OneMorePart(part: Text, parts: seq<Text>, p: Text)
    requires IsSplit(parts, p) && forall j: nat :: j < |part| ==> !OccursAt(p, part + p, j)
    ensures IsSplit([part] + parts, p)
    ensures forall t: Text :: Joined([part] + parts, t) == part + t + Joined(parts, t)
  {
    hide Occurs, OccursAt;
    var all := [part] + parts;
    assert all[1..] == parts;
    forall k, j: nat | 0 <= k < |all| - 1 && j < |all[k]| ensures !OccursAt(p, all[k] + p, j) {
      assert k > 0 ==> all[k] == parts[k - 1];
    }
  }

  lemma ReplaceFirst(s: Text, p: Text, i: nat)
    requires p != [] && Find(s, p) == Some(i)
    ensures OccursAt(p, s, i) && i + |p| <= |s| && forall j: nat :: j < i ==> !OccursAt(p, s, j)
    ensures Replace(s, p) == s[..i] + Points("[REDACTED]") + Replace(s[i + |p|..], p)
    ensures s == s[..i] + p + s[i + |p|..]
  {
    hide Points, Find, Occurs, OccursAt, Interleaved;
    OccurrenceIs(p, s, i);
    assert s == s[..i] + s[i..i + |p|] + s[i + |p|..];
  }

  /** A replaced text is the original with the mark in place of every occurrence of the password. */
  lemma {:induction false} ReplaceMarksOccurrences(s: Text, p: Text) returns (parts: seq<Text>)
    requires p != []
    ensures IsSplit(parts, p) && s == Joined(parts, p) && Replace(s, p) == Joined(parts, Points("[REDACTED]"))
    decreases |s|
  {
    hide Occurs, OccursAt, Points, Find, IsSplit;
    if Find(s, p) == None {
      parts := [s];
      assert IsSplit(parts, p) by { NoParts(s, p); }
    } else {
      var i := Find(s, p).value;
      ReplaceFirst(s, p, i);
      var rest := ReplaceMarksOccurrences(s[i + |p|..], p);
      forall j: nat | j < |s[..i]| ensures !OccursAt(p, s[..i] + p, j) {
        FirstAt(s, p, i, j);
      }
      OneMorePart(s[..i], rest, p);
      parts := [s[..i]] + rest;
    }
  }

  lemma NoParts(s: Text, p: Text)
    requires Find(s, p) == None
    ensures IsSplit([s], p)
  {
  }

  lemma FirstAt(s: Text, p: Text, i: nat, j: nat)
    requires OccursAt(p, s, i) && j < i
    ensures OccursAt(p, s[..i] + p, j) ==> OccursAt(p, s, j)
  {
    assert s[..i] + p == s[..i + |p|];
    assert s[..i + |p|][j..j + |p|] == s[j..j + |p|];
  }

  /** An empty password is found before every character and at the end. */
  lemma {:induction false} EmptyPasswordIsEverywhere(s: Text, k: nat)
    requires k <= |s|
    ensures var r := Replace(s, []);
            && |r| == 11 * |s| + 10 && r[11 * k..11 * k + 10] == Points("[REDACTED]")
            && (k < |s| ==> r[11 * k + 10] == s[k])
  {
    if s == [] {
      assert Replace(s, []) == Mark();
    } else {
      var r, rest := Replace(s, []), Replace(s[1..], []);
      assert r == Mark() + [s[0]] + rest;
      EmptyPasswordIsEverywhere(s[1..], if k == 0 then 0 else k - 1);
      if k > 0 {
        assert r[11 * k..11 * k + 10] == rest[11 * (k - 1)..11 * (k - 1) + 10];
      }
    }
  }

  // --- Named secrets ---------------------------------------------------------------------------------

  /** The value that begins here is the mark, and ends with it. */
  predicate MarkAt(t: Text, v: nat) {
    v + 10 <= |t| && t[v..v + 10] == Mark() && (v + 10 < |t| ==> !IsValue(t[v + 10]))
  }

  lemma NoSecretBefore(t: Text, j: nat, keyword: string)
    requires IsKeyword(keyword) && ValueStart(t, j) == 0
    ensures !SecretBy(t, j, keyword)
  {
  }

  lemma StartsBy(t: Text, i: nat) returns (keyword: string)
    requires ValueStart(t, i) > 0
    ensures IsKeyword(keyword) && SecretBy(t, i, keyword) && ValueStart(t, i) == i + |keyword| + 1
  {
    keyword := if SecretBy(t, i, "password") then "password" else if SecretBy(t, i, "token") then "token" else "secret";
  }

  /** Neither an equals sign nor a bracket is part of a keyword. */
  lemma LettersOnly(t: Text, j: nat, keyword: string, k: nat)
    requires IsKeyword(keyword) && KeywordAt(t, j, keyword) && j <= k < j + |keyword|
    ensures t[k] != '=' as int && t[k] != ']' as int && t[k] != '[' as int
  {
    assert Folds(t[j + (k - j)], keyword[k - j]);
  }

  /** No keyword ends another, so none begins inside a name. */
  lemma NoneInsideName(t: Text, i: nat, keyword: string, j: nat, other: string)
    requires IsKeyword(keyword) && IsKeyword(other) && SecretBy(t, i, keyword) && i < j <= i + |keyword|
    ensures !SecretBy(t, j, other)
  {
    if SecretBy(t, j, other) {
      var e, f := i + |keyword|, j + |other|;
      if e < f {
        LettersOnly(t, j, other, e);
      } else if f < e {
        LettersOnly(t, i, keyword, f);
      } else {
        SameEnd(t, i, keyword, j, other);
      }
      assert false;
    }
  }

  lemma SameEnd(t: Text, i: nat, keyword: string, j: nat, other: string)
    requires IsKeyword(keyword) && IsKeyword(other) && i < j && i + |keyword| == j + |other|
    requires KeywordAt(t, i, keyword)
    ensures !KeywordAt(t, j, other)
  {
    var d := j - i;
    assert d + 1 < |keyword| && (keyword[d] != other[0] || keyword[d + 1] != other[1]);
    forall k | 0 <= k < 2 ensures KeywordAt(t, j, other) ==> keyword[d + k] == other[k] {
      SameLetter(t, i, keyword, j, other, k);
    }
  }

  lemma SameLetter(t: Text, i: nat, keyword: string, j: nat, other: string, k: nat)
    requires IsKeyword(keyword) && IsKeyword(other) && KeywordAt(t, i, keyword) && k < |other|
    requires i <= j && j + k < i + |keyword|
    ensures KeywordAt(t, j, other) ==> keyword[j - i + k] == other[k]
  {
    assert Folds(t[i + (j - i + k)], keyword[j - i + k]);
    assert KeywordAt(t, j, other) ==> Folds(t[j + k], other[k]);
  }

  /** No secret begins inside a mark. */
  lemma NoneInsideMark(t: Text, v: nat, j: nat, keyword: string)
    requires IsKeyword(keyword) && v + 10 <= |t| && t[v..v + 10] == Mark() && v <= j < v + 10
    ensures !SecretBy(t, j, keyword)
  {
    assert forall k :: v <= k < v + 10 ==> t[k] == t[v..v + 10][k - v];
    if SecretBy(t, j, keyword) {
      if v + 9 < j + |keyword| {
        LettersOnly(t, j, keyword, v + 9);
      }
      assert false;
    }
  }

  lemma BehindMark(t: Text, v: nat, rest: Text, j: nat, keyword: string)
    requires IsKeyword(keyword) && v + 10 <= |t| && t[v + 10..] == rest && v + 10 <= j && SecretBy(t, j, keyword)
    ensures SecretBy(rest, j - v - 10, keyword)
    ensures MarkAt(rest, j + |keyword| + 1 - v - 10) ==> MarkAt(t, j + |keyword| + 1)
  {
    hide Folds, IsValue, Mark;
    var d, w := v + 10, j + |keyword| + 1;
    assert forall k :: 0 <= k < |rest| ==> rest[k] == t[d + k];
    forall k | 0 <= k < |keyword| ensures Folds(rest[j - d + k], keyword[k]) {
      assert Folds(t[j + k], keyword[k]);
    }
    if MarkAt(rest, w - d) {
      assert t[w..w + 10] == rest[w - d..w - d + 10];
    }
  }

  /** Wherever masked text names a secret, its value is the mark. */
  lemma {:induction false} OnlyMarksFollow(s: Text, j: nat, keyword: string)
    requires IsKeyword(keyword) && SecretBy(Mask(s), j, keyword)
    ensures MarkAt(Mask(s), j + |keyword| + 1)
    decreases |s|
  {
    hide SecretBy, ValueStart, IsValue, Mark, FindSecret, ValueEnd, IsKeyword;
    match FindSecret(s, 0)
    case None =>
      BeginsInside(s, j, keyword);
      NoSecretBefore(s, j, keyword);
      assert false;
    case Some(i) =>
      var v := ValueStart(s, i);
      var after := s[ValueEnd(s, v)..];
      var rest := Mask(after);
      var t := s[..v] + Mark() + rest;
      MaskTwice(after);
      MaskedIsFound(s, i, rest);
      assert t[v..v + 10] == Mark() && t[v + 10..] == rest;
      var name := StartsBy(t, i);
      if j < i {
        NoSecretBefore(t, j, keyword);
        assert false;
      } else if j == i {
        SameName(t, i, name, keyword);
      } else if j < v {
        NoneInsideName(t, i, name, j, keyword);
        assert false;
      } else if j < v + 10 {
        NoneInsideMark(t, v, j, keyword);
        assert false;
      } else {
        BehindMark(t, v, rest, j, keyword);
        OnlyMarksFollow(after, j - v - 10, keyword);
      }
  }

  lemma BeginsInside(s: Text, j: nat, keyword: string)
    requires IsKeyword(keyword) && SecretBy(s, j, keyword)
    ensures j < |s|
  {
  }

  lemma SameName(t: Text, i: nat, a: string, b: string)
    requires IsKeyword(a) && IsKeyword(b) && SecretBy(t, i, a) && SecretBy(t, i, b)
    ensures a == b
  {
    OneKeyword(t, i, a, b);
  }

  /** The letters of a name, each in lower or upper case. */
  predicate Spells(t: Text, i: nat, name: string) {
    i + |name| <= |t| && forall k :: 0 <= k < |name| ==> t[i + k] == name[k] as int || t[i + k] == name[k] as int - 32
  }

  /** Neither white space nor an ampersand, which end a value. */
  predicate IsShown(c: CodePoint) {
    !IsSpace(c) && c != '&' as int
  }

  /**
    Whatever the input and the password, wherever the output holds the name of a secret in any case, an
    equals sign and a value, that value is the mark and nothing else.
   */
  lemma NoSecretIsShown(s: Text, password: Text, i: nat, name: string)
    requires name == "password" || name == "token" || name == "secret"
    requires var r := Redact(s, password); var e := i + |name|;
             Spells(r, i, name) && e + 1 < |r| && r[e] == '=' as int && IsShown(r[e + 1])
    ensures var r := Redact(s, password); var v := i + |name| + 1;
            && v + 10 <= |r| && r[v..v + 10] == Points("[REDACTED]")
            && (v + 10 < |r| ==> !IsShown(r[v + 10]))
  {
    hide Mask, Replace;
    var r := Redact(s, password);
    forall k | 0 <= k < |name| ensures Folds(r[i + k], name[k]) {
    }
    OnlyMarksFollow(Replace(s, password), i, name);
  }

  // --- All that masking changes ----------------------------------------------------------------------

  /** The texts with the values between them. */
  function Woven(texts: seq<Text>, values: seq<Text>): (woven: Text)
    requires |texts| == |values| + 1
  {
    if values == [] then texts[0] else texts[0] + values[0] + Woven(texts[1..], values[1..])
  }

  /** The text ends with the name of a secret and an equals sign. */
  ghost predicate EndsWithName(text: Text) {
    exists keyword ::
      IsKeyword(keyword) && |text| > |keyword| && KeywordAt(text, |text| - |keyword| - 1, keyword)
      && text[|text| - 1] == '=' as int
  }

  /** A value behind a name, as long as it goes. */
  ghost predicate IsValueAt(texts: seq<Text>, values: seq<Text>, k: nat)
    requires |texts| == |values| + 1 && k < |values|
  {
    && EndsWithName(texts[k]) && values[k] != [] && (forall c :: c in values[k] ==> IsShown(c))
    && (texts[k + 1] != [] ==> !IsShown(texts[k + 1][0]))
  }

  ghost predicate AreValues(texts: seq<Text>, values: seq<Text>) {
    |texts| == |values| + 1 && forall k :: 0 <= k < |values| ==> IsValueAt(texts, values, k)
  }

  function Marks(n: nat): (marks: seq<Text>)
    ensures |marks| == n && forall k :: 0 <= k < n ==> marks[k] == Points("[REDACTED]")
  {
    seq(n, _ => Points("[REDACTED]"))
  }

  lemma OneMoreValue(text: Text, value: Text, texts: seq<Text>, values: seq<Text>)
    requires AreValues(texts, values) && EndsWithName(text) && value != [] && forall c :: c in value ==> IsShown(c)
    requires texts[0] != [] ==> !IsShown(texts[0][0])
    ensures AreValues([text] + texts, [value] + values)
    ensures Woven([text] + texts, [value] + values) == text + value + Woven(texts, values)
    ensures Woven([text] + texts, Marks(|values| + 1)) == text + Points("[REDACTED]") + Woven(texts, Marks(|values|))
  {
    hide EndsWithName, IsShown, Points;
    var allTexts, allValues := [text] + texts, [value] + values;
    forall k | 0 <= k < |allValues| ensures IsValueAt(allTexts, allValues, k) {
      assert k > 0 ==> IsValueAt(texts, values, k - 1);
    }
    assert allTexts[1..] == texts && allValues[1..] == values && Marks(|values| + 1)[1..] == Marks(|values|);
  }

  lemma SecretParts(s: Text, i: nat)
    requires FindSecret(s, 0) == Some(i)
    ensures var v := ValueStart(s, i); var end := ValueEnd(s, v);
            && 0 < v < end <= |s| && EndsWithName(s[..v]) && (forall c :: c in s[v..end] ==> IsShown(c))
            && (end < |s| ==> !IsShown(s[end]))
            && Mask(s) == s[..v] + Points("[REDACTED]") + Mask(s[end..])
  {
    hide EndsWithName, IsSpace, Points, Mask, FindSecret, ValueStart, ValueEnd;
    var v := ValueStart(s, i);
    var end := ValueEnd(s, v);
    NameBefore(s, i);
    MaskUnfolds(s, i);
    ValueIsNotEmpty(s, v);
    forall c | c in s[v..end] ensures IsShown(c) {
      var k :| 0 <= k < end - v && s[v..end][k] == c;
      assert IsValue(s[v + k]);
    }
  }

  lemma ValueIsNotEmpty(s: Text, v: nat)
    requires v < |s| && IsValue(s[v])
    ensures v < ValueEnd(s, v)
  {
  }

  lemma NothingMasked(s: Text)
    requires FindSecret(s, 0) == None
    ensures Mask(s) == s
  {
  }

  lemma MaskUnfolds(s: Text, i: nat)
    requires FindSecret(s, 0) == Some(i)
    ensures var v := ValueStart(s, i); var end := ValueEnd(s, v);
            Mask(s) == s[..v] + Points("[REDACTED]") + Mask(s[end..])
  {
    hide FindSecret, ValueStart, ValueEnd, Points;
  }

  lemma NameBefore(s: Text, i: nat)
    requires ValueStart(s, i) > 0
    ensures EndsWithName(s[..ValueStart(s, i)])
  {
    hide Folds, ValueStart, IsValue;
    var text := s[..ValueStart(s, i)];
    var keyword := StartsBy(s, i);
    forall k | 0 <= k < |keyword| ensures Folds(text[i + k], keyword[k]) {
      assert Folds(s[i + k], keyword[k]);
    }
    assert KeywordAt(text, |text| - |keyword| - 1, keyword);
  }

  /** Masking puts the mark in place of the values behind the names of secrets and leaves all other text alone. */
  lemma {:induction false} MaskReplacesValues(s: Text) returns (texts: seq<Text>, values: seq<Text>)
    ensures |texts| == |values| + 1 && AreValues(texts, values)
    ensures s == Woven(texts, values) && Mask(s) == Woven(texts, Marks(|values|))
    ensures texts[0] != [] ==> s != [] && texts[0][0] == s[0]
    decreases |s|
  {
    hide FindSecret, ValueStart, ValueEnd, AreValues, EndsWithName, IsShown, IsValue, Points, Mark, Mask, Woven;
    match FindSecret(s, 0)
    case None =>
      texts, values := [s], [];
      NothingMasked(s);
      NothingWoven(s);
    case Some(i) =>
      var v := ValueStart(s, i);
      var end := ValueEnd(s, v);
      SecretParts(s, i);
      var laterTexts, laterValues := MaskReplacesValues(s[end..]);
      texts, values := [s[..v]] + laterTexts, [s[v..end]] + laterValues;
      OneMoreValue(s[..v], s[v..end], laterTexts, laterValues);
      assert s == s[..v] + s[v..end] + s[end..];
  }

  lemma NothingWoven(s: Text)
    ensures AreValues([s], []) && Woven([s], []) == s == Woven([s], Marks(0))
  {
  }
}
