/** Redaction of a password and of named secrets from runner output. */
module Redaction {
  import opened Wrappers
  import opened Characters
  import opened Utf8

  /** What stands for a redacted value. */
  function Mark(): (mark: Text)
    ensures |mark| == 10 && mark[0] == '[' as int && mark[9] == ']' as int
    ensures forall k :: 0 <= k < 10 ==> IsScalar(mark[k]) && IsValue(mark[k]) && mark[k] != '=' as int && mark[k] < 0x80
  {
    Points("[REDACTED]")
  }

  // --- Replacing the password --------------------------------------------------------------------------

  ghost predicate OccursAt(p: Text, s: Text, i: nat) {
    i + |p| <= |s| && s[i..i + |p|] == p
  }

  ghost predicate Occurs(p: Text, s: Text) {
    exists i: nat :: OccursAt(p, s, i)
  }

  function Find(s: Text, p: Text): (at: Option<nat>)
    ensures at.Some? ==> OccursAt(p, s, at.value) && forall j :: 0 <= j < at.value ==> !OccursAt(p, s, j)
    ensures at.None? ==> !Occurs(p, s)
  {
    if |s| < |p| then None
    else if s[..|p|] == p then
      assert s[0..|p|] == s[..|p|];
      Some(0)
    else
      assert forall j :: 0 < j && OccursAt(p, s, j) ==> OccursAt(p, s[1..], j - 1) by {
        forall j | 0 < j && OccursAt(p, s, j) ensures OccursAt(p, s[1..], j - 1) {
          assert s[1..][j - 1..j - 1 + |p|] == s[j..j + |p|];
        }
      }
      match Find(s[1..], p)
      case None => None
      case Some(j) =>
        assert s[1..][j..j + |p|] == s[j + 1..j + 1 + |p|];
        Some(j + 1)
  }

  /** An empty password is found before every character and at the end. */
  function Interleaved(s: Text): (r: Text) {
    if s == [] then Mark() else Mark() + [s[0]] + Interleaved(s[1..])
  }

  /** Occurrences from the left, not overlapping. */
  function Replace(s: Text, p: Text): (r: Text)
    decreases |s|
  {
    if p == [] then Interleaved(s)
    else
      match Find(s, p)
      case None => s
      case Some(i) => s[..i] + Mark() + Replace(s[i + |p|..], p)
  }

  // --- Masking named secrets ---------------------------------------------------------------------------

  predicate IsValue(c: CodePoint) {
    !IsSpace(c) && c != '&' as int
  }

  /** Equal up to case; the long s and the Kelvin sign fold to s and k. */
  predicate Folds(c: CodePoint, letter: char)
    requires 'a' <= letter <= 'z'
  {
    c == letter as int || c == letter as int - 32 || (letter == 's' && c == 0x17F) || (letter == 'k' && c == 0x212A)
  }

  predicate IsKeyword(keyword: string) {
    keyword == "password" || keyword == "token" || keyword == "secret"
  }

  predicate KeywordAt(s: Text, i: nat, keyword: string)
    requires IsKeyword(keyword)
  {
    i + |keyword| <= |s| && forall k :: 0 <= k < |keyword| ==> Folds(s[i + k], keyword[k])
  }

  /** A keyword, an equals sign and a value of at least one character. */
  predicate SecretBy(s: Text, i: nat, keyword: string)
    requires IsKeyword(keyword)
  {
    var e := i + |keyword|;
    KeywordAt(s, i, keyword) && e + 1 < |s| && s[e] == '=' as int && IsValue(s[e + 1])
  }

  /** Where the value of a secret that begins here starts, or 0. */
  function ValueStart(s: Text, i: nat): (v: nat)
    ensures v == 0 || (i + 6 <= v < |s| && IsValue(s[v]))
  {
    if SecretBy(s, i, "password") then i + 9
    else if SecretBy(s, i, "token") then i + 6
    else if SecretBy(s, i, "secret") then i + 7
    else 0
  }

  function FindSecret(s: Text, from: nat): (at: Option<nat>)
    ensures at.Some? ==> from <= at.value && ValueStart(s, at.value) > 0
    ensures at.Some? ==> forall j :: from <= j < at.value ==> ValueStart(s, j) == 0
    ensures at.None? ==> forall j :: from <= j < |s| ==> ValueStart(s, j) == 0
    decreases |s| - from
  {
    if from >= |s| then None else if ValueStart(s, from) > 0 then Some(from) else FindSecret(s, from + 1)
  }

  function ValueEnd(s: Text, v: nat): (end: nat)
    requires v <= |s|
    ensures v <= end <= |s| && (forall k :: v <= k < end ==> IsValue(s[k])) && (end < |s| ==> !IsValue(s[end]))
    decreases |s| - v
  {
    if v < |s| && IsValue(s[v]) then ValueEnd(s, v + 1) else v
  }

  /** Every secret's value gives way to the mark; its name stays as it was written. */
  function Mask(s: Text): (r: Text)
    decreases |s|
  {
    match FindSecret(s, 0)
    case None => s
    case Some(i) =>
      var v := ValueStart(s, i);
      s[..v] + Mark() + Mask(s[ValueEnd(s, v)..])
  }

  function Redact(s: Text, password: Text): (r: Text) {
    Mask(Replace(s, password))
  }

  // --- No password is left -----------------------------------------------------------------------------

  predicate BracketFree(p: Text) {
    '[' as int !in p && ']' as int !in p
  }

  /** The mark without its brackets. */
  function Inside(): (text: Text) {
    Points("REDACTED")
  }

  lemma MarkParts()
    ensures Mark()[1..9] == Inside()
  {
  }

  /** A mark separates: nothing without brackets occurs across it. */
  lemma MarkSeparates(p: Text, a: Text, b: Text)
    requires p != [] && BracketFree(p) && !Occurs(p, a) && !Occurs(p, Inside()) && !Occurs(p, b)
    ensures !Occurs(p, a + Mark() + b)
  {
    var s := a + Mark() + b;
    forall i: nat ensures !OccursAt(p, s, i) {
      if i + |p| <= |s| {
        if i + |p| <= |a| {
          assert a[i..i + |p|] == s[i..i + |p|] && !OccursAt(p, a, i);
        } else if i >= |a| + 10 {
          var j := i - |a| - 10;
          assert b[j..j + |p|] == s[i..i + |p|] && !OccursAt(p, b, j);
        } else if i > |a| && i + |p| <= |a| + 9 {
          var j := i - |a| - 1;
          assert Inside()[j..j + |p|] == s[i..i + |p|] by { MarkParts(); }
          assert !OccursAt(p, Inside(), j);
        } else {
          CoversBracket(p, s, i, if i <= |a| then |a| else |a| + 9);
        }
      }
    }
  }

  lemma CoversBracket(p: Text, s: Text, i: nat, k: nat)
    requires BracketFree(p) && i <= k < i + |p| <= |s| && (s[k] == '[' as int || s[k] == ']' as int)
    ensures !OccursAt(p, s, i)
  {
    assert s[i..i + |p|][k - i] == s[k];
    assert p[k - i] in p;
  }

  lemma SliceOfSlice(s: Text, i: nat, j: nat, k: nat, n: nat)
    requires i <= j <= |s| && k + n <= j - i
    ensures s[i..j][k..k + n] == s[i + k..i + k + n]
  {
    var outer, a, b := s[i..j], s[i..j][k..k + n], s[i + k..i + k + n];
    forall t | 0 <= t < n ensures a[t] == b[t] {
      assert a[t] == outer[k + t] && outer[k + t] == s[i + k + t];
    }
  }

  lemma PartHasNone(p: Text, s: Text, i: nat, j: nat)
    requires !Occurs(p, s) && i <= j <= |s|
    ensures !Occurs(p, s[i..j])
  {
    forall k: nat ensures !OccursAt(p, s[i..j], k) {
      if k + |p| <= j - i {
        SliceOfSlice(s, i, j, k, |p|);
        assert !OccursAt(p, s, i + k);
      }
    }
  }

  lemma OccurrenceIs(p: Text, s: Text, i: nat)
    requires OccursAt(p, s, i)
    ensures i + |p| <= |s| && s[i..i + |p|] == p
  {
  }

  lemma {:induction false} ReplaceLeavesNone(s: Text, p: Text)
    requires p != [] && BracketFree(p) && !Occurs(p, Inside())
    ensures !Occurs(p, Replace(s, p))
    decreases |s|
  {
    hide Occurs, OccursAt, Inside, Mark, Find, BracketFree, Interleaved;
    match Find(s, p)
    case None =>
    case Some(i) =>
      OccurrenceIs(p, s, i);
      ReplaceLeavesNone(s[i + |p|..], p);
      BeforeFirst(s, p, i);
      MarkSeparates(p, s[..i], Replace(s[i + |p|..], p));
  }

  lemma BeforeFirst(s: Text, p: Text, i: nat)
    requires p != [] && i <= |s| && forall j :: 0 <= j < i ==> !OccursAt(p, s, j)
    ensures !Occurs(p, s[..i])
  {
    forall k: nat ensures !OccursAt(p, s[..i], k) {
      if OccursAt(p, s[..i], k) {
        assert s[k..k + |p|] == s[..i][k..k + |p|];
        assert OccursAt(p, s, k);
      }
    }
  }

  lemma {:induction false} MaskKeepsNone(s: Text, p: Text)
    requires p != [] && BracketFree(p) && !Occurs(p, Inside()) && !Occurs(p, s)
    ensures !Occurs(p, Mask(s))
    decreases |s|
  {
    match FindSecret(s, 0)
    case None =>
    case Some(i) =>
      var v := ValueStart(s, i);
      var end := ValueEnd(s, v);
      PartHasNone(p, s, 0, v);
      PartHasNone(p, s, end, |s|);
      assert s[0..v] == s[..v] && s[end..|s|] == s[end..];
      MaskKeepsNone(s[end..], p);
      MarkSeparates(p, s[..v], Mask(s[end..]));
  }

  /** The output never shows the password, whatever the input, exactly when the mark does not spell it. */
  lemma RedactionIsSafeIff(p: Text)
    requires p != [] && BracketFree(p)
    ensures (forall s :: !Occurs(p, Redact(s, p))) <==> !Occurs(p, Inside())
  {
    if !Occurs(p, Inside()) {
      forall s ensures !Occurs(p, Redact(s, p)) {
        ReplaceLeavesNone(s, p);
        MaskKeepsNone(Replace(s, p), p);
      }
    } else {
      MarkIsKept(p);
    }
  }

  /** In particular no password of more than eight characters is ever shown. */
  lemma LongPasswordsAreSafe(s: Text, p: Text)
    requires |p| > 8 && BracketFree(p)
    ensures !Occurs(p, Redact(s, p))
  {
    ReplaceLeavesNone(s, p);
    MaskKeepsNone(Replace(s, p), p);
  }

  lemma MarkIsKept(p: Text)
    requires p != [] && Occurs(p, Inside())
    ensures Redact(p, p) == Mark() && Occurs(p, Redact(p, p))
  {
    hide Find, Mask, Inside, Mark;
    ReplacesItself(p);
    NothingToMask(Mark());
    InsideMark(p);
  }

  lemma ReplacesItself(p: Text)
    requires p != []
    ensures Replace(p, p) == Mark()
  {
    assert p[..|p|] == p && p[|p|..] == [] && p[..0] == [];
    assert Find(p, p) == Some(0) && Find([], p) == None;
  }

  lemma InsideMark(p: Text)
    requires Occurs(p, Inside())
    ensures Occurs(p, Mark())
  {
    hide Inside, Mark;
    var i: nat :| OccursAt(p, Inside(), i);
    MarkParts();
    SliceOfSlice(Mark(), 1, 9, i, |p|);
    assert OccursAt(p, Mark(), 1 + i);
  }

  /** Without an equals sign there is nothing to mask. */
  lemma NothingToMask(s: Text)
    requires '=' as int !in s
    ensures Mask(s) == s
  {
    hide KeywordAt, IsValue;
    assert forall i :: 0 <= i < |s| ==> ValueStart(s, i) == 0;
  }

  /** With a bracket the mark can complete an occurrence: here the output shows the password. */
  lemma BracketedPasswordLeaks() returns (p: Text, s: Text)
    ensures p != [] && !Occurs(p, Inside()) && Occurs(p, Redact(s, p))
  {
    p, s := Points("]a"), Points("]aa");
    forall i: nat ensures !OccursAt(p, Inside(), i) {
      if i + 2 <= 8 {
        assert Inside()[i..i + 2][0] == Inside()[i] != p[0];
      }
    }
    assert s[0..2] == p && s[2..] == Points("a");
    assert Find(s, p) == Some(0);
    assert Find(Points("a"), p) == None;
    var r := Replace(s, p);
    assert r == Mark() + Points("a");
    NothingToMask(r);
    assert r[9..11] == p;
    assert OccursAt(p, r, 9);
  }

  // --- Redacting twice is redacting once ---------------------------------------------------------------

  /** Up to the mark that replaced the first value, a masked text begins no other secret. */
  lemma MarkedPrefix(s: Text, i: nat, j: nat, rest: Text)
    requires FindSecret(s, 0) == Some(i) && j < i
    ensures ValueStart(s[..ValueStart(s, i)] + Mark() + rest, j) == 0
  {
    hide Folds, IsValue, FindSecret;
    var v := ValueStart(s, i);
    var t := s[..v] + Mark() + rest;
    assert ValueStart(s, j) == 0 by { NoneBefore(s, i, j); }
    NotBy(s, v, t, j, "password");
    NotBy(s, v, t, j, "token");
    NotBy(s, v, t, j, "secret");
  }

  lemma NoneBefore(s: Text, i: nat, j: nat)
    requires FindSecret(s, 0) == Some(i) && j < i
    ensures ValueStart(s, j) == 0
  {
  }

  lemma NotBy(s: Text, v: nat, t: Text, j: nat, keyword: string)
    requires IsKeyword(keyword) && !SecretBy(s, j, keyword) && j < v < |s| && IsValue(s[v])
    requires v + 10 <= |t| && (forall k :: 0 <= k < v ==> t[k] == s[k]) && t[v..v + 10] == Mark()
    ensures !SecretBy(t, j, keyword)
  {
    hide IsValue;
    var e, mark := j + |keyword|, t[v..v + 10];
    if e < v {
      SameKeyword(s, t, j, v, keyword);
    } else {
      assert t[e] == mark[e - v];
    }
  }

  /** The secret that was masked is found again, with the mark as its whole value. */
  lemma MaskedIsFound(s: Text, i: nat, rest: Text)
    requires FindSecret(s, 0) == Some(i) && (rest != [] ==> !IsValue(rest[0]))
    ensures var v := ValueStart(s, i);
            var t := s[..v] + Mark() + rest;
            FindSecret(t, 0) == Some(i) && ValueStart(t, i) == v && ValueEnd(t, v) == v + 10
  {
    hide FindSecret, ValueStart, ValueEnd, Mark, IsValue;
    var v := ValueStart(s, i);
    var t := s[..v] + Mark() + rest;
    StaysBy(s, v, t, i);
    forall j | 0 <= j < i ensures ValueStart(t, j) == 0 {
      MarkedPrefix(s, i, j, rest);
    }
    assert forall k :: v <= k < v + 10 ==> t[k] == Mark()[k - v] && IsValue(t[k]);
    assert v + 10 < |t| ==> t[v + 10] == rest[0];
  }

  lemma StaysBy(s: Text, v: nat, t: Text, i: nat)
    requires v == ValueStart(s, i) > 0 && v < |t| && IsValue(t[v]) && forall k :: 0 <= k < v ==> t[k] == s[k]
    ensures ValueStart(t, i) == v
  {
    hide Folds, IsValue;
    var keyword :=
      if SecretBy(s, i, "password") then "password" else if SecretBy(s, i, "token") then "token" else "secret";
    assert SecretBy(s, i, keyword) && v == i + |keyword| + 1;
    SameKeyword(s, t, i, v, keyword);
    assert SecretBy(t, i, keyword);
    OneKeyword(t, i, keyword, "password");
    OneKeyword(t, i, keyword, "token");
    OneKeyword(t, i, keyword, "secret");
  }

  /** No two keywords begin with the same letter, so at most one stands at a place. */
  lemma OneKeyword(s: Text, i: nat, a: string, b: string)
    requires IsKeyword(a) && IsKeyword(b) && KeywordAt(s, i, a)
    ensures KeywordAt(s, i, b) ==> a == b
  {
    assert Folds(s[i + 0], a[0]);
    assert KeywordAt(s, i, b) ==> Folds(s[i + 0], b[0]);
  }

  lemma SameKeyword(s: Text, t: Text, i: nat, v: nat, keyword: string)
    requires IsKeyword(keyword) && v <= |s| && v <= |t| && i + |keyword| <= v && forall k :: 0 <= k < v ==> t[k] == s[k]
    ensures KeywordAt(s, i, keyword) <==> KeywordAt(t, i, keyword)
  {
    hide Folds;
    forall k | 0 <= k < |keyword| ensures Folds(s[i + k], keyword[k]) <==> Folds(t[i + k], keyword[k]) {
    }
  }

  lemma {:induction false} MaskTwice(s: Text)
    ensures Mask(Mask(s)) == Mask(s)
    ensures s != [] && Mask(s) != [] ==> Mask(s)[0] == s[0]
    ensures s == [] ==> Mask(s) == []
    decreases |s|
  {
    hide ValueStart, IsValue, Mark;
    match FindSecret(s, 0)
    case None =>
    case Some(i) =>
      var v := ValueStart(s, i);
      var after := s[ValueEnd(s, v)..];
      var rest := Mask(after);
      MaskTwice(after);
      var t := s[..v] + Mark() + rest;
      MaskedIsFound(s, i, rest);
      assert t[..v] == s[..v] && t[v + 10..] == rest;
  }

  lemma RedactTwice(s: Text, p: Text)
    requires p != [] && BracketFree(p) && !Occurs(p, Inside())
    ensures Redact(Redact(s, p), p) == Redact(s, p)
  {
    hide Occurs, OccursAt, Inside, Mask, BracketFree;
    var once := Redact(s, p);
    ReplaceLeavesNone(s, p);
    MaskKeepsNone(Replace(s, p), p);
    NothingToReplace(once, p);
    MaskTwice(Replace(s, p));
  }

  lemma NothingToReplace(s: Text, p: Text)
    requires p != [] && !Occurs(p, s)
    ensures Replace(s, p) == s
  {
  }

  // --- The output stays within the evidence budget -----------------------------------------------------

  function Size(s: Text): (bytes: nat) {
    |Encode(s)|
  }

  lemma SizeAdds(a: Text, b: Text)
    ensures Size(a + b) == Size(a) + Size(b)
  {
    EncodeAppend(a, b);
  }

  lemma {:induction false} SizeAtLeast(s: Text)
    ensures Size(s) >= |s|
  {
    if s == [] {
    } else {
      SizeAtLeast(s[1..]);
    }
  }

  lemma {:induction false} AsciiSize(s: Text)
    requires forall k :: 0 <= k < |s| ==> s[k] < 0x80
    ensures Size(s) == |s|
  {
    if s == [] {
    } else {
      AsciiSize(s[1..]);
    }
  }

  lemma SizeSplits(s: Text, i: nat, j: nat)
    requires i <= j <= |s|
    ensures Size(s) == Size(s[..i]) + Size(s[i..j]) + Size(s[j..])
  {
    assert s == (s[..i] + s[i..j]) + s[j..];
    SizeAdds(s[..i] + s[i..j], s[j..]);
    SizeAdds(s[..i], s[i..j]);
  }

  lemma MarkedSize(a: Text, b: Text)
    ensures Size(a + Mark() + b) == Size(a) + 10 + Size(b)
  {
    AsciiSize(Mark());
    SizeAdds(a + Mark(), b);
    SizeAdds(a, Mark());
  }

  lemma {:induction false} ReplaceDoesNotGrow(s: Text, p: Text)
    requires Size(p) >= 10
    ensures Size(Replace(s, p)) <= Size(s)
    decreases |s|
  {
    hide Size, Mark, OccursAt, Occurs;
    NotEmpty(p);
    match Find(s, p)
    case None =>
    case Some(i) =>
      OccurrenceIs(p, s, i);
      ReplaceDoesNotGrow(s[i + |p|..], p);
      SizeSplits(s, i, i + |p|);
      MarkedSize(s[..i], Replace(s[i + |p|..], p));
  }

  lemma NotEmpty(s: Text)
    requires Size(s) > 0
    ensures s != []
  {
  }

  /** Masking turns at least seven bytes into at most sixteen. */
  lemma {:induction false} MaskGrowth(s: Text)
    ensures 7 * Size(Mask(s)) <= 16 * Size(s)
    decreases |s|
  {
    hide Size, Mark, ValueStart, IsValue;
    match FindSecret(s, 0)
    case None =>
    case Some(i) =>
      var v := ValueStart(s, i);
      var end := ValueEnd(s, v);
      MaskGrowth(s[end..]);
      MarkedSize(s[..v], Mask(s[end..]));
      SizeSplits(s, v, end);
      assert v < end;
      SizeAtLeast(s[..v]);
      SizeAtLeast(s[v..end]);
  }

  lemma RedactGrowth(s: Text, p: Text)
    requires Size(p) >= 10
    ensures 7 * Size(Redact(s, p)) <= 16 * Size(s)
  {
    hide Size, Mask, Replace;
    ReplaceDoesNotGrow(s, p);
    MaskGrowth(Replace(s, p));
  }

  /** The alphabet of generated passwords. */
  predicate IsUrlSafe(p: Text) {
    forall k :: 0 <= k < |p| ==>
      || 'A' as int <= p[k] <= 'Z' as int || 'a' as int <= p[k] <= 'z' as int || '0' as int <= p[k] <= '9' as int
      || p[k] == '_' as int || p[k] == '-' as int
  }

  /** A generated password is never shown, redacting is idempotent, and its growth is bounded. */
  lemma GeneratedPasswordsAreSafe(s: Text, p: Text)
    requires |p| == 32 && IsUrlSafe(p)
    ensures !Occurs(p, Redact(s, p)) && Redact(Redact(s, p), p) == Redact(s, p)
    ensures Size(p) >= 10 && 7 * Size(Redact(s, p)) <= 16 * Size(s)
  {
    hide Occurs, Redact, Size, IsUrlSafe;
    assert BracketFree(p) by { UrlSafeIsBracketFree(p); }
    assert !Occurs(p, Inside()) by { TooLongToOccur(p, Inside()); }
    LongPasswordsAreSafe(s, p);
    RedactTwice(s, p);
    SizeAtLeast(p);
    RedactGrowth(s, p);
  }

  lemma UrlSafeIsBracketFree(p: Text)
    requires IsUrlSafe(p)
    ensures BracketFree(p)
  {
  }

  lemma TooLongToOccur(p: Text, s: Text)
    requires |s| < |p|
    ensures !Occurs(p, s)
  {
  }
}
