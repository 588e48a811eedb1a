/** String facts the validators and the listing order depend on: JavaScript's
    whitespace class and trimming, code-unit length, and code-point order. */
module Strings {
  import opened Wrappers

  /** A JavaScript truthy text: present and not empty. */
  predicate Truthy(v: Option<string>) {
    v.Some? && v.value != ""
  }

  /** The characters of JavaScript's `\s` class, which the request sanitizer's
      trim strips from both ends. */
  predicate IsSpace(c: char) {
    var n := c as int;
    (9 <= n <= 13) || n == 32 || n == 0xA0 || n == 0x1680 || (0x2000 <= n <= 0x200A)
    || n == 0x2028 || n == 0x2029 || n == 0x202F || n == 0x205F || n == 0x3000 || n == 0xFEFF
  }

  predicate AllSpace(s: string) {
    forall i :: 0 <= i < |s| ==> IsSpace(s[i])
  }

  /** `s` without its leading whitespace: a suffix of `s` whose dropped prefix is all
      whitespace and which does not itself start with whitespace. */
  function TrimStart(s: string): (r: string)
    ensures |r| <= |s| && r == s[|s| - |r|..]
    ensures AllSpace(s[..|s| - |r|])
    ensures r == [] || !IsSpace(r[0])
  {
    if |s| > 0 && IsSpace(s[0]) then
      var r := TrimStart(s[1..]);
      TrimStartStep(s, r);
      r
    else s
  }

  /** Dropping one more leading whitespace character keeps `r` a suffix whose dropped
      prefix is whitespace. */
  lemma TrimStartStep(s: string, r: string)
    requires |s| > 0 && IsSpace(s[0]) && |r| <= |s| - 1
    requires r == s[1..][|s| - 1 - |r|..] && AllSpace(s[1..][..|s| - 1 - |r|])
    ensures r == s[|s| - |r|..] && AllSpace(s[..|s| - |r|])
  {
    var k := |s| - |r|;
    var dropped := s[1..][..k - 1];
    forall i | 0 <= i < k ensures IsSpace(s[i]) {
      if i > 0 {
        assert s[i] == dropped[i - 1];
      }
    }
  }

  /** `s` without its trailing whitespace. */
  function TrimEnd(s: string): (r: string)
    ensures |r| <= |s| && r == s[..|r|]
    ensures AllSpace(s[|r|..])
    ensures r == [] || !IsSpace(r[|r| - 1])
  {
    if |s| > 0 && IsSpace(s[|s| - 1]) then
      var r := TrimEnd(s[..|s| - 1]);
      assert s[|r|..] == s[..|s| - 1][|r|..] + [s[|s| - 1]];
      r
    else s
  }

  /** Whitespace removed from both ends (validator.js `trim` with no character list). */
  function Trim(s: string): (r: string)
    ensures |r| <= |s|
    ensures exists i, j :: 0 <= i <= j <= |s| && r == s[i..j] && AllSpace(s[..i]) && AllSpace(s[j..])
    ensures r == [] || (!IsSpace(r[0]) && !IsSpace(r[|r| - 1]))
  {
    var t := TrimStart(s);
    var r := TrimEnd(t);
    TrimSlice(s, t, r);
    r
  }

  /** Cutting a whitespace prefix and then a whitespace suffix cuts a slice with
      whitespace on both sides. */
  lemma TrimSlice(s: string, t: string, r: string)
    requires |t| <= |s| && t == s[|s| - |t|..] && AllSpace(s[..|s| - |t|])
    requires |r| <= |t| && r == t[..|r|] && AllSpace(t[|r|..])
    ensures exists i, j :: 0 <= i <= j <= |s| && r == s[i..j] && AllSpace(s[..i]) && AllSpace(s[j..])
  {
    var i, j := |s| - |t|, |s| - |t| + |r|;
    assert s[j..] == t[|r|..];
    assert r == s[i..j];
  }

  /** Trimming leaves nothing exactly when the text is whitespace only. */
  lemma TrimEmptyIffAllSpace(s: string)
    ensures Trim(s) == [] <==> AllSpace(s)
  {
    var t := TrimStart(s);
    if !AllSpace(s) {
      var i :| 0 <= i < |s| && !IsSpace(s[i]);
      assert i >= |s| - |t|;
      assert t[i - (|s| - |t|)] == s[i];
    }
  }

  /** Trimming twice trims nothing more. */
  lemma TrimIdempotent(s: string)
    ensures Trim(Trim(s)) == Trim(s)
  {
  }

  /** The positions of `s` holding a character outside the Basic Multilingual Plane. */
  function AstralAt(s: string): set<nat> {
    set i: nat | i < |s| && s[i] as int >= 0x10000
  }

  /** Extending a text by one character adds its position to `AstralAt` exactly when
      the character is astral. */
  lemma AstralAtSnoc(t: string, c: char)
    ensures AstralAt(t + [c]) == AstralAt(t) + (if c as int >= 0x10000 then {|t|} else {})
    ensures |t| !in AstralAt(t)
  {
    var s := t + [c];
    forall i: nat | i < |t| ensures s[i] == t[i] { }
  }

  /** The length JavaScript's `String.prototype.length` reports: characters outside the
      Basic Multilingual Plane take two UTF-16 code units, the others one. Mongoose's
      `maxlength` compares this length. */
  function Utf16Length(s: string): (n: nat)
    ensures n == |s| + |AstralAt(s)|
    ensures |s| <= n <= 2 * |s|
    ensures n == |s| <==> forall i :: 0 <= i < |s| ==> s[i] as int < 0x10000
  {
    if s == [] then 0
    else
      var t, c := s[..|s| - 1], s[|s| - 1];
      assert s == t + [c];
      AstralAtSnoc(t, c);
      var n := Utf16Length(t) + (if c as int < 0x10000 then 1 else 2);
      assert n == |s| ==> forall i :: 0 <= i < |s| ==> s[i] as int < 0x10000 by {
        if n == |s| {
          forall i | 0 <= i < |s| ensures s[i] as int < 0x10000 {
            assert i !in AstralAt(s);
          }
        }
      }
      n
  }

  /** U+FE0E and U+FE0F, the text and emoji presentation selectors. */
  predicate IsPresentationSelector(c: char) {
    c == '\U{FE0E}' || c == '\U{FE0F}'
  }

  /** The positions of `s` holding a presentation selector. */
  function SelectorsAt(s: string): set<nat> {
    set i: nat | i < |s| && IsPresentationSelector(s[i])
  }

  lemma SelectorsAtSnoc(t: string, c: char)
    ensures SelectorsAt(t + [c]) == SelectorsAt(t) + (if IsPresentationSelector(c) then {|t|} else {})
    ensures |t| !in SelectorsAt(t)
  {
    var s := t + [c];
    forall i: nat | i < |t| ensures s[i] == t[i] { }
  }

  /** The length validator.js (13.7 and later) `isLength` compares: the UTF-16 length
      less one per surrogate pair and one per presentation selector, that is, the
      characters that are not presentation selectors. */
  function ValidatorLength(s: string): (n: nat)
    ensures n == Utf16Length(s) - |AstralAt(s)| - |SelectorsAt(s)|
    ensures n <= |s|
    ensures n == |s| <==> forall i :: 0 <= i < |s| ==> !IsPresentationSelector(s[i])
  {
    if s == [] then 0
    else
      var t, c := s[..|s| - 1], s[|s| - 1];
      assert s == t + [c];
      SelectorsAtSnoc(t, c);
      var n := ValidatorLength(t) + (if IsPresentationSelector(c) then 0 else 1);
      assert n == |s| ==> forall i :: 0 <= i < |s| ==> !IsPresentationSelector(s[i]) by {
        if n == |s| {
          forall i | 0 <= i < |s| ensures !IsPresentationSelector(s[i]) {
            assert i !in SelectorsAt(s);
          }
        }
      }
      n
  }

  /** Lexicographic order by code point: the order of MongoDB's binary comparison of
      UTF-8 strings, which the listing sort by `appointmentTime` uses. A Dafny `char`
      is a Unicode scalar value, and on scalar values code-point order and UTF-8 byte
      order agree. */
  predicate LexLess(a: string, b: string)
    decreases |a|
  {
    if |a| == 0 then |b| > 0
    else if |b| == 0 then false
    else if a[0] != b[0] then a[0] < b[0]
    else LexLess(a[1..], b[1..])
  }

  lemma {:induction false} LexLessIrreflexive(a: string)
    ensures !LexLess(a, a)
    decreases |a|
  {
    if |a| > 0 { LexLessIrreflexive(a[1..]); }
  }

  lemma {:induction false} LexLessTransitive(a: string, b: string, c: string)
    requires LexLess(a, b) && LexLess(b, c)
    ensures LexLess(a, c)
    decreases |a|
  {
    if |a| > 0 && a[0] == b[0] && b[0] == c[0] {
      LexLessTransitive(a[1..], b[1..], c[1..]);
    }
  }

  /** Any two strings are equal or ordered one way or the other. */
  lemma {:induction false} LexTotal(a: string, b: string)
    ensures a == b || LexLess(a, b) || LexLess(b, a)
    decreases |a|
  {
    if |a| > 0 && |b| > 0 && a[0] == b[0] {
      LexTotal(a[1..], b[1..]);
      if a[1..] == b[1..] {
        assert a == [a[0]] + a[1..] && b == [b[0]] + b[1..];
      }
    }
  }

  lemma {:induction false} LexLessAsymmetric(a: string, b: string)
    requires LexLess(a, b)
    ensures !LexLess(b, a)
  {
    if LexLess(b, a) {
      LexLessTransitive(a, b, a);
      LexLessIrreflexive(a);
    }
  }

  /** Comparing two concatenations whose first parts have equal length compares the
      first parts, and the second parts only when the first parts are equal. */
  lemma {:induction false} LexLessAppend(x1: string, y1: string, x2: string, y2: string)
    requires |x1| == |x2|
    ensures LexLess(x1 + y1, x2 + y2) <==> LexLess(x1, x2) || (x1 == x2 && LexLess(y1, y2))
    decreases |x1|
  {
    if |x1| > 0 {
      assert (x1 + y1)[0] == x1[0] && (x2 + y2)[0] == x2[0];
      assert (x1 + y1)[1..] == x1[1..] + y1 && (x2 + y2)[1..] == x2[1..] + y2;
      LexLessAppend(x1[1..], y1, x2[1..], y2);
      if x1[0] == x2[0] && x1[1..] == x2[1..] {
        assert x1 == [x1[0]] + x1[1..] && x2 == [x2[0]] + x2[1..];
      }
    } else {
      assert x1 + y1 == y1 && x2 + y2 == y2;
    }
  }
}
