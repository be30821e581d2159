/** String operations the source takes from Python's `str` type, restricted to
    what the core needs. Strings are sequences of code points. `Strip` uses
    Python's full set of white-space characters; `Lower` and `IsIdentifier`
    follow Python's rules for ASCII characters only. */
module Text {

  predicate StartsWith(s: string, prefix: string) {
    |prefix| <= |s| && s[..|prefix|] == prefix
  }

  /** `c.lower()` for one character (ASCII letters only). */
  function LowerChar(c: char): (r: char)
    ensures 'A' <= c <= 'Z' ==> 'a' <= r <= 'z'
    ensures !('A' <= c <= 'Z') ==> r == c
  {
    if 'A' <= c <= 'Z' then (c as int + 32) as char else c
  }

  /** `s.lower()`. */
  function Lower(s: string): (r: string)
    ensures |r| == |s|
    ensures forall i | 0 <= i < |s| :: r[i] == LowerChar(s[i])
  {
    if s == [] then [] else [LowerChar(s[0])] + Lower(s[1..])
  }

  /** Lower-casing works character by character. */
  lemma LowerAppend(a: string, b: string)
    ensures Lower(a + b) == Lower(a) + Lower(b)
  {
  }

  /** White space has no case. */
  lemma LowerKeepsSpace(s: string)
    requires forall i | 0 <= i < |s| :: IsSpace(s[i])
    ensures Lower(s) == s
  {
  }

  /** `c.isspace()`: the ASCII controls tab to carriage return and the
      separators 0x1C to 0x1F, the space, and the Unicode white space. */
  predicate IsSpace(c: char) {
    || '\t' <= c <= '\r'
    || '\U{1C}' <= c <= '\U{1F}'
    || c == ' ' || c == '\U{85}' || c == '\U{A0}' || c == '\U{1680}'
    || '\U{2000}' <= c <= '\U{200A}'
    || c == '\U{2028}' || c == '\U{2029}' || c == '\U{202F}' || c == '\U{205F}' || c == '\U{3000}'
  }

  function StripLeft(s: string): (r: string)
    ensures |r| <= |s| && r == s[|s| - |r|..]
    ensures r != [] ==> !IsSpace(r[0])
  {
    if s != [] && IsSpace(s[0]) then StripLeft(s[1..]) else s
  }

  function StripRight(s: string): (r: string)
    ensures |r| <= |s| && r == s[..|r|]
    ensures r != [] ==> !IsSpace(r[|r| - 1])
  {
    if s != [] && IsSpace(s[|s| - 1]) then StripRight(s[..|s| - 1]) else s
  }

  /** `s.strip()`: no leading or trailing white space is left. */
  function Strip(s: string): (r: string)
    ensures r != [] ==> !IsSpace(r[0]) && !IsSpace(r[|r| - 1])
  {
    StripRight(StripLeft(s))
  }

  /** Leading white space before a text that starts with none is removed. */
  lemma {:induction false} StripLeftPadded(pad: string, t: string)
    requires forall i | 0 <= i < |pad| :: IsSpace(pad[i])
    requires t != [] && !IsSpace(t[0])
    ensures StripLeft(pad + t) == t
  {
    if pad == [] {
      assert pad + t == t;
    } else {
      assert (pad + t)[1..] == pad[1..] + t;
      StripLeftPadded(pad[1..], t);
    }
  }

  /** Trailing white space after a text that ends with none is removed. */
  lemma {:induction false} StripRightPadded(t: string, pad: string)
    requires forall i | 0 <= i < |pad| :: IsSpace(pad[i])
    requires t != [] && !IsSpace(t[|t| - 1])
    ensures StripRight(t + pad) == t
  {
    if pad == [] {
      assert t + pad == t;
    } else {
      var shorter := pad[..|pad| - 1];
      assert (t + pad)[..|t + pad| - 1] == t + shorter;
      StripRightPadded(t, shorter);
    }
  }

  /** `strip()` gives back a text that neither starts nor ends with white
      space from any padding of it. */
  lemma StripPadded(pad1: string, t: string, pad2: string)
    requires forall i | 0 <= i < |pad1| :: IsSpace(pad1[i])
    requires forall i | 0 <= i < |pad2| :: IsSpace(pad2[i])
    requires t != [] && !IsSpace(t[0]) && !IsSpace(t[|t| - 1])
    ensures Strip(pad1 + t + pad2) == t
  {
    assert pad1 + t + pad2 == pad1 + (t + pad2);
    StripLeftPadded(pad1, t + pad2);
    StripRightPadded(t, pad2);
  }

  /** `s.replace(c, rep)` for a one-character pattern. */
  function Replace(s: string, c: char, rep: string): (r: string)
    ensures c !in s ==> r == s
    ensures c !in rep ==> c !in r
    ensures forall x | x in r :: x in s || x in rep
  {
    if s == [] then []
    else (if s[0] == c then rep else [s[0]]) + Replace(s[1..], c, rep)
  }

  lemma {:induction false} ReplaceAppend(a: string, b: string, c: char, rep: string)
    ensures Replace(a + b, c, rep) == Replace(a, c, rep) + Replace(b, c, rep)
  {
    if a == [] {
      assert a + b == b;
    } else {
      var ab := a + b;
      assert ab[0] == a[0] && ab[1..] == a[1..] + b;
      ReplaceAppend(a[1..], b, c, rep);
      var head := if a[0] == c then rep else [a[0]];
      calc {
        Replace(ab, c, rep);
        head + Replace(a[1..] + b, c, rep);
        head + (Replace(a[1..], c, rep) + Replace(b, c, rep));
        (head + Replace(a[1..], c, rep)) + Replace(b, c, rep);
      }
    }
  }

  /** `sep.join(parts)`. */
  function Join(sep: string, parts: seq<string>): (r: string)
    ensures parts == [] ==> r == ""
    ensures |parts| == 1 ==> r == parts[0]
  {
    if parts == [] then ""
    else if |parts| == 1 then parts[0]
    else parts[0] + sep + Join(sep, parts[1..])
  }

  /** Joining two non-empty lists of parts puts one separator between the
      two joined texts. */
  lemma {:induction false} JoinAppend(sep: string, p: seq<string>, q: seq<string>)
    requires p != [] && q != []
    ensures Join(sep, p + q) == Join(sep, p) + sep + Join(sep, q)
  {
    assert (p + q)[0] == p[0];
    if |p| == 1 {
      assert (p + q)[1..] == q;
    } else {
      assert (p + q)[1..] == p[1..] + q;
      JoinAppend(sep, p[1..], q);
    }
  }

  /** The joined text is empty exactly when every part is empty and the
      separator never appears (at most one part, or an empty separator). */
  lemma {:induction false} JoinEmpty(sep: string, parts: seq<string>)
    ensures Join(sep, parts) == "" <==>
            (forall i | 0 <= i < |parts| :: parts[i] == "") && (|parts| <= 1 || sep == "")
  {
    if |parts| > 1 {
      JoinEmpty(sep, parts[1..]);
      var rest := Join(sep, parts[1..]);
      assert |parts[0] + sep + rest| == |parts[0]| + |sep| + |rest|;
      if Join(sep, parts) == "" {
        forall i | 0 <= i < |parts| ensures parts[i] == "" {
          if i > 0 { assert parts[i] == parts[1..][i - 1]; }
        }
      }
    }
  }

  /** Number of occurrences of `c` in `s`. */
  function Count(s: string, c: char): (n: nat)
    ensures n <= |s|
    ensures n == 0 <==> c !in s
  {
    if s == [] then 0 else (if s[0] == c then 1 else 0) + Count(s[1..], c)
  }

  /** `s.split(c)` for a one-character separator. */
  function Split(s: string, c: char): (r: seq<string>)
    ensures |r| >= 1
  {
    if s == [] then [""]
    else
      var rest := Split(s[1..], c);
      if s[0] == c then [""] + rest else [[s[0]] + rest[0]] + rest[1..]
  }

  /** Everything before the first occurrence of `c` (all of `s` when absent). */
  function Before(s: string, c: char): (r: string)
    ensures c !in r
    ensures StartsWith(s, r)
    ensures |r| < |s| ==> s[|r|] == c
  {
    if s == [] || s[0] == c then [] else [s[0]] + Before(s[1..], c)
  }

  /** `s.split(c)` has one more part than `c` has occurrences, and its first
      part is the text before the first `c`. */
  lemma {:induction false} SplitShape(s: string, c: char)
    ensures |Split(s, c)| == Count(s, c) + 1
    ensures Split(s, c)[0] == Before(s, c)
  {
    if s != [] {
      SplitShape(s[1..], c);
    }
  }

  /** Python's `s[0:k]` for any integer `k`: a negative `k` counts from the end. */
  function PyPrefix(s: string, k: int): (r: string)
    ensures |r| <= |s| && r == s[..|r|]
    ensures 0 <= k ==> |r| == if k <= |s| then k else |s|
    ensures k < 0 ==> |r| == if |s| + k >= 0 then |s| + k else 0
  {
    if k >= 0 then (if k <= |s| then s[..k] else s)
    else if |s| + k >= 0 then s[..|s| + k] else []
  }

  predicate IsAsciiLetter(c: char) { 'a' <= c <= 'z' || 'A' <= c <= 'Z' }
  predicate IsAsciiDigit(c: char) { '0' <= c <= '9' }

  /** `s.isidentifier()` over ASCII: a letter or `_` first, then letters,
      digits or `_`. */
  predicate IsIdentifier(s: string) {
    && s != []
    && (IsAsciiLetter(s[0]) || s[0] == '_')
    && forall i | 1 <= i < |s| :: IsAsciiLetter(s[i]) || IsAsciiDigit(s[i]) || s[i] == '_'
  }

  /** Python's `<` on `str`: code point by code point, a proper prefix first. */
  predicate Less(a: string, b: string) {
    if a == [] then b != []
    else if b == [] then false
    else if a[0] != b[0] then a[0] < b[0]
    else Less(a[1..], b[1..])
  }

  lemma {:induction false} LessIrreflexive(a: string)
    ensures !Less(a, a)
  {
    if a != [] { LessIrreflexive(a[1..]); }
  }

  lemma {:induction false} LessTransitive(a: string, b: string, c: string)
    requires Less(a, b) && Less(b, c)
    ensures Less(a, c)
  {
    if a != [] && b != [] && c != [] && a[0] == b[0] && b[0] == c[0] {
      LessTransitive(a[1..], b[1..], c[1..]);
    }
  }

  lemma {:induction false} LessTotal(a: string, b: string)
    ensures a == b || Less(a, b) || Less(b, a)
  {
    if a != [] && b != [] && a[0] == b[0] {
      LessTotal(a[1..], b[1..]);
      if a[1..] == b[1..] {
        assert a == [a[0]] + a[1..] && b == [b[0]] + b[1..];
      }
    }
  }

  lemma {:induction false} LessAsymmetric(a: string, b: string)
    requires Less(a, b)
    ensures !Less(b, a)
  {
    if a != [] && b != [] && a[0] == b[0] {
      LessAsymmetric(a[1..], b[1..]);
    }
  }
}
