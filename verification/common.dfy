/**
 * Shared vocabulary of the model: Rust's `Option` and `Result`, sequence
 * helpers, and the handful of `str` operations the build tool relies on
 * (`split`, `split_whitespace`, `trim`, `starts_with`, `contains`,
 * `parse::<usize>`, `to_string` on integers, ASCII case mapping).
 */
module Common {

  datatype Option<+T> = None | Some(value: T)

  datatype Result<+T, +E> = Ok(value: T) | Err(error: E)

  /** Rust's `usize::MAX` on the 64-bit targets the tool is built for. */
  const USIZE_MAX: nat := 0xFFFF_FFFF_FFFF_FFFF

  // ---------------------------------------------------------------------
  // Sequences
  // ---------------------------------------------------------------------

  lemma ConcatAssoc<T>(x: seq<T>, y: seq<T>, z: seq<T>)
    ensures (x + y) + z == x + (y + z)
  {
  }

  /** The images of the elements under `f`, concatenated in order. */
  function ConcatMap<T, U>(f: T -> seq<U>, xs: seq<T>): seq<U>
  {
    if |xs| == 0 then [] else f(xs[0]) + ConcatMap(f, xs[1..])
  }

  lemma {:induction false} ConcatMapAppend<T, U>(f: T -> seq<U>, a: seq<T>, b: seq<T>)
    ensures ConcatMap(f, a + b) == ConcatMap(f, a) + ConcatMap(f, b)
    decreases |a|
  {
    if |a| == 0 {
      assert a + b == b;
    } else {
      ConcatMapAppend(f, a[1..], b);
      assert (a + b)[1..] == a[1..] + b;
      assert (a + b)[0] == a[0];
      ConcatAssoc(f(a[0]), ConcatMap(f, a[1..]), ConcatMap(f, b));
    }
  }

  lemma EmptyUnion<T>(x: set<T>)
    ensures {} + x == x && x + {} == x
  {
  }

  lemma EmptyMapUnion<K, V>(m: map<K, V>)
    ensures map[] + m == m
  {
  }

  /** Number of occurrences of `x` in `s`. */
  function Count<T(==)>(s: seq<T>, x: T): nat
  {
    if |s| == 0 then 0 else (if s[0] == x then 1 else 0) + Count(s[1..], x)
  }

  lemma {:induction false} CountPositive<T>(s: seq<T>, x: T)
    ensures Count(s, x) > 0 <==> x in s
  {
    if |s| > 0 {
      CountPositive(s[1..], x);
      assert x in s <==> s[0] == x || x in s[1..];
    }
  }

  lemma {:induction false} CountAppend<T>(a: seq<T>, b: seq<T>, x: T)
    ensures Count(a + b, x) == Count(a, x) + Count(b, x)
  {
    if |a| == 0 {
      assert a + b == b;
    } else {
      assert (a + b)[1..] == a[1..] + b;
      CountAppend(a[1..], b, x);
    }
  }

  predicate NoDups<T(==)>(s: seq<T>)
  {
    forall i, j :: 0 <= i < j < |s| ==> s[i] != s[j]
  }

  /** The members of a sequence, as a set. */
  function Elems<T>(s: seq<T>): set<T>
  {
    set x | x in s
  }

  lemma ElemsAppend<T>(a: seq<T>, b: seq<T>)
    ensures Elems(a + b) == Elems(a) + Elems(b)
  {
  }

  lemma NoDupsAppend<T>(a: seq<T>, b: seq<T>)
    requires NoDups(a) && NoDups(b)
    requires forall x | x in a :: x !in b
    ensures NoDups(a + b)
  {
    forall i, j | 0 <= i < j < |a + b|
      ensures (a + b)[i] != (a + b)[j]
    {
      if j >= |a| && i < |a| {
        assert (a + b)[i] in a && (a + b)[j] == b[j - |a|];
      }
    }
  }

  lemma NoDupsTail<T>(s: seq<T>)
    requires |s| > 0 && NoDups(s)
    ensures NoDups(s[1..]) && s[0] !in s[1..]
  {
    forall i, j | 0 <= i < j < |s[1..]| ensures s[1..][i] != s[1..][j] {
      assert s[1..][i] == s[i + 1] && s[1..][j] == s[j + 1];
    }
    forall k | 0 <= k < |s[1..]| ensures s[1..][k] != s[0] {
      assert s[1..][k] == s[k + 1];
    }
  }

  /** A duplicate-free sequence has as many members as elements. */
  lemma {:induction false} NoDupsCard<T>(s: seq<T>)
    requires NoDups(s)
    ensures |Elems(s)| == |s|
  {
    if |s| > 0 {
      NoDupsTail(s);
      NoDupsCard(s[1..]);
      assert Elems(s) == Elems(s[1..]) + {s[0]};
    } else {
      assert Elems(s) == {};
    }
  }

  lemma {:induction false} SubsetCard<T>(a: set<T>, b: set<T>)
    requires a <= b
    ensures |a| <= |b|
    ensures |a| == |b| ==> a == b
    decreases |a|
  {
    if a != {} {
      var x :| x in a;
      SubsetCard(a - {x}, b - {x});
      assert a == (a - {x}) + {x} && b == (b - {x}) + {x};
    } else if b != {} {
      var y :| y in b;
    }
  }

  /** Concatenation of a sequence of sequences. */
  function Flatten<T>(ss: seq<seq<T>>): seq<T>
  {
    if |ss| == 0 then [] else ss[0] + Flatten(ss[1..])
  }

  lemma {:induction false} FlattenAppend<T>(ss: seq<seq<T>>, s: seq<T>)
    ensures Flatten(ss + [s]) == Flatten(ss) + s
  {
    if |ss| == 0 {
      assert ss + [s] == [s];
    } else {
      assert (ss + [s])[1..] == ss[1..] + [s];
      FlattenAppend(ss[1..], s);
    }
  }

  lemma {:induction false} FlattenMembership<T>(ss: seq<seq<T>>, x: T)
    ensures x in Flatten(ss) <==> exists k :: 0 <= k < |ss| && x in ss[k]
  {
    if |ss| > 0 {
      FlattenMembership(ss[1..], x);
      if x in Flatten(ss[1..]) {
        var k :| 0 <= k < |ss[1..]| && x in ss[1..][k];
        assert x in ss[k + 1];
      }
      if exists k :: 0 <= k < |ss| && x in ss[k] {
        var k :| 0 <= k < |ss| && x in ss[k];
        if k > 0 {
          assert x in ss[1..][k - 1];
        }
      }
    }
  }

  /** `xs` is a list of the members of `keys`, each exactly once (the order
      in which a Rust `HashMap`/`HashSet` happens to iterate them). */
  predicate IsEnumeration<T(==)>(xs: seq<T>, keys: set<T>)
  {
    NoDups(xs) && (forall i :: 0 <= i < |xs| ==> xs[i] in keys) && (forall x | x in keys :: x in xs)
  }

  // ---------------------------------------------------------------------
  // Prefixes, suffixes, substrings
  // ---------------------------------------------------------------------

  predicate StartsWith<T(==)>(s: seq<T>, p: seq<T>)
  {
    |p| <= |s| && s[..|p|] == p
  }

  predicate EndsWith<T(==)>(s: seq<T>, p: seq<T>)
  {
    |p| <= |s| && s[|s| - |p|..] == p
  }

  /** `p` occurs in `s` starting at position `i`. */
  predicate OccursAt<T(==)>(s: seq<T>, p: seq<T>, i: int)
  {
    0 <= i <= |s| - |p| && s[i..i + |p|] == p
  }

  /** `str::contains` with a string pattern. */
  predicate Contains<T(==)>(s: seq<T>, p: seq<T>)
  {
    exists i | 0 <= i <= |s| - |p| :: OccursAt(s, p, i)
  }

  /** `str::strip_prefix`. */
  function StripPrefix<T(==)>(s: seq<T>, p: seq<T>): (r: Option<seq<T>>)
    ensures r.Some? <==> StartsWith(s, p)
    ensures r.Some? ==> p + r.value == s
  {
    if StartsWith(s, p) then
      assert s == s[..|p|] + s[|p|..];
      Some(s[|p|..])
    else None
  }

  // ---------------------------------------------------------------------
  // `str::split` with a single-character separator
  // ---------------------------------------------------------------------

  /** `s.split(c).collect()`: always at least one (possibly empty) field. */
  function Split(s: string, c: char): (parts: seq<string>)
    ensures |parts| >= 1
    decreases |s|
  {
    if |s| == 0 then [""]
    else if s[0] == c then [""] + Split(s[1..], c)
    else
      var rest := Split(s[1..], c);
      [[s[0]] + rest[0]] + rest[1..]
  }

  /** `parts.join(sep)`. */
  function Join(parts: seq<string>, sep: string): string
  {
    if |parts| == 0 then ""
    else if |parts| == 1 then parts[0]
    else parts[0] + sep + Join(parts[1..], sep)
  }

  /** No field produced by `Split` contains the separator. */
  lemma {:induction false} SplitFieldsFree(s: string, c: char)
    ensures forall k :: 0 <= k < |Split(s, c)| ==> c !in Split(s, c)[k]
    decreases |s|
  {
    if |s| > 0 {
      SplitFieldsFree(s[1..], c);
    }
  }

  /** Joining the fields with the separator gives back the input. */
  lemma {:induction false} JoinSplit(s: string, c: char)
    ensures Join(Split(s, c), [c]) == s
    decreases |s|
  {
    if |s| > 0 {
      var rest := Split(s[1..], c);
      JoinSplit(s[1..], c);
      if s[0] == c {
        assert Split(s, c) == [""] + rest;
        assert ([""] + rest)[1..] == rest;
        assert s == [c] + s[1..];
      } else {
        var parts := Split(s, c);
        assert parts == [[s[0]] + rest[0]] + rest[1..];
        if |rest| == 1 {
          assert parts == [[s[0]] + rest[0]];
          assert s == [s[0]] + s[1..];
        } else {
          assert parts[1..] == rest[1..];
          assert Join(rest, [c]) == rest[0] + [c] + Join(rest[1..], [c]);
          assert s == [s[0]] + s[1..];
        }
      }
    }
  }

  /** The number of fields is one more than the number of separators. */
  lemma {:induction false} SplitLength(s: string, c: char)
    ensures |Split(s, c)| == Count(s, c) + 1
    decreases |s|
  {
    if |s| > 0 {
      SplitLength(s[1..], c);
    }
  }

  /** Splitting a separator-joined list of separator-free fields recovers
      the fields. */
  lemma {:induction false} SplitJoin(parts: seq<string>, c: char)
    requires |parts| >= 1
    requires forall k :: 0 <= k < |parts| ==> c !in parts[k]
    ensures Split(Join(parts, [c]), c) == parts
    decreases |parts|, |parts[0]|
  {
    if |parts[0]| > 0 {
      var p0 := parts[0];
      var tailParts := [p0[1..]] + parts[1..];
      ShortenedFieldsFree(parts, c);
      SplitJoin(tailParts, c);
      JoinFirstChar(parts, c);
      SplitNonSeparator(p0[0], Join(tailParts, [c]), c);
      assert [p0[0]] + p0[1..] == p0;
      assert tailParts[1..] == parts[1..];
    } else if |parts| == 1 {
      assert Join(parts, [c]) == "";
    } else {
      SplitJoin(parts[1..], c);
      var j := Join(parts, [c]);
      assert j == [c] + Join(parts[1..], [c]);
      assert j[1..] == Join(parts[1..], [c]);
    }
  }

  lemma ShortenedFieldsFree(parts: seq<string>, c: char)
    requires |parts| >= 1 && |parts[0]| > 0
    requires forall k :: 0 <= k < |parts| ==> c !in parts[k]
    ensures forall k :: 0 <= k < |[parts[0][1..]] + parts[1..]| ==> c !in ([parts[0][1..]] + parts[1..])[k]
  {
    var tailParts := [parts[0][1..]] + parts[1..];
    forall k | 0 <= k < |tailParts|
      ensures c !in tailParts[k]
    {
      if k == 0 {
        assert forall x :: x in parts[0][1..] ==> x in parts[0];
      } else {
        assert tailParts[k] == parts[k];
      }
    }
  }

  lemma JoinFirstChar(parts: seq<string>, c: char)
    requires |parts| >= 1 && |parts[0]| > 0
    ensures Join(parts, [c]) == [parts[0][0]] + Join([parts[0][1..]] + parts[1..], [c])
  {
    var p0 := parts[0];
    var tailParts := [p0[1..]] + parts[1..];
    assert tailParts[1..] == parts[1..];
    assert p0 == [p0[0]] + p0[1..];
    if |parts| > 1 {
      var r := [c] + Join(parts[1..], [c]);
      assert Join(parts, [c]) == p0 + r by {
        ConcatAssoc(p0, [c], Join(parts[1..], [c]));
      }
      assert Join(tailParts, [c]) == p0[1..] + r by {
        ConcatAssoc(p0[1..], [c], Join(parts[1..], [c]));
      }
      ConcatAssoc([p0[0]], p0[1..], r);
    }
  }

  lemma SplitNonSeparator(x: char, s: string, c: char)
    requires x != c
    ensures Split([x] + s, c) == [[x] + Split(s, c)[0]] + Split(s, c)[1..]
  {
    assert ([x] + s)[1..] == s;
  }

  // ---------------------------------------------------------------------
  // Whitespace: `char::is_whitespace`, `str::trim`, `str::split_whitespace`
  // ---------------------------------------------------------------------

  /** The Unicode White_Space property, which `char::is_whitespace` tests. */
  predicate IsWhitespace(c: char)
  {
    ('\t' <= c <= '\r') || c == ' ' || c == '\U{0085}' || c == '\U{00A0}'
    || c == '\U{1680}' || ('\U{2000}' <= c <= '\U{200A}') || c == '\U{2028}'
    || c == '\U{2029}' || c == '\U{202F}' || c == '\U{205F}' || c == '\U{3000}'
  }

  predicate NoWhitespace(s: string)
  {
    forall k :: 0 <= k < |s| ==> !IsWhitespace(s[k])
  }

  predicate AllWhitespace(s: string)
  {
    forall k :: 0 <= k < |s| ==> IsWhitespace(s[k])
  }

  lemma TrimStartStep(s: string, r: string)
    requires |s| > 0 && IsWhitespace(s[0]) && |r| <= |s| - 1
    requires r == s[1..][|s| - 1 - |r|..] && AllWhitespace(s[1..][..|s| - 1 - |r|])
    ensures r == s[|s| - |r|..] && AllWhitespace(s[..|s| - |r|])
  {
    forall k | 1 <= k < |s| - |r|
      ensures IsWhitespace(s[k])
    {
      assert s[k] == s[1..][..|s| - 1 - |r|][k - 1];
    }
  }

  lemma TrimEndStep(s: string, r: string)
    requires |s| > 0 && IsWhitespace(s[|s| - 1]) && |r| <= |s| - 1
    requires r == s[..|s| - 1][..|r|] && AllWhitespace(s[..|s| - 1][|r|..])
    ensures r == s[..|r|] && AllWhitespace(s[|r|..])
  {
    forall k | |r| <= k < |s| - 1
      ensures IsWhitespace(s[k])
    {
      assert s[k] == s[..|s| - 1][|r|..][k - |r|];
    }
  }

  function TrimStart(s: string): (r: string)
    ensures |r| <= |s| && r == s[|s| - |r|..]
    ensures AllWhitespace(s[..|s| - |r|])
    ensures |r| > 0 ==> !IsWhitespace(r[0])
    decreases |s|
  {
    if |s| > 0 && IsWhitespace(s[0]) then
      var r := TrimStart(s[1..]);
      TrimStartStep(s, r);
      r
    else s
  }

  function TrimEnd(s: string): (r: string)
    ensures |r| <= |s| && r == s[..|r|]
    ensures AllWhitespace(s[|r|..])
    ensures |r| > 0 ==> !IsWhitespace(r[|r| - 1])
    decreases |s|
  {
    if |s| > 0 && IsWhitespace(s[|s| - 1]) then
      var r := TrimEnd(s[..|s| - 1]);
      TrimEndStep(s, r);
      r
    else s
  }

  /** `str::trim`: the input with leading and trailing whitespace removed,
      and nothing else. */
  function Trim(s: string): (r: string)
    ensures exists i, j :: 0 <= i <= j <= |s| && r == s[i..j]
                           && AllWhitespace(s[..i]) && AllWhitespace(s[j..])
    ensures |r| > 0 ==> !IsWhitespace(r[0]) && !IsWhitespace(r[|r| - 1])
  {
    var a := TrimStart(s);
    var r := TrimEnd(a);
    TrimBounds(s, a, r);
    r
  }

  /** Where the trimmed text sits in the input: `a` is the input without
      its leading whitespace and `r` is `a` without its trailing one. */
  lemma TrimBounds(s: string, a: string, r: string)
    requires |a| <= |s| && a == s[|s| - |a|..] && AllWhitespace(s[..|s| - |a|])
    requires |r| <= |a| && r == a[..|r|] && AllWhitespace(a[|r|..])
    requires |a| > 0 ==> !IsWhitespace(a[0])
    requires |r| > 0 ==> !IsWhitespace(r[|r| - 1])
    ensures exists i, j :: 0 <= i <= j <= |s| && r == s[i..j]
                           && AllWhitespace(s[..i]) && AllWhitespace(s[j..])
    ensures |r| > 0 ==> !IsWhitespace(r[0]) && !IsWhitespace(r[|r| - 1])
  {
    assert |r| > 0 ==> r[0] == a[0];
    var i := |s| - |a|;
    SliceOfSuffix(s, a, r, i);
    assert 0 <= i <= i + |r| <= |s| && r == s[i..i + |r|]
      && AllWhitespace(s[..i]) && AllWhitespace(s[i + |r|..]);
  }

  /** A prefix of a suffix is a middle slice; what follows it is the rest
      of the suffix. */
  lemma SliceOfSuffix<T>(s: seq<T>, a: seq<T>, r: seq<T>, i: nat)
    requires i <= |s| && a == s[i..] && |r| <= |a| && r == a[..|r|]
    ensures i + |r| <= |s| && r == s[i..i + |r|] && s[i + |r|..] == a[|r|..]
  {
  }

  /** `str::split_whitespace`: the maximal runs of non-whitespace, in order. */
  function SplitWhitespace(s: string): (tokens: seq<string>)
    ensures forall k :: 0 <= k < |tokens| ==> |tokens[k]| > 0 && NoWhitespace(tokens[k])
    ensures |s| > 0 && !IsWhitespace(s[0]) ==> |tokens| > 0 && tokens[0][0] == s[0]
    decreases |s|
  {
    if |s| == 0 then []
    else if IsWhitespace(s[0]) then SplitWhitespace(s[1..])
    else
      var rest := SplitWhitespace(s[1..]);
      if |s| > 1 && !IsWhitespace(s[1]) then [[s[0]] + rest[0]] + rest[1..]
      else [[s[0]]] + rest
  }

  /** The input without its whitespace characters. */
  function RemoveWhitespace(s: string): string
  {
    if |s| == 0 then ""
    else (if IsWhitespace(s[0]) then "" else [s[0]]) + RemoveWhitespace(s[1..])
  }

  /** `split_whitespace` loses exactly the whitespace: its tokens concatenate
      to the input with the whitespace removed. */
  lemma {:induction false} SplitWhitespaceFlatten(s: string)
    ensures Flatten(SplitWhitespace(s)) == RemoveWhitespace(s)
    decreases |s|
  {
    if |s| > 0 {
      SplitWhitespaceFlatten(s[1..]);
      if !IsWhitespace(s[0]) {
        var rest := SplitWhitespace(s[1..]);
        if |s| > 1 && !IsWhitespace(s[1]) {
          var t := [[s[0]] + rest[0]] + rest[1..];
          assert t[1..] == rest[1..];
          assert Flatten(rest) == rest[0] + Flatten(rest[1..]);
        } else {
          assert ([[s[0]]] + rest)[1..] == rest;
        }
      }
    }
  }

  // ---------------------------------------------------------------------
  // Decimal numbers: `usize::to_string` and `str::parse::<usize>`
  // ---------------------------------------------------------------------

  predicate IsDigit(c: char)
  {
    '0' <= c <= '9'
  }

  predicate AllDigits(s: string)
  {
    forall k :: 0 <= k < |s| ==> IsDigit(s[k])
  }

  function DigitValue(c: char): nat
    requires IsDigit(c)
  {
    (c as int - '0' as int) as nat
  }

  function DigitChar(d: nat): (c: char)
    requires d < 10
    ensures IsDigit(c) && DigitValue(c) == d
  {
    ('0' as int + d) as char
  }

  /** Value of a string of decimal digits, most significant first. */
  function DigitsValue(s: string): nat
    requires AllDigits(s)
  {
    if |s| == 0 then 0 else DigitsValue(s[..|s| - 1]) * 10 + DigitValue(s[|s| - 1])
  }

  /** Decimal rendering of a natural number (`to_string` / `{}`). */
  function NatToString(n: nat): (s: string)
    ensures |s| > 0 && AllDigits(s)
  {
    if n < 10 then [DigitChar(n)] else NatToString(n / 10) + [DigitChar(n % 10)]
  }

  /** `s.parse::<usize>()`: an optional '+', at least one ASCII digit, and a
      value that fits in a `usize`; anything else is an error. */
  function ParseUsize(s: string): (r: Option<nat>)
    ensures r.Some? ==> r.value <= USIZE_MAX
    ensures AllDigits(s) && |s| > 0 && r.Some? ==> r.value == DigitsValue(s)
  {
    var digits := if |s| > 0 && s[0] == '+' then s[1..] else s;
    if |digits| > 0 && AllDigits(digits) && DigitsValue(digits) <= USIZE_MAX
    then Some(DigitsValue(digits))
    else None
  }

  lemma {:induction false} DigitsValueOfNatToString(n: nat)
    ensures DigitsValue(NatToString(n)) == n
  {
    if n >= 10 {
      DigitsValueOfNatToString(n / 10);
      var s := NatToString(n);
      assert s[..|s| - 1] == NatToString(n / 10);
    }
  }

  /** Printing a `usize` and parsing it back is the identity. */
  lemma ParseUsizeOfNatToString(n: nat)
    requires n <= USIZE_MAX
    ensures ParseUsize(NatToString(n)) == Some(n)
  {
    DigitsValueOfNatToString(n);
  }

  // ---------------------------------------------------------------------
  // Case mapping (`to_lowercase` / `to_uppercase`) as far as it can bear
  // on the ASCII words the tool compares against
  // ---------------------------------------------------------------------

  /** Lower-case mapping of one character: the ASCII letters and the Kelvin
      sign (U+212A, which lower-cases to 'k'); other characters are kept. */
  function LowerChar(c: char): char
  {
    if 'A' <= c <= 'Z' then (c as int + 32) as char
    else if c == '\U{212A}' then 'k'
    else c
  }

  /** Upper-case mapping of one character: the ASCII letters, dotless i
      (U+0131, to 'I') and long s (U+017F, to 'S'); other characters are kept. */
  function UpperChar(c: char): char
  {
    if 'a' <= c <= 'z' then (c as int - 32) as char
    else if c == '\U{0131}' then 'I'
    else if c == '\U{017F}' then 'S'
    else c
  }

  function ToLower(s: string): (r: string)
    ensures |r| == |s| && forall k :: 0 <= k < |s| ==> r[k] == LowerChar(s[k])
  {
    seq(|s|, k requires 0 <= k < |s| => LowerChar(s[k]))
  }

  function ToUpper(s: string): (r: string)
    ensures |r| == |s| && forall k :: 0 <= k < |s| ==> r[k] == UpperChar(s[k])
  {
    seq(|s|, k requires 0 <= k < |s| => UpperChar(s[k]))
  }

  function Max(a: int, b: int): int
  {
    if a < b then b else a
  }

  lemma AppendLast<T>(a: seq<T>, xs: seq<T>)
    requires |xs| > 0
    ensures a + xs == (a + xs[..|xs| - 1]) + [xs[|xs| - 1]]
  {
    assert xs == xs[..|xs| - 1] + [xs[|xs| - 1]];
  }

  /** Dropping the first of a window and appending shifts the window. */
  lemma SliceShift<T>(s: seq<T>, x: T, k: nat)
    requires k < |s|
    ensures s[k..][1..] + [x] == (s + [x])[k + 1..]
  {
  }
}
