/**
 * JavaScript string primitives the core relies on: the white-space set shared by
 * `String.prototype.trim` and the regular-expression class `\s` (the WhiteSpace and
 * LineTerminator code points of ECMAScript), `trim` itself, the `length` JavaScript reports,
 * `split` and `join`, and the ordering of strings used when ISO-8601 dates are compared.
 *
 * A Dafny `char` is a Unicode scalar value, while a JavaScript string is a sequence of UTF-16
 * code units. Every character the rules look for (white space, digits, `.`, `,`, `"`) is a
 * single code unit, so searching and trimming agree; lengths are converted by `JsLength`.
 */
module JsText {

  /** ECMAScript WhiteSpace plus LineTerminator: the characters `trim` removes and `\s` matches. */
  predicate IsWhitespace(c: char) {
    c == '\U{0009}' || c == '\U{000A}' || c == '\U{000B}' || c == '\U{000C}' || c == '\U{000D}' ||
    c == '\U{0020}' || c == '\U{00A0}' || c == '\U{1680}' ||
    ('\U{2000}' <= c <= '\U{200A}') ||
    c == '\U{2028}' || c == '\U{2029}' || c == '\U{202F}' || c == '\U{205F}' || c == '\U{3000}' ||
    c == '\U{FEFF}'
  }

  predicate AllWhitespace(s: string) {
    forall i :: 0 <= i < |s| ==> IsWhitespace(s[i])
  }

  /** `s` without its leading white space (see `TrimStartShape`). */
  function TrimStart(s: string): (r: string)
    ensures |r| <= |s|
    decreases |s|
  {
    if s != [] && IsWhitespace(s[0]) then TrimStart(s[1..]) else s
  }

  /** `s` without its trailing white space (see `TrimEndShape`). */
  function TrimEnd(s: string): (r: string)
    ensures |r| <= |s|
    decreases |s|
  {
    if s != [] && IsWhitespace(s[|s| - 1]) then TrimEnd(s[..|s| - 1]) else s
  }

  /** `String.prototype.trim`: white space removed at both ends. */
  function Trim(s: string): (r: string)
    ensures |r| <= |s|
  {
    TrimEnd(TrimStart(s))
  }

  /** `TrimStart` keeps a suffix that does not start with white space and drops only white space. */
  lemma {:induction false} TrimStartShape(s: string)
    ensures var r := TrimStart(s);
      && r == s[|s| - |r|..] && AllWhitespace(s[..|s| - |r|]) && (r == [] || !IsWhitespace(r[0]))
    decreases |s|
  {
    if s != [] && IsWhitespace(s[0]) {
      TrimStartShape(s[1..]);
      var r := TrimStart(s);
      assert s[1..][|s| - 1 - |r|..] == s[|s| - |r|..];
      assert s[..|s| - |r|] == [s[0]] + s[1..][..|s| - 1 - |r|];
    } else {
      assert s[..0] == [];
    }
  }

  /** `TrimEnd` keeps a prefix that does not end with white space and drops only white space. */
  lemma {:induction false} TrimEndShape(s: string)
    ensures var r := TrimEnd(s);
      && r == s[..|r|] && AllWhitespace(s[|r|..]) && (r == [] || !IsWhitespace(r[|r| - 1]))
    decreases |s|
  {
    if s != [] && IsWhitespace(s[|s| - 1]) {
      TrimEndShape(s[..|s| - 1]);
      var r := TrimEnd(s);
      assert s[..|s| - 1][..|r|] == s[..|r|];
      assert s[|r|..] == s[..|s| - 1][|r|..] + [s[|s| - 1]];
    } else {
      assert s[|s|..] == [];
    }
  }

  /** The trim neither starts nor ends with white space. */
  lemma TrimEnds(s: string)
    ensures var r := Trim(s); r == [] || (!IsWhitespace(r[0]) && !IsWhitespace(r[|r| - 1]))
  {
    var t := TrimStart(s);
    TrimStartShape(s);
    TrimEndShape(t);
    var r := TrimEnd(t);
    if r != [] {
      assert r[0] == t[0];
    }
  }

  /** The trim is the slice `s[i..j]` whose surroundings are all white space. */
  lemma TrimSlice(s: string)
    ensures exists i, j :: 0 <= i <= j <= |s| && Trim(s) == s[i..j] && AllWhitespace(s[..i]) && AllWhitespace(s[j..])
  {
    var t := TrimStart(s);
    TrimStartShape(s);
    TrimEndShape(t);
    var r := TrimEnd(t);
    var i := |s| - |t|;
    assert r == s[i..i + |r|];
    assert s[i + |r|..] == t[|r|..];
  }

  /** Trimming is idempotent. */
  lemma TrimIdempotent(s: string)
    ensures Trim(Trim(s)) == Trim(s)
  {
    TrimEnds(s);
    TrimFixed(Trim(s));
  }

  /** A string trims to the empty string exactly when it consists of white space only. */
  lemma TrimEmptyIff(s: string)
    ensures Trim(s) == [] <==> AllWhitespace(s)
  {
    if AllWhitespace(s) {
      AllWhitespaceTrimStart(s);
    } else {
      TrimSlice(s);
    }
  }

  lemma {:induction false} AllWhitespaceTrimStart(s: string)
    requires AllWhitespace(s)
    ensures TrimStart(s) == []
    decreases |s|
  {
    if s != [] {
      AllWhitespaceTrimStart(s[1..]);
    }
  }

  lemma {:induction false} TrimStartSkips(pad: string, t: string)
    requires AllWhitespace(pad)
    requires t == [] || !IsWhitespace(t[0])
    ensures TrimStart(pad + t) == t
    decreases |pad|
  {
    if pad == [] {
      assert pad + t == t;
    } else {
      assert (pad + t)[1..] == pad[1..] + t;
      TrimStartSkips(pad[1..], t);
    }
  }

  lemma {:induction false} TrimEndSkips(t: string, pad: string)
    requires AllWhitespace(pad)
    requires t == [] || !IsWhitespace(t[|t| - 1])
    ensures TrimEnd(t + pad) == t
    decreases |pad|
  {
    if pad == [] {
      assert t + pad == t;
    } else {
      assert (t + pad)[..|t + pad| - 1] == t + pad[..|pad| - 1];
      TrimEndSkips(t, pad[..|pad| - 1]);
    }
  }

  /** Trimming removes exactly the white space added around a string that has none at its ends. */
  lemma TrimPadded(s: string, pad1: string, pad2: string)
    requires AllWhitespace(pad1) && AllWhitespace(pad2)
    requires s == [] || (!IsWhitespace(s[0]) && !IsWhitespace(s[|s| - 1]))
    ensures Trim(pad1 + s + pad2) == s
  {
    if s == [] {
      assert pad1 + s + pad2 == pad1 + pad2;
      AllWhitespaceTrimStart(pad1 + pad2);
    } else {
      assert pad1 + s + pad2 == pad1 + (s + pad2);
      TrimStartSkips(pad1, s + pad2);
      TrimEndSkips(s, pad2);
    }
  }

  /** A string with no white space at either end is its own trim. */
  lemma TrimFixed(s: string)
    requires s == [] || (!IsWhitespace(s[0]) && !IsWhitespace(s[|s| - 1]))
    ensures Trim(s) == s
  {
    TrimPadded(s, [], []);
    assert [] + s + [] == s;
  }

  // ---------------------------------------------------------------------------
  // length
  // ---------------------------------------------------------------------------

  /** The first character outside the Basic Multilingual Plane: from here on, UTF-16 needs two
      code units (a surrogate pair) per character. */
  const SupplementaryStart := 0x1_0000

  /** `s.length` in JavaScript: the number of UTF-16 code units of `s`. */
  function JsLength(s: string): (n: nat)
    ensures |s| <= n <= 2 * |s|
    ensures n == 0 <==> s == []
  {
    if s == [] then 0 else (if s[0] as int >= SupplementaryStart then 2 else 1) + JsLength(s[1..])
  }

  /** Text without characters beyond the Basic Multilingual Plane has one code unit per character. */
  lemma {:induction false} JsLengthBasic(s: string)
    requires forall i :: 0 <= i < |s| ==> (s[i] as int) < SupplementaryStart
    ensures JsLength(s) == |s|
  {
    if s != [] {
      JsLengthBasic(s[1..]);
    }
  }

  /** Code-unit lengths add up under concatenation. */
  lemma {:induction false} JsLengthAppend(a: string, b: string)
    ensures JsLength(a + b) == JsLength(a) + JsLength(b)
  {
    if a == [] {
      assert a + b == b;
    } else {
      assert (a + b)[1..] == a[1..] + b;
      JsLengthAppend(a[1..], b);
    }
  }

  /** A character beyond the Basic Multilingual Plane counts twice. */
  lemma SurrogatePairLength()
    ensures JsLength("\U{1F600}") == 2 && JsLength("abc") == 3
  {
  }

  /** Lexicographic ordering of strings by character, which is the database's ordering on the
      ASCII text of ISO-8601 dates. */
  predicate LexLeq(a: string, b: string)
    decreases |a|
  {
    a == [] || (b != [] && (a[0] < b[0] || (a[0] == b[0] && LexLeq(a[1..], b[1..]))))
  }

  /** The ordering is total. */
  lemma {:induction false} LexLeqTotal(a: string, b: string)
    ensures LexLeq(a, b) || LexLeq(b, a)
    decreases |a|
  {
    if a != [] && b != [] && a[0] == b[0] {
      LexLeqTotal(a[1..], b[1..]);
    }
  }

  /** The ordering is transitive. */
  lemma {:induction false} LexLeqTrans(a: string, b: string, c: string)
    requires LexLeq(a, b) && LexLeq(b, c)
    ensures LexLeq(a, c)
    decreases |a|
  {
    if a != [] && a[0] == b[0] && b[0] == c[0] {
      LexLeqTrans(a[1..], b[1..], c[1..]);
    }
  }

  // ---------------------------------------------------------------------------
  // join and split
  // ---------------------------------------------------------------------------

  /** `xs.join(sep)`. */
  function Join(xs: seq<string>, sep: string): string {
    if xs == [] then "" else if |xs| == 1 then xs[0] else xs[0] + sep + Join(xs[1..], sep)
  }

  /** The position of the first `c` in `s`, or `|s|` when there is none. */
  function IndexOf(s: string, c: char): (i: nat)
    ensures i <= |s| && (i < |s| ==> s[i] == c)
  {
    if s == [] then 0 else if s[0] == c then 0 else 1 + IndexOf(s[1..], c)
  }

  /** No `c` comes before the position `IndexOf` finds. */
  lemma {:induction false} IndexOfFirst(s: string, c: char)
    ensures c !in s[..IndexOf(s, c)]
  {
    if s != [] && s[0] != c {
      IndexOfFirst(s[1..], c);
      assert s[..IndexOf(s, c)] == [s[0]] + s[1..][..IndexOf(s[1..], c)];
    }
  }

  /** `s.split(c)`. */
  function Split(s: string, c: char): (parts: seq<string>)
    ensures |parts| >= 1
    decreases |s|
  {
    var i := IndexOf(s, c);
    if i == |s| then [s] else [s[..i]] + Split(s[i + 1..], c)
  }

  /** Splitting a join at the separator gives the parts back when no part holds the separator. */
  lemma {:induction false} SplitJoin(xs: seq<string>, c: char)
    requires xs != []
    requires forall k :: 0 <= k < |xs| ==> c !in xs[k]
    ensures Split(Join(xs, [c]), c) == xs
  {
    if |xs| == 1 {
      NoSeparator(xs[0], c);
    } else {
      var more := Join(xs[1..], [c]);
      var s := xs[0] + [c] + more;
      NoSeparator(xs[0], c);
      assert IndexOf(s, c) == |xs[0]| by {
        assert s == xs[0] + ([c] + more);
        IndexOfPrefix(xs[0], c, [c] + more);
        assert IndexOf([c] + more, c) == 0;
      }
      assert s[..|xs[0]|] == xs[0];
      assert s[|xs[0]| + 1..] == more;
      SplitJoin(xs[1..], c);
    }
  }

  /** A string without `c` has no `c` to find and splits into itself alone. */
  lemma {:induction false} NoSeparator(s: string, c: char)
    requires c !in s
    ensures IndexOf(s, c) == |s| && Split(s, c) == [s]
  {
    IndexOfPrefix(s, c, []);
    assert s + [] == s;
  }

  /** The first `c` of `a + b` lies in `b` when `a` holds none. */
  lemma {:induction false} IndexOfPrefix(a: string, c: char, b: string)
    requires c !in a
    ensures IndexOf(a + b, c) == |a| + IndexOf(b, c)
  {
    if a != [] {
      assert a[0] in a;
      assert (a + b)[1..] == a[1..] + b;
      assert c !in a[1..] by {
        forall x | x in a[1..] ensures x in a { }
      }
      IndexOfPrefix(a[1..], c, b);
      assert IndexOf(a + b, c) == 1 + IndexOf((a + b)[1..], c);
    } else {
      assert a + b == b;
    }
  }

  lemma {:induction false} JoinAvoids(xs: seq<string>, sep: string, c: char)
    requires c !in sep
    requires forall k :: 0 <= k < |xs| ==> c !in xs[k]
    ensures c !in Join(xs, sep)
  {
    if |xs| > 1 {
      JoinAvoids(xs[1..], sep, c);
    }
  }

  /** The last piece of `s.split(c)`, as `pop()` takes it. */
  function LastPart(s: string, c: char): string {
    Last(Split(s, c))
  }

  function Last<T>(xs: seq<T>): T
    requires xs != []
  {
    xs[|xs| - 1]
  }

  /** The last piece of `s.split(c)` holds no `c` and ends `s`: it is all of `s` when `s` has no
      `c`, and otherwise it starts right after the last `c`. */
  lemma {:induction false} SplitLast(s: string, c: char)
    ensures c !in LastPart(s, c)
    ensures |LastPart(s, c)| <= |s| && s[|s| - |LastPart(s, c)|..] == LastPart(s, c)
    ensures c !in s ==> LastPart(s, c) == s
    ensures c in s ==> |LastPart(s, c)| < |s| && s[|s| - |LastPart(s, c)| - 1] == c
    decreases |s|
  {
    var i := IndexOf(s, c);
    IndexOfFirst(s, c);
    if i == |s| {
      NoSeparatorLastPart(s, c);
    } else {
      var t := s[i + 1..];
      LastPartAfterFirst(s, c);
      SplitLast(t, c);
      LastPieceStep(s, c, i, LastPart(t, c));
    }
  }

  lemma NoSeparatorLastPart(s: string, c: char)
    requires IndexOf(s, c) == |s|
    ensures LastPart(s, c) == s
  {
    assert Split(s, c) == [s];
  }

  /** The arithmetic of one step of `SplitLast`: a tail piece of `s[i + 1..]` is a tail piece of
      `s` that follows a `c`. */
  lemma LastPieceStep(s: string, c: char, i: nat, last: string)
    requires i < |s| && s[i] == c
    requires |last| <= |s| - i - 1 && s[i + 1..][|s| - i - 1 - |last|..] == last
    requires c !in s[i + 1..] ==> last == s[i + 1..]
    requires c in s[i + 1..] ==> |last| < |s| - i - 1 && s[i + 1..][|s| - i - 1 - |last| - 1] == c
    ensures c in s && |last| < |s| && s[|s| - |last|..] == last && s[|s| - |last| - 1] == c
  {
    var t := s[i + 1..];
    assert s[i] in s;
    assert t[|t| - |last|..] == s[|s| - |last|..];
    if c in t {
      assert s[|s| - |last| - 1] == t[|t| - |last| - 1];
    }
  }

  /** Past the first `c`, the last piece is that of the rest of the string. */
  lemma LastPartAfterFirst(s: string, c: char)
    requires IndexOf(s, c) < |s|
    ensures LastPart(s, c) == LastPart(s[IndexOf(s, c) + 1..], c)
  {
    var i := IndexOf(s, c);
    var parts := Split(s[i + 1..], c);
    assert Split(s, c) == [s[..i]] + parts;
    LastCons(s[..i], parts);
  }

  lemma LastCons<T>(x: T, ys: seq<T>)
    requires ys != []
    ensures Last([x] + ys) == Last(ys)
  {
  }

}
