/**
 * The small part of Python's string library that the scripts rely on:
 * `str.strip()`, `str.split(sep)`, `re.split('[,，]', …)`, `str.replace`
 * and a database/CSV cell that may be NULL or NaN, and the label that the
 * word-cloud programs use for "every poet".
 */
module Text {

  datatype Option<T> = None | Some(value: T)

  /** A cell read from the database or a CSV file: NULL/NaN, or a string. */
  datatype Field = Null | Value(s: string)

  /** The ASCII comma and the full-width comma, the two separators every script accepts. */
  const FullComma: char := '，'
  const Commas: set<char> := {',', FullComma}
  const AsciiComma: set<char> := {','}

  /** The poet-selector label that stands for every poet, in the word-cloud window and the web service. */
  const AllPoets: string := "全部诗人"

  /** Python's `str.isspace()` for one character. */
  predicate IsSpace(c: char) {
    var n := c as int;
    (0x09 <= n <= 0x0D) || (0x1C <= n <= 0x20) || n == 0x85 || n == 0xA0 || n == 0x1680
    || (0x2000 <= n <= 0x200A) || n == 0x2028 || n == 0x2029 || n == 0x202F || n == 0x205F
    || n == 0x3000
  }

  /** Leading whitespace removed. */
  function TrimLeft(s: string): string {
    if s != [] && IsSpace(s[0]) then TrimLeft(s[1..]) else s
  }

  /** Trailing whitespace removed. */
  function TrimRight(s: string): string {
    if s != [] && IsSpace(s[|s| - 1]) then TrimRight(s[..|s| - 1]) else s
  }

  /** Python's `s.strip()`. */
  function Strip(s: string): string {
    TrimRight(TrimLeft(s))
  }

  /** `TrimLeft` keeps the longest suffix that does not start with a space. */
  lemma {:induction false} TrimLeftSpec(s: string)
    ensures |TrimLeft(s)| <= |s| && TrimLeft(s) == s[|s| - |TrimLeft(s)|..]
    ensures TrimLeft(s) == [] || !IsSpace(TrimLeft(s)[0])
    ensures forall i :: 0 <= i < |s| - |TrimLeft(s)| ==> IsSpace(s[i])
  {
    if s != [] && IsSpace(s[0]) {
      var t := s[1..];
      TrimLeftSpec(t);
      var n := |s| - |TrimLeft(t)|;
      assert t[n - 1..] == s[n..];
      forall i | 0 <= i < n ensures IsSpace(s[i]) {
        if i > 0 {
          assert s[i] == t[i - 1];
        }
      }
    }
  }

  /** `TrimRight` keeps the longest prefix that does not end with a space. */
  lemma {:induction false} TrimRightSpec(s: string)
    ensures |TrimRight(s)| <= |s| && TrimRight(s) == s[..|TrimRight(s)|]
    ensures TrimRight(s) == [] || !IsSpace(TrimRight(s)[|TrimRight(s)| - 1])
    ensures forall i :: |TrimRight(s)| <= i < |s| ==> IsSpace(s[i])
  {
    if s != [] && IsSpace(s[|s| - 1]) {
      var t := s[..|s| - 1];
      TrimRightSpec(t);
      var n := |TrimRight(t)|;
      assert t[..n] == s[..n];
      forall i | n <= i < |s| ensures IsSpace(s[i]) {
        if i < |s| - 1 {
          assert s[i] == t[i];
        }
      }
    }
  }

  /**
   * `s.strip()` is the slice of `s` between its leading and its trailing
   * whitespace: it neither starts nor ends with a space, and everything cut
   * off is whitespace.
   */
  lemma StripSpec(s: string)
    ensures var i := |s| - |TrimLeft(s)|;
      0 <= i <= i + |Strip(s)| <= |s| && Strip(s) == s[i..i + |Strip(s)|]
      && (forall k :: 0 <= k < i ==> IsSpace(s[k]))
      && (forall k :: i + |Strip(s)| <= k < |s| ==> IsSpace(s[k]))
    ensures Strip(s) == [] || (!IsSpace(Strip(s)[0]) && !IsSpace(Strip(s)[|Strip(s)| - 1]))
  {
    var l := TrimLeft(s);
    TrimLeftSpec(s);
    TrimRightSpec(l);
    var r := TrimRight(l);
    var i := |s| - |l|;
    assert l == s[i..];
    assert r == l[..|r|];
    assert r == s[i..i + |r|];
    forall k | i + |r| <= k < |s| ensures IsSpace(s[k]) {
      assert s[k] == l[k - i];
    }
  }

  lemma StripIdempotent(s: string)
    ensures Strip(Strip(s)) == Strip(s)
  {
    StripSpec(s);
    var r := Strip(s);
    assert TrimLeft(r) == r;
    assert TrimRight(r) == r;
  }

  /** Stripping only removes characters. */
  lemma StripChars(s: string, c: char)
    requires c !in s
    ensures c !in Strip(s)
  {
    StripSpec(s);
  }

  /** A string is blank when stripping leaves nothing: `len(s.strip()) == 0`. */
  lemma BlankIffAllSpace(s: string)
    ensures Strip(s) == [] <==> forall i :: 0 <= i < |s| ==> IsSpace(s[i])
  {
    StripSpec(s);
    if Strip(s) != [] {
      var i := |s| - |TrimLeft(s)|;
      assert s[i] == Strip(s)[0];
    }
  }

  /**
   * Python's `s.split(sep)` for single-character separators (one of `seps`),
   * which is also `re.split('[…]', s)` for a character class: every separator
   * ends a piece, so there is always one more piece than separators.
   */
  function Split(s: string, seps: set<char>): (r: seq<string>)
    ensures |r| >= 1
    ensures forall i, j :: 0 <= i < |r| && 0 <= j < |r[i]| ==> r[i][j] !in seps
  {
    if s == [] then [[]]
    else
      var rest := Split(s[1..], seps);
      if s[0] in seps then [[]] + rest
      else [[s[0]] + rest[0]] + rest[1..]
  }

  /** Splitting only cuts: a character absent from `s` is absent from every piece. */
  lemma {:induction false} SplitChars(s: string, seps: set<char>, c: char)
    requires c !in s
    ensures forall i :: 0 <= i < |Split(s, seps)| ==> c !in Split(s, seps)[i]
  {
    if s != [] {
      assert c !in s[1..];
      SplitChars(s[1..], seps, c);
    }
  }

  /** The number of characters of `s` that are in `cs`. */
  function CountIn(s: string, cs: set<char>): nat {
    if s == [] then 0 else (if s[0] in cs then 1 else 0) + CountIn(s[1..], cs)
  }

  /** There is one more piece than separators. */
  lemma {:induction false} SplitCount(s: string, seps: set<char>)
    ensures |Split(s, seps)| == CountIn(s, seps) + 1
  {
    if s != [] {
      SplitCount(s[1..], seps);
    }
  }

  /** `sep.join(parts)`: the inverse of `Split` with one separator. */
  function Join(parts: seq<string>, sep: char): string
    requires |parts| >= 1
  {
    if |parts| == 1 then parts[0] else parts[0] + [sep] + Join(parts[1..], sep)
  }

  lemma {:induction false} JoinSplit(s: string, sep: char)
    ensures Join(Split(s, {sep}), sep) == s
  {
    if s != [] {
      JoinSplit(s[1..], sep);
      var rest := Split(s[1..], {sep});
      if s[0] != sep {
        if |rest| == 1 {
        } else {
          assert ([s[0]] + rest[0]) + [sep] + Join(rest[1..], sep) == [s[0]] + Join(rest, sep);
        }
      }
    }
  }

  lemma {:induction false} SplitJoin(parts: seq<string>, sep: char)
    requires |parts| >= 1
    requires forall i, j :: 0 <= i < |parts| && 0 <= j < |parts[i]| ==> parts[i][j] != sep
    ensures Split(Join(parts, sep), {sep}) == parts
  {
    if |parts| == 1 {
      SplitNoSeparator(parts[0], {sep});
    } else {
      SplitJoin(parts[1..], sep);
      SplitAfterPiece(parts[0], sep, Join(parts[1..], sep));
    }
  }

  lemma {:induction false} SplitNoSeparator(s: string, seps: set<char>)
    requires forall j :: 0 <= j < |s| ==> s[j] !in seps
    ensures Split(s, seps) == [s]
  {
    if s != [] {
      SplitNoSeparator(s[1..], seps);
      assert [s[0]] + s[1..] == s;
    }
  }

  lemma {:induction false} SplitAfterPiece(p: string, sep: char, t: string)
    requires forall j :: 0 <= j < |p| ==> p[j] != sep
    ensures Split(p + [sep] + t, {sep}) == [p] + Split(t, {sep})
  {
    if p == [] {
      assert p + [sep] + t == [sep] + t;
      assert ([sep] + t)[1..] == t;
    } else {
      SplitAfterPiece(p[1..], sep, t);
      assert (p + [sep] + t)[1..] == p[1..] + [sep] + t;
      assert [p[0]] + p[1..] == p;
    }
  }

  /** Python's `s.replace(a, b)` for single characters. */
  function Replace(s: string, a: char, b: char): (r: string)
    ensures |r| == |s|
    ensures forall i :: 0 <= i < |s| ==> r[i] == (if s[i] == a then b else s[i])
  {
    if s == [] then [] else [if s[0] == a then b else s[0]] + Replace(s[1..], a, b)
  }

  /** Python's `s.replace(c, '')`: every occurrence of `c` deleted, the rest kept in order. */
  function Remove(s: string, c: char): (r: string)
    ensures c !in r
    ensures |r| == |s| - Occurrences(s, c)
  {
    if s == [] then [] else (if s[0] == c then [] else [s[0]]) + Remove(s[1..], c)
  }

  /** Deleting `c` from a concatenation deletes it from each part: the other characters keep their order. */
  lemma {:induction false} RemoveAppend(a: string, b: string, c: char)
    ensures Remove(a + b, c) == Remove(a, c) + Remove(b, c)
  {
    if a == [] {
      assert a + b == b;
    } else {
      var head := if a[0] == c then [] else [a[0]];
      RemoveAppend(a[1..], b, c);
      assert (a + b)[0] == a[0] && (a + b)[1..] == a[1..] + b;
      assert Remove(a + b, c) == head + Remove(a[1..] + b, c);
      assert Remove(a, c) == head + Remove(a[1..], c);
    }
  }

  /** Python's `s.count(c)`. */
  function Occurrences(s: string, c: char): nat {
    if s == [] then 0 else (if s[0] == c then 1 else 0) + Occurrences(s[1..], c)
  }

  lemma {:induction false} OccurrencesAppend(a: string, b: string, c: char)
    ensures Occurrences(a + b, c) == Occurrences(a, c) + Occurrences(b, c)
  {
    if a != [] {
      OccurrencesAppend(a[1..], b, c);
      assert (a + b)[1..] == a[1..] + b;
    } else {
      assert a + b == b;
    }
  }

  /**
   * Replacing `a` by `b` and then splitting on `b` is splitting on either
   * character: `s.replace('，', ',').split(',')` splits on both comma glyphs.
   */
  lemma {:induction false} ReplaceThenSplit(s: string, a: char, b: char)
    ensures Split(Replace(s, a, b), {b}) == Split(s, {a, b})
  {
    if s != [] {
      ReplaceThenSplit(s[1..], a, b);
      assert Replace(s, a, b)[1..] == Replace(s[1..], a, b);
    }
  }

  /** The index of the first occurrence of `c` in `s` (what `re.search` finds first). */
  function IndexOf(s: string, c: char): (r: Option<nat>)
    ensures r.None? ==> c !in s
    ensures r.Some? ==> r.value < |s| && s[r.value] == c && c !in s[..r.value]
  {
    if s == [] then None
    else if s[0] == c then Some(0)
    else match IndexOf(s[1..], c)
      case None => None
      case Some(i) => assert s[..i + 1] == [s[0]] + s[1..][..i]; Some(i + 1)
  }

  /** The first `c` after a `c`-free prefix is found right after that prefix. */
  lemma IndexAfter(a: string, c: char, x: string)
    requires c !in a
    ensures IndexOf(a + [c] + x, c) == Some(|a|)
  {
    assert (a + [c] + x)[|a|] == c;
  }

  /** `[y for x in xs for y in f(x)]`: the nested append loops of the scripts. */
  function FlatMap<T, U>(xs: seq<T>, f: T -> seq<U>): seq<U> {
    if xs == [] then [] else f(xs[0]) + FlatMap(xs[1..], f)
  }

  lemma {:induction false} FlatMapAppend<T, U>(xs: seq<T>, ys: seq<T>, f: T -> seq<U>)
    ensures FlatMap(xs + ys, f) == FlatMap(xs, f) + FlatMap(ys, f)
  {
    if xs != [] {
      FlatMapAppend(xs[1..], ys, f);
      assert (xs + ys)[1..] == xs[1..] + ys;
    } else {
      assert xs + ys == ys;
    }
  }

  /** Extending the input by one element extends the flattened output by that element's image. */
  lemma FlatMapSnoc<T, U>(xs: seq<T>, x: T, f: T -> seq<U>)
    ensures FlatMap(xs + [x], f) == FlatMap(xs, f) + f(x)
  {
    FlatMapAppend(xs, [x], f);
    assert FlatMap([x], f) == f(x) + FlatMap([], f);
  }

  /** The loop step: one more element of the input, one more image at the end. */
  lemma FlatMapPrefix<T, U>(xs: seq<T>, k: nat, f: T -> seq<U>)
    requires k < |xs|
    ensures FlatMap(xs[..k + 1], f) == FlatMap(xs[..k], f) + f(xs[k])
  {
    FlatMapSnoc(xs[..k], xs[k], f);
    assert xs[..k + 1] == xs[..k] + [xs[k]];
  }

  /** A property every image has is a property of the flattened result. */
  lemma {:induction false} FlatMapAll<T, U>(xs: seq<T>, f: T -> seq<U>, p: U -> bool)
    requires forall i, y :: 0 <= i < |xs| && y in f(xs[i]) ==> p(y)
    ensures forall y :: y in FlatMap(xs, f) ==> p(y)
  {
    if xs != [] {
      FlatMapAll(xs[1..], f, p);
      assert f(xs[0]) == f(xs[..][0]);
      forall y | y in FlatMap(xs, f) ensures p(y) {
        if y in f(xs[0]) {
        } else {
          assert y in FlatMap(xs[1..], f);
        }
      }
    }
  }

  /**
   * Splitting on `a` and then splitting every piece on `b` gives the same
   * pieces as splitting once on either character: `s.split('，')` followed by
   * `piece.split(',')` splits on both comma glyphs.
   */
  lemma {:induction false} SplitTwice(s: string, a: char, b: char)
    requires a != b
    ensures FlatMap(Split(s, {a}), (t: string) => Split(t, {b})) == Split(s, {a, b})
  {
    var f := (t: string) => Split(t, {b});
    if s != [] {
      SplitTwice(s[1..], a, b);
      SplitTwiceStep(s, a, b, f);
    }
  }

  /** One character of `SplitTwice`: the equation for `s[1..]` extends to `s`. */
  lemma SplitTwiceStep(s: string, a: char, b: char, f: string -> seq<string>)
    requires a != b && s != []
    requires forall t :: f(t) == Split(t, {b})
    requires FlatMap(Split(s[1..], {a}), f) == Split(s[1..], {a, b})
    ensures FlatMap(Split(s, {a}), f) == Split(s, {a, b})
  {
    var r := Split(s[1..], {a});
    var q := Split(s[1..], {a, b});
    if s[0] == a {
      assert Split(s, {a}) == [[]] + r;
      assert Split(s, {a, b}) == [[]] + q;
      assert FlatMap([[]] + r, f) == f([]) + FlatMap(r, f) by {
        assert ([[]] + r)[1..] == r;
      }
    } else {
      var first := [s[0]] + r[0];
      assert Split(s, {a}) == [first] + r[1..];
      assert FlatMap([first] + r[1..], f) == f(first) + FlatMap(r[1..], f) by {
        assert ([first] + r[1..])[1..] == r[1..];
      }
      assert FlatMap(r, f) == f(r[0]) + FlatMap(r[1..], f);
      SplitTwiceFirst(s, a, b, r[0], FlatMap(r[1..], f));
    }
  }

  /** `SplitTwiceStep` when `s[0]` is not `a`: `s[0]` joins or starts the first piece. */
  lemma SplitTwiceFirst(s: string, a: char, b: char, r0: string, rest: seq<string>)
    requires a != b && s != [] && s[0] != a
    requires Split(s[1..], {a, b}) == Split(r0, {b}) + rest
    ensures Split([s[0]] + r0, {b}) + rest == Split(s, {a, b})
  {
    SplitCons(s[0], r0, {b});
    SplitCons(s[0], s[1..], {a, b});
    assert [s[0]] + s[1..] == s;
    JoinPieces(s[0], s[0] == b, Split(r0, {b}), rest, Split([s[0]] + r0, {b}), Split(s, {a, b}));
  }

  /**
   * The two ways `s[0]` can meet the pieces `p` (a separator opens an empty
   * piece, any other character joins the first one) commute with appending
   * the pieces `rest`.
   */
  lemma JoinPieces(c: char, isSep: bool, p: seq<string>, rest: seq<string>, x: seq<string>, y: seq<string>)
    requires |p| >= 1
    requires x == if isSep then [[]] + p else [[c] + p[0]] + p[1..]
    requires y == if isSep then [[]] + (p + rest) else [[c] + (p + rest)[0]] + (p + rest)[1..]
    ensures x + rest == y
  {
    if isSep {
      assert x + rest == [[]] + (p + rest);
    } else {
      JoinFirstPiece(c, p, rest);
    }
  }

  /** `Split` on a string that starts with the character `c`. */
  lemma SplitCons(c: char, t: string, seps: set<char>)
    ensures Split([c] + t, seps) == if c in seps then [[]] + Split(t, seps)
      else [[c] + Split(t, seps)[0]] + Split(t, seps)[1..]
  {
    assert ([c] + t)[1..] == t;
  }

  /** Prefixing a character to the first piece commutes with appending more pieces. */
  lemma JoinFirstPiece(c: char, p: seq<string>, rest: seq<string>)
    requires |p| >= 1
    ensures [[c] + p[0]] + p[1..] + rest == [[c] + (p + rest)[0]] + (p + rest)[1..]
  {
    assert (p + rest)[0] == p[0];
    assert (p + rest)[1..] == p[1..] + rest;
  }

  /** Flattening twice in a row is flattening the composed images. */
  lemma {:induction false} FlatMapFlatMap<T, U, V>(xs: seq<T>, g: T -> seq<U>, h: U -> seq<V>, f: T -> seq<V>)
    requires forall x :: f(x) == FlatMap(g(x), h)
    ensures FlatMap(xs, f) == FlatMap(FlatMap(xs, g), h)
  {
    if xs != [] {
      FlatMapFlatMap(xs[1..], g, h, f);
      FlatMapAppend(g(xs[0]), FlatMap(xs[1..], g), h);
    }
  }

  /** `FlatMap` depends only on the values of its function argument. */
  lemma {:induction false} FlatMapCongruence<T, U>(xs: seq<T>, f: T -> seq<U>, g: T -> seq<U>)
    requires forall i :: 0 <= i < |xs| ==> f(xs[i]) == g(xs[i])
    ensures FlatMap(xs, f) == FlatMap(xs, g)
  {
    if xs != [] {
      FlatMapCongruence(xs[1..], f, g);
      assert f(xs[0]) == g(xs[0]);
    }
  }
}
