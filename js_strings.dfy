/** The JavaScript string and array built-ins the generator is written with,
    stated on `seq<char>` and `seq<string>`: `split` on a one-character
    separator, `join`, `map`, `pop`, `slice(0, -1)` and `new Array(n).join(sep)`. */
module JsStrings {

  /** Number of characters of `s` that lie in `cs`. */
  function CountIn(s: string, cs: set<char>): (n: nat)
    ensures n <= |s|
  {
    if s == [] then 0 else (if s[0] in cs then 1 else 0) + CountIn(s[1..], cs)
  }

  /** `s.split(c)`: the pieces between the occurrences of `c`. Never empty,
      so `"".split(c)` is `[""]`; no piece holds `c` (`SplitPiecesFree`). */
  function Split(s: string, c: char): (parts: seq<string>)
    ensures |parts| >= 1
  {
    if s == [] then [[]] else SplitStep(s[0], Split(s[1..], c), c)
  }

  /** The pieces of `[x] + t`, given the pieces `rest` of `t`: a separator
      starts a new, empty first piece; any other character joins the first. */
  function SplitStep(x: char, rest: seq<string>, c: char): (parts: seq<string>)
    requires |rest| >= 1
    ensures |parts| >= 1
  {
    if x == c then [[]] + rest else [[x] + rest[0]] + rest[1..]
  }

  /** `parts.join(sep)`; `[].join(sep)` is the empty string. */
  function Join(parts: seq<string>, sep: string): string
  {
    if |parts| == 0 then []
    else if |parts| == 1 then parts[0]
    else parts[0] + sep + Join(parts[1..], sep)
  }

  /** `xs.map(f)`. */
  function Map<A, B>(f: A -> B, xs: seq<A>): (ys: seq<B>)
    ensures |ys| == |xs|
    ensures forall i :: 0 <= i < |xs| ==> ys[i] == f(xs[i])
  {
    if xs == [] then [] else [f(xs[0])] + Map(f, xs[1..])
  }

  /** The element `pop()` removes and returns from a non-empty array. */
  function Last<T>(xs: seq<T>): T
    requires |xs| > 0
  {
    xs[|xs| - 1]
  }

  /** `s.slice(0, -1)`: everything but the last character (nothing of an empty string). */
  function DropLast(s: string): (r: string)
    ensures s != [] ==> s == r + [s[|s| - 1]]
    ensures s == [] ==> r == []
  {
    if s == [] then [] else s[..|s| - 1]
  }

  /** `new Array(n).join(sep)`: `n` holes, each of which joins as the empty string. */
  function HolesJoin(n: nat, sep: string): string
  {
    Join(seq(n, _ => ""), sep)
  }

  /** `n` copies of `s`, one after the other. */
  function Repeat(s: string, n: nat): (r: string)
    ensures |r| == n * |s|
  {
    if n == 0 then [] else s + Repeat(s, n - 1)
  }

  /** `n >= 1` copies of `x + y` are `x`, `n - 1` copies of `y + x`, and `y`. */
  lemma {:induction false} RepeatRotate(x: string, y: string, n: nat)
    requires n >= 1
    ensures Repeat(x + y, n) == x + Repeat(y + x, n - 1) + y
  {
    if n > 1 {
      RepeatRotate(x, y, n - 1);
      assert Repeat(x + y, n) == x + y + (x + Repeat(y + x, n - 2) + y);
      assert Repeat(y + x, n - 1) == y + x + Repeat(y + x, n - 2);
    }
  }

  /** With the last character `y` of each copy dropped from the end only,
      `n >= 1` copies of `x + [y]` read as `x` followed by `n - 1` copies of `[y] + x`. */
  lemma DropLastRepeat(x: string, y: char, n: nat)
    requires n >= 1
    ensures DropLast(Repeat(x + [y], n)) == x + Repeat([y] + x, n - 1)
  {
    RepeatRotate(x, [y], n);
    var w := x + Repeat([y] + x, n - 1);
    assert Repeat(x + [y], n) == w + [y];
  }

  /** `s` with every `c` replaced by `d`. */
  function ReplaceAll(s: string, c: char, d: char): (r: string)
    ensures |r| == |s|
    ensures forall i :: 0 <= i < |s| ==> r[i] == if s[i] == c then d else s[i]
  {
    if s == [] then [] else [if s[0] == c then d else s[0]] + ReplaceAll(s[1..], c, d)
  }

  /** No piece of a split holds the separator. */
  lemma {:induction false} SplitPiecesFree(s: string, c: char)
    ensures forall i :: 0 <= i < |Split(s, c)| ==> c !in Split(s, c)[i]
  {
    if s != [] {
      SplitPiecesFree(s[1..], c);
    }
  }

  /** A string free of `c` splits into itself alone. */
  lemma {:induction false} SplitWithoutSeparator(s: string, c: char)
    requires c !in s
    ensures Split(s, c) == [s]
  {
    if s != [] {
      assert s[0] != c;
      SplitWithoutSeparator(s[1..], c);
      assert [s[0]] + s[1..] == s;
    }
  }

  /** Splitting at an occurrence of the separator splits each side apart. */
  lemma {:induction false} SplitAppend(a: string, b: string, c: char)
    ensures Split(a + [c] + b, c) == Split(a, c) + Split(b, c)
  {
    if a == [] {
      assert a + [c] + b == [c] + b;
      assert ([c] + b)[1..] == b;
    } else {
      var t := a[1..] + [c] + b;
      assert a + [c] + b == [a[0]] + t;
      assert a == [a[0]] + a[1..];
      SplitAppend(a[1..], b, c);
      SplitConsStep(a[0], t, a[1..], Split(b, c), c);
    }
  }

  /** One step of `SplitAppend`: putting the same character in front of two
      strings keeps the relation between their splits. */
  lemma SplitConsStep(x: char, t: string, u: string, right: seq<string>, c: char)
    requires Split(t, c) == Split(u, c) + right
    ensures Split([x] + t, c) == Split([x] + u, c) + right
  {
    assert ([x] + t)[0] == x && ([x] + t)[1..] == t;
    assert ([x] + u)[0] == x && ([x] + u)[1..] == u;
    SplitStepAppend(x, Split(u, c), right, c);
  }

  /** `SplitStep` only touches the first piece. */
  lemma SplitStepAppend(x: char, left: seq<string>, right: seq<string>, c: char)
    requires |left| >= 1
    ensures SplitStep(x, left + right, c) == SplitStep(x, left, c) + right
  {
    if x != c {
      assert (left + right)[1..] == left[1..] + right;
    }
  }

  /** One piece more than there are separators. */
  lemma {:induction false} SplitCount(s: string, c: char)
    ensures |Split(s, c)| == CountIn(s, {c}) + 1
  {
    if s != [] {
      SplitCount(s[1..], c);
    }
  }

  /** Joining the pieces of `s` with `d` puts `d` wherever `s` had `c`. */
  lemma {:induction false} JoinSplit(s: string, c: char, d: char)
    ensures Join(Split(s, c), [d]) == ReplaceAll(s, c, d)
  {
    if s != [] {
      var rest := Split(s[1..], c);
      JoinSplit(s[1..], c, d);
      if s[0] == c {
        assert ([[]] + rest)[1..] == rest;
      } else {
        var parts := [[s[0]] + rest[0]] + rest[1..];
        assert parts[1..] == rest[1..];
        if |rest| > 1 {
          assert rest[1..] == rest[1..];
          assert Join(rest, [d]) == rest[0] + [d] + Join(rest[1..], [d]);
        }
      }
    }
  }

  /** Joining the pieces with the separator itself gives back the string. */
  lemma JoinSplitIdentity(s: string, c: char)
    ensures Join(Split(s, c), [c]) == s
  {
    JoinSplit(s, c, c);
    assert ReplaceAll(s, c, c) == s;
  }

  /** A join of two or more pieces ends with the separator and the last piece. */
  lemma {:induction false} JoinLast(parts: seq<string>, sep: string)
    requires |parts| >= 2
    ensures Join(parts, sep) == Join(parts[..|parts| - 1], sep) + sep + Last(parts)
  {
    if |parts| > 2 {
      JoinLast(parts[1..], sep);
      assert parts[1..][..|parts| - 2] == parts[..|parts| - 1][1..];
    }
  }

  /** Joining puts the first piece and the separator in front of the join of
      the other pieces, when there are any. */
  lemma JoinCons(x: string, xs: seq<string>, sep: string)
    requires xs != []
    ensures Join([x] + xs, sep) == x + sep + Join(xs, sep)
  {
    assert ([x] + xs)[1..] == xs;
  }

  /** With no separator, joining puts the first piece in front of the join of the rest. */
  lemma JoinConcatCons(x: string, xs: seq<string>)
    ensures Join([x] + xs, []) == x + Join(xs, [])
  {
    assert ([x] + xs)[1..] == xs;
  }

  /** Four pieces joined without a separator, as the generated names are built. */
  lemma JoinFour(a: string, b: string, c: string, d: string)
    ensures Join([a, b, c, d], []) == a + b + c + d
  {
    assert [a, b, c, d][1..] == [b, c, d];
    assert [b, c, d][1..] == [c, d];
    assert [c, d][1..] == [d];
    assert Join([c, d], []) == c + d;
    assert Join([b, c, d], []) == b + (c + d);
  }

  /** `n + 1` holes joined with `sep` are `n` copies of `sep`. */
  lemma {:induction false} HolesJoinRepeat(n: nat, sep: string)
    ensures HolesJoin(n + 1, sep) == Repeat(sep, n)
  {
    if n > 0 {
      HolesJoinRepeat(n - 1, sep);
      assert seq(n + 1, _ => "")[1..] == seq(n, _ => "");
    }
  }
}
