/** The Python string operations the translator relies on: str.join, str.split on one
    character, and the text after a separator; plus concatenation of a mapped list,
    which is what an accumulating `for` loop over `result +=` builds. */
module PyStrings {

  /** sep.join(words). */
  function Join(sep: string, words: seq<string>): string
  {
    if |words| == 0 then ""
    else if |words| == 1 then words[0]
    else words[0] + sep + Join(sep, words[1..])
  }

  /** Joining one more word appends the separator and that word; the separator sits
      only between neighbours, never at either end. */
  lemma {:induction false} JoinSnoc(sep: string, words: seq<string>, w: string)
    requires |words| > 0
    ensures Join(sep, words + [w]) == Join(sep, words) + sep + w
  {
    if |words| == 1 {
      assert words + [w] == [words[0], w];
    } else {
      assert (words + [w])[1..] == words[1..] + [w];
      JoinSnoc(sep, words[1..], w);
    }
  }

  /** s.split(c) for a one-character separator c: always at least one piece, no piece
      contains c, and joining the pieces with c gives s back. */
  function Split(s: string, c: char): (pieces: seq<string>)
    ensures |pieces| >= 1
    ensures forall i :: 0 <= i < |pieces| ==> c !in pieces[i]
    ensures Join([c], pieces) == s
  {
    if |s| == 0 then [""]
    else if s[0] == c then
      var rest := Split(s[1..], c);
      assert s == [c] + s[1..];
      [""] + rest
    else
      var rest := Split(s[1..], c);
      assert s == [s[0]] + s[1..];
      [[s[0]] + rest[0]] + rest[1..]
  }

  /** Splitting at the first separator: a piece free of c, then c, then the rest. */
  lemma {:induction false} SplitAfterPiece(p: string, c: char, rest: string)
    requires c !in p
    ensures Split(p + [c] + rest, c) == [p] + Split(rest, c)
  {
    if |p| == 0 {
      assert p + [c] + rest == [c] + rest;
      assert ([c] + rest)[1..] == rest;
    } else {
      assert (p + [c] + rest)[1..] == p[1..] + [c] + rest;
      SplitAfterPiece(p[1..], c, rest);
      assert [p[0]] + p[1..] == p;
    }
  }

  /** A text without the separator splits into itself alone. */
  lemma {:induction false} SplitNoSeparator(p: string, c: char)
    requires c !in p
    ensures Split(p, c) == [p]
  {
    if |p| > 0 {
      SplitNoSeparator(p[1..], c);
      assert [p[0]] + p[1..] == p;
    }
  }

  /** Round trip: splitting a join of separator-free pieces gives the pieces back. */
  lemma {:induction false} SplitJoin(pieces: seq<string>, c: char)
    requires |pieces| >= 1
    requires forall i :: 0 <= i < |pieces| ==> c !in pieces[i]
    ensures Split(Join([c], pieces), c) == pieces
  {
    if |pieces| == 1 {
      SplitNoSeparator(pieces[0], c);
    } else {
      SplitJoin(pieces[1..], c);
      SplitAfterPiece(pieces[0], c, Join([c], pieces[1..]));
      assert [pieces[0]] + pieces[1..] == pieces;
    }
  }

  /** The text after the first occurrence of c; "" when c does not occur. */
  function After(s: string, c: char): string
  {
    if |s| == 0 then ""
    else if s[0] == c then s[1..]
    else After(s[1..], c)
  }

  /** What follows the first separator is exactly what was put after it. */
  lemma {:induction false} AfterPiece(p: string, c: char, rest: string)
    requires c !in p
    ensures After(p + [c] + rest, c) == rest
  {
    if |p| == 0 {
      assert p + [c] + rest == [c] + rest;
    } else {
      assert (p + [c] + rest)[1..] == p[1..] + [c] + rest;
      AfterPiece(p[1..], c, rest);
    }
  }

  /** f(xs[0]) + f(xs[1]) + ... : the string an accumulating loop builds, defined
      from the last element back so that it grows as the loop does. */
  function ConcatMap<T>(f: T -> string, xs: seq<T>): string
  {
    if |xs| == 0 then "" else ConcatMap(f, xs[..|xs| - 1]) + f(xs[|xs| - 1])
  }

  /** Concatenating over two lists in turn is concatenating over their join. */
  lemma {:induction false} ConcatMapAppend<T>(f: T -> string, xs: seq<T>, ys: seq<T>)
    ensures ConcatMap(f, xs + ys) == ConcatMap(f, xs) + ConcatMap(f, ys)
  {
    if |ys| == 0 {
      assert xs + ys == xs;
    } else {
      var init := ys[..|ys| - 1];
      assert (xs + ys)[..|xs + ys| - 1] == xs + init;
      ConcatMapAppend(f, xs, init);
    }
  }

  /** The first element's text comes first. */
  lemma ConcatMapCons<T>(f: T -> string, x: T, xs: seq<T>)
    ensures ConcatMap(f, [x] + xs) == f(x) + ConcatMap(f, xs)
  {
    ConcatMapAppend(f, [x], xs);
    assert [x][..0] == [];
  }

  /** The string an accumulating loop leaves when each element applies `step` to it. */
  function Fold<T>(step: (string, T) -> string, acc: string, xs: seq<T>): string
    decreases |xs|
  {
    if |xs| == 0 then acc else Fold(step, step(acc, xs[0]), xs[1..])
  }

  /** A loop whose every round appends f(x) leaves its start followed by the
      concatenation of f over the list. */
  lemma {:induction false} FoldAppends<T>(step: (string, T) -> string, f: T -> string, acc: string, xs: seq<T>)
    requires forall a, x :: step(a, x) == a + f(x)
    ensures Fold(step, acc, xs) == acc + ConcatMap(f, xs)
    decreases |xs|
  {
    if |xs| > 0 {
      FoldAppends(step, f, step(acc, xs[0]), xs[1..]);
      ConcatMapCons(f, xs[0], xs[1..]);
      assert [xs[0]] + xs[1..] == xs;
    }
  }

  /** ss[0] + ss[1] + ... , the reference reading of a concatenation. */
  function Concat(ss: seq<string>): string
  {
    if |ss| == 0 then "" else ss[0] + Concat(ss[1..])
  }
}
