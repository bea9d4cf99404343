/** Character-sequence helpers shared by the path, argument-list and
    dataflow models: searching, splitting on a separator (JavaScript
    `split` / Python `str.split(sep)`), joining, reversal and Python's
    whitespace `str.split()`. */
module Strings {

  /** Index of the first occurrence of `c` in `s`, or -1. */
  function IndexOf(s: string, c: char): (r: int)
    ensures -1 <= r < |s|
    ensures r == -1 <==> c !in s
    ensures r >= 0 ==> s[r] == c && forall j :: 0 <= j < r ==> s[j] != c
  {
    if |s| == 0 then -1
    else if s[0] == c then 0
    else
      var k := IndexOf(s[1..], c);
      if k < 0 then -1 else k + 1
  }

  /** Index of the last occurrence of `c` in `s`, or -1
      (JavaScript `lastIndexOf`). */
  function LastIndexOf(s: string, c: char): (r: int)
    ensures -1 <= r < |s|
    ensures r == -1 <==> c !in s
    ensures r >= 0 ==> s[r] == c && forall j :: r < j < |s| ==> s[j] != c
  {
    if |s| == 0 then -1
    else if s[|s| - 1] == c then |s| - 1
    else LastIndexOf(s[..|s| - 1], c)
  }

  /** The pieces of `s` between occurrences of `sep`; always at least one
      piece, and empty pieces are kept, as in `"a.".split(".")`. */
  function Split(s: string, sep: char): (r: seq<string>)
    ensures |r| >= 1
    decreases |s|
  {
    var i := IndexOf(s, sep);
    if i < 0 then [s] else [s[..i]] + Split(s[i + 1..], sep)
  }

  /** The inverse of `Split`: the pieces glued back with `sep`. */
  function Join(pieces: seq<string>, sep: char): string
    requires |pieces| >= 1
  {
    if |pieces| == 1 then pieces[0]
    else pieces[0] + [sep] + Join(pieces[1..], sep)
  }

  lemma {:induction false} SplitShape(s: string, sep: char)
    ensures |Split(s, sep)| >= 1
    ensures forall k :: 0 <= k < |Split(s, sep)| ==> sep !in Split(s, sep)[k]
    ensures |Split(s, sep)| > 1 <==> sep in s
    decreases |s|
  {
    var i := IndexOf(s, sep);
    if i >= 0 {
      SplitShape(s[i + 1..], sep);
    }
  }

  /** Joining the pieces of a split gives back the original text. */
  lemma {:induction false} JoinSplit(s: string, sep: char)
    ensures |Split(s, sep)| >= 1
    ensures Join(Split(s, sep), sep) == s
    decreases |s|
  {
    var i := IndexOf(s, sep);
    if i >= 0 {
      JoinSplit(s[i + 1..], sep);
      JoinSplitFound(s, sep, i, s[i + 1..]);
    }
  }

  /** The inductive step of `JoinSplit`, past the first separator at `i`. */
  lemma {:induction false} JoinSplitFound(s: string, sep: char, i: int, t: string)
    requires i == IndexOf(s, sep) && i >= 0 && t == s[i + 1..]
    requires Join(Split(t, sep), sep) == t
    ensures Join(Split(s, sep), sep) == s
  {
    var p := Split(s, sep);
    assert p == [s[..i]] + Split(t, sep);
    assert p[1..] == Split(t, sep);
    assert Join(p, sep) == s[..i] + [sep] + t;
    assert s == s[..i] + [sep] + t;
  }

  /** Splitting a join of separator-free pieces gives back the pieces. */
  /** Splitting a separator-free word, a separator and a tail gives the
      word followed by the split tail. */
  lemma SplitFirstPiece(w: string, sep: char, rest: string)
    requires sep !in w
    ensures Split(w + [sep] + rest, sep) == [w] + Split(rest, sep)
  {
    var s := w + [sep] + rest;
    assert s[..|w|] == w;
    assert s[|w| + 1..] == rest;
    assert s[|w|] == sep;
    IndexOfFirst(s, sep, |w|);
  }

  lemma {:induction false} SplitJoin(pieces: seq<string>, sep: char)
    requires |pieces| >= 1
    requires forall k :: 0 <= k < |pieces| ==> sep !in pieces[k]
    ensures Split(Join(pieces, sep), sep) == pieces
    decreases |pieces|
  {
    if |pieces| > 1 {
      SplitJoin(pieces[1..], sep);
      SplitFirstPiece(pieces[0], sep, Join(pieces[1..], sep));
      assert pieces == [pieces[0]] + pieces[1..];
    }
  }

  lemma IndexOfFirst(s: string, c: char, i: nat)
    requires i < |s| && s[i] == c && forall j :: 0 <= j < i ==> s[j] != c
    ensures IndexOf(s, c) == i
  {
  }

  /** The last piece of a split is the text after the last separator. */
  lemma {:induction false} SplitLast(s: string, sep: char)
    ensures |Split(s, sep)| >= 1
    ensures Split(s, sep)[|Split(s, sep)| - 1] == s[LastIndexOf(s, sep) + 1..]
    decreases |s|
  {
    var i := IndexOf(s, sep);
    if i >= 0 {
      var t := s[i + 1..];
      SplitLast(t, sep);
      SplitLastFound(s, sep, t);
    } else {
      SplitLastNone(s, sep);
    }
  }

  /** Without a separator the only piece is the whole text. */
  lemma {:induction false} SplitLastNone(s: string, sep: char)
    requires IndexOf(s, sep) < 0
    ensures Split(s, sep)[|Split(s, sep)| - 1] == s[LastIndexOf(s, sep) + 1..]
  {
    SplitWithout(s, sep);
    assert s[0..] == s;
  }

  /** The inductive step of `SplitLast`: its claim for the text after the
      first separator gives it for the whole text. */
  lemma {:induction false} SplitLastFound(s: string, sep: char, t: string)
    requires IndexOf(s, sep) >= 0 && t == s[IndexOf(s, sep) + 1..]
    requires |Split(t, sep)| >= 1 && Split(t, sep)[|Split(t, sep)| - 1] == t[LastIndexOf(t, sep) + 1..]
    ensures |Split(s, sep)| >= 1
    ensures Split(s, sep)[|Split(s, sep)| - 1] == s[LastIndexOf(s, sep) + 1..]
  {
    var i := IndexOf(s, sep);
    var k := LastIndexOf(t, sep);
    SplitLastStep(s, sep, t);
    LastIndexOfAfter(s, sep, i);
    SuffixOfSuffix(s, i + 1, k + 1, LastIndexOf(s, sep) + 1);
  }

  lemma {:induction false} SuffixOfSuffix(s: string, i: nat, k: nat, m: nat)
    requires m == i + k <= |s|
    ensures s[i..][k..] == s[m..]
  {
  }

  /** Past the first separator, the last piece is the remainder's last piece. */
  lemma {:induction false} SplitLastStep(s: string, sep: char, t: string)
    requires IndexOf(s, sep) >= 0 && t == s[IndexOf(s, sep) + 1..]
    ensures |Split(t, sep)| >= 1 && |Split(s, sep)| >= 1
    ensures Split(s, sep)[|Split(s, sep)| - 1] == Split(t, sep)[|Split(t, sep)| - 1]
  {
    SplitShape(t, sep);
    assert Split(s, sep) == [s[..IndexOf(s, sep)]] + Split(t, sep);
  }

  /** Past a separator at `i`, the last separator is the last one of the
      remainder, or `i` itself when the remainder has none. */
  lemma {:induction false} LastIndexOfAfter(s: string, c: char, i: nat)
    requires i < |s| && s[i] == c
    ensures LastIndexOf(s, c) == i + 1 + LastIndexOf(s[i + 1..], c)
  {
    var t := s[i + 1..];
    var k := LastIndexOf(t, c);
    if k >= 0 {
      forall j | i + 1 + k < j < |s|
        ensures s[j] != c
      {
        assert s[j] == t[j - i - 1];
      }
      LastIndexOfIs(s, c, i + 1 + k);
    } else {
      forall j | i < j < |s|
        ensures s[j] != c
      {
        assert s[j] == t[j - i - 1];
      }
      LastIndexOfIs(s, c, i);
    }
  }

  lemma SplitWithout(s: string, sep: char)
    requires sep !in s
    ensures Split(s, sep) == [s]
    ensures LastIndexOf(s, sep) == -1
  {
  }

  /** The last separator of `s` at or after a separator at `i`. */
  lemma LastIndexOfIs(s: string, c: char, i: nat)
    requires i < |s| && s[i] == c && forall j :: i < j < |s| ==> s[j] != c
    ensures LastIndexOf(s, c) == i
  {
  }

  /** `s` read back to front (Python `s[::-1]`). */
  function Reverse(s: string): (r: string)
    ensures |r| == |s|
    ensures forall i :: 0 <= i < |s| ==> r[i] == s[|s| - 1 - i]
  {
    if |s| == 0 then [] else Reverse(s[1..]) + [s[0]]
  }

  /** The characters Python 2's `str.split()` treats as whitespace. */
  predicate IsSpace(c: char) {
    c == ' ' || c == '\t' || c == '\n' || c == '\r' || c == '\U{B}' || c == '\U{C}'
  }

  /** `s` with every whitespace character removed. */
  function Squeeze(s: string): string {
    if |s| == 0 then []
    else if IsSpace(s[0]) then Squeeze(s[1..])
    else [s[0]] + Squeeze(s[1..])
  }

  function Concat(ts: seq<string>): string {
    if |ts| == 0 then [] else ts[0] + Concat(ts[1..])
  }

  /** Length of the leading run of non-whitespace characters. */
  function WordLength(s: string): (n: nat)
    ensures n <= |s|
    ensures forall i :: 0 <= i < n ==> !IsSpace(s[i])
    ensures n < |s| ==> IsSpace(s[n])
  {
    if |s| == 0 || IsSpace(s[0]) then 0 else 1 + WordLength(s[1..])
  }

  /** Python's `str.split()` with no separator: the maximal runs of
      non-whitespace characters, in order. */
  function SplitWhitespace(s: string): (r: seq<string>)
    decreases |s|
  {
    if |s| == 0 then []
    else if IsSpace(s[0]) then SplitWhitespace(s[1..])
    else
      var n := WordLength(s);
      [s[..n]] + SplitWhitespace(s[n..])
  }

  lemma {:induction false} SqueezeWord(w: string)
    requires forall i :: 0 <= i < |w| ==> !IsSpace(w[i])
    ensures Squeeze(w) == w
    decreases |w|
  {
    if |w| > 0 {
      SqueezeWord(w[1..]);
      assert w == [w[0]] + w[1..];
    }
  }

  lemma SqueezeAppend(a: string, b: string)
    ensures Squeeze(a + b) == Squeeze(a) + Squeeze(b)
  {
    if |a| > 0 {
      assert (a + b)[1..] == a[1..] + b;
    } else {
      assert a + b == b;
    }
  }

  /** Whitespace splitting yields non-empty, whitespace-free words which,
      put back together, are exactly the non-whitespace text. */
  lemma {:induction false} SplitWhitespaceWords(s: string)
    ensures forall k :: 0 <= k < |SplitWhitespace(s)| ==>
      |SplitWhitespace(s)[k]| > 0 && forall i :: 0 <= i < |SplitWhitespace(s)[k]| ==> !IsSpace(SplitWhitespace(s)[k][i])
    ensures Concat(SplitWhitespace(s)) == Squeeze(s)
    decreases |s|
  {
    if |s| == 0 {
    } else if IsSpace(s[0]) {
      SplitWhitespaceWords(s[1..]);
    } else {
      var n := WordLength(s);
      SplitWhitespaceWords(s[n..]);
      var r := SplitWhitespace(s);
      assert r[1..] == SplitWhitespace(s[n..]);
      assert s == s[..n] + s[n..];
      SqueezeAppend(s[..n], s[n..]);
      SqueezeWord(s[..n]);
    }
  }

  /** The leading word of `w + rest` is `w` when `rest` is empty or starts
      with whitespace. */
  lemma {:induction false} WordLengthOf(w: string, rest: string)
    requires forall i :: 0 <= i < |w| ==> !IsSpace(w[i])
    requires |rest| == 0 || IsSpace(rest[0])
    ensures WordLength(w + rest) == |w|
    decreases |w|
  {
    if |w| > 0 {
      assert (w + rest)[1..] == w[1..] + rest;
      WordLengthOf(w[1..], rest);
    } else {
      assert w + rest == rest;
    }
  }

  /** Words free of whitespace, joined by single spaces, split back into
      exactly those words. */
  lemma {:induction false} SplitWhitespaceJoin(ws: seq<string>)
    requires |ws| >= 1
    requires forall k :: 0 <= k < |ws| ==> |ws[k]| > 0 && forall i :: 0 <= i < |ws[k]| ==> !IsSpace(ws[k][i])
    ensures SplitWhitespace(Join(ws, ' ')) == ws
    decreases |ws|
  {
    var s := Join(ws, ' ');
    var w := ws[0];
    if |ws| == 1 {
      WordLengthOf(w, []);
      assert w + [] == w;
      assert w[..|w|] == w && w[|w|..] == [];
    } else {
      var t := Join(ws[1..], ' ');
      var rest := [' '] + t;
      assert s == w + rest;
      WordLengthOf(w, rest);
      assert s[..|w|] == w && s[|w|..] == rest;
      assert rest[1..] == t;
      SplitWhitespaceJoin(ws[1..]);
      assert ws == [w] + ws[1..];
    }
  }
}
