/** Strings and optional values, as the Rust standard library offers them. */
module Text {

  datatype Option<+T> = None | Some(value: T) {
    function GetOr(default: T): T {
      match this
      case Some(v) => v
      case None => default
    }
  }

  datatype Result<+T, +E> = Ok(value: T) | Err(error: E)

  /** The Unicode property White_Space, which `trim` and `trim_start` remove. */
  predicate IsWhitespace(c: char) {
    || '\t' <= c <= '\r'
    || c in {' ', '\U{85}', '\U{A0}', '\U{1680}', '\U{2028}', '\U{2029}', '\U{202F}', '\U{205F}', '\U{3000}'}
    || '\U{2000}' <= c <= '\U{200A}'
  }

  function TrimStart(s: string): (r: string)
    ensures r == "" || !IsWhitespace(r[0])
  {
    if s != "" && IsWhitespace(s[0]) then TrimStart(s[1..]) else s
  }

  function TrimEnd(s: string): (r: string)
    ensures r == "" || !IsWhitespace(r[|r| - 1])
    ensures r <= s
  {
    if s != "" && IsWhitespace(s[|s| - 1]) then TrimEnd(s[..|s| - 1]) else s
  }

  function Trim(s: string): string {
    TrimEnd(TrimStart(s))
  }

  lemma TrimStartIsIdentity(s: string)
    ensures TrimStart(s) == s <==> s == "" || !IsWhitespace(s[0])
  {
  }

  lemma {:induction false} TrimStartIsSuffix(s: string)
    ensures |TrimStart(s)| <= |s| && TrimStart(s) == s[|s| - |TrimStart(s)|..]
  {
    if s != "" && IsWhitespace(s[0]) {
      TrimStartIsSuffix(s[1..]);
    }
  }

  /** A string is blank when nothing is left of it. */
  lemma {:induction false} TrimOfBlank(s: string)
    ensures Trim(s) == "" <==> forall c <- s :: IsWhitespace(c)
  {
    TrimStartOfBlank(s);
    if TrimStart(s) != "" {
      TrimEndKeepsFirst(TrimStart(s));
    }
  }

  lemma {:induction false} TrimStartOfBlank(s: string)
    ensures TrimStart(s) == "" <==> forall c <- s :: IsWhitespace(c)
  {
    if s != "" {
      assert s == [s[0]] + s[1..];
      TrimStartOfBlank(s[1..]);
    }
  }

  lemma {:induction false} TrimEndKeepsFirst(s: string)
    requires s != "" && !IsWhitespace(s[0])
    ensures TrimEnd(s) != "" && TrimEnd(s)[0] == s[0]
  {
    if IsWhitespace(s[|s| - 1]) {
      TrimEndKeepsFirst(s[..|s| - 1]);
    }
  }

  /** The index of the first occurrence of `x`. */
  function IndexOf<T(==)>(s: seq<T>, x: T): (r: Option<nat>)
    ensures r.Some? ==> r.value < |s| && s[r.value] == x
    ensures r.None? ==> x !in s
  {
    if s == [] then None
    else if s[0] == x then Some(0)
    else
      match IndexOf(s[1..], x)
      case None => None
      case Some(i) => Some(i + 1)
  }

  lemma {:induction false} NothingBeforeIndexOf<T>(s: seq<T>, x: T)
    requires IndexOf(s, x).Some?
    ensures x !in s[..IndexOf(s, x).value]
  {
    if s[0] != x {
      var i := IndexOf(s[1..], x).value;
      NothingBeforeIndexOf(s[1..], x);
      assert s[..i + 1] == [s[0]] + s[1..][..i];
    }
  }

  lemma {:induction false} IndexOfFirst<T>(a: seq<T>, x: T, b: seq<T>)
    requires x !in a
    ensures IndexOf(a + [x] + b, x) == Some(|a|)
  {
    if a != [] {
      assert (a + [x] + b)[1..] == a[1..] + [x] + b;
      IndexOfFirst(a[1..], x, b);
    } else {
      assert (a + [x] + b)[0] == x;
    }
  }

  /** The pieces between occurrences of `separator`: always at least one. */
  function Split(s: string, separator: char): (r: seq<string>)
    ensures |r| >= 1
    decreases |s|
  {
    match IndexOf(s, separator)
    case None => [s]
    case Some(i) => [s[..i]] + Split(s[i + 1..], separator)
  }

  function Join(pieces: seq<string>, separator: char): string {
    if |pieces| == 0 then ""
    else if |pieces| == 1 then pieces[0]
    else pieces[0] + [separator] + Join(pieces[1..], separator)
  }

  lemma {:induction false} JoinOfSplit(s: string, separator: char)
    ensures Join(Split(s, separator), separator) == s
    ensures forall piece <- Split(s, separator) :: separator !in piece
    decreases |s|
  {
    match IndexOf(s, separator)
    case None =>
    case Some(i) =>
      var rest := Split(s[i + 1..], separator);
      NothingBeforeIndexOf(s, separator);
      JoinOfSplit(s[i + 1..], separator);
      assert s == s[..i] + [separator] + s[i + 1..];
      assert Split(s, separator) == [s[..i]] + rest && ([s[..i]] + rest)[1..] == rest;
  }

  lemma SplitFirst(piece: string, separator: char, rest: string)
    requires separator !in piece
    ensures Split(piece + [separator] + rest, separator) == [piece] + Split(rest, separator)
  {
    var s := piece + [separator] + rest;
    IndexOfFirst(piece, separator, rest);
    assert s[|piece| + 1..] == rest && s[..|piece|] == piece;
  }

  lemma {:induction false} SplitOfJoin(pieces: seq<string>, separator: char)
    requires |pieces| >= 1 && forall piece <- pieces :: separator !in piece
    ensures Split(Join(pieces, separator), separator) == pieces
  {
    assert pieces[0] in pieces;
    assert pieces == [pieces[0]] + pieces[1..];
    if |pieces| > 1 {
      SplitFirst(pieces[0], separator, Join(pieces[1..], separator));
      SplitOfJoin(pieces[1..], separator);
    }
  }

  /** The index of the last occurrence of `c`. */
  function LastIndexOf(s: string, c: char): (r: Option<nat>)
    ensures r.Some? ==> r.value < |s|
  {
    if s == "" then None
    else if s[|s| - 1] == c then Some(|s| - 1)
    else LastIndexOf(s[..|s| - 1], c)
  }

  lemma {:induction false} LastIndexOfAfter(a: string, c: char, b: string)
    requires c !in b
    ensures LastIndexOf(a + [c] + b, c) == Some(|a|)
  {
    var s := a + [c] + b;
    if b == "" {
      assert s == a + [c];
    } else {
      assert s[..|s| - 1] == a + [c] + b[..|b| - 1];
      LastIndexOfAfter(a, c, b[..|b| - 1]);
    }
  }

  lemma {:induction false} LastIndexOfNone(s: string, c: char)
    ensures match LastIndexOf(s, c)
            case None => c !in s
            case Some(i) => s[i] == c && c !in s[i + 1..]
  {
    if s != "" && s[|s| - 1] != c {
      var n := |s| - 1;
      LastIndexOfNone(s[..n], c);
      assert s == s[..n] + [s[n]];
      if LastIndexOf(s[..n], c).Some? {
        var i := LastIndexOf(s[..n], c).value;
        assert s[i + 1..] == s[..n][i + 1..] + [s[n]];
      }
    }
  }

  /** Nothing is left to trim of what was trimmed. */
  lemma TrimTwice(s: string)
    ensures Trim(Trim(s)) == Trim(s)
  {
    var start := TrimStart(s);
    if start != "" {
      TrimEndKeepsFirst(start);
    }
    TrimEndIsStable(start);
  }

  lemma TrimEndIsStable(s: string)
    ensures TrimEnd(TrimEnd(s)) == TrimEnd(s)
  {
  }
}
