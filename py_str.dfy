/**
 * The Python string operations the archive download script relies on:
 * `str.replace`, `str.split` and `re.match` with a pattern made of `\d` and
 * literal characters that ends in `$`. Strings are sequences of characters.
 * `Join` is not called by the script; it serves only to prove the split
 * round trip and to read the URLs back.
 */
module PyStr {

  /** `s.replace(c, d)` for single characters: every `c` becomes `d`, nothing else moves. */
  function Substitute(s: string, c: char, d: char): (r: string)
    ensures |r| == |s|
    ensures forall i :: 0 <= i < |s| ==> r[i] == (if s[i] == c then d else s[i])
    ensures c != d ==> c !in r
    ensures c !in s ==> r == s
  {
    if s == [] then [] else [if s[0] == c then d else s[0]] + Substitute(s[1..], c, d)
  }

  /** `s.replace(c, '')`: every `c` is dropped and the other characters keep their order. */
  function Delete(s: string, c: char): (r: string)
    ensures c !in r && |r| <= |s|
    ensures forall x :: x in r <==> x in s && x != c
    ensures c !in s ==> r == s
  {
    if s == [] then []
    else
      assert s == [s[0]] + s[1..];
      (if s[0] == c then [] else [s[0]]) + Delete(s[1..], c)
  }

  /** `s.split(sep)[0]`: the part of `s` before its first `sep`, or all of `s` when there is none. */
  function SplitHead(s: string, sep: char): (r: string)
    ensures sep !in r
    ensures |r| <= |s| && r == s[..|r|]
    ensures |r| == |s| || s[|r|] == sep
  {
    if s == [] || s[0] == sep then [] else [s[0]] + SplitHead(s[1..], sep)
  }

  /** Substitute, one character at a time from the front. */
  lemma SubstituteCons(x: char, rest: string, c: char, d: char)
    ensures Substitute([x] + rest, c, d) == [if x == c then d else x] + Substitute(rest, c, d)
  {
    assert ([x] + rest)[1..] == rest;
  }

  /** Delete, one character at a time from the front. */
  lemma DeleteCons(x: char, rest: string, c: char)
    ensures Delete([x] + rest, c) == (if x == c then [] else [x]) + Delete(rest, c)
  {
    assert ([x] + rest)[1..] == rest;
  }

  /** Delete works piece by piece. */
  lemma {:induction false} DeleteAppend(x: string, y: string, c: char)
    ensures Delete(x + y, c) == Delete(x, c) + Delete(y, c)
  {
    if x == [] {
      assert x + y == y;
    } else {
      var h, t := x[0], x[1..];
      var keep := if h == c then [] else [h];
      assert x == [h] + t;
      assert x + y == [h] + (t + y);
      calc {
        Delete(x + y, c);
        { DeleteCons(h, t + y, c); }
        keep + Delete(t + y, c);
        { DeleteAppend(t, y, c); }
        keep + (Delete(t, c) + Delete(y, c));
        (keep + Delete(t, c)) + Delete(y, c);
        { DeleteCons(h, t, c); }
        Delete(x, c) + Delete(y, c);
      }
    }
  }

  /** SplitHead, one character at a time from the front. */
  lemma SplitHeadCons(x: char, rest: string, sep: char)
    ensures SplitHead([x] + rest, sep) == if x == sep then [] else [x] + SplitHead(rest, sep)
  {
    assert ([x] + rest)[1..] == rest;
  }

  /** `s.split(sep)`: the pieces of `s` between its occurrences of `sep`; there is always one more piece than separators. */
  function Split(s: string, sep: char): (parts: seq<string>)
    ensures |parts| >= 1 && parts[0] == SplitHead(s, sep)
    ensures forall i :: 0 <= i < |parts| ==> sep !in parts[i]
    decreases |s|
  {
    var head := SplitHead(s, sep);
    if |head| == |s| then [s] else [head] + Split(s[|head| + 1..], sep)
  }

  /** `sep.join(parts)` */
  function Join(parts: seq<string>, sep: char): string
  {
    if parts == [] then ""
    else if |parts| == 1 then parts[0]
    else parts[0] + [sep] + Join(parts[1..], sep)
  }

  /** `sep.join([a, b, c])` written out. */
  lemma JoinThree(a: string, b: string, c: string, sep: char)
    ensures Join([a, b, c], sep) == a + [sep] + b + [sep] + c
  {
    assert [a, b, c][1..] == [b, c] && [b, c][1..] == [c];
    assert Join([c], sep) == c;
    assert Join([b, c], sep) == b + [sep] + c;
  }

  /** The head of a string is everything up to a separator it does not itself contain. */
  lemma {:induction false} SplitHeadAtSeparator(x: string, sep: char, y: string)
    requires sep !in x
    ensures SplitHead(x + [sep] + y, sep) == x
  {
    var s := x + [sep] + y;
    if x != [] {
      assert s[0] == x[0] && s[1..] == x[1..] + [sep] + y;
      SplitHeadAtSeparator(x[1..], sep, y);
    }
  }

  /** Joining the pieces of a split gives the string back. */
  lemma {:induction false} JoinSplit(s: string, sep: char)
    ensures Join(Split(s, sep), sep) == s
    decreases |s|
  {
    var head := SplitHead(s, sep);
    if |head| < |s| {
      var tail := s[|head| + 1..];
      var rest := Split(tail, sep);
      JoinSplit(tail, sep);
      assert Split(s, sep) == [head] + rest;
      assert ([head] + rest)[1..] == rest;
      assert Join([head] + rest, sep) == head + [sep] + Join(rest, sep);
      assert s == head + [sep] + tail;
    }
  }

  /** Splitting joined pieces that do not contain the separator gives the pieces back. */
  lemma {:induction false} SplitJoin(parts: seq<string>, sep: char)
    requires |parts| >= 1
    requires forall i :: 0 <= i < |parts| ==> sep !in parts[i]
    ensures Split(Join(parts, sep), sep) == parts
  {
    if |parts| == 1 {
      assert SplitHead(parts[0], sep) == parts[0];
    } else {
      var tail := Join(parts[1..], sep);
      var s := parts[0] + [sep] + tail;
      SplitHeadAtSeparator(parts[0], sep, tail);
      assert s[|parts[0]| + 1..] == tail;
      SplitJoin(parts[1..], sep);
      assert parts == [parts[0]] + parts[1..];
    }
  }

  // ---- `re.match` over patterns of `\d` and literal characters ----

  /** One position of such a pattern: `\d` or a literal character. */
  datatype Atom = Digit | Lit(c: char)

  /** `\d`, read as an ASCII decimal digit. */
  predicate IsDigit(ch: char)
  {
    '0' <= ch <= '9'
  }

  predicate AtomMatches(a: Atom, ch: char)
  {
    match a
    case Digit => IsDigit(ch)
    case Lit(c) => ch == c
  }

  /** The pattern `p` matches the whole of `s`, position by position. */
  predicate Spells(p: seq<Atom>, s: string)
  {
    |s| == |p| && forall i :: 0 <= i < |p| ==> AtomMatches(p[i], s[i])
  }

  /**
   * `re.match(p + "$", s)`: `re.match` anchors at the start of `s`, and `$`
   * matches at the end of the string or just before a newline that ends it.
   */
  predicate MatchesToEnd(p: seq<Atom>, s: string): (m: bool)
    ensures Spells(p, s) ==> m
    ensures m ==> |p| <= |s| <= |p| + 1 && Spells(p, s[..|p|])
    ensures m && |s| == |p| + 1 ==> s[|p|] == '\n'
  {
    Spells(p, s) || (|s| == |p| + 1 && s[|p|] == '\n' && Spells(p, s[..|p|]))
  }

  /**
   * Of all the ways to extend a string the pattern spells by one character,
   * `$` accepts only a newline, and it does not accept a second one.
   */
  lemma OnlyOneTrailingNewline(p: seq<Atom>, s: string, c: char)
    requires Spells(p, s)
    ensures MatchesToEnd(p, s + [c]) <==> c == '\n'
    ensures !MatchesToEnd(p, s + "\n\n")
  {
    assert (s + [c])[..|p|] == s;
  }
}
