/**
 * The pieces of Python's string handling that the catalog code relies on:
 * `lower()`, `strip()`, `split(sep)`, `split()`, `join`, `replace(pat, '')`,
 * `in` on strings, `rfind`, `pathlib` stems and suffixes, and `f"{n}"`.
 */
module Text {
  import opened Wrappers

  /** The characters `str.isspace()` accepts, which `split()` and `strip()` use. */
  predicate IsSpace(c: char) {
    || c == ' ' || '\t' <= c <= '\r' || '\U{1c}' <= c <= '\U{1f}'
    || c == '\U{85}' || c == '\U{a0}' || c == '\U{1680}' || '\U{2000}' <= c <= '\U{200a}'
    || c == '\U{2028}' || c == '\U{2029}' || c == '\U{202f}' || c == '\U{205f}' || c == '\U{3000}'
  }

  function LowerChar(c: char): char {
    if 'A' <= c <= 'Z' then (c as int + 32) as char else c
  }

  /**
   * `s.lower()`, for the ASCII letters: no capital letter is left, every capital becomes the
   * small letter at the same place in the alphabet, and every other character is kept.
   */
  function Lower(s: string): (r: string)
    ensures |r| == |s|
    ensures forall i :: 0 <= i < |r| ==> !('A' <= r[i] <= 'Z')
    ensures forall i :: 0 <= i < |s| && !('A' <= s[i] <= 'Z') ==> r[i] == s[i]
    ensures forall i :: 0 <= i < |s| && 'A' <= s[i] <= 'Z' ==> 'a' <= r[i] <= 'z' && r[i] as int - 'a' as int == s[i] as int - 'A' as int
  {
    seq(|s|, i requires 0 <= i < |s| => LowerChar(s[i]))
  }

  /** Lowercasing an already lowercased string changes nothing. */
  lemma LowerIdempotent(s: string)
    ensures Lower(Lower(s)) == Lower(s)
  {
  }

  // ---------------------------------------------------------------- strip

  function LeadingCount(s: string, drop: char -> bool): (n: nat)
    ensures n <= |s|
    ensures forall k :: 0 <= k < n ==> drop(s[k])
    ensures n < |s| ==> !drop(s[n])
  {
    if s != [] && drop(s[0]) then 1 + LeadingCount(s[1..], drop) else 0
  }

  function TrailingStart(s: string, drop: char -> bool): (m: nat)
    ensures m <= |s|
    ensures forall k :: m <= k < |s| ==> drop(s[k])
    ensures 0 < m ==> !drop(s[m - 1])
  {
    if s != [] && drop(s[|s| - 1]) then TrailingStart(s[..|s| - 1], drop) else |s|
  }

  /** Removes every leading and every trailing character that `drop` accepts. */
  function StripBy(s: string, drop: char -> bool): (r: string)
    ensures r == [] || (!drop(r[0]) && !drop(r[|r| - 1]))
    ensures exists i, j :: 0 <= i <= j <= |s| && r == s[i..j]
                           && (forall k :: 0 <= k < i ==> drop(s[k]))
                           && (forall k :: j <= k < |s| ==> drop(s[k]))
  {
    var i := LeadingCount(s, drop);
    var t := s[i..];
    var j := TrailingStart(t, drop);
    assert t[..j] == s[i..i + j];
    t[..j]
  }

  /** A string whose two ends are kept is left as it is. */
  lemma StripByKeeps(s: string, drop: char -> bool)
    requires s == [] || (!drop(s[0]) && !drop(s[|s| - 1]))
    ensures StripBy(s, drop) == s
  {
    assert LeadingCount(s, drop) == 0;
    assert s[0..] == s;
  }

  /** `s.strip()`. */
  function Strip(s: string): string {
    StripBy(s, IsSpace)
  }

  /** `s.strip(c)` for a one-character argument. */
  function StripChar(s: string, c: char): string {
    StripBy(s, ch => ch == c)
  }

  // ---------------------------------------------------------------- split and join

  /** `s.split(sep)` for a one-character separator: the pieces between separators. */
  function Split(s: string, sep: char): (ps: seq<string>)
    ensures |ps| >= 1
    ensures forall i :: 0 <= i < |ps| ==> sep !in ps[i]
  {
    if s == [] then [""]
    else if s[0] == sep then [""] + Split(s[1..], sep)
    else
      var rest := Split(s[1..], sep);
      [[s[0]] + rest[0]] + rest[1..]
  }

  /** `sep.join(ps)`. */
  function Join(ps: seq<string>, sep: string): string {
    if |ps| == 0 then ""
    else if |ps| == 1 then ps[0]
    else ps[0] + sep + Join(ps[1..], sep)
  }

  /** The last piece of `s.split(sep)`, Python's `s.split(sep)[-1]`. */
  function LastPiece(s: string, sep: char): string {
    var ps := Split(s, sep);
    ps[|ps| - 1]
  }

  /** `s.split(sep)` has one piece more than `s` has separators. */
  lemma {:induction false} SplitCount(s: string, sep: char)
    ensures |Split(s, sep)| == multiset(s)[sep] + 1
  {
    if s != [] {
      SplitCount(s[1..], sep);
      assert s == [s[0]] + s[1..];
    }
  }

  /** Joining the pieces of `s.split(sep)` with `sep` gives `s` back. */
  lemma {:induction false} JoinSplit(s: string, sep: char)
    ensures Join(Split(s, sep), [sep]) == s
  {
    if s != [] {
      var rest := Split(s[1..], sep);
      JoinSplit(s[1..], sep);
      if s[0] == sep {
        assert ([""] + rest)[1..] == rest;
      } else {
        var ps := [[s[0]] + rest[0]] + rest[1..];
        assert ps[1..] == rest[1..];
        assert Join(ps, [sep]) == [s[0]] + Join(rest, [sep]);
      }
    }
  }

  /** A string holding the separator once splits into the text before it and the text after it. */
  lemma SplitAtOnly(s: string, sep: char)
    requires multiset(s)[sep] == 1
    ensures 0 <= RFind(s, sep) && s == s[..RFind(s, sep)] + [sep] + s[RFind(s, sep) + 1..]
    ensures Split(s, sep) == [s[..RFind(s, sep)], s[RFind(s, sep) + 1..]]
  {
    assert sep in s by {
      assert sep in multiset(s);
    }
    var i := RFind(s, sep);
    var x, y := s[..i], s[i + 1..];
    assert s == x + [sep] + y;
    assert sep !in x by {
      assert multiset(s) == multiset(x) + multiset{sep} + multiset(y);
      assert multiset(x)[sep] == 0;
    }
    assert Split(s, sep) == [x, y] by {
      SplitConcat(x, sep, y);
      SplitWhole(x, sep);
      SplitWhole(y, sep);
    }
  }

  /** A string without the separator is one piece. */
  lemma {:induction false} SplitWhole(s: string, sep: char)
    requires sep !in s
    ensures Split(s, sep) == [s]
  {
    if s != [] {
      SplitWhole(s[1..], sep);
      assert [s[0]] + s[1..] == s;
    }
  }

  /** Splitting at a separator splits the two sides independently. */
  lemma {:induction false} SplitConcat(x: string, sep: char, y: string)
    ensures Split(x + [sep] + y, sep) == Split(x, sep) + Split(y, sep)
  {
    if x == [] {
      assert x + [sep] + y == [sep] + y;
      assert ([sep] + y)[1..] == y;
    } else {
      var s := x + [sep] + y;
      assert s[0] == x[0] && s[1..] == x[1..] + [sep] + y;
      SplitConcat(x[1..], sep, y);
    }
  }

  /** Joining with a separator and splitting on it gives the pieces back. */
  lemma {:induction false} SplitJoin(ps: seq<string>, sep: char)
    requires |ps| >= 1
    requires forall i :: 0 <= i < |ps| ==> sep !in ps[i]
    ensures Split(Join(ps, [sep]), sep) == ps
  {
    if |ps| == 1 {
      SplitWhole(ps[0], sep);
    } else {
      SplitJoin(ps[1..], sep);
      SplitConcat(ps[0], sep, Join(ps[1..], [sep]));
      SplitWhole(ps[0], sep);
      assert [ps[0]] + ps[1..] == ps;
    }
  }

  /** The last piece of `s.split(sep)` is what follows the last separator, or all of `s`. */
  lemma LastPieceAfterLast(s: string, sep: char)
    ensures LastPiece(s, sep) == s[RFind(s, sep) + 1..]
  {
    var i := RFind(s, sep);
    if i == -1 {
      SplitWhole(s, sep);
      assert s[0..] == s;
    } else {
      var x, y := s[..i], s[i + 1..];
      assert s == x + [sep] + y;
      var px := Split(x, sep);
      assert Split(s, sep) == px + [y] by {
        SplitConcat(x, sep, y);
        SplitWhole(y, sep);
      }
      assert (px + [y])[|px + [y]| - 1] == y;
    }
  }

  /** The length of the run of non-space characters at the front of `s`. */
  function WordLength(s: string): (n: nat)
    ensures n <= |s|
    ensures forall k :: 0 <= k < n ==> !IsSpace(s[k])
  {
    if s != [] && !IsSpace(s[0]) then 1 + WordLength(s[1..]) else 0
  }

  /** `s.split()`: the maximal runs of non-space characters, in order. */
  function Words(s: string): (ws: seq<string>)
    ensures forall i :: 0 <= i < |ws| ==> ws[i] != [] && forall k :: 0 <= k < |ws[i]| ==> !IsSpace(ws[i][k])
    decreases |s|
  {
    if s == [] then []
    else if IsSpace(s[0]) then Words(s[1..])
    else
      var n := WordLength(s);
      [s[..n]] + Words(s[n..])
  }

  /** A word as `split()` returns it: non-empty and without whitespace. */
  predicate IsWord(w: string) {
    w != [] && forall k :: 0 <= k < |w| ==> !IsSpace(w[k])
  }

  lemma {:induction false} WordLengthOfWord(w: string, rest: string)
    requires forall k :: 0 <= k < |w| ==> !IsSpace(w[k])
    requires rest == [] || IsSpace(rest[0])
    ensures WordLength(w + rest) == |w|
  {
    if w == [] {
      assert w + rest == rest;
    } else {
      assert (w + rest)[1..] == w[1..] + rest;
      WordLengthOfWord(w[1..], rest);
    }
  }

  /** Words joined by single spaces are split back into the same words. */
  lemma {:induction false} WordsOfJoin(ws: seq<string>)
    requires forall i :: 0 <= i < |ws| ==> IsWord(ws[i])
    ensures Words(Join(ws, " ")) == ws
  {
    if |ws| == 1 {
      var w := ws[0];
      WordLengthOfWord(w, []);
      assert w + [] == w && w[..|w|] == w && w[|w|..] == [];
    } else if |ws| > 1 {
      var w, tail := ws[0], Join(ws[1..], " ");
      var s := w + " " + tail;
      assert Join(ws, " ") == s;
      assert s == w + (" " + tail);
      WordLengthOfWord(w, " " + tail);
      assert s[..|w|] == w && s[|w|..] == " " + tail && (" " + tail)[1..] == tail;
      WordsOfJoin(ws[1..]);
      assert ws == [w] + ws[1..];
    }
  }

  // ---------------------------------------------------------------- substrings

  predicate OccursAt(q: string, s: string, i: int) {
    0 <= i && i + |q| <= |s| && s[i..i + |q|] == q
  }

  /** Python's `q in s` on strings. */
  predicate IsSubstring(q: string, s: string) {
    exists i :: 0 <= i <= |s| && OccursAt(q, s, i)
  }

  /** `s.replace(pat, '')`: every non-overlapping occurrence of `pat`, scanning left to right, is removed. */
  function RemoveAll(s: string, pat: string): (r: string)
    requires pat != []
    ensures |r| <= |s|
    decreases |s|
  {
    if |s| < |pat| then s
    else if s[..|pat|] == pat then RemoveAll(s[|pat|..], pat)
    else [s[0]] + RemoveAll(s[1..], pat)
  }

  /** A string that does not contain the pattern is left as it is. */
  lemma {:induction false} RemoveAllAbsent(s: string, pat: string)
    requires pat != [] && !IsSubstring(pat, s)
    ensures RemoveAll(s, pat) == s
    decreases |s|
  {
    if |s| >= |pat| {
      assert !OccursAt(pat, s, 0);
      assert s[..|pat|] != pat;
      forall i | OccursAt(pat, s[1..], i) ensures false {
        assert s[1..][i..i + |pat|] == s[i + 1..i + 1 + |pat|];
        assert OccursAt(pat, s, i + 1);
      }
      RemoveAllAbsent(s[1..], pat);
      assert [s[0]] + s[1..] == s;
    }
  }

  /** A pattern in front of a pattern-free string is exactly what `replace(pat, '')` removes. */
  lemma RemoveAllPrefix(pat: string, t: string)
    requires pat != [] && !IsSubstring(pat, t)
    ensures RemoveAll(pat + t, pat) == t
  {
    var s := pat + t;
    assert s[..|pat|] == pat && s[|pat|..] == t;
    RemoveAllAbsent(t, pat);
  }

  // ---------------------------------------------------------------- paths

  /** `s.rfind(c)`: the index of the last `c`, or -1. */
  function RFind(s: string, c: char): (i: int)
    ensures -1 <= i < |s|
    ensures i == -1 ==> c !in s
    ensures 0 <= i ==> s[i] == c && c !in s[i + 1..]
  {
    if s == [] then -1
    else if s[|s| - 1] == c then |s| - 1
    else
      var i := RFind(s[..|s| - 1], c);
      assert i >= 0 ==> s[i + 1..] == s[..|s| - 1][i + 1..] + [s[|s| - 1]];
      i
  }

  /** `pathlib.PurePath(name).stem`. */
  function Stem(name: string): string {
    var i := RFind(name, '.');
    if 0 < i < |name| - 1 then name[..i] else name
  }

  /** `pathlib.PurePath(name).suffix`: from the last dot on, unless that dot leads or ends the name. */
  function Suffix(name: string): (r: string)
    ensures Stem(name) + r == name
    ensures r == [] || (|r| >= 2 && r[0] == '.' && '.' !in r[1..])
  {
    var i := RFind(name, '.');
    if 0 < i < |name| - 1 then name[i..] else ""
  }

  /**
   * Where `pathlib` finds a suffix, `name.split('.')[-1]` is that suffix without its dot:
   * the two ways the code derives an image format agree.
   */
  lemma SuffixIsLastPiece(name: string)
    requires Suffix(name) != []
    ensures LastPiece(name, '.') == Suffix(name)[1..]
  {
    var i := RFind(name, '.');
    assert Suffix(name)[1..] == name[i + 1..] by {
      assert Suffix(name) == name[i..];
    }
    LastPieceAfterLast(name, '.');
  }

  // ---------------------------------------------------------------- numbers

  function DigitChar(d: nat): char
    requires d < 10
  {
    "0123456789"[d]
  }

  predicate IsDigits(s: string) {
    forall k :: 0 <= k < |s| ==> '0' <= s[k] <= '9'
  }

  /** `f"{n}"` for a natural number. */
  function Decimal(n: nat): (s: string)
    ensures s != [] && IsDigits(s)
  {
    if n < 10 then [DigitChar(n)] else Decimal(n / 10) + [DigitChar(n % 10)]
  }

  /** `int(s)` for a string of digits. */
  function ParseDecimal(s: string): nat
    requires IsDigits(s)
  {
    if s == [] then 0 else 10 * ParseDecimal(s[..|s| - 1]) + (s[|s| - 1] as int - '0' as int)
  }

  lemma {:induction false} DecimalRoundTrip(n: nat)
    ensures ParseDecimal(Decimal(n)) == n
  {
    if n >= 10 {
      var s := Decimal(n);
      assert s[..|s| - 1] == Decimal(n / 10);
      DecimalRoundTrip(n / 10);
    }
  }

  /** The `"{width}x{height}"` string stored under `properties.dimensions`. */
  function Dimensions(width: nat, height: nat): string {
    Decimal(width) + "x" + Decimal(height)
  }

  /** Reads a `"{width}x{height}"` string back. */
  function ParseDimensions(s: string): Option<(nat, nat)> {
    var ps := Split(s, 'x');
    if |ps| == 2 && ps[0] != [] && ps[1] != [] && IsDigits(ps[0]) && IsDigits(ps[1])
    then Some((ParseDecimal(ps[0]), ParseDecimal(ps[1])))
    else None
  }

  /** The dimensions string is unambiguous: it determines the width and the height. */
  lemma DimensionsRoundTrip(width: nat, height: nat)
    ensures ParseDimensions(Dimensions(width, height)) == Some((width, height))
  {
    var a, b := Decimal(width), Decimal(height);
    assert 'x' !in a && 'x' !in b by {
      forall k | 0 <= k < |a| ensures a[k] != 'x' { }
      forall k | 0 <= k < |b| ensures b[k] != 'x' { }
    }
    assert Dimensions(width, height) == a + ['x'] + b;
    SplitConcat(a, 'x', b);
    SplitWhole(a, 'x');
    SplitWhole(b, 'x');
    DecimalRoundTrip(width);
    DecimalRoundTrip(height);
  }
}
