/**
 * The Python `str` built-ins and regular-expression character classes that the
 * dictionary converter relies on, over `string` (a sequence of Unicode code
 * points). Bytes and their UTF-8 decoding are not distinguished from text.
 */
module Strings {

  datatype Option<+T> = None | Some(value: T)

  // ------------------------------------------------------------ characters

  /** `str.isspace()`; also exactly what `\s` matches in a `str` pattern. */
  predicate IsSpace(c: char)
  {
    || '\t' <= c <= '\r'
    || '\U{1C}' <= c <= ' '
    || c == '\U{85}' || c == '\U{A0}' || c == '\U{1680}'
    || '\U{2000}' <= c <= '\U{200A}'
    || c == '\U{2028}' || c == '\U{2029}' || c == '\U{202F}' || c == '\U{205F}' || c == '\U{3000}'
  }

  /** What `\s` matches in a `bytes` pattern: ASCII whitespace only. */
  predicate IsAsciiSpace(c: char)
  {
    c == ' ' || '\t' <= c <= '\r'
  }

  /** What `\w` matches in a `str` pattern, for code points up to U+00FF. */
  predicate IsWordChar(c: char)
  {
    || 'a' <= c <= 'z' || 'A' <= c <= 'Z' || '0' <= c <= '9' || c == '_'
    || c == '\U{AA}' || c == '\U{B2}' || c == '\U{B3}' || c == '\U{B5}'
    || c == '\U{B9}' || c == '\U{BA}' || '\U{BC}' <= c <= '\U{BE}'
    || ('\U{C0}' <= c <= '\U{FF}' && c != '\U{D7}' && c != '\U{F7}')
  }

  /** Upper-case letters of ASCII and Latin-1, which `str.lower()` shifts by 32. */
  predicate IsUpper(c: char)
  {
    'A' <= c <= 'Z' || ('\U{C0}' <= c <= '\U{DE}' && c != '\U{D7}')
  }

  function LowerChar(c: char): (r: char)
    ensures IsUpper(c) ==> r as int == c as int + 32
    ensures !IsUpper(c) ==> r == c
  {
    if IsUpper(c) then (c as int + 32) as char else c
  }

  /** `str.lower()`, for code points up to U+00FF. */
  function Lower(s: string): (r: string)
  {
    seq(|s|, i requires 0 <= i < |s| => LowerChar(s[i]))
  }

  /** Lower-casing keeps every character that is not an upper-case letter. */
  lemma LowerKeeps(s: string, c: char)
    requires !IsUpper(c)
    ensures c in s ==> c in Lower(s)
  {
    if c in s {
      var i :| 0 <= i < |s| && s[i] == c;
      assert Lower(s)[i] == c;
    }
  }

  // ------------------------------------------------------------ searching

  /** `p` occurs in `s` starting at index `i`. */
  predicate OccursAt(s: string, p: string, i: int)
  {
    0 <= i && i + |p| <= |s| && s[i..i + |p|] == p
  }

  predicate StartsWith(s: string, p: string)
  {
    |p| <= |s| && s[..|p|] == p
  }

  /** Python's `p in s` on strings, as a search from the left. */
  predicate Contains(s: string, p: string)
    decreases |s|
  {
    |p| <= |s| && (s[..|p|] == p || Contains(s[1..], p))
  }

  /** The search agrees with "`p` occurs at some index of `s`", in both directions. */
  lemma {:induction false} ContainsIff(s: string, p: string)
    ensures Contains(s, p) <==> exists i :: OccursAt(s, p, i)
    decreases |s|
  {
    if |p| <= |s| && s[..|p|] != p {
      ContainsIff(s[1..], p);
      forall i | OccursAt(s[1..], p, i)
        ensures OccursAt(s, p, i + 1)
      {
        assert s[i + 1..i + 1 + |p|] == s[1..][i..i + |p|];
      }
      forall i | OccursAt(s, p, i)
        ensures OccursAt(s[1..], p, i - 1)
      {
        assert s[1..][i - 1..i - 1 + |p|] == s[i..i + |p|];
      }
    } else if |p| <= |s| {
      assert OccursAt(s, p, 0);
    }
  }

  /** `str.find(p, from)`: the first index from `from` on where `p` occurs. */
  function Find(s: string, p: string, from: nat): (r: Option<nat>)
    ensures r.Some? ==> from <= r.value && OccursAt(s, p, r.value)
    ensures forall i :: from <= i && (r.None? || i < r.value) ==> !OccursAt(s, p, i)
    decreases |s| - from
  {
    if from + |p| > |s| then None
    else if s[from..from + |p|] == p then Some(from)
    else Find(s, p, from + 1)
  }

  /** `str.find(c, from)` for one character. */
  function FindChar(s: string, c: char, from: nat): (r: Option<nat>)
    ensures r.Some? ==> from <= r.value < |s| && s[r.value] == c
    ensures forall i :: from <= i < |s| && (r.None? || i < r.value) ==> s[i] != c
    decreases |s| - from
  {
    if from >= |s| then None
    else if s[from] == c then Some(from)
    else FindChar(s, c, from + 1)
  }

  /** The last index `i` with `lo <= i` and `i + |p| <= hi` where `p` occurs. */
  function FindLast(s: string, p: string, lo: nat, hi: nat): (r: Option<nat>)
    requires hi <= |s|
    ensures r.Some? ==> lo <= r.value && r.value + |p| <= hi && OccursAt(s, p, r.value)
    ensures forall i :: lo <= i && i + |p| <= hi && (r.None? || r.value < i) ==> !OccursAt(s, p, i)
    decreases hi
  {
    if lo + |p| > hi then None
    else if OccursAt(s, p, hi - |p|) then Some(hi - |p|)
    else FindLast(s, p, lo, hi - 1)
  }

  /** The end of the run of `\w` characters that starts at `from`. */
  function WordRunEnd(s: string, from: nat): (r: nat)
    requires from <= |s|
    ensures from <= r <= |s|
    ensures forall i :: from <= i < r ==> IsWordChar(s[i])
    ensures r == |s| || !IsWordChar(s[r])
    decreases |s| - from
  {
    if from < |s| && IsWordChar(s[from]) then WordRunEnd(s, from + 1) else from
  }

  /** What `.*` matches from `from`: everything up to the next newline. */
  function LineFrom(s: string, from: nat): (r: string)
    requires from <= |s|
    ensures '\n' !in r && from + |r| <= |s|
    ensures r == s[from..from + |r|]
    ensures from + |r| == |s| || s[from + |r|] == '\n'
  {
    match FindChar(s, '\n', from)
    case None => s[from..]
    case Some(i) => s[from..i]
  }

  /** Where `p + q` occurs, `p` occurs and `q` right after it. */
  lemma OccursAtSplit(s: string, p: string, q: string, i: int)
    requires OccursAt(s, p + q, i)
    ensures OccursAt(s, p, i) && OccursAt(s, q, i + |p|)
  {
    var m := i + |p|;
    var t := s[i..m + |q|];
    assert s[i..m] == t[..|p|];
    assert s[m..m + |q|] == t[|p|..];
  }

  /** A run of word characters followed by a non-word character or the end is
      exactly what `\w+` takes. */
  lemma WordRunEndAt(s: string, from: nat, word: string)
    requires OccursAt(s, word, from)
    requires forall i :: 0 <= i < |word| ==> IsWordChar(word[i])
    requires from + |word| == |s| || !IsWordChar(s[from + |word|])
    ensures WordRunEnd(s, from) == from + |word|
  {
    forall i | from <= i < from + |word| ensures IsWordChar(s[i]) {
      assert s[i] == s[from..from + |word|][i - from];
    }
  }

  /** After a stretch `x` free of `c`, the next `c` is the one that follows it. */
  lemma FindCharAfter(s: string, c: char, from: nat, x: string)
    requires OccursAt(s, x, from) && c !in x
    requires from + |x| < |s| && s[from + |x|] == c
    ensures FindChar(s, c, from) == Some(from + |x|)
  {
    forall i | from <= i < from + |x| ensures s[i] != c {
      assert s[i] == x[i - from];
    }
  }

  /** On its last line, `.*` takes everything that is left. */
  lemma LineFromLastLine(s: string, from: nat)
    requires from <= |s| && '\n' !in s[from..]
    ensures LineFrom(s, from) == s[from..]
  {
    forall i | from <= i < |s| ensures s[i] != '\n' { assert s[i] == s[from..][i - from]; }
  }

  /** `.*` takes a line that is followed by the end or by a newline. */
  lemma LineFromBefore(s: string, from: nat, line: string, more: string)
    requires from <= |s| && s[from..] == line + more && '\n' !in line
    requires more == [] || more[0] == '\n'
    ensures LineFrom(s, from) == line
  {
    if more == [] {
      LineFromLastLine(s, from);
    } else {
      assert s[from..from + |line|] == s[from..][..|line|];
      assert s[from + |line|] == s[from..][|line|];
      FindCharAfter(s, '\n', from, line);
    }
  }

  // ------------------------------------------------------------ stripping

  /** `str.lstrip()`. */
  function TrimStart(s: string): (r: string)
    ensures |r| <= |s| && (r == [] || !IsSpace(r[0]))
    decreases |s|
  {
    if |s| > 0 && IsSpace(s[0]) then TrimStart(s[1..]) else s
  }

  /** `lstrip` removes a run of whitespace from the front and nothing else. */
  lemma {:induction false} TrimStartDropsSpace(s: string)
    ensures TrimStart(s) == s[|s| - |TrimStart(s)|..]
    ensures forall i :: 0 <= i < |s| - |TrimStart(s)| ==> IsSpace(s[i])
    decreases |s|
  {
    if |s| > 0 && IsSpace(s[0]) {
      TrimStartDropsSpace(s[1..]);
      assert s[1..][|s| - 1 - |TrimStart(s)|..] == s[|s| - |TrimStart(s)|..];
      forall i | 1 <= i < |s| - |TrimStart(s)| ensures IsSpace(s[i]) {
        assert s[i] == s[1..][i - 1];
      }
    }
  }

  /** `str.rstrip()`. */
  function TrimEnd(s: string): (r: string)
    ensures |r| <= |s| && (r == [] || !IsSpace(r[|r| - 1]))
    decreases |s|
  {
    if |s| > 0 && IsSpace(s[|s| - 1]) then TrimEnd(s[..|s| - 1]) else s
  }

  /** `rstrip` removes a run of whitespace from the back and nothing else. */
  lemma {:induction false} TrimEndDropsSpace(s: string)
    ensures TrimEnd(s) == s[..|TrimEnd(s)|]
    ensures forall i :: |TrimEnd(s)| <= i < |s| ==> IsSpace(s[i])
    decreases |s|
  {
    if |s| > 0 && IsSpace(s[|s| - 1]) {
      TrimEndDropsSpace(s[..|s| - 1]);
      assert s[..|s| - 1][..|TrimEnd(s)|] == s[..|TrimEnd(s)|];
      forall i | |TrimEnd(s)| <= i < |s| - 1 ensures IsSpace(s[i]) {
        assert s[i] == s[..|s| - 1][i];
      }
    }
  }

  /** `str.strip()`: no whitespace is left at either end, and a string without
      whitespace at its ends is kept whole. */
  function Strip(s: string): (r: string)
    ensures r == [] || (!IsSpace(r[0]) && !IsSpace(r[|r| - 1]))
    ensures s == [] || (!IsSpace(s[0]) && !IsSpace(s[|s| - 1])) ==> r == s
  {
    var t := TrimStart(s);
    TrimEndDropsSpace(t);
    TrimEnd(t)
  }

  /** Every character that stripping keeps is one of `s`. */
  lemma StripChars(s: string, c: char)
    ensures c in Strip(s) ==> c in s
  {
    var t := TrimStart(s);
    var r := TrimEnd(t);
    TrimStartDropsSpace(s);
    TrimEndDropsSpace(t);
    if c in r {
      var k :| 0 <= k < |r| && r[k] == c;
      assert t[k] == c;
      assert s[|s| - |t| + k] == c;
    }
  }

  // ------------------------------------------------------------ join and split

  /** `sep.join(xs)`. */
  function Join(xs: seq<string>, sep: string): string
    decreases |xs|
  {
    if |xs| == 0 then "" else if |xs| == 1 then xs[0] else xs[0] + sep + Join(xs[1..], sep)
  }

  /** Appending one more part adds one separator and the part, and nothing else. */
  lemma {:induction false} JoinAppend(xs: seq<string>, sep: string, y: string)
    ensures Join(xs + [y], sep) == if xs == [] then y else Join(xs, sep) + sep + y
    decreases |xs|
  {
    if |xs| >= 2 {
      assert (xs + [y])[1..] == xs[1..] + [y];
      JoinAppend(xs[1..], sep, y);
    } else if |xs| == 1 {
      assert (xs + [y])[1..] == [y];
    }
  }

  /** Joining two non-empty runs of parts is joining each, with one separator between. */
  lemma {:induction false} JoinConcat(xs: seq<string>, ys: seq<string>, sep: string)
    requires xs != [] && ys != []
    ensures Join(xs + ys, sep) == Join(xs, sep) + sep + Join(ys, sep)
    decreases |xs|
  {
    assert (xs + ys)[0] == xs[0];
    if |xs| == 1 {
      assert (xs + ys)[1..] == ys;
    } else {
      assert (xs + ys)[1..] == xs[1..] + ys;
      JoinConcat(xs[1..], ys, sep);
    }
  }

  /** Cutting the parts at `k` cuts the join at the separator between part
      `k - 1` and part `k`. */
  lemma JoinSplitAt(xs: seq<string>, sep: string, k: nat)
    requires 0 < k < |xs|
    ensures Join(xs, sep) == Join(xs[..k], sep) + sep + Join(xs[k..], sep)
  {
    JoinConcat(xs[..k], xs[k..], sep);
    assert xs[..k] + xs[k..] == xs;
  }

  /** `s.split(c)` for a one-character separator. */
  function Split(s: string, c: char): (r: seq<string>)
    ensures |r| >= 1
    ensures forall k :: 0 <= k < |r| ==> c !in r[k]
    decreases |s|
  {
    match FindChar(s, c, 0)
    case None => [s]
    case Some(i) => [s[..i]] + Split(s[i + 1..], c)
  }

  /** Splitting a join on a separator that no part contains gives back the parts. */
  lemma {:induction false} SplitJoin(xs: seq<string>, c: char)
    requires |xs| >= 1
    requires forall k :: 0 <= k < |xs| ==> c !in xs[k]
    ensures Split(Join(xs, [c]), c) == xs
    decreases |xs|
  {
    var s := Join(xs, [c]);
    if |xs| == 1 {
      assert FindChar(s, c, 0) == None;
    } else {
      assert s == xs[0] + [c] + Join(xs[1..], [c]);
      SplitAtFirst(s, c, xs[0], Join(xs[1..], [c]));
      SplitJoin(xs[1..], c);
    }
  }

  /** Splitting cuts at the first separator. */
  lemma SplitAtFirst(s: string, c: char, x: string, rest: string)
    requires c !in x && s == x + [c] + rest
    ensures Split(s, c) == [x] + Split(rest, c)
  {
    assert OccursAt(s, x, 0) by { assert s[..|x|] == x; }
    FindCharAfter(s, c, 0, x);
    assert s[|x| + 1..] == rest;
  }

  /** Joining the parts of a split gives back the string. */
  lemma {:induction false} JoinSplit(s: string, c: char)
    ensures Join(Split(s, c), [c]) == s
    decreases |s|
  {
    match FindChar(s, c, 0)
    case None =>
    case Some(i) =>
      var rest := Split(s[i + 1..], c);
      JoinSplit(s[i + 1..], c);
      assert Split(s, c) == [s[..i]] + rest;
      assert (Split(s, c))[1..] == rest;
      assert s == s[..i] + [c] + s[i + 1..];
  }

  // ------------------------------------------------------------ numbers

  function DigitChar(d: nat): (r: char)
    requires d < 10
    ensures '0' <= r <= '9'
  {
    ('0' as int + d) as char
  }

  predicate AllDigits(s: string)
  {
    forall k :: 0 <= k < |s| ==> '0' <= s[k] <= '9'
  }

  /** `str(n)` for a natural number: decimal digits, most significant first. */
  function Decimal(n: nat): (r: string)
    ensures |r| >= 1 && AllDigits(r)
    ensures r[0] == '0' ==> n == 0
  {
    if n < 10 then [DigitChar(n)] else Decimal(n / 10) + [DigitChar(n % 10)]
  }

  /** `int(s)` for a string of decimal digits. */
  function DecimalValue(s: string): nat
    requires AllDigits(s)
  {
    if s == [] then 0 else 10 * DecimalValue(s[..|s| - 1]) + (s[|s| - 1] as int - '0' as int)
  }

  /** Reading back the decimal form of `n` gives `n`. */
  lemma {:induction false} DecimalRoundTrip(n: nat)
    ensures DecimalValue(Decimal(n)) == n
  {
    if n >= 10 {
      DecimalRoundTrip(n / 10);
      var d := Decimal(n);
      assert d[..|d| - 1] == Decimal(n / 10);
    }
  }

  /** A line `d.note text` that starts with the digits `d`: it starts with `d.`,
      and its first `.` is the one right after `d`. */
  lemma NumberThenDot(d: string, note: string, text: string)
    requires AllDigits(d)
    ensures var x := d + "." + note + " " + text;
      && StartsWith(x, d + ".") && x[..|d|] == d && FindChar(x, '.', 0) == Some(|d|)
  {
    var x := d + "." + note + " " + text;
    assert x[..|d|] == d;
    assert x[..|d| + 1] == d + ".";
    assert x[0..|d|] == d && x[|d|] == '.';
    assert '.' !in d by {
      forall i | 0 <= i < |d| ensures d[i] != '.' { }
    }
    FindCharAfter(x, '.', 0, d);
  }
}
