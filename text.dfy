/** The handful of Python `str` operations the decoders are built from:
    `strip`, `isdigit`, `int`/`str` on decimal digits, `split`/`join` on one
    character, `replace` of one character and zero padding. */
module Text {

  /** Python's `str.isspace()`: ASCII white space, the four ASCII information
      separators and the Unicode white-space characters. */
  predicate IsSpace(c: char) {
    ('\U{0009}' <= c <= '\U{000D}') || ('\U{001C}' <= c <= '\U{0020}') ||
    c == '\U{0085}' || c == '\U{00A0}' || c == '\U{1680}' ||
    ('\U{2000}' <= c <= '\U{200A}') || c == '\U{2028}' || c == '\U{2029}' ||
    c == '\U{202F}' || c == '\U{205F}' || c == '\U{3000}'
  }

  predicate AllSpace(s: string) {
    forall i :: 0 <= i < |s| ==> IsSpace(s[i])
  }

  /** Drops leading white space (Python's `lstrip()`). */
  function TrimLeft(s: string): (r: string)
    ensures |r| <= |s|
    ensures |r| > 0 ==> !IsSpace(r[0])
  {
    if |s| > 0 && IsSpace(s[0]) then TrimLeft(s[1..]) else s
  }

  /** Drops trailing white space (Python's `rstrip()`). */
  function TrimRight(s: string): (r: string)
    ensures |r| <= |s|
    ensures |r| > 0 ==> !IsSpace(r[|r| - 1])
  {
    if |s| > 0 && IsSpace(s[|s| - 1]) then TrimRight(s[..|s| - 1]) else s
  }

  /** Python's `str.strip()`: `s` without white space at either end. */
  function Strip(s: string): (r: string)
    ensures |r| <= |s|
    ensures |r| > 0 ==> !IsSpace(r[0]) && !IsSpace(r[|r| - 1])
  {
    var t := TrimRight(s);
    TrimLeftCuts(t);
    TrimLeft(t)
  }

  lemma {:induction false} TrimLeftCuts(s: string)
    ensures var r := TrimLeft(s);
      r == s[|s| - |r|..] && AllSpace(s[..|s| - |r|])
    decreases |s|
  {
    if |s| > 0 && IsSpace(s[0]) {
      TrimLeftCuts(s[1..]);
      var r := TrimLeft(s);
      assert s[..|s| - |r|] == [s[0]] + s[1..][..|s| - 1 - |r|];
    }
  }

  lemma {:induction false} TrimRightCuts(s: string)
    ensures var r := TrimRight(s);
      r == s[..|r|] && AllSpace(s[|r|..])
    decreases |s|
  {
    if |s| > 0 && IsSpace(s[|s| - 1]) {
      TrimRightCuts(s[..|s| - 1]);
      var r := TrimRight(s);
      assert s[|r|..] == s[..|s| - 1][|r|..] + [s[|s| - 1]];
    }
  }

  /** What `Strip` keeps is an infix of its input, and everything it cuts off is
      white space. */
  lemma StripInfix(s: string)
    ensures var r := Strip(s);
      exists i :: 0 <= i <= |s| - |r| && r == s[i..i + |r|] &&
                  AllSpace(s[..i]) && AllSpace(s[i + |r|..])
  {
    var t := TrimRight(s);
    var r := TrimLeft(t);
    TrimRightCuts(s);
    TrimLeftCuts(t);
    var i := |t| - |r|;
    assert r == s[i..i + |r|];
    assert AllSpace(s[..i]) by { assert s[..i] == t[..i]; }
    assert AllSpace(s[i + |r|..]) by { assert s[i + |r|..] == s[|t|..]; }
  }

  /** A string with no white space at either end is its own strip. */
  lemma StripStripped(s: string)
    requires |s| > 0 ==> !IsSpace(s[0]) && !IsSpace(s[|s| - 1])
    ensures Strip(s) == s
  {
  }

  /** Digits are not white space, so a digit string is its own strip. */
  lemma StripDigits(s: string)
    requires AllDigits(s)
    ensures Strip(s) == s
  {
    if |s| > 0 {
      assert IsDigit(s[0]) && IsDigit(s[|s| - 1]);
    }
    StripStripped(s);
  }

  /** A space in front of an already stripped string does not survive stripping. */
  lemma StripSpaceBefore(s: string)
    requires |s| > 0 && !IsSpace(s[0]) && !IsSpace(s[|s| - 1])
    ensures Strip(" " + s) == s
  {
    var t := " " + s;
    assert t[|t| - 1] == s[|s| - 1];
    assert TrimRight(t) == t;
    assert t[1..] == s;
    assert TrimLeft(t) == TrimLeft(s) == s;
  }

  /** ASCII decimal digit (the model of Python's `isdigit`, see README). */
  predicate IsDigit(c: char) {
    '0' <= c <= '9'
  }

  predicate AllDigits(s: string) {
    forall i :: 0 <= i < |s| ==> IsDigit(s[i])
  }

  function DigitValue(c: char): (d: nat)
    requires IsDigit(c)
    ensures d < 10
  {
    c as int - '0' as int
  }

  function DigitChar(d: nat): (c: char)
    requires d < 10
    ensures IsDigit(c) && DigitValue(c) == d
  {
    ('0' as int + d) as char
  }

  /** Python's `int(s)` on a string of decimal digits. */
  function ParseDigits(s: string): nat
    requires AllDigits(s)
  {
    if s == [] then 0 else ParseDigits(s[..|s| - 1]) * 10 + DigitValue(s[|s| - 1])
  }

  /** Python's `str(n)` on a natural number: decimal digits without leading zeros. */
  function ShowNat(n: nat): (r: string)
    ensures |r| >= 1 && AllDigits(r)
    ensures r[0] == '0' ==> n == 0
  {
    if n < 10 then [DigitChar(n)] else ShowNat(n / 10) + [DigitChar(n % 10)]
  }

  /** Python's `str(i)` on any integer. */
  function ShowInt(i: int): (r: string)
    ensures |r| >= 1
    ensures (r[0] == '-') == (i < 0)
  {
    if i < 0 then "-" + ShowNat(-i) else ShowNat(i)
  }

  /** Rendering then parsing gives the number back. */
  lemma {:induction false} ParseShowNat(n: nat)
    ensures ParseDigits(ShowNat(n)) == n
  {
    if n >= 10 {
      var s := ShowNat(n);
      assert s[..|s| - 1] == ShowNat(n / 10);
      ParseShowNat(n / 10);
    }
  }

  /** Leading zeros removed; all zeros (or nothing) read as "0". */
  function DropLeadingZeros(s: string): (r: string)
    ensures |r| <= |s|
    ensures |r| > 0 ==> r[0] != '0'
  {
    if |s| > 0 && s[0] == '0' then DropLeadingZeros(s[1..]) else s
  }

  /** What `DropLeadingZeros` removes is a run of zeros in front of what it keeps. */
  lemma {:induction false} DropLeadingZerosCuts(s: string)
    ensures var r := DropLeadingZeros(s);
      s == seq(|s| - |r|, _ => '0') + r
    decreases |s|
  {
    if |s| > 0 && s[0] == '0' {
      DropLeadingZerosCuts(s[1..]);
      var r := DropLeadingZeros(s);
      assert s == [s[0]] + s[1..];
      assert seq(|s| - |r|, _ => '0') == ['0'] + seq(|s| - 1 - |r|, _ => '0');
    } else {
      assert s == seq(0, _ => '0') + s;
    }
  }

  function CanonicalDigits(s: string): string {
    var t := DropLeadingZeros(s);
    if t == [] then "0" else t
  }

  /** `str(int(s))` is `s` without its leading zeros, or "0" when nothing is left. */
  lemma {:induction false} ShowParseCanonical(s: string)
    requires AllDigits(s)
    ensures ShowNat(ParseDigits(s)) == CanonicalDigits(s)
  {
    var t := DropLeadingZeros(s);
    ParseDropZeros(s);
    if t != [] {
      ShowParseNoLeadingZero(t);
    }
  }

  lemma {:induction false} ParseDropZeros(s: string)
    requires AllDigits(s)
    ensures AllDigits(DropLeadingZeros(s))
    ensures ParseDigits(DropLeadingZeros(s)) == ParseDigits(s)
    decreases |s|
  {
    if |s| > 0 && s[0] == '0' {
      ParseDropZeros(s[1..]);
      ParseLeadingZero(s[1..]);
      assert s == ['0'] + s[1..];
    }
  }

  lemma {:induction false} ParseLeadingZero(t: string)
    requires AllDigits(t)
    ensures ParseDigits(['0'] + t) == ParseDigits(t)
    decreases |t|
  {
    if t != [] {
      var u := ['0'] + t;
      assert u[..|u| - 1] == ['0'] + t[..|t| - 1];
      ParseLeadingZero(t[..|t| - 1]);
    }
  }

  lemma {:induction false} ShowParseNoLeadingZero(t: string)
    requires AllDigits(t) && |t| >= 1 && t[0] != '0'
    ensures ShowNat(ParseDigits(t)) == t
    decreases |t|
  {
    var u := t[..|t| - 1];
    if u == [] {
      assert ParseDigits(t) == DigitValue(t[0]);
    } else {
      ShowParseNoLeadingZero(u);
      var n := ParseDigits(t);
      assert n == ParseDigits(u) * 10 + DigitValue(t[|t| - 1]);
      assert ParseDigits(u) != 0;
      assert n / 10 == ParseDigits(u) && n % 10 == DigitValue(t[|t| - 1]);
      assert t == u + [t[|t| - 1]];
    }
  }

  /** Python's `f"{n:0{width}d}"` for a natural number. */
  function ZeroPad(n: nat, width: nat): (r: string)
    ensures |r| >= width
  {
    var s := ShowNat(n);
    if |s| < width then seq(width - |s|, _ => '0') + s else s
  }

  /** Position of the first `c` in `s`, or `|s|` when there is none. */
  function IndexOf(s: string, c: char): (i: nat)
    ensures i <= |s|
    ensures i < |s| ==> s[i] == c
    ensures c !in s[..i]
  {
    if s == [] then 0
    else if s[0] == c then 0
    else
      var j := IndexOf(s[1..], c);
      assert s[..j + 1] == [s[0]] + s[1..][..j];
      j + 1
  }

  /** Python's `s.split(c)`: the pieces between occurrences of `c`. */
  function Split(s: string, c: char): (parts: seq<string>)
    ensures |parts| >= 1
    ensures forall k :: 0 <= k < |parts| ==> c !in parts[k]
    decreases |s|
  {
    var i := IndexOf(s, c);
    if i == |s| then [s] else [s[..i]] + Split(s[i + 1..], c)
  }

  /** Python's `c.join(parts)`. */
  function Join(parts: seq<string>, c: char): string
    requires |parts| >= 1
  {
    if |parts| == 1 then parts[0] else parts[0] + [c] + Join(parts[1..], c)
  }

  /** Joining the pieces of a split gives the string back. */
  lemma {:induction false} JoinSplit(s: string, c: char)
    ensures Join(Split(s, c), c) == s
    decreases |s|
  {
    var i := IndexOf(s, c);
    if i < |s| {
      var rest := Split(s[i + 1..], c);
      var parts := [s[..i]] + rest;
      assert Split(s, c) == parts;
      assert parts[1..] == rest;
      JoinSplit(s[i + 1..], c);
      assert Join(parts, c) == s[..i] + [c] + s[i + 1..];
      assert s == s[..i] + [c] + s[i + 1..];
    }
  }

  /** Splitting a join of separator-free pieces gives the pieces back. */
  lemma {:induction false} SplitJoin(parts: seq<string>, c: char)
    requires |parts| >= 1
    requires forall k :: 0 <= k < |parts| ==> c !in parts[k]
    ensures Split(Join(parts, c), c) == parts
    decreases |parts|
  {
    var s := Join(parts, c);
    var p := parts[0];
    if |parts| == 1 {
      assert IndexOf(s, c) == |s| by { IndexOfAbsent(s, c); }
    } else {
      var rest := Join(parts[1..], c);
      assert s == p + [c] + rest;
      IndexOfAfter(p, c, rest);
      assert s[..|p|] == p && s[|p| + 1..] == rest;
      SplitJoin(parts[1..], c);
    }
  }

  lemma IndexOfAbsent(s: string, c: char)
    requires c !in s
    ensures IndexOf(s, c) == |s|
  {
  }

  lemma {:induction false} IndexOfAfter(p: string, c: char, rest: string)
    requires c !in p
    ensures IndexOf(p + [c] + rest, c) == |p|
    decreases |p|
  {
    var s := p + [c] + rest;
    if p != [] {
      assert s[0] == p[0] && s[1..] == p[1..] + [c] + rest;
      IndexOfAfter(p[1..], c, rest);
    }
  }

  /** Python's `s.replace(c, rep)` for a one-character `c`. */
  function Replace(s: string, c: char, rep: string): (r: string)
    ensures c !in rep ==> c !in r
    ensures c !in s ==> r == s
    ensures |rep| == 1 ==> |r| == |s|
    ensures |rep| == 1 ==> forall i :: 0 <= i < |s| ==> r[i] == if s[i] == c then rep[0] else s[i]
  {
    if s == [] then [] else (if s[0] == c then rep else [s[0]]) + Replace(s[1..], c, rep)
  }

  /** `s` with every character of `cs` deleted. */
  function RemoveChars(s: string, cs: set<char>): string {
    if s == [] then [] else (if s[0] in cs then [] else [s[0]]) + RemoveChars(s[1..], cs)
  }

  lemma {:induction false} RemoveCharsAppend(a: string, b: string, cs: set<char>)
    ensures RemoveChars(a + b, cs) == RemoveChars(a, cs) + RemoveChars(b, cs)
    decreases |a|
  {
    if a == [] {
      assert a + b == b;
    } else {
      assert (a + b)[0] == a[0] && (a + b)[1..] == a[1..] + b;
      RemoveCharsAppend(a[1..], b, cs);
    }
  }

  predicate NoneOf(s: string, cs: set<char>) {
    forall i :: 0 <= i < |s| ==> s[i] !in cs
  }

  /** A digit string holds none of a set of non-digits. */
  lemma DigitsNoneOf(s: string, cs: set<char>)
    requires AllDigits(s) && forall c :: c in cs ==> !IsDigit(c)
    ensures NoneOf(s, cs)
  {
  }

  lemma {:induction false} RemoveCharsNone(s: string, cs: set<char>)
    requires NoneOf(s, cs)
    ensures RemoveChars(s, cs) == s
    decreases |s|
  {
    if s != [] { RemoveCharsNone(s[1..], cs); }
  }

  /** Removing the characters of `cs` from `x`, one of them, and a piece `y` free of them. */
  lemma RemoveCharsSep(x: string, p: char, y: string, cs: set<char>)
    requires p in cs && NoneOf(y, cs)
    ensures RemoveChars(x + [p] + y, cs) == RemoveChars(x, cs) + y
  {
    RemoveCharsAppend(x + [p], y, cs);
    RemoveCharsAppend(x, [p], cs);
    RemoveCharsNone(y, cs);
  }
}
