/** The string helpers the ledger relies on, standing in for Python's
    `str.strip`, `str.title`, `str.lower`, `str.isdigit`, `int` on a digit
    string, and the ordering Python uses when it compares or sorts strings
    (code point by code point). */
module Text {

  /** Python's `str.isspace` (the characters `str.strip()` removes). */
  predicate IsSpace(c: char)
  {
    var n := c as int;
    n == 0x20 || 0x09 <= n <= 0x0d || 0x1c <= n <= 0x1f || n == 0x85 || n == 0xa0 ||
    n == 0x1680 || 0x2000 <= n <= 0x200a || n == 0x2028 || n == 0x2029 ||
    n == 0x202f || n == 0x205f || n == 0x3000
  }

  predicate IsUpper(c: char) { 'A' <= c <= 'Z' }
  predicate IsLower(c: char) { 'a' <= c <= 'z' }
  /** A cased character, in the ASCII range. */
  predicate IsLetter(c: char) { IsUpper(c) || IsLower(c) }
  predicate IsDigit(c: char) { '0' <= c <= '9' }

  function ToUpper(c: char): char
  {
    if IsLower(c) then (c as int - 32) as char else c
  }

  function ToLower(c: char): char
  {
    if IsUpper(c) then (c as int + 32) as char else c
  }

  // ---------------------------------------------------------------- strip

  function TrimLeft(s: string): (r: string)
    ensures |r| <= |s| && r == s[|s| - |r|..]
    ensures r == [] || !IsSpace(r[0])
    ensures forall i :: 0 <= i < |s| - |r| ==> IsSpace(s[i])
  {
    if s != [] && IsSpace(s[0]) then TrimLeft(s[1..]) else s
  }

  function TrimRight(s: string): (r: string)
    ensures |r| <= |s| && r == s[..|r|]
    ensures r == [] || !IsSpace(r[|r| - 1])
    ensures forall i :: |r| <= i < |s| ==> IsSpace(s[i])
  {
    if s != [] && IsSpace(s[|s| - 1]) then TrimRight(s[..|s| - 1]) else s
  }

  /** How many white-space characters `str.strip()` cuts from the front of `s`. */
  function LeadingSpace(s: string): (n: nat)
    ensures n <= |s|
  {
    |s| - |TrimLeft(s)|
  }

  /** `str.strip()`: the longest slice of `s` that neither starts nor ends
      with white space; only white space is cut away. */
  function Strip(s: string): (r: string)
    ensures LeadingSpace(s) + |r| <= |s| && r == s[LeadingSpace(s)..LeadingSpace(s) + |r|]
    ensures r == [] || (!IsSpace(r[0]) && !IsSpace(r[|r| - 1]))
    ensures forall k :: 0 <= k < LeadingSpace(s) ==> IsSpace(s[k])
    ensures forall k :: LeadingSpace(s) + |r| <= k < |s| ==> IsSpace(s[k])
  {
    var t := TrimLeft(s);
    var r := TrimRight(t);
    assert r == s[|s| - |t|..|s| - |t| + |r|];
    r
  }

  /** Text without white space is left as it is. */
  lemma StripNoSpace(s: string)
    requires forall i :: 0 <= i < |s| ==> !IsSpace(s[i])
    ensures Strip(s) == s
  {
    if LeadingSpace(s) > 0 {
      assert false;
    }
    if |Strip(s)| < |s| {
      assert false;
    }
  }

  /** One blank on each side of a word is cut away. */
  lemma StripPadded(s: string)
    requires s != [] && !IsSpace(s[0]) && !IsSpace(s[|s| - 1])
    ensures Strip([' '] + s + [' ']) == s
  {
    var u := [' '] + s + [' '];
    assert u[1..] == s + [' '];
    assert TrimLeft(u) == TrimLeft(s + [' ']);
    assert TrimLeft(s + [' ']) == s + [' '];
    assert (s + [' '])[..|s|] == s;
    assert TrimRight(s + [' ']) == TrimRight(s);
    assert TrimRight(s) == s;
  }

  lemma StripEmpty(s: string)
    ensures Strip(s) == [] <==> forall k :: 0 <= k < |s| ==> IsSpace(s[k])
  {
    if Strip(s) != [] {
      assert s[LeadingSpace(s)] == Strip(s)[0];
    }
  }

  // ---------------------------------------------------------------- lower

  /** `str.lower()` on the ASCII letters. */
  function Lower(s: string): (r: string)
    ensures |r| == |s|
    ensures forall i :: 0 <= i < |s| ==> r[i] == ToLower(s[i])
  {
    if s == [] then [] else [ToLower(s[0])] + Lower(s[1..])
  }

  // ---------------------------------------------------------------- title

  /** `str.title()` after a character whose casedness is `afterLetter`. */
  function TitleFrom(s: string, afterLetter: bool): (r: string)
  {
    if s == [] then []
    else
      var c := s[0];
      var c' := if !IsLetter(c) then c else if afterLetter then ToLower(c) else ToUpper(c);
      [c'] + TitleFrom(s[1..], IsLetter(c))
  }

  /** `str.title()`: a letter is upper-cased at the start of a word (at the
      start of the string or after a non-letter) and lower-cased elsewhere;
      every other character is kept. */
  function Title(s: string): string
  {
    TitleFrom(s, false)
  }

  /** Whether the character at `i` of `s` begins a word. */
  predicate StartsWord(s: string, i: int)
    requires 0 <= i < |s|
  {
    i == 0 || !IsLetter(s[i - 1])
  }

  /** The character `Title` puts at position `i` of `s`. */
  function TitleChar(s: string, i: int): char
    requires 0 <= i < |s|
  {
    if !IsLetter(s[i]) then s[i]
    else if StartsWord(s, i) then ToUpper(s[i])
    else ToLower(s[i])
  }

  lemma {:induction false} TitleFromAt(s: string, afterLetter: bool, i: int)
    requires 0 <= i < |s|
    ensures |TitleFrom(s, afterLetter)| == |s|
    ensures TitleFrom(s, afterLetter)[i] ==
      if !IsLetter(s[i]) then s[i]
      else if (if i == 0 then afterLetter else IsLetter(s[i - 1])) then ToLower(s[i])
      else ToUpper(s[i])
    decreases |s|
  {
    if i == 0 {
      if |s| > 1 {
        TitleFromAt(s[1..], IsLetter(s[0]), 0);
      } else {
        assert s[1..] == [];
      }
    } else {
      TitleFromAt(s[1..], IsLetter(s[0]), i - 1);
      assert s[1..][i - 1] == s[i];
      if i > 1 { assert s[1..][i - 2] == s[i - 1]; }
    }
  }

  /** Title keeps the length and cases each letter by its position in a word. */
  lemma TitleAt(s: string)
    ensures |Title(s)| == |s|
    ensures forall i :: 0 <= i < |s| ==> Title(s)[i] == TitleChar(s, i)
  {
    if s == [] {
    } else {
      TitleFromAt(s, false, 0);
    }
    forall i | 0 <= i < |s|
      ensures Title(s)[i] == TitleChar(s, i)
    {
      TitleFromAt(s, false, i);
    }
  }

  /** Title-casing a second time changes nothing: a stored category typed
      back exactly selects itself. */
  lemma TitleIdempotent(s: string)
    ensures Title(Title(s)) == Title(s)
  {
    TitleAt(s);
    var t := Title(s);
    TitleAt(t);
    forall i | 0 <= i < |t|
      ensures Title(t)[i] == t[i]
    {
      assert IsLetter(t[i]) == IsLetter(s[i]);
      if i > 0 { assert IsLetter(t[i - 1]) == IsLetter(s[i - 1]); }
    }
  }

  /** Title ignores the case the text was typed in: two strings that agree
      once lower-cased title-case to the same string. */
  lemma TitleIgnoresCase(a: string, b: string)
    requires Lower(a) == Lower(b)
    ensures Title(a) == Title(b)
  {
    TitleAt(a);
    TitleAt(b);
    forall i | 0 <= i < |a|
      ensures Title(a)[i] == Title(b)[i]
    {
      assert Lower(a)[i] == Lower(b)[i];
      SameLetter(a[i], b[i]);
      if i > 0 {
        assert Lower(a)[i - 1] == Lower(b)[i - 1];
        SameLetter(a[i - 1], b[i - 1]);
      }
    }
  }

  /** Characters equal once lower-cased are both letters or both not, and
      letters among them also agree once upper-cased. */
  lemma SameLetter(c: char, d: char)
    requires ToLower(c) == ToLower(d)
    ensures IsLetter(c) == IsLetter(d)
    ensures IsLetter(c) ==> ToUpper(c) == ToUpper(d)
  {
  }

  // ---------------------------------------------------------------- digits

  /** `str.isdigit()` on ASCII text: at least one character, all digits. */
  predicate IsDigits(s: string)
  {
    s != [] && forall i :: 0 <= i < |s| ==> IsDigit(s[i])
  }

  function DigitValue(c: char): (n: nat)
    requires IsDigit(c)
    ensures n < 10
  {
    c as int - '0' as int
  }

  /** `int()` of a string of decimal digits. */
  function DigitsValue(s: string): (n: nat)
    requires forall i :: 0 <= i < |s| ==> IsDigit(s[i])
  {
    if s == [] then 0 else DigitsValue(s[..|s| - 1]) * 10 + DigitValue(s[|s| - 1])
  }

  function Digit(n: int): (c: char)
    requires 0 <= n < 10
    ensures IsDigit(c) && DigitValue(c) == n
  {
    ('0' as int + n) as char
  }

  lemma DigitsValueSnoc(s: string, c: char)
    requires forall i :: 0 <= i < |s| ==> IsDigit(s[i])
    requires IsDigit(c)
    ensures DigitsValue(s + [c]) == DigitsValue(s) * 10 + DigitValue(c)
  {
    assert (s + [c])[..|s|] == s;
  }

  /** `str(n)` for a natural number: its decimal digits, no leading zero. */
  function Decimal(n: nat): (s: string)
    ensures IsDigits(s) && DigitsValue(s) == n
  {
    if n < 10 then
      assert [Digit(n)] == [] + [Digit(n)];
      DigitsValueSnoc([], Digit(n));
      [Digit(n)]
    else
      var init := Decimal(n / 10);
      DigitsValueSnoc(init, Digit(n % 10));
      init + [Digit(n % 10)]
  }

  // ---------------------------------------------------------------- ordering

  /** Python's `a <= b` on strings: lexicographic by code point, a proper
      prefix coming first. */
  predicate AtMost(a: string, b: string)
  {
    a == [] || (b != [] && (a[0] < b[0] || (a[0] == b[0] && AtMost(a[1..], b[1..]))))
  }

  /** Python's `a < b` on strings. */
  predicate Below(a: string, b: string)
  {
    AtMost(a, b) && a != b
  }

  lemma {:induction false} AtMostReflexive(a: string)
    ensures AtMost(a, a)
  {
    if a != [] { AtMostReflexive(a[1..]); }
  }

  lemma {:induction false} AtMostTotal(a: string, b: string)
    ensures AtMost(a, b) || AtMost(b, a)
  {
    if a != [] && b != [] && a[0] == b[0] { AtMostTotal(a[1..], b[1..]); }
  }

  lemma {:induction false} AtMostTransitive(a: string, b: string, c: string)
    requires AtMost(a, b) && AtMost(b, c)
    ensures AtMost(a, c)
  {
    if a != [] && b[0] == c[0] && a[0] == b[0] {
      AtMostTransitive(a[1..], b[1..], c[1..]);
    }
  }

  lemma {:induction false} AtMostAntisymmetric(a: string, b: string)
    requires AtMost(a, b) && AtMost(b, a)
    ensures a == b
  {
    if a != [] {
      AtMostAntisymmetric(a[1..], b[1..]);
      assert a == [a[0]] + a[1..] && b == [b[0]] + b[1..];
    }
  }

  /** Strings compare by their first character, then by the rest. */
  lemma AtMostCons(c: char, x: string, d: char, y: string)
    ensures AtMost([c] + x, [d] + y) <==> c < d || (c == d && AtMost(x, y))
  {
    assert ([c] + x)[1..] == x && ([d] + y)[1..] == y;
  }

  /** Of two strings with heads of equal length, the heads decide unless
      they are equal, and then the tails do. */
  lemma {:induction false} AtMostConcat(x1: string, y1: string, x2: string, y2: string)
    requires |x1| == |x2|
    ensures AtMost(x1 + y1, x2 + y2) <==> (x1 != x2 && AtMost(x1, x2)) || (x1 == x2 && AtMost(y1, y2))
  {
    if x1 != [] {
      AtMostConcat(x1[1..], y1, x2[1..], y2);
      assert x1 + y1 == [x1[0]] + (x1[1..] + y1);
      assert x2 + y2 == [x2[0]] + (x2[1..] + y2);
      AtMostCons(x1[0], x1[1..] + y1, x2[0], x2[1..] + y2);
      AtMostCons(x1[0], x1[1..], x2[0], x2[1..]);
      assert x1 == [x1[0]] + x1[1..] && x2 == [x2[0]] + x2[1..];
    } else {
      assert x1 + y1 == y1 && x2 + y2 == y2;
    }
  }
}
