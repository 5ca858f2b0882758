/** The string operations of the scraper: Python's `str.strip()`, `str.isdigit()`,
    `str.replace`, `in` on strings, `str.startswith` and `int()` on a digit string. */
module Text {

  /** The characters Python's `str.isspace()` accepts, which is what `str.strip()`
      with no argument removes from both ends. */
  predicate IsSpace(c: char) {
    || c == ' '
    || ('\t' <= c <= '\r')
    || ('\U{1C}' <= c <= '\U{1F}')
    || c == '\U{85}'
    || c == '\U{A0}'
    || c == '\U{1680}'
    || ('\U{2000}' <= c <= '\U{200A}')
    || c == '\U{2028}'
    || c == '\U{2029}'
    || c == '\U{202F}'
    || c == '\U{205F}'
    || c == '\U{3000}'
  }

  /** Number of whitespace characters at the start of `s`. */
  function LeadingSpaces(s: string): (n: nat)
    ensures n <= |s|
  {
    if s == [] || !IsSpace(s[0]) then 0 else 1 + LeadingSpaces(s[1..])
  }

  /** Number of whitespace characters at the end of `s`. */
  function TrailingSpaces(s: string): (n: nat)
    ensures n <= |s|
  {
    if s == [] || !IsSpace(s[|s| - 1]) then 0 else 1 + TrailingSpaces(s[..|s| - 1])
  }

  /** `LeadingSpaces` counts exactly the whitespace run at the start. */
  lemma {:induction false} LeadingSpacesRun(s: string)
    ensures forall i :: 0 <= i < LeadingSpaces(s) ==> IsSpace(s[i])
    ensures LeadingSpaces(s) == |s| || !IsSpace(s[LeadingSpaces(s)])
  {
    if s != [] && IsSpace(s[0]) {
      LeadingSpacesRun(s[1..]);
    }
  }

  /** `TrailingSpaces` counts exactly the whitespace run at the end. */
  lemma {:induction false} TrailingSpacesRun(s: string)
    ensures forall i :: |s| - TrailingSpaces(s) <= i < |s| ==> IsSpace(s[i])
    ensures TrailingSpaces(s) == |s| || !IsSpace(s[|s| - TrailingSpaces(s) - 1])
  {
    if s != [] && IsSpace(s[|s| - 1]) {
      TrailingSpacesRun(s[..|s| - 1]);
    }
  }

  /** `s.strip()`: `s` without its leading and trailing whitespace. */
  function Trim(s: string): string {
    var rest := s[LeadingSpaces(s)..];
    rest[..|rest| - TrailingSpaces(rest)]
  }

  /** What `strip()` removes is whitespace at the two ends and nothing else: the result is
      a slice of `s`, everything before and after the slice is whitespace, neither end of
      the result is whitespace, and it is empty exactly when `s` is all whitespace. */
  lemma TrimSlice(s: string)
    ensures LeadingSpaces(s) + |Trim(s)| <= |s|
    ensures Trim(s) == s[LeadingSpaces(s)..LeadingSpaces(s) + |Trim(s)|]
    ensures forall i :: 0 <= i < LeadingSpaces(s) ==> IsSpace(s[i])
    ensures forall i :: LeadingSpaces(s) + |Trim(s)| <= i < |s| ==> IsSpace(s[i])
    ensures Trim(s) == [] || (!IsSpace(Trim(s)[0]) && !IsSpace(Trim(s)[|Trim(s)| - 1]))
    ensures Trim(s) == [] <==> forall i :: 0 <= i < |s| ==> IsSpace(s[i])
  {
    var lead := LeadingSpaces(s);
    var rest := s[lead..];
    var n := |rest| - TrailingSpaces(rest);
    LeadingSpacesRun(s);
    TrailingSpacesRun(rest);
    TrimTail(s);
    assert Trim(s) == rest[..n] == s[lead..lead + n];
    if lead < |s| {
      assert rest[0] == s[lead] && !IsSpace(rest[0]);
      assert n > 0;
      assert Trim(s)[0] == s[lead] && Trim(s)[n - 1] == rest[n - 1];
    }
  }

  lemma TrimTail(s: string)
    ensures LeadingSpaces(s) + |Trim(s)| <= |s|
    ensures forall i :: LeadingSpaces(s) + |Trim(s)| <= i < |s| ==> IsSpace(s[i])
  {
    var lead := LeadingSpaces(s);
    var rest := s[lead..];
    TrailingSpacesRun(rest);
    var n := |rest| - TrailingSpaces(rest);
    assert Trim(s) == rest[..n];
    forall i | lead + n <= i < |s| ensures IsSpace(s[i]) {
      assert s[i] == rest[i - lead];
    }
  }

  /** A string that neither starts nor ends with whitespace is left alone by `strip()`. */
  lemma TrimUnpadded(s: string)
    requires s != [] && !IsSpace(s[0]) && !IsSpace(s[|s| - 1])
    ensures Trim(s) == s
  {
    assert LeadingSpaces(s) == 0;
    assert TrailingSpaces(s) == 0;
  }

  /** `str.isdigit()`, restricted to the ASCII digits; the empty string is not a digit string. */
  predicate IsDigit(c: char) {
    '0' <= c <= '9'
  }

  predicate AllDigits(s: string) {
    forall i :: 0 <= i < |s| ==> IsDigit(s[i])
  }

  predicate IsDigits(s: string) {
    |s| > 0 && AllDigits(s)
  }

  function Pow10(n: nat): (r: nat)
    ensures r >= 1
  {
    if n == 0 then 1 else 10 * Pow10(n - 1)
  }

  /** `int(s)` for a string of decimal digits. */
  function DigitsValue(s: string): nat
    requires AllDigits(s)
  {
    if s == [] then 0
    else DigitsValue(s[..|s| - 1]) * 10 + (s[|s| - 1] as int - '0' as int)
  }

  lemma ShiftDigit(x: int, y: int, p: int, d: int)
    ensures (x * p + y) * 10 + d == x * (p * 10) + (y * 10 + d)
  {
    assert (x * p) * 10 == x * (p * 10);
  }

  /** Reading a digit string piecewise: the digits of `a` are worth `10^|b|` times more. */
  lemma {:induction false} DigitsValueAppend(a: string, b: string)
    requires AllDigits(a) && AllDigits(b)
    ensures AllDigits(a + b)
    ensures DigitsValue(a + b) == DigitsValue(a) * Pow10(|b|) + DigitsValue(b)
  {
    assert forall i :: 0 <= i < |a + b| ==> (a + b)[i] == if i < |a| then a[i] else b[i - |a|];
    if b == [] {
      assert a + b == a;
    } else {
      var b', d := b[..|b| - 1], b[|b| - 1] as int - '0' as int;
      assert (a + b)[..|a + b| - 1] == a + b';
      DigitsValueAppend(a, b');
      assert DigitsValue(a + b) == DigitsValue(a + b') * 10 + d;
      assert DigitsValue(b) == DigitsValue(b') * 10 + d;
      assert Pow10(|b|) == Pow10(|b'|) * 10;
      ShiftDigit(DigitsValue(a), DigitsValue(b'), Pow10(|b'|), d);
    }
  }

  /** The non-breaking space, which the results site uses as its thousands separator. */
  const NBSP: char := '\U{A0}'

  /** `s.replace(c, "")`. */
  function RemoveChar(s: string, c: char): string {
    if s == [] then []
    else (if s[0] == c then [] else [s[0]]) + RemoveChar(s[1..], c)
  }

  /** `replace(c, "")` drops every `c` and keeps every other character. */
  lemma {:induction false} RemoveCharDrops(s: string, c: char)
    ensures c !in RemoveChar(s, c)
    ensures forall x :: x != c ==> (x in RemoveChar(s, c) <==> x in s)
    ensures c !in s ==> RemoveChar(s, c) == s
  {
    if s != [] {
      RemoveCharDrops(s[1..], c);
      assert s == [s[0]] + s[1..];
    }
  }

  lemma {:induction false} RemoveCharAppend(a: string, b: string, c: char)
    ensures RemoveChar(a + b, c) == RemoveChar(a, c) + RemoveChar(b, c)
  {
    if a == [] {
      assert a + b == b;
    } else {
      assert (a + b)[1..] == a[1..] + b;
      RemoveCharAppend(a[1..], b, c);
    }
  }

  /** The text every numeric cell goes through before `int()` or `isdigit()`:
      `text.strip().replace("\xa0", "").replace(" ", "")`. */
  function NumberText(text: string): string {
    RemoveChar(RemoveChar(Trim(text), NBSP), ' ')
  }

  /** Neither separator survives into the text handed to `int()`. */
  lemma NumberTextHasNoSeparator(text: string)
    ensures NBSP !in NumberText(text) && ' ' !in NumberText(text)
  {
    RemoveCharDrops(Trim(text), NBSP);
    RemoveCharDrops(RemoveChar(Trim(text), NBSP), ' ');
  }

  /** The cell holds a count the site's number format can express. */
  predicate ParsesAsNumber(text: string) {
    IsDigits(NumberText(text))
  }

  /** `int(NumberText(text))`, defined where that succeeds. */
  function NumberValue(text: string): nat
    requires ParsesAsNumber(text)
  {
    DigitsValue(NumberText(text))
  }

  lemma DigitsHaveNoSeparator(a: string)
    requires AllDigits(a)
    ensures NBSP !in a && ' ' !in a
  {
  }

  lemma RemoveCharSingle(x: char, c: char)
    ensures RemoveChar([x], c) == if x == c then [] else [x]
  {
    assert [x][1..] == [];
  }

  /** Removing both separators from `a + [sep] + b` leaves the digits `a + b`. */
  lemma SeparatorRemoved(a: string, sep: char, b: string)
    requires AllDigits(a) && AllDigits(b)
    requires sep == ' ' || sep == NBSP
    ensures RemoveChar(RemoveChar(a + [sep] + b, NBSP), ' ') == a + b
  {
    DigitsHaveNoSeparator(a);
    DigitsHaveNoSeparator(b);
    RemoveCharDrops(a, NBSP);
    RemoveCharDrops(b, NBSP);
    RemoveCharDrops(a, ' ');
    RemoveCharDrops(b, ' ');
    var m: string := if sep == NBSP then [] else [' '];
    RemoveCharSingle(sep, NBSP);
    RemoveCharAppend(a + [sep], b, NBSP);
    RemoveCharAppend(a, [sep], NBSP);
    assert RemoveChar([sep], NBSP) == m;
    assert RemoveChar(a + [sep] + b, NBSP) == RemoveChar(a + [sep], NBSP) + b;
    assert RemoveChar(a + [sep], NBSP) == a + m;
    assert RemoveChar(a + [sep] + b, NBSP) == (a + m) + b;
    RemoveCharAppend(a + m, b, ' ');
    RemoveCharAppend(a, m, ' ');
    RemoveCharSingle(' ', ' ');
    assert RemoveChar(m, ' ') == [];
    assert RemoveChar(a + m, ' ') == a;
  }

  /** A separator between two groups of digits is ignored: "1 234" and "1\xa0234" read as 1234. */
  lemma ThousandsSeparator(a: string, sep: char, b: string)
    requires IsDigits(a) && IsDigits(b)
    requires sep == ' ' || sep == NBSP
    ensures ParsesAsNumber(a + [sep] + b)
    ensures NumberValue(a + [sep] + b) == DigitsValue(a) * Pow10(|b|) + DigitsValue(b)
  {
    var s := a + [sep] + b;
    assert s[0] == a[0] && s[|s| - 1] == b[|b| - 1];
    assert IsDigit(a[0]) && IsDigit(b[|b| - 1]);
    TrimUnpadded(s);
    SeparatorRemoved(a, sep, b);
    assert NumberText(s) == a + b;
    DigitsValueAppend(a, b);
  }

  lemma DigitsValue234()
    ensures IsDigits("1") && DigitsValue("1") == 1
    ensures IsDigits("234") && DigitsValue("234") == 234
  {
    assert "1"[..0] == "";
    assert "234"[..2] == "23" && "23"[..1] == "2" && "2"[..0] == "";
  }

  /** "1 234" and "1\xa0234" both read as 1234. */
  lemma {:induction false} ThousandsExample(sep: char)
    requires sep == ' ' || sep == NBSP
    ensures ParsesAsNumber("1" + [sep] + "234")
    ensures NumberValue("1" + [sep] + "234") == 1234
  {
    DigitsValue234();
    assert Pow10(3) == 1000;
    ThousandsSeparator("1", sep, "234");
  }

  /** The placeholder "-" is never a count. */
  lemma DashIsNotANumber()
    ensures !ParsesAsNumber("-")
  {
    TrimUnpadded("-");
    RemoveCharSingle('-', NBSP);
    RemoveCharSingle('-', ' ');
  }

  /** `s.startswith(p)`. */
  predicate StartsWith(s: string, p: string) {
    |p| <= |s| && s[..|p|] == p
  }

  /** `p` occurs in `s` starting at index `i`. */
  predicate OccursAt(s: string, p: string, i: int) {
    0 <= i && i + |p| <= |s| && s[i..i + |p|] == p
  }

  /** `p in s` on Python strings. */
  predicate Contains(s: string, p: string) {
    StartsWith(s, p) || (s != [] && Contains(s[1..], p))
  }

  lemma {:induction false} ContainsIsOccurrence(s: string, p: string)
    ensures Contains(s, p) <==> exists i :: OccursAt(s, p, i)
  {
    if StartsWith(s, p) {
      assert s[0..|p|] == s[..|p|];
      assert OccursAt(s, p, 0);
    }
    if s == [] {
      if exists i :: OccursAt(s, p, i) {
        var i :| OccursAt(s, p, i);
        assert p == [];
      }
    } else {
      ContainsIsOccurrence(s[1..], p);
      if Contains(s[1..], p) {
        var i :| OccursAt(s[1..], p, i);
        assert s[i + 1..i + 1 + |p|] == s[1..][i..i + |p|];
        assert OccursAt(s, p, i + 1);
      }
      if exists i :: OccursAt(s, p, i) {
        var i :| OccursAt(s, p, i);
        assert s != [];
        if i == 0 {
          assert s[..|p|] == s[0..|p|];
          assert StartsWith(s, p);
        } else {
          assert s[1..][i - 1..i - 1 + |p|] == s[i..i + |p|];
          assert OccursAt(s[1..], p, i - 1);
          assert Contains(s[1..], p);
        }
      }
    }
  }
}
