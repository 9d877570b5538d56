/** Text operations the scripts apply to column names, join keys and household counts:
    Python's `str.strip()`, `str.title()`, removal of every '.', and the numeric
    conversion of the cleaned text. */
module Text {
  import opened Common

  // ---------------------------------------------------------------------------
  // Whitespace and str.strip()
  // ---------------------------------------------------------------------------

  /** The characters Python's `str.isspace()` accepts, which `str.strip()` removes. */
  predicate IsSpace(c: char)
  {
    c == ' ' || '\U{9}' <= c <= '\U{D}' || '\U{1C}' <= c <= '\U{1F}' ||
    c == '\U{85}' || c == '\U{A0}' || c == '\U{1680}' || '\U{2000}' <= c <= '\U{200A}' ||
    c == '\U{2028}' || c == '\U{2029}' || c == '\U{202F}' || c == '\U{205F}' || c == '\U{3000}'
  }

  predicate AllSpace(s: string)
  {
    forall i :: 0 <= i < |s| ==> IsSpace(s[i])
  }

  /** Neither the first nor the last character is whitespace. */
  predicate IsTrimmed(s: string)
  {
    s != [] ==> !IsSpace(s[0]) && !IsSpace(s[|s| - 1])
  }

  function TrimLeft(s: string): (r: string)
    ensures r != [] ==> !IsSpace(r[0])
    ensures |r| <= |s| && r == s[|s| - |r|..]
    ensures AllSpace(s[..|s| - |r|])
  {
    if s != [] && IsSpace(s[0]) then TrimLeft(s[1..]) else s
  }

  function TrimRight(s: string): (r: string)
    ensures r != [] ==> !IsSpace(r[|r| - 1])
    ensures |r| <= |s| && r == s[..|r|]
    ensures AllSpace(s[|r|..])
  {
    if s != [] && IsSpace(s[|s| - 1]) then TrimRight(s[..|s| - 1]) else s
  }

  /** Python's `str.strip()` with no argument. */
  function Strip(s: string): string
  {
    TrimRight(TrimLeft(s))
  }

  /** `df.columns.str.strip()`: every column name stripped. */
  function StripAll(names: seq<string>): (r: seq<string>)
    ensures |r| == |names|
    ensures forall i :: 0 <= i < |names| ==> r[i] == Strip(names[i])
  {
    seq(|names|, i requires 0 <= i < |names| => Strip(names[i]))
  }

  /** The stripped text is a slice of the original that has no whitespace at
      either end, and only whitespace was cut away around it. */
  lemma StripIsTrimmedSlice(s: string) returns (i: nat, j: nat)
    ensures i <= j <= |s| && Strip(s) == s[i..j]
    ensures IsTrimmed(Strip(s))
    ensures AllSpace(s[..i]) && AllSpace(s[j..])
  {
    var l := TrimLeft(s);
    var r := TrimRight(l);
    i := |s| - |l|;
    j := i + |r|;
    TrimmedSliceOf(s, l, r);
  }

  /** What the two trims promise, put together: `l` is `s` without its leading
      whitespace and `r` is `l` without its trailing whitespace. */
  lemma TrimmedSliceOf(s: string, l: string, r: string)
    requires |l| <= |s| && l == s[|s| - |l|..] && AllSpace(s[..|s| - |l|])
    requires l != [] ==> !IsSpace(l[0])
    requires |r| <= |l| && r == l[..|r|] && AllSpace(l[|r|..])
    requires r != [] ==> !IsSpace(r[|r| - 1])
    ensures r == s[|s| - |l|..|s| - |l| + |r|]
    ensures AllSpace(s[|s| - |l| + |r|..])
    ensures IsTrimmed(r)
  {
    var i := |s| - |l|;
    assert s[i + |r|..] == l[|r|..];
    if r != [] {
      assert r[0] == l[0];
    }
  }

  /** Padding of whitespace around a trimmed name is exactly what `Strip` removes:
      a header such as " uf " reads as "uf". */
  lemma {:induction false} StripPadded(left: string, core: string, right: string)
    requires AllSpace(left) && AllSpace(right) && IsTrimmed(core)
    ensures Strip(left + core + right) == core
  {
    if core == [] {
      assert left + core + right == left + right;
      assert AllSpace(left + right) by {
        forall i | 0 <= i < |left + right| ensures IsSpace((left + right)[i]) {
          if i >= |left| { assert (left + right)[i] == right[i - |left|]; }
        }
      }
      TrimLeftPadded(left + right, []);
      assert left + right + [] == left + right;
    } else {
      assert left + core + right == left + (core + right);
      TrimLeftPadded(left, core + right);
      TrimRightPadded(core, right);
    }
  }

  lemma {:induction false} TrimLeftPadded(left: string, rest: string)
    requires AllSpace(left)
    requires rest != [] ==> !IsSpace(rest[0])
    ensures TrimLeft(left + rest) == rest
  {
    if left != [] {
      assert (left + rest)[1..] == left[1..] + rest;
      TrimLeftPadded(left[1..], rest);
    }
  }

  lemma {:induction false} TrimRightPadded(core: string, right: string)
    requires AllSpace(right)
    requires core != [] ==> !IsSpace(core[|core| - 1])
    ensures TrimRight(core + right) == core
  {
    if right != [] {
      var s := core + right;
      assert s[..|s| - 1] == core + right[..|right| - 1];
      TrimRightPadded(core, right[..|right| - 1]);
    }
  }

  /** Stripping an already stripped name changes nothing. */
  lemma StripIdempotent(s: string)
    ensures Strip(Strip(s)) == Strip(s)
  {
    var t := Strip(s);
    var _, _ := StripIsTrimmedSlice(s);
    assert [] + t + [] == t;
    StripPadded([], t, []);
  }

  // ---------------------------------------------------------------------------
  // Letter case and str.title()
  // ---------------------------------------------------------------------------

  /** Upper-case letters of the case model: A-Z and the Latin-1 capitals
      (U+00C0 to U+00DE without the multiplication sign), which cover the
      accented letters of Portuguese municipality names. */
  predicate IsUpper(c: char)
  {
    'A' <= c <= 'Z' || ('\U{C0}' <= c <= '\U{DE}' && c != '\U{D7}')
  }

  /** Lower-case letters of the case model: a-z and U+00E0 to U+00FE without
      the division sign. Each is paired with the upper-case letter 32 below it. */
  predicate IsLower(c: char)
  {
    'a' <= c <= 'z' || ('\U{E0}' <= c <= '\U{FE}' && c != '\U{F7}')
  }

  /** A character with a case; every other character is left alone by case mapping
      and does not count as a letter for `Title`. */
  predicate IsCased(c: char)
  {
    IsUpper(c) || IsLower(c)
  }

  function ToLower(c: char): (r: char)
    ensures IsCased(r) == IsCased(c)
    ensures !IsUpper(r)
    ensures !IsCased(c) ==> r == c
  {
    if IsUpper(c) then (c as int + 32) as char else c
  }

  function ToUpper(c: char): (r: char)
    ensures IsCased(r) == IsCased(c)
    ensures !IsLower(r)
    ensures !IsCased(c) ==> r == c
  {
    if IsLower(c) then (c as int - 32) as char else c
  }

  /** Upper- and lower-casing forget which case a letter had. */
  lemma CaseRoundTrips(c: char)
    ensures ToLower(ToUpper(c)) == ToLower(c) && ToUpper(ToLower(c)) == ToUpper(c)
    ensures ToLower(ToLower(c)) == ToLower(c) && ToUpper(ToUpper(c)) == ToUpper(c)
  {
  }

  /** Python's `str.lower()` under the case model. */
  function Lower(s: string): (r: string)
    ensures |r| == |s|
    ensures forall i :: 0 <= i < |s| ==> r[i] == ToLower(s[i])
  {
    seq(|s|, i requires 0 <= i < |s| => ToLower(s[i]))
  }

  /** `str.title()` scanning `s` when the character before it was cased
      (`previousCased`) or not: a character following a cased one is lower-cased,
      any other is upper-cased. */
  function TitleFrom(s: string, previousCased: bool): string
  {
    if s == [] then []
    else [if previousCased then ToLower(s[0]) else ToUpper(s[0])] + TitleFrom(s[1..], IsCased(s[0]))
  }

  /** Python's `str.title()`: every run of cased letters starts upper-case and
      continues lower-case. */
  function Title(s: string): string
  {
    TitleFrom(s, false)
  }

  /** Character `i` of the title-cased text depends only on characters `i - 1` and `i`
      of the original: this is the independent, position-wise reading of `Title`. */
  lemma TitleAt(s: string)
    ensures |Title(s)| == |s|
    ensures forall i :: 0 <= i < |s| ==>
      Title(s)[i] == if i > 0 && IsCased(s[i - 1]) then ToLower(s[i]) else ToUpper(s[i])
  {
    TitleFromAt(s, false);
  }

  lemma {:induction false} TitleFromAt(s: string, b: bool)
    ensures |TitleFrom(s, b)| == |s|
    ensures forall i :: 0 <= i < |s| ==>
      TitleFrom(s, b)[i] == if (if i == 0 then b else IsCased(s[i - 1])) then ToLower(s[i]) else ToUpper(s[i])
  {
    if s != [] {
      TitleFromAt(s[1..], IsCased(s[0]));
      var t := TitleFrom(s, b);
      forall i | 0 < i < |s|
        ensures t[i] == if IsCased(s[i - 1]) then ToLower(s[i]) else ToUpper(s[i])
      {
        assert t[i] == TitleFrom(s[1..], IsCased(s[0]))[i - 1];
      }
    }
  }

  /** Characters without case (digits, spaces, punctuation) pass through `Title`
      unchanged, so whitespace and length are kept. */
  lemma TitleKeepsUncased(s: string)
    ensures |Title(s)| == |s|
    ensures forall i :: 0 <= i < |s| && !IsCased(s[i]) ==> Title(s)[i] == s[i]
  {
    TitleAt(s);
    forall i | 0 <= i < |s| && !IsCased(s[i])
      ensures Title(s)[i] == s[i]
    {
      assert Title(s)[i] == if i > 0 && IsCased(s[i - 1]) then ToLower(s[i]) else ToUpper(s[i]);
      assert ToLower(s[i]) == s[i] && ToUpper(s[i]) == s[i];
    }
  }

  /** Title-casing twice is title-casing once. */
  lemma TitleIdempotent(s: string)
    ensures Title(Title(s)) == Title(s)
  {
    var t := Title(s);
    TitleAt(s);
    TitleAt(t);
    forall i | 0 <= i < |s|
      ensures Title(t)[i] == t[i]
    {
      CaseRoundTrips(s[i]);
      if i > 0 {
        assert t[i - 1] == if i - 1 > 0 && IsCased(s[i - 2]) then ToLower(s[i - 1]) else ToUpper(s[i - 1]);
        assert IsCased(t[i - 1]) == IsCased(s[i - 1]);
      }
    }
  }

  /** `Title` depends only on the lower-cased text. */
  lemma TitleOfLower(s: string)
    ensures Title(Lower(s)) == Title(s)
  {
    var l := Lower(s);
    TitleAt(s);
    TitleAt(l);
    forall i | 0 <= i < |s|
      ensures Title(l)[i] == Title(s)[i]
    {
      CaseRoundTrips(s[i]);
      if i > 0 {
        assert IsCased(l[i - 1]) == IsCased(s[i - 1]);
      }
    }
  }

  /** Lower-casing the title-cased text gives the lower-cased text. */
  lemma LowerOfTitle(s: string)
    ensures Lower(Title(s)) == Lower(s)
  {
    TitleAt(s);
    forall i | 0 <= i < |s|
      ensures Lower(Title(s))[i] == Lower(s)[i]
    {
      CaseRoundTrips(s[i]);
      assert Title(s)[i] == if i > 0 && IsCased(s[i - 1]) then ToLower(s[i]) else ToUpper(s[i]);
      assert Lower(Title(s))[i] == ToLower(Title(s)[i]);
    }
  }

  /** Two names join after title-casing exactly when they agree ignoring letter
      case; a difference in padding, length or accent is never bridged. */
  lemma TitleMatchIff(a: string, b: string)
    ensures Title(a) == Title(b) <==> Lower(a) == Lower(b)
  {
    if Title(a) == Title(b) {
      LowerOfTitle(a);
      LowerOfTitle(b);
    }
    if Lower(a) == Lower(b) {
      TitleOfLower(a);
      TitleOfLower(b);
    }
  }

  // ---------------------------------------------------------------------------
  // Household counts: '.'-removal and numeric conversion
  // ---------------------------------------------------------------------------

  predicate NotDot(c: char)
  {
    c != '.'
  }

  /** `str.replace('.', '', regex=False)`: every '.' removed. */
  function RemoveDots(s: string): (r: string)
    ensures '.' !in r
  {
    Filter(s, NotDot)
  }

  /** Removing the dots from text that has already lost them changes nothing. */
  lemma RemoveDotsIdempotent(s: string)
    ensures RemoveDots(RemoveDots(s)) == RemoveDots(s)
  {
    FilterIdempotent(s, NotDot);
  }

  /** A single separator between two dot-free runs is dropped and the runs are
      joined. */
  lemma RemoveDotsBetween(a: string, b: string)
    requires '.' !in a && '.' !in b
    ensures RemoveDots(a + "." + b) == a + b
  {
    var rest := "." + b;
    assert a + "." + b == a + rest;
    FilterAppend(a, rest, NotDot);
    assert rest[0] == '.' && rest[1..] == b;
    assert Filter(rest, NotDot) == Filter(b, NotDot);
    NoDotsKept(a);
    NoDotsKept(b);
  }

  lemma NoDotsKept(a: string)
    requires '.' !in a
    ensures RemoveDots(a) == a
  {
    assert forall i :: 0 <= i < |a| ==> NotDot(a[i]);
    FilterAll(a, NotDot);
  }

  /** Dot removal keeps every other character, in order. */
  lemma RemoveDotsKeepsRest(s: string, c: char)
    ensures IsSubsequence(RemoveDots(s), s)
    ensures c != '.' ==> multiset(RemoveDots(s))[c] == multiset(s)[c]
  {
    FilterIsSubsequence(s, NotDot);
    FilterCounts(s, NotDot, c);
  }

  predicate IsDigit(c: char)
  {
    '0' <= c <= '9'
  }

  predicate AllDigits(s: string)
  {
    forall i :: 0 <= i < |s| ==> IsDigit(s[i])
  }

  /** Decimal value of a digit string. */
  function DigitsValue(s: string): nat
    requires AllDigits(s)
  {
    if s == [] then 0
    else DigitsValue(s[..|s| - 1]) * 10 + (s[|s| - 1] as int - '0' as int)
  }

  /** The integer text accepted by the numeric conversion: an optional sign and at
      least one decimal digit. */
  predicate IsIntegerText(s: string)
  {
    if s != [] && (s[0] == '+' || s[0] == '-') then s[1..] != [] && AllDigits(s[1..])
    else s != [] && AllDigits(s)
  }

  /** Numeric conversion with `errors='coerce'`: integer text gives its value,
      anything else gives missing instead of an error. */
  function ParseInt(s: string): (r: Option<int>)
    ensures r.Some? <==> IsIntegerText(s)
  {
    if s != [] && (s[0] == '+' || s[0] == '-') then
      if s[1..] != [] && AllDigits(s[1..]) then
        var v: int := DigitsValue(s[1..]);
        Some(if s[0] == '-' then -v else v)
      else None
    else if s != [] && AllDigits(s) then Some(DigitsValue(s))
    else None
  }

  function DigitChar(d: nat): char
    requires d < 10
  {
    ('0' as int + d) as char
  }

  /** Decimal text of a natural number, without sign or leading zeros. */
  function ShowNat(n: nat): (r: string)
    ensures r != [] && AllDigits(r)
    decreases n
  {
    if n < 10 then [DigitChar(n)] else ShowNat(n / 10) + [DigitChar(n % 10)]
  }

  /** `str(n)` for an integer: decimal text with a leading '-' when negative. */
  function ShowInt(n: int): string
  {
    if n < 0 then "-" + ShowNat(-n) else ShowNat(n)
  }

  lemma {:induction false} DigitsOfShowNat(n: nat)
    ensures DigitsValue(ShowNat(n)) == n
    decreases n
  {
    if n >= 10 {
      var s := ShowNat(n);
      DigitsOfShowNat(n / 10);
      assert s[..|s| - 1] == ShowNat(n / 10);
    }
  }

  /** The numeric conversion reads back every integer's decimal text. */
  lemma ParseShowInt(n: int)
    ensures ParseInt(ShowInt(n)) == Some(n)
  {
    var s := ShowInt(n);
    if n < 0 {
      var d := ShowNat(-n);
      DigitsOfShowNat(-n);
      assert s == "-" + d && s[0] == '-' && s[1..] == d;
    } else {
      DigitsOfShowNat(n);
      assert IsDigit(s[0]);
    }
  }
}
