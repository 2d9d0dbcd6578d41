/** The parts of Python's string handling that the record-data, zone-name and cache code relies on:
    `str.split`, `str.join`, `repr(int)` and `int(str)`. */
module Text {
  import opened Wrappers

  /** `s.split(sep)` for a one-character separator. */
  function Split(s: string, sep: char): (parts: seq<string>)
    ensures |parts| >= 1
  {
    if s == "" then [""]
    else
      var rest := Split(s[1..], sep);
      if s[0] == sep then [""] + rest else [[s[0]] + rest[0]] + rest[1..]
  }

  /** `sep.join(parts)` for a one-character separator. */
  function Join(parts: seq<string>, sep: char): string {
    if |parts| == 0 then ""
    else if |parts| == 1 then parts[0]
    else parts[0] + [sep] + Join(parts[1..], sep)
  }

  lemma {:induction false} JoinSplit(s: string, sep: char)
    ensures Join(Split(s, sep), sep) == s
  {
    if s != "" {
      JoinSplit(s[1..], sep);
      var rest := Split(s[1..], sep);
      if s[0] == sep {
        assert ([""] + rest)[1..] == rest;
      } else {
        var parts := [[s[0]] + rest[0]] + rest[1..];
        assert parts[1..] == rest[1..];
      }
    }
  }

  lemma {:induction false} SplitHasNoSep(s: string, sep: char)
    ensures forall p | p in Split(s, sep) :: sep !in p
  {
    if s != "" {
      SplitHasNoSep(s[1..], sep);
      var rest := Split(s[1..], sep);
      assert rest[0] in rest;
      assert forall p | p in rest[1..] :: p in rest;
    }
  }

  lemma {:induction false} SplitNoSep(p: string, sep: char)
    requires sep !in p
    ensures Split(p, sep) == [p]
  {
    if p != "" {
      assert p[0] in p;
      assert forall c | c in p[1..] :: c in p;
      SplitNoSep(p[1..], sep);
      assert [p[0]] + p[1..] == p;
    }
  }

  /** The parts of a text once one more character stands before it. */
  function Prepend(c: char, parts: seq<string>, sep: char): seq<string>
    requires parts != []
  {
    if c == sep then [""] + parts else [[c] + parts[0]] + parts[1..]
  }

  lemma SplitCons(c: char, s: string, sep: char)
    ensures Split([c] + s, sep) == Prepend(c, Split(s, sep), sep)
  {
    assert ([c] + s)[1..] == s;
  }

  lemma PrependConcat(c: char, parts: seq<string>, more: seq<string>, sep: char)
    requires parts != []
    ensures Prepend(c, parts + more, sep) == Prepend(c, parts, sep) + more
  {
    assert (parts + more)[1..] == parts[1..] + more;
  }

  /** The separator between two texts is always a place to split. */
  lemma {:induction false} SplitConcat(p: string, t: string, sep: char)
    ensures Split(p + [sep] + t, sep) == Split(p, sep) + Split(t, sep)
  {
    if p == "" {
      assert p + [sep] + t == [sep] + t;
      SplitCons(sep, t, sep);
    } else {
      var c, rest := p[0], p[1..];
      SplitConcat(rest, t, sep);
      assert p == [c] + rest && p + [sep] + t == [c] + (rest + [sep] + t);
      SplitCons(c, rest + [sep] + t, sep);
      SplitCons(c, rest, sep);
      PrependConcat(c, Split(rest, sep), Split(t, sep), sep);
    }
  }

  lemma SplitAppend(p: string, t: string, sep: char)
    requires sep !in p
    ensures Split(p + [sep] + t, sep) == [p] + Split(t, sep)
  {
    SplitConcat(p, t, sep);
    SplitNoSep(p, sep);
  }

  /** Splitting undoes joining when no part holds the separator. */
  lemma {:induction false} SplitJoin(parts: seq<string>, sep: char)
    requires |parts| >= 1 && forall p | p in parts :: sep !in p
    ensures Split(Join(parts, sep), sep) == parts
  {
    if |parts| == 1 {
      SplitNoSep(parts[0], sep);
      assert parts == [parts[0]];
    } else {
      SplitJoin(parts[1..], sep);
      SplitAppend(parts[0], Join(parts[1..], sep), sep);
      assert parts == [parts[0]] + parts[1..];
    }
  }

  // ---------- decimal numbers ----------

  function Digit(d: nat): char
    requires d < 10
  {
    '0' + d as char
  }

  predicate IsDigit(c: char) { '0' <= c <= '9' }

  function Print(n: nat): (s: string)
    ensures |s| >= 1 && forall c | c in s :: IsDigit(c)
  {
    if n < 10 then [Digit(n)] else Print(n / 10) + [Digit(n % 10)]
  }

  /** `repr(i)` */
  function Repr(i: int): string {
    if i < 0 then "-" + Print(-i) else Print(i)
  }

  /** The value of a non-empty string of digits. */
  function ParseDigits(s: string): Option<nat> {
    if s == "" || !IsDigit(s[|s| - 1]) then None
    else
      var last := (s[|s| - 1] - '0') as nat;
      if |s| == 1 then Some(last)
      else match ParseDigits(s[..|s| - 1])
        case None => None
        case Some(n) => Some(10 * n + last)
  }

  predicate IsSpace(c: char) { c == ' ' || '\t' <= c <= '\r' }

  /** `s.strip()` */
  function Strip(s: string): string {
    if s == "" then s
    else if IsSpace(s[0]) then Strip(s[1..])
    else if IsSpace(s[|s| - 1]) then Strip(s[..|s| - 1])
    else s
  }

  /** `int(s)`: surrounding white space and one sign are accepted; `None` stands for `ValueError`. */
  function PyInt(s: string): Option<int> {
    var t := Strip(s);
    if t == "" then None
    else if t[0] == '-' || t[0] == '+' then
      var n := ParseDigits(t[1..]);
      if n.None? then None else Some(if t[0] == '-' then -(n.value as int) else n.value)
    else ParseDigits(t)
  }

  lemma {:induction false} ParsePrint(n: nat)
    ensures ParseDigits(Print(n)) == Some(n)
  {
    if n < 10 {
      assert (Digit(n) - '0') as nat == n;
    } else {
      ParsePrint(n / 10);
      var s := Print(n);
      assert s[..|s| - 1] == Print(n / 10);
      assert (Digit(n % 10) - '0') as nat == n % 10;
    }
  }

  lemma ReprHasNoSpace(i: int)
    ensures |Repr(i)| >= 1 && forall c | c in Repr(i) :: !IsSpace(c)
  {
    if i < 0 {
      assert forall c | c in Repr(i) :: c == '-' || c in Print(-i);
    }
  }

  /** Text of digits alone is read as the number they spell. */
  lemma PyIntDigits(s: string, n: nat)
    requires s != "" && (forall c | c in s :: IsDigit(c)) && ParseDigits(s) == Some(n)
    ensures PyInt(s) == Some(n)
  {
    assert s[0] in s && s[|s| - 1] in s;
    assert Strip(s) == s;
  }

  lemma PyIntNegated(s: string, n: nat)
    requires s != "" && (forall c | c in s :: IsDigit(c)) && ParseDigits(s) == Some(n)
    ensures PyInt("-" + s) == Some(-(n as int))
  {
    var t := "-" + s;
    assert s[|s| - 1] in s && t[|t| - 1] == s[|s| - 1] && t[0] == '-';
    assert Strip(t) == t;
    assert t[1..] == s;
  }

  /** `int(repr(i)) == i` */
  lemma PyIntRepr(i: int)
    ensures PyInt(Repr(i)) == Some(i)
  {
    if i < 0 {
      ParsePrint(-i);
      PyIntNegated(Print(-i), -i);
    } else {
      ParsePrint(i);
      PyIntDigits(Print(i), i);
    }
  }

  // ---------- which text `int` accepts ----------

  predicate Blank(s: string) { forall c | c in s :: IsSpace(c) }

  lemma {:induction false} StripSplits(s: string) returns (left: string, right: string)
    ensures s == left + Strip(s) + right && Blank(left) && Blank(right)
  {
    left, right := "", "";
    if s != "" {
      if IsSpace(s[0]) {
        left, right := StripSplits(s[1..]);
        left := [s[0]] + left;
      } else if IsSpace(s[|s| - 1]) {
        left, right := StripSplits(s[..|s| - 1]);
        right := right + [s[|s| - 1]];
      }
    }
  }

  lemma {:induction false} StripPadded(left: string, core: string, right: string)
    requires Blank(left) && Blank(right) && core != "" && !IsSpace(core[0]) && !IsSpace(core[|core| - 1])
    ensures Strip(left + core + right) == core
    decreases |left| + |right|
  {
    var s := left + core + right;
    if left != "" {
      assert s[0] == left[0] && left[0] in left && s[1..] == left[1..] + core + right;
      assert forall c | c in left[1..] :: c in left;
      StripPadded(left[1..], core, right);
    } else if right != "" {
      var n := |right| - 1;
      assert s[0] == core[0] && s[|s| - 1] == right[n] && right[n] in right && s[..|s| - 1] == left + core + right[..n];
      assert forall c | c in right[..n] :: c in right;
      StripPadded(left, core, right[..n]);
    } else {
      assert s == core;
    }
  }

  lemma {:induction false} DigitsOnly(s: string)
    ensures ParseDigits(s).Some? <==> s != "" && forall c | c in s :: IsDigit(c)
  {
    if s != "" {
      var n := |s| - 1;
      DigitsOnly(s[..n]);
      assert s == s[..n] + [s[n]];
      assert forall c | c in s :: c in s[..n] || c == s[n];
      assert s[n] in s && forall c | c in s[..n] :: c in s;
    }
  }

  /** Blanks, one optional sign and digits. */
  predicate Spells(s: string, i: int, left: string, sign: string, digits: string, right: string) {
    && s == left + (sign + digits) + right && Blank(left) && Blank(right) && sign in {"", "+", "-"}
    && ParseDigits(digits).Some?
    && var n := ParseDigits(digits).value; i == if sign == "-" then -(n as int) else n
  }

  /** `int` accepts just those texts, and reads the number they spell. */
  lemma PyIntMeans(s: string, i: int)
    ensures PyInt(s) == Some(i) <==> exists left, sign, digits, right :: Spells(s, i, left, sign, digits, right)
  {
    if PyInt(s) == Some(i) {
      var left, right := StripSplits(s);
      var t := Strip(s);
      if t[0] == '-' || t[0] == '+' {
        assert t == [t[0]] + t[1..];
        assert Spells(s, i, left, [t[0]], t[1..], right);
      } else {
        assert t == "" + t;
        assert Spells(s, i, left, "", t, right);
      }
    }
    if left, sign, digits, right :| Spells(s, i, left, sign, digits, right) {
      var core := sign + digits;
      DigitsOnly(digits);
      assert digits[0] in digits && digits[|digits| - 1] in digits && core[|core| - 1] == digits[|digits| - 1];
      assert core[0] == if sign == "" then digits[0] else sign[0];
      StripPadded(left, core, right);
      assert sign != "" ==> core[1..] == digits;
      assert sign == "" ==> core == digits;
    }
  }

  /** Leading zeros make no difference. */
  lemma {:induction false} LeadingZero(digits: string)
    requires ParseDigits(digits).Some?
    ensures ParseDigits("0" + digits) == ParseDigits(digits)
  {
    var n := |digits| - 1;
    if n == 0 {
      assert ("0" + digits)[..1] == "0" && ParseDigits("0") == Some(0);
    } else {
      LeadingZero(digits[..n]);
      assert ("0" + digits)[..n + 1] == "0" + digits[..n];
    }
  }

  /** The characters `str.strip` takes off. */
  lemma SpacesAre(c: char)
    ensures IsSpace(c) <==> c in [' ', '\t', '\n', 11 as char, 12 as char, '\r']
  {
  }

  // ---------- which text `repr` prints ----------

  /** Digits without a leading zero, except for zero itself. */
  predicate Plain(digits: string) {
    digits != "" && (forall c | c in digits :: IsDigit(c)) && (digits[0] == '0' ==> digits == "0")
  }

  lemma {:induction false} PrintIsPlain(n: nat)
    ensures Plain(Print(n))
  {
    if n >= 10 {
      PrintIsPlain(n / 10);
      ParsePrint(n / 10);
      assert Print(n)[0] == Print(n / 10)[0];
      assert ParseDigits("0") == Some(0);
    }
  }

  lemma {:induction false} PrintParse(digits: string, n: nat)
    requires Plain(digits) && ParseDigits(digits) == Some(n)
    ensures Print(n) == digits && (n == 0 ==> digits == "0")
  {
    var last := |digits| - 1;
    assert digits == digits[..last] + [digits[last]];
    if last > 0 {
      assert forall c | c in digits[..last] :: c in digits;
      DigitsOnly(digits[..last]);
      PrintParse(digits[..last], ParseDigits(digits[..last]).value);
    }
  }

  lemma PlainIsPrinted(digits: string)
    requires Plain(digits)
    ensures PyInt(digits).Some? && Repr(PyInt(digits).value) == digits
  {
    DigitsOnly(digits);
    PyIntDigits(digits, ParseDigits(digits).value);
    PrintParse(digits, ParseDigits(digits).value);
  }

  lemma NegatedIsPrinted(digits: string)
    requires Plain(digits) && digits != "0"
    ensures PyInt("-" + digits).Some? && Repr(PyInt("-" + digits).value) == "-" + digits
  {
    DigitsOnly(digits);
    PyIntNegated(digits, ParseDigits(digits).value);
    PrintParse(digits, ParseDigits(digits).value);
  }

  lemma PrintedIsPlain(i: int)
    ensures var s := Repr(i);
            if i < 0 then s != "" && s[0] == '-' && Plain(s[1..]) && s[1..] != "0" else Plain(s)
  {
    if i < 0 {
      PrintIsPlain(-i);
      ParsePrint(-i);
      assert Repr(i)[1..] == Print(-i) && ParseDigits("0") == Some(0);
    } else {
      PrintIsPlain(i);
    }
  }

  /** A text is the print of the number it is read as if and only if it is plain digits, or a minus sign and such
      digits other than zero. */
  lemma ReprMeans(s: string)
    ensures (PyInt(s).Some? && Repr(PyInt(s).value) == s)
            <==> Plain(s) || (s != "" && s[0] == '-' && Plain(s[1..]) && s[1..] != "0")
  {
    if PyInt(s).Some? {
      PrintedIsPlain(PyInt(s).value);
    }
    if Plain(s) {
      PlainIsPrinted(s);
    }
    if s != "" && s[0] == '-' && Plain(s[1..]) && s[1..] != "0" {
      assert s == "-" + s[1..];
      NegatedIsPrinted(s[1..]);
    }
  }
}
