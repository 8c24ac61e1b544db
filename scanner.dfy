/** The text side of the scene-file importer: removing `#` comments line by line, and the
    whitespace-separated reads of words and decimal numbers that formatted extraction from a
    string stream performs.

    A stream is a text and a `Cursor`: the position of the next unread character and the
    failure flag. Once a read fails, every later read fails too, a word read yields the empty
    word and a number read yields zero. */
module Scanner {

  // ---------------------------------------------------------------------------------------
  // Comments

  /** The characters of one line before its first `#`. */
  function StripLine(line: string): (r: string)
    ensures r <= line && '#' !in r
    ensures |r| < |line| ==> line[|r|] == '#'
    decreases |line|
  {
    if line == [] || line[0] == '#' then [] else [line[0]] + StripLine(line[1..])
  }

  /** The index of the first newline at or after `i`, or the end of the text. */
  function LineEnd(s: string, i: nat): (e: nat)
    requires i <= |s|
    ensures i <= e <= |s| && (e < |s| ==> s[e] == '\n')
    ensures forall k :: i <= k < e ==> s[k] != '\n'
    decreases |s| - i
  {
    if i == |s| || s[i] == '\n' then i else LineEnd(s, i + 1)
  }

  /** The text with every line cut at its first `#` and each line, the last one included,
      ended by a newline. A line is what reading a line at a time yields: the characters up
      to the next newline, which is consumed; a final line without a newline still counts,
      and an empty text has no lines. */
  function Stripped(s: string): string
    decreases |s|
  {
    if s == [] then []
    else
      var e := LineEnd(s, 0);
      StripLine(s[..e]) + "\n" + Stripped(if e < |s| then s[e + 1..] else [])
  }

  /** No comment survives stripping. */
  lemma {:induction false} StrippedHasNoHash(s: string)
    ensures '#' !in Stripped(s)
    decreases |s|
  {
    if s != [] {
      var e := LineEnd(s, 0);
      StrippedHasNoHash(if e < |s| then s[e + 1..] else []);
    }
  }

  /** The stripped text is empty or ends with the newline of its last line. */
  lemma {:induction false} StrippedEndsLines(s: string)
    ensures Stripped(s) == [] || Stripped(s)[|Stripped(s)| - 1] == '\n'
    decreases |s|
  {
    if s != [] {
      var e := LineEnd(s, 0);
      var rest := if e < |s| then s[e + 1..] else [];
      var head := StripLine(s[..e]) + "\n";
      assert head[|head| - 1] == '\n';
      assert Stripped(s) == head + Stripped(rest);
      StrippedEndsLines(rest);
      LastOfAppend(head, Stripped(rest));
    }
  }

  lemma LastOfAppend(a: string, b: string)
    requires a != []
    ensures (a + b)[|a + b| - 1] == if b == [] then a[|a| - 1] else b[|b| - 1]
  {
  }

  /** Text without comments whose lines all end in a newline is left as it is. */
  lemma {:induction false} StrippedKeepsPlainText(s: string)
    requires '#' !in s
    requires s == [] || s[|s| - 1] == '\n'
    ensures Stripped(s) == s
    decreases |s|
  {
    if s != [] {
      var e := LineEnd(s, 0);
      assert e < |s|;
      var rest := s[e + 1..];
      assert StripLine(s[..e]) == s[..e] by {
        forall k | 0 <= k < e ensures s[..e][k] != '#' {
          assert s[k] in s;
        }
        StripLineIsPrefix(s[..e], e);
      }
      assert '#' !in rest by {
        forall k | 0 <= k < |rest| ensures rest[k] != '#' {
          assert rest[k] == s[e + 1 + k];
        }
      }
      assert rest == [] || rest[|rest| - 1] == '\n';
      StrippedKeepsPlainText(rest);
      SplitAt(s, e);
    }
  }

  /** A text is what comes before position `e`, the character there, and what follows. */
  lemma SplitAt(s: string, e: nat)
    requires e < |s|
    ensures s == s[..e] + [s[e]] + s[e + 1..]
  {
  }

  /** Stripping twice is stripping once. */
  lemma StrippedIdempotent(s: string)
    ensures Stripped(Stripped(s)) == Stripped(s)
  {
    StrippedHasNoHash(s);
    StrippedEndsLines(s);
    StrippedKeepsPlainText(Stripped(s));
  }

  /** `stripComments`: reads the input a line at a time and copies each line's characters up
      to its first `#`, then a newline. */
  method StripComments(input: string) returns (clean: string)
    ensures clean == Stripped(input)
  {
    clean := [];
    var p := 0;
    while p < |input|
      invariant 0 <= p <= |input|
      invariant clean + Stripped(input[p..]) == Stripped(input)
    {
      var e := GetLine(input, p);
      var next := if e < |input| then e + 1 else e;
      StrippedStep(input, p, e, next);
      assert clean + StripLine(input[p..e]) + "\n" + Stripped(input[next..])
          == clean + (StripLine(input[p..e]) + "\n" + Stripped(input[next..]));
      clean := CopyUntilHash(clean, input[p..e]);
      clean := clean + ['\n'];
      p := next;
    }
  }

  /** `getline`: the end of the line that starts at `p`. */
  method GetLine(input: string, p: nat) returns (e: nat)
    requires p <= |input|
    ensures p <= e <= |input| && (e == |input| || input[e] == '\n')
    ensures forall k :: p <= k < e ==> input[k] != '\n'
  {
    e := p;
    while e < |input| && input[e] != '\n'
      invariant p <= e <= |input|
      invariant forall k :: p <= k < e ==> input[k] != '\n'
    {
      e := e + 1;
    }
  }

  /** The inner loop of `stripComments`: appends the line's characters before its first `#`. */
  method CopyUntilHash(clean: string, line: string) returns (r: string)
    ensures r == clean + StripLine(line)
  {
    r := clean;
    var i := 0;
    while i < |line| && line[i] != '#'
      invariant 0 <= i <= |line|
      invariant r == clean + line[..i]
      invariant forall k :: 0 <= k < i ==> line[k] != '#'
    {
      r := r + [line[i]];
      i := i + 1;
    }
    StripLineIsPrefix(line, i);
  }

  /** One round of `stripComments`: the stripped rest of the input is the current line cut at
      its `#` and a newline, followed by the stripped text after the line. */
  lemma {:induction false} StrippedStep(input: string, p: nat, e: nat, next: nat)
    requires p < |input| && p <= e <= |input|
    requires forall k :: p <= k < e ==> input[k] != '\n'
    requires e == |input| || input[e] == '\n'
    requires next == if e < |input| then e + 1 else e
    ensures Stripped(input[p..]) == StripLine(input[p..e]) + "\n" + Stripped(input[next..])
  {
    var t := input[p..];
    LineEndShift(input, p, e);
    assert t[..e - p] == input[p..e];
    if e < |input| {
      assert t[e - p + 1..] == input[next..];
    } else {
      assert input[next..] == [];
    }
  }

  lemma {:induction false} LineEndShift(s: string, p: nat, e: nat)
    requires p <= e <= |s|
    requires forall k :: p <= k < e ==> s[k] != '\n'
    requires e == |s| || s[e] == '\n'
    ensures LineEnd(s[p..], 0) == e - p
  {
    var t := s[p..];
    assert forall k :: 0 <= k < e - p ==> t[k] == s[p + k];
    assert e - p == |t| || t[e - p] == '\n';
    LineEndAt(t, 0, e - p);
  }

  lemma {:induction false} LineEndAt(s: string, i: nat, e: nat)
    requires i <= e <= |s|
    requires forall k :: i <= k < e ==> s[k] != '\n'
    requires e == |s| || s[e] == '\n'
    ensures LineEnd(s, i) == e
    decreases e - i
  {
    if i < e {
      LineEndAt(s, i + 1, e);
    }
  }

  lemma {:induction false} StripLineIsPrefix(line: string, i: nat)
    requires i <= |line|
    requires forall k :: 0 <= k < i ==> line[k] != '#'
    requires i == |line| || line[i] == '#'
    ensures StripLine(line) == line[..i]
    decreases |line|
  {
    if line != [] && line[0] != '#' {
      StripLineIsPrefix(line[1..], i - 1);
      assert line[..i] == [line[0]] + line[1..][..i - 1];
    }
  }

  // ---------------------------------------------------------------------------------------
  // Formatted reads

  datatype Cursor = Cursor(pos: nat, failed: bool)

  const Start := Cursor(0, false)

  /** What the stream has left to read; every successful read makes it smaller, and only a
      failed stream has nothing left. */
  function Left(text: string, c: Cursor): nat {
    if c.failed then 0 else if c.pos > |text| then 1 else |text| - c.pos + 1
  }

  /** The characters `isspace` accepts in the C locale. */
  predicate IsSpace(ch: char) {
    ch == ' ' || '\t' <= ch <= '\r'
  }

  predicate IsDigit(ch: char) {
    '0' <= ch <= '9'
  }

  function SkipSpace(text: string, i: nat): (r: nat)
    ensures i <= r && (i <= |text| ==> r <= |text|)
    ensures forall k :: i <= k < r ==> k < |text| && IsSpace(text[k])
    ensures r < |text| ==> !IsSpace(text[r])
    decreases |text| - i
  {
    if i < |text| && IsSpace(text[i]) then SkipSpace(text, i + 1) else i
  }

  function WordEnd(text: string, i: nat): (r: nat)
    requires i <= |text|
    ensures i <= r <= |text| && (r < |text| ==> IsSpace(text[r]))
    ensures forall k :: i <= k < r ==> !IsSpace(text[k])
    decreases |text| - i
  {
    if i < |text| && !IsSpace(text[i]) then WordEnd(text, i + 1) else i
  }

  /** `stream >> word`: skips whitespace, then takes the longest run of non-whitespace. With
      nothing but whitespace left, or after an earlier failure, the read fails and the word is
      empty. */
  function NextWord(text: string, c: Cursor): (r: (string, Cursor))
    ensures Left(text, r.1) <= Left(text, c)
    ensures r.1.failed <==> c.failed || SkipSpace(text, c.pos) >= |text|
    ensures r.1.failed ==> r.0 == ""
    ensures !r.1.failed ==>
              && Left(text, r.1) < Left(text, c)
              && r.1.pos <= |text| && |r.0| <= r.1.pos
              && r.0 != "" && (forall k :: 0 <= k < |r.0| ==> !IsSpace(r.0[k]))
              && r.1.pos - |r.0| == SkipSpace(text, c.pos)
              && r.0 == text[r.1.pos - |r.0|..r.1.pos]
              && (r.1.pos == |text| || IsSpace(text[r.1.pos]))
  {
    if c.failed then ("", c)
    else
      var s := SkipSpace(text, c.pos);
      if s >= |text| then ("", Cursor(s, true))
      else
        var e := WordEnd(text, s);
        (text[s..e], Cursor(e, false))
  }

  lemma {:induction false} WordEndAt(text: string, i: nat, e: nat)
    requires i <= e < |text|
    requires forall k :: i <= k < e ==> !IsSpace(text[k])
    requires IsSpace(text[e])
    ensures WordEnd(text, i) == e
    decreases e - i
  {
    if i < e {
      WordEndAt(text, i + 1, e);
    }
  }

  lemma {:induction false} DigitsEndAt(text: string, i: nat, e: nat)
    requires i <= e < |text|
    requires forall k :: i <= k < e ==> IsDigit(text[k])
    requires !IsDigit(text[e])
    ensures DigitsEnd(text, i) == e
    decreases e - i
  {
    if i < e {
      DigitsEndAt(text, i + 1, e);
    }
  }

  function DigitsEnd(text: string, i: nat): (r: nat)
    requires i <= |text|
    ensures i <= r <= |text| && (r < |text| ==> !IsDigit(text[r]))
    ensures forall k :: i <= k < r ==> IsDigit(text[k])
    decreases |text| - i
  {
    if i < |text| && IsDigit(text[i]) then DigitsEnd(text, i + 1) else i
  }

  function DigitValue(ch: char): nat
    requires IsDigit(ch)
  {
    (ch as int - '0' as int) as nat
  }

  /** The value of a string of decimal digits, most significant first. */
  function DigitsValue(s: string): nat
    requires forall k :: 0 <= k < |s| ==> IsDigit(s[k])
    decreases |s|
  {
    if s == [] then 0 else DigitsValue(s[..|s| - 1]) * 10 + DigitValue(s[|s| - 1])
  }

  function Pow10(n: nat): (r: nat)
    ensures r > 0
  {
    if n == 0 then 1 else 10 * Pow10(n - 1)
  }

  /** `stream >> number`: skips whitespace, then reads an optional sign, digits, and
      optionally a point and more digits, with at least one digit in all; reading stops at
      the first character that cannot continue the number, which stays unread. Without a
      digit the read fails and yields zero. */
  function NextReal(text: string, c: Cursor): (r: (real, Cursor))
    ensures Left(text, r.1) <= Left(text, c)
    ensures r.1.failed ==> r.0 == 0.0
    ensures !r.1.failed ==> Left(text, r.1) < Left(text, c)
  {
    if c.failed then (0.0, c)
    else
      var s := SkipSpace(text, c.pos);
      if s >= |text| then (0.0, Cursor(s, true))
      else
        var a := if text[s] == '-' || text[s] == '+' then s + 1 else s;
        var b := DigitsEnd(text, a);
        var point := b < |text| && text[b] == '.';
        var f := if point then b + 1 else b;
        var d := DigitsEnd(text, f);
        if b == a && d == f then (0.0, Cursor(d, true))
        else
          var magnitude := DigitsValue(text[a..b]) as real
                           + DigitsValue(text[f..d]) as real / Pow10(d - f) as real;
          (if text[s] == '-' then -magnitude else magnitude, Cursor(d, false))
  }

  /** The decimal numeral of a natural number. */
  function Numeral(n: nat): (s: string)
    ensures s != [] && forall k :: 0 <= k < |s| ==> IsDigit(s[k])
  {
    if n < 10 then [('0' as int + n) as char]
    else Numeral(n / 10) + [('0' as int + n % 10) as char]
  }

  lemma {:induction false} NumeralValue(n: nat)
    ensures DigitsValue(Numeral(n)) == n
  {
    if n >= 10 {
      NumeralValue(n / 10);
      var s := Numeral(n);
      assert s[..|s| - 1] == Numeral(n / 10);
    }
  }

  /** A word followed by whitespace is read back exactly. */
  lemma WordRoundTrip(w: string, rest: string)
    requires w != [] && forall k :: 0 <= k < |w| ==> !IsSpace(w[k])
    ensures NextWord(w + " " + rest, Start) == (w, Cursor(|w|, false))
  {
    var text := w + " " + rest;
    assert SkipSpace(text, 0) == 0 by {
      assert text[0] == w[0];
    }
    assert forall k :: 0 <= k < |w| ==> text[k] == w[k];
    assert text[|w|] == ' ';
    WordEndAt(text, 0, |w|);
    assert text[..|w|] == w;
  }

  /** The numeral of a natural number, optionally negated, followed by whitespace reads back as
      that number. */
  lemma NumberRoundTrip(n: nat, negative: bool, rest: string)
    ensures var s := (if negative then "-" else "") + Numeral(n);
            NextReal(s + " " + rest, Start) ==
              (if negative then -(n as real) else n as real, Cursor(|s|, false))
  {
    var sign := if negative then "-" else "";
    var digits := Numeral(n);
    SignedDigitsLayout(sign, digits, rest);
    NumeralValue(n);
    ReadsUnsigned(sign + digits + " " + rest, |sign|, |sign| + |digits|);
  }

  /** A decimal numeral, optionally negated, with digits before or after its point (at least
      one in all) and followed by whitespace, reads back as its value. */
  lemma DecimalRoundTrip(negative: bool, whole: string, frac: string, rest: string)
    requires |whole| + |frac| > 0
    requires forall k :: 0 <= k < |whole| ==> IsDigit(whole[k])
    requires forall k :: 0 <= k < |frac| ==> IsDigit(frac[k])
    ensures var s := (if negative then "-" else "") + whole + "." + frac;
            var v := DigitsValue(whole) as real + DigitsValue(frac) as real / Pow10(|frac|) as real;
            NextReal(s + " " + rest, Start) == (if negative then -v else v, Cursor(|s|, false))
  {
    var sign := if negative then "-" else "";
    var s := sign + whole + "." + frac;
    var text := s + " " + rest;
    var a, b := |sign|, |sign| + |whole|;
    var d := b + 1 + |frac|;
    WholeRun(sign, whole, frac, rest);
    FracRun(sign, whole, frac, rest);
    assert text[0] == (if negative then '-' else if whole != [] then whole[0] else '.');
    ReadsDecimal(text, a, b, d);
  }

  /** The digits before the point of a decimal numeral followed by text. */
  lemma WholeRun(sign: string, whole: string, frac: string, rest: string)
    requires forall k :: 0 <= k < |whole| ==> IsDigit(whole[k])
    ensures var text := sign + whole + "." + frac + " " + rest;
            var a, b := |sign|, |sign| + |whole|;
            && b < |text| && text[b] == '.'
            && DigitsEnd(text, a) == b && text[a..b] == whole
  {
    var text := sign + whole + "." + frac + " " + rest;
    var a, b := |sign|, |sign| + |whole|;
    forall k | a <= k < b
      ensures text[k] == whole[k - a]
    {
    }
    assert text[b] == '.';
    DigitsEndAt(text, a, b);
    assert text[a..b] == whole;
  }

  /** The digits after the point of a decimal numeral followed by text. */
  lemma FracRun(sign: string, whole: string, frac: string, rest: string)
    requires forall k :: 0 <= k < |frac| ==> IsDigit(frac[k])
    ensures var text := sign + whole + "." + frac + " " + rest;
            var c, d := |sign| + |whole| + 1, |sign| + |whole| + 1 + |frac|;
            && d < |text| && IsSpace(text[d])
            && DigitsEnd(text, c) == d && text[c..d] == frac
  {
    var text := sign + whole + "." + frac + " " + rest;
    var c, d := |sign| + |whole| + 1, |sign| + |whole| + 1 + |frac|;
    forall k | c <= k < d
      ensures text[k] == frac[k - c]
    {
    }
    assert text[d] == ' ';
    DigitsEndAt(text, c, d);
    assert text[c..d] == frac;
  }

  /** Two runs of digits around a point, after an optional sign at the start of the text and
      before whitespace, read as their decimal value. */
  lemma ReadsDecimal(text: string, a: nat, b: nat, d: nat)
    requires a <= 1 && a <= b && b + 1 <= d < |text| && (a < b || b + 1 < d)
    requires text[b] == '.' && IsSpace(text[d]) && !IsSpace(text[0])
    requires a == 1 <==> text[0] == '-' || text[0] == '+'
    requires DigitsEnd(text, a) == b && DigitsEnd(text, b + 1) == d
    ensures var v := DigitsValue(text[a..b]) as real +
                     DigitsValue(text[b + 1..d]) as real / Pow10(d - (b + 1)) as real;
            NextReal(text, Start) == (if text[0] == '-' then -v else v, Cursor(d, false))
  {
    assert SkipSpace(text, 0) == 0;
  }

  /** Where the sign, the digits and the blank sit in a signed numeral followed by text. */
  lemma SignedDigitsLayout(sign: string, digits: string, rest: string)
    requires sign == "" || sign == "-"
    requires digits != [] && forall k :: 0 <= k < |digits| ==> IsDigit(digits[k])
    ensures var text := sign + digits + " " + rest;
            var a, b := |sign|, |sign| + |digits|;
            && b < |text| && IsSpace(text[b])
            && (a == 1 <==> text[0] == '-' || text[0] == '+')
            && (text[0] == '-' <==> sign == "-")
            && DigitsEnd(text, a) == b && text[a..b] == digits
  {
    var tail := " " + rest;
    var text := sign + digits + tail;
    assert text == sign + digits + " " + rest;
    var a, b := |sign|, |sign| + |digits|;
    Middle(sign, digits, tail);
    assert IsSpace(text[b]) by {
      assert text[b] == tail[0];
    }
    assert text[0] == (if sign == "-" then '-' else digits[0]);
    assert forall k :: a <= k < b ==> IsDigit(text[k]);
    DigitsEndAt(text, a, b);
  }

  /** The middle of a three-part text is its middle part. */
  lemma Middle(p: string, d: string, r: string)
    ensures (p + d + r)[|p|..|p| + |d|] == d
    ensures forall k :: |p| <= k < |p| + |d| ==> (p + d + r)[k] == d[k - |p|]
    ensures forall k :: |p| + |d| <= k < |p + d + r| ==> (p + d + r)[k] == r[k - |p| - |d|]
  {
  }

  /** A run of digits from `a` to `b`, after an optional sign at the start of the text and
      before whitespace, reads as its value. */
  lemma {:induction false} ReadsUnsigned(text: string, a: nat, b: nat)
    requires a <= 1 && a < b < |text| && IsSpace(text[b])
    requires a == 1 <==> text[0] == '-' || text[0] == '+'
    requires DigitsEnd(text, a) == b
    ensures NextReal(text, Start) ==
              (if text[0] == '-' then -(DigitsValue(text[a..b]) as real)
               else DigitsValue(text[a..b]) as real, Cursor(b, false))
  {
    assert !IsSpace(text[0]) by {
      if a == 0 {
        assert IsDigit(text[0]);
      }
    }
    assert SkipSpace(text, 0) == 0;
    assert DigitsEnd(text, b) == b;
    assert text[b..b] == [];
  }
}
