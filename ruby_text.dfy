/**
 * The few Ruby string operations the notifier relies on, written out:
 * `str.split(/\n/)[0]`, `String#to_i`, `Integer#to_s` and the newline
 * `IO#puts` appends.
 */
module RubyText {
  import opened Wrappers

  predicate IsDigit(c: char) { '0' <= c <= '9' }

  function DigitValue(c: char): nat
    requires IsDigit(c)
  {
    (c as int) - ('0' as int)
  }

  function DigitChar(d: nat): char
    requires d < 10
  {
    (('0' as int) + d) as char
  }

  predicate AllNewlines(s: string) {
    forall i :: 0 <= i < |s| ==> s[i] == '\n'
  }

  /** Index of the first newline of `s`, or `|s|` when there is none. */
  function LineEnd(s: string): (k: nat)
    ensures k <= |s|
    ensures '\n' !in s[..k]
    ensures k < |s| ==> s[k] == '\n'
  {
    if s == [] || s[0] == '\n' then 0 else 1 + LineEnd(s[1..])
  }

  /**
   * `s.split(/\n/)[0]`. Ruby's split drops trailing empty fields, so a
   * string made only of newlines (the empty string included) splits into
   * no fields at all and element 0 is `nil`; otherwise element 0 is the
   * text before the first newline, possibly empty.
   */
  function FirstLine(s: string): (r: Option<string>)
    ensures r.None? <==> AllNewlines(s)
    ensures r.Some? ==> '\n' !in r.value && r.value <= s
    ensures r.Some? && |r.value| < |s| ==> s[|r.value|] == '\n'
  {
    if AllNewlines(s) then None else Some(s[..LineEnd(s)])
  }

  /** Text before the first newline is all `FirstLine` looks at, unless that text is empty. */
  lemma FirstLineOfLines(line: string, rest: string)
    requires '\n' !in line
    ensures line != [] ==> FirstLine(line + "\n" + rest) == Some(line)
    ensures line == [] ==> FirstLine(line + "\n" + rest) == (if AllNewlines(rest) then None else Some(""))
  {
    var s := line + "\n" + rest;
    assert s[|line|] == '\n';
    if line != [] {
      assert line[0] in line;
      assert !AllNewlines(s) by { assert s[0] == line[0]; }
      assert s[..LineEnd(s)] == line;
    } else {
      assert s == "\n" + rest;
      if !AllNewlines(rest) {
        var i :| 0 <= i < |rest| && rest[i] != '\n';
        assert s[i + 1] == rest[i];
      } else {
        assert AllNewlines(s) by {
          forall i | 0 <= i < |s| ensures s[i] == '\n' {
            if i > 0 { assert s[i] == rest[i - 1]; }
          }
        }
      }
    }
  }

  /** A non-empty string without a newline is its own first line. */
  lemma FirstLineOfOneLine(line: string)
    requires '\n' !in line && line != []
    ensures FirstLine(line) == Some(line)
  {
    assert line[0] in line;
    assert line[..LineEnd(line)] == line;
    assert !AllNewlines(line);
  }

  /** Ruby's `isspace`: the characters `String#to_i` skips before the number. */
  predicate IsSpace(c: char) {
    c == ' ' || c == '\t' || c == '\n' || c == '\U{B}' || c == '\U{C}' || c == '\r'
  }

  /**
   * Reads a run of decimal digits, continuing across a single `_` that
   * stands between two digits, onto the accumulated value `acc`.
   */
  function ScanDigits(s: string, acc: nat): nat
    decreases |s|
  {
    if |s| > 0 && IsDigit(s[0]) then ScanDigits(s[1..], acc * 10 + DigitValue(s[0]))
    else if |s| > 1 && s[0] == '_' && IsDigit(s[1]) then ScanDigits(s[1..], acc)
    else acc
  }

  /** Value of the digits that open `s`; 0 when `s` does not open with a digit. */
  function UnsignedPrefix(s: string): nat {
    if |s| > 0 && IsDigit(s[0]) then ScanDigits(s, 0) else 0
  }

  /**
   * `String#to_i`: leading white space, an optional sign, then the longest
   * run of digits; anything else ends the number, and no number is 0.
   */
  function ToI(s: string): (r: int)
    ensures r < 0 ==> '-' in s
    ensures r != 0 ==> exists i :: 0 <= i < |s| && IsDigit(s[i])
    decreases |s|
  {
    if |s| > 0 && IsSpace(s[0]) then ToI(s[1..])
    else if |s| > 0 && s[0] == '-' then -(UnsignedPrefix(s[1..]) as int)
    else if |s| > 0 && s[0] == '+' then UnsignedPrefix(s[1..])
    else UnsignedPrefix(s)
  }

  /** Decimal digits of `n`, most significant first, without leading zeros. */
  function NatToString(n: nat): (s: string)
    ensures |s| > 0 && forall i :: 0 <= i < |s| ==> IsDigit(s[i])
  {
    if n < 10 then [DigitChar(n)] else NatToString(n / 10) + [DigitChar(n % 10)]
  }

  /** `Integer#to_s`: decimal, with a leading `-` for a negative value. */
  function IntToString(n: int): (s: string)
    ensures '\n' !in s && s != []
  {
    if n < 0 then "-" + NatToString(-n) else NatToString(n)
  }

  /** What `io.puts s` writes: `s`, followed by a newline unless it already ends with one. */
  function Puts(s: string): (w: string)
    ensures |s| <= |w| <= |s| + 1 && |w| > 0 && w[|w| - 1] == '\n' && w[..|s|] == s
    ensures |s| > 0 && s[|s| - 1] == '\n' ==> w == s
  {
    if |s| > 0 && s[|s| - 1] == '\n' then s else s + "\n"
  }

  /** Appending a digit to a run of digits shifts the scanned value by one place. */
  lemma {:induction false} ScanAppendDigit(s: string, c: char, acc: nat)
    requires forall i :: 0 <= i < |s| ==> IsDigit(s[i])
    requires IsDigit(c)
    ensures ScanDigits(s + [c], acc) == ScanDigits(s, acc) * 10 + DigitValue(c)
  {
    if s == [] {
      assert s + [c] == [c];
      assert [c][1..] == [];
    } else {
      assert (s + [c])[1..] == s[1..] + [c];
      ScanAppendDigit(s[1..], c, acc * 10 + DigitValue(s[0]));
    }
  }

  lemma {:induction false} ScanNatToString(n: nat)
    ensures ScanDigits(NatToString(n), 0) == n
  {
    if n < 10 {
      assert [DigitChar(n)][1..] == [];
    } else {
      ScanNatToString(n / 10);
      ScanAppendDigit(NatToString(n / 10), DigitChar(n % 10), 0);
    }
  }

  /** `n.to_s.to_i == n` for every integer `n`. */
  lemma ToIIntToString(n: int)
    ensures ToI(IntToString(n)) == n
  {
    if n < 0 {
      var s := IntToString(n);
      assert s[1..] == NatToString(-n);
      ScanNatToString(-n);
    } else {
      ScanNatToString(n);
    }
  }

  /** Writing `n.to_s` with `puts` and reading back the first line with `to_i` yields `n`. */
  lemma PutsThenFirstLineToI(n: int)
    ensures FirstLine(Puts(IntToString(n))) == Some(IntToString(n))
    ensures ToI(FirstLine(Puts(IntToString(n))).value) == n
  {
    var s := IntToString(n);
    assert Puts(s) == s + "\n" + "";
    FirstLineOfLines(s, "");
    ToIIntToString(n);
  }
}
