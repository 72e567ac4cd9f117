/** The pieces of Rust's string formatting the code generator relies on:
decimal printing of unsigned integers, `str::lines`, `join`, and centred
padding (`{:*^width$}`). Strings are sequences of `char`; widths count
characters, as Rust's formatter does. */
module Text {

  /** The character of a decimal digit. */
  function DigitChar(d: nat): (c: char)
    requires d < 10
    ensures '0' <= c <= '9' && (c as int) - ('0' as int) == d
  {
    (('0' as int) + d) as char
  }

  predicate IsDigits(s: string)
  {
    forall i :: 0 <= i < |s| ==> '0' <= s[i] <= '9'
  }

  /** `Display` for an unsigned integer: its decimal digits, most
      significant first, with no leading zero. */
  function NatToString(n: nat): (s: string)
    ensures |s| >= 1 && IsDigits(s)
    ensures |s| > 1 ==> s[0] != '0'
    decreases n
  {
    if n < 10 then [DigitChar(n)] else NatToString(n / 10) + [DigitChar(n % 10)]
  }

  /** The value of a string of decimal digits: the reading direction of
      `NatToString`. */
  function ParseDecimal(s: string): nat
    requires IsDigits(s)
  {
    if s == [] then 0
    else ParseDecimal(s[..|s| - 1]) * 10 + ((s[|s| - 1] as int) - ('0' as int))
  }

  /** Printing a number and reading it back gives the number: distinct
      numbers print differently. */
  lemma {:induction false} ParseNatToString(n: nat)
    ensures ParseDecimal(NatToString(n)) == n
    decreases n
  {
    if n >= 10 {
      var s := NatToString(n);
      assert s[..|s| - 1] == NatToString(n / 10);
      ParseNatToString(n / 10);
    }
  }

  lemma NatToStringInjective(m: nat, n: nat)
    requires NatToString(m) == NatToString(n)
    ensures m == n
  {
    ParseNatToString(m);
    ParseNatToString(n);
  }

  /** The three parts of `p + m + q` can be cut back out of it. */
  lemma Framed<T>(p: seq<T>, m: seq<T>, q: seq<T>)
    ensures var s := p + m + q;
            && |s| == |p| + |m| + |q|
            && s[..|p|] == p && s[|p|..|p| + |m|] == m && s[|p| + |m|..] == q
  {
  }

  /** The position of the first line feed, or the length if there is none. */
  function FirstNewline(s: string): (k: nat)
    ensures k <= |s|
    ensures k < |s| ==> s[k] == '\n'
    ensures forall i :: 0 <= i < k ==> s[i] != '\n'
  {
    if s == [] then 0
    else if s[0] == '\n' then 0
    else 1 + FirstNewline(s[1..])
  }

  /** A line cut off at a line feed loses a carriage return before it. */
  function StripCr(line: string): (r: string)
    ensures r == line || (line == r + ['\r'])
  {
    if |line| > 0 && line[|line| - 1] == '\r' then line[..|line| - 1] else line
  }

  /** `str::lines`: the text cut at every line feed, a line ending in
      "\r\n" losing the carriage return as well; a final line feed does
      not start another line, so "" has no lines and "\n" has one empty
      line. A carriage return not followed by a line feed is kept. */
  function Lines(s: string): (ls: seq<string>)
    ensures forall i :: 0 <= i < |ls| ==> '\n' !in ls[i]
    ensures ls == [] <==> s == []
    decreases |s|
  {
    if s == [] then []
    else
      var k := FirstNewline(s);
      if k == |s| then [s]
      else [StripCr(s[..k])] + Lines(s[k + 1..])
  }

  /** Every line followed by a line feed. */
  function Terminated(ls: seq<string>): string
  {
    if ls == [] then [] else ls[0] + "\n" + Terminated(ls[1..])
  }

  predicate NoCarriageReturn(s: string)
  {
    forall i :: 0 <= i < |s| ==> s[i] != '\r'
  }

  /** For text without carriage returns, putting a line feed back after
      every line restores the text, with a line feed added at its end if it
      had none. */
  lemma {:induction false} LinesRoundTrip(s: string)
    requires NoCarriageReturn(s)
    ensures Terminated(Lines(s)) == if s == [] || s[|s| - 1] == '\n' then s else s + "\n"
    decreases |s|
  {
    if s != [] {
      var k := FirstNewline(s);
      if k < |s| {
        var rest := s[k + 1..];
        assert NoCarriageReturn(rest) by {
          forall i | 0 <= i < |rest| ensures rest[i] != '\r' {
            assert rest[i] == s[k + 1 + i];
          }
        }
        LinesRoundTrip(rest);
        LinesUnfold(s, k, rest);
        RestoreFinalNewline(s, k, rest, Terminated(Lines(rest)));
      } else {
        assert Lines(s) == [s];
        assert Terminated(Lines(s)) == s + "\n" + Terminated([]);
      }
    }
  }

  /** `Lines` on text whose first line ends in a line feed. */
  lemma LinesUnfold(s: string, k: nat, rest: string)
    requires NoCarriageReturn(s) && k == FirstNewline(s) < |s| && rest == s[k + 1..]
    ensures Terminated(Lines(s)) == s[..k] + "\n" + Terminated(Lines(rest))
  {
    var line := s[..k];
    assert StripCr(line) == line by {
      if |line| > 0 {
        assert line[|line| - 1] == s[k - 1];
      }
    }
    var ls := Lines(s);
    assert ls[0] == line && ls[1..] == Lines(rest);
  }

  /** The text after the first line feed decides whether a line feed is
      added at the end. */
  lemma RestoreFinalNewline(s: string, k: nat, rest: string, tail: string)
    requires k < |s| && s[k] == '\n' && rest == s[k + 1..]
    requires tail == if rest == [] || rest[|rest| - 1] == '\n' then rest else rest + "\n"
    ensures s[..k] + "\n" + tail == if s[|s| - 1] == '\n' then s else s + "\n"
  {
    assert s == s[..k] + "\n" + rest;
    if rest != [] {
      assert rest[|rest| - 1] == s[|s| - 1];
    }
  }

  /** `join`: the parts with `sep` between neighbours. */
  function Join(parts: seq<string>, sep: string): (r: string)
    ensures parts == [] ==> r == []
    ensures |parts| == 1 ==> r == parts[0]
  {
    if parts == [] then []
    else if |parts| == 1 then parts[0]
    else parts[0] + sep + Join(parts[1..], sep)
  }

  /** Joining with line feeds is terminating every line but the last. */
  lemma {:induction false} JoinLinesThenTerminate(ls: seq<string>)
    requires ls != []
    ensures Join(ls, "\n") + "\n" == Terminated(ls)
    decreases |ls|
  {
    if |ls| > 1 {
      JoinLinesThenTerminate(ls[1..]);
      assert Terminated(ls) == ls[0] + "\n" + Terminated(ls[1..]);
    } else {
      assert Terminated(ls) == ls[0] + "\n" + Terminated([]);
    }
  }

  function Repeat(c: char, n: nat): (r: string)
    ensures |r| == n && forall i :: 0 <= i < n ==> r[i] == c
  {
    if n == 0 then [] else [c] + Repeat(c, n - 1)
  }

  /** `format!("{s:fill^width$}")`: `s` centred in `width` characters;
      an odd padding puts the extra character on the right. A string at
      least `width` long is left as it is. */
  function Centre(s: string, width: nat, fill: char): (r: string)
    ensures |s| >= width ==> r == s
    ensures |s| < width ==> |r| == width
  {
    if |s| >= width then s
    else
      var pad := width - |s|;
      Repeat(fill, pad / 2) + s + Repeat(fill, pad - pad / 2)
  }

  /** Centring keeps the text, surrounded by fill characters, with at most
      one more on the right than on the left. */
  lemma CentreIsBalanced(s: string, width: nat, fill: char)
    requires |s| < width
    ensures var left := (width - |s|) / 2;
            var r := Centre(s, width, fill);
            && r[left..left + |s|] == s
            && (forall i :: 0 <= i < left ==> r[i] == fill)
            && (forall i :: left + |s| <= i < width ==> r[i] == fill)
            && (width - |s| - left == left || width - |s| - left == left + 1)
  {
    var left := (width - |s|) / 2;
    var r := Centre(s, width, fill);
    assert r == Repeat(fill, left) + s + Repeat(fill, width - |s| - left);
    assert r[left..left + |s|] == s;
  }
}
