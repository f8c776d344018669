/** Character and string helpers over ASCII: the subset of Python's and
    JavaScript's string methods that the lead-tracking code relies on.
    Non-ASCII characters are never digits, letters or white space here. */
module Text {

  predicate IsDigit(c: char) { '0' <= c <= '9' }
  predicate IsLowerLetter(c: char) { 'a' <= c <= 'z' }
  predicate IsUpperLetter(c: char) { 'A' <= c <= 'Z' }
  predicate IsAlnum(c: char) { IsDigit(c) || IsLowerLetter(c) || IsUpperLetter(c) }

  /** White space for Python's `str.strip()` and the regular-expression class
      `\s` (ASCII part): tab, line feed, vertical tab, form feed, carriage
      return, the four separators 0x1c-0x1f, and space. */
  predicate PySpace(c: char)
  {
    c == ' ' || ('\t' <= c <= '\r') || ('\U{001C}' <= c <= '\U{001F}')
  }

  /** White space for JavaScript's `String.prototype.trim` (ASCII part). */
  predicate JsSpace(c: char)
  {
    c == ' ' || ('\t' <= c <= '\r')
  }

  function LowerChar(c: char): (r: char)
    ensures !IsUpperLetter(r)
    ensures !IsUpperLetter(c) ==> r == c
  {
    if IsUpperLetter(c) then (c - 'A' + 'a') as char else c
  }

  function UpperChar(c: char): (r: char)
    ensures !IsLowerLetter(r)
    ensures !IsLowerLetter(c) ==> r == c
  {
    if IsLowerLetter(c) then (c - 'a' + 'A') as char else c
  }

  /** `toLowerCase()` / `lower()` restricted to ASCII letters. */
  function Lower(s: string): (r: string)
    ensures |r| == |s|
    ensures forall i :: 0 <= i < |s| ==> r[i] == LowerChar(s[i])
  {
    seq(|s|, i requires 0 <= i < |s| => LowerChar(s[i]))
  }

  /** `upper()` restricted to ASCII letters. */
  function Upper(s: string): (r: string)
    ensures |r| == |s|
    ensures forall i :: 0 <= i < |s| ==> r[i] == UpperChar(s[i])
  {
    seq(|s|, i requires 0 <= i < |s| => UpperChar(s[i]))
  }

  lemma UpperAppend(a: string, b: string)
    ensures Upper(a + b) == Upper(a) + Upper(b)
  {
  }

  /** The two notions of white space used by the code's trimming. */
  datatype Spaces = Py | Js

  predicate IsSpace(sp: Spaces, c: char)
  {
    if sp.Py? then PySpace(c) else JsSpace(c)
  }

  function TrimLeft(s: string, sp: Spaces): (r: string)
  {
    if s != [] && IsSpace(sp, s[0]) then TrimLeft(s[1..], sp) else s
  }

  function TrimRight(s: string, sp: Spaces): (r: string)
  {
    if s != [] && IsSpace(sp, s[|s| - 1]) then TrimRight(s[..|s| - 1], sp) else s
  }

  /** Removes leading and trailing white space of the kind `sp`. */
  function Trim(s: string, sp: Spaces): (r: string)
  {
    TrimRight(TrimLeft(s, sp), sp)
  }

  /** What stripping leaves is a suffix of the input that does not start with white space. */
  lemma {:induction false} TrimLeftFacts(s: string, sp: Spaces)
    ensures |TrimLeft(s, sp)| <= |s| && TrimLeft(s, sp) == s[|s| - |TrimLeft(s, sp)|..]
    ensures TrimLeft(s, sp) == [] || !IsSpace(sp, TrimLeft(s, sp)[0])
  {
    if s != [] && IsSpace(sp, s[0]) {
      TrimLeftFacts(s[1..], sp);
    }
  }

  /** ... and on the right, a prefix that does not end with white space. */
  lemma {:induction false} TrimRightFacts(s: string, sp: Spaces)
    ensures |TrimRight(s, sp)| <= |s| && TrimRight(s, sp) == s[..|TrimRight(s, sp)|]
    ensures TrimRight(s, sp) == [] || !IsSpace(sp, TrimRight(s, sp)[|TrimRight(s, sp)| - 1])
  {
    if s != [] && IsSpace(sp, s[|s| - 1]) {
      TrimRightFacts(s[..|s| - 1], sp);
    }
  }

  /** The stripped string is a slice of the input with no white space at either end. */
  lemma TrimFacts(s: string, sp: Spaces)
    ensures |Trim(s, sp)| <= |s|
    ensures Trim(s, sp) == [] || (!IsSpace(sp, Trim(s, sp)[0]) && !IsSpace(sp, Trim(s, sp)[|Trim(s, sp)| - 1]))
  {
    var l := TrimLeft(s, sp);
    TrimLeftFacts(s, sp);
    TrimRightFacts(l, sp);
    var r := TrimRight(l, sp);
    if r != [] {
      assert r[0] == l[0];
    }
  }

  predicate StartsWith(s: string, prefix: string)
  {
    |prefix| <= |s| && s[..|prefix|] == prefix
  }

  /** t occurs in s starting at position i. */
  predicate OccursAt(s: string, t: string, i: int)
  {
    0 <= i && i + |t| <= |s| && s[i..i + |t|] == t
  }

  /** `s.includes(t)` / `t in s`, computed by scanning. */
  function Contains(s: string, t: string): (r: bool)
    ensures r <==> exists i :: OccursAt(s, t, i)
  {
    if StartsWith(s, t) then
      assert OccursAt(s, t, 0);
      true
    else if s == [] then
      assert forall i :: !OccursAt(s, t, i);
      false
    else
      var r := Contains(s[1..], t);
      assert forall i :: OccursAt(s[1..], t, i) <==> OccursAt(s, t, i + 1) by {
        forall i ensures OccursAt(s[1..], t, i) <==> OccursAt(s, t, i + 1) {
          if 0 <= i && i + |t| <= |s[1..]| {
            assert s[1..][i..i + |t|] == s[i + 1..i + 1 + |t|];
          }
        }
      }
      assert !OccursAt(s, t, 0);
      assert (exists i :: OccursAt(s, t, i)) ==> r by {
        if exists i :: OccursAt(s, t, i) {
          var i :| OccursAt(s, t, i);
          assert OccursAt(s[1..], t, i - 1);
        }
      }
      r
  }

  /** JavaScript `s.split(sep)` for a one-character separator: the pieces
      between separators, so `n` separators give `n + 1` pieces. */
  function Split(s: string, sep: char): (r: seq<string>)
    ensures |r| >= 1
    ensures forall i :: 0 <= i < |r| ==> sep !in r[i]
  {
    if sep !in s then [s]
    else
      var k := IndexOf(s, sep);
      [s[..k]] + Split(s[k + 1..], sep)
  }

  /** Position of the first occurrence of c in s. */
  function IndexOf(s: string, c: char): (k: nat)
    requires c in s
    ensures k < |s| && s[k] == c && c !in s[..k]
  {
    if s[0] == c then 0 else
      assert c in s[1..] by { assert s == [s[0]] + s[1..]; }
      var k := IndexOf(s[1..], c);
      assert s[..k + 1] == [s[0]] + s[1..][..k];
      k + 1
  }

  /** The first occurrence of `c` in `a + [c] + b` is at `|a|` when `a` has none. */
  lemma IndexOfSplit(a: string, c: char, b: string)
    requires c !in a
    ensures c in a + [c] + b
    ensures IndexOf(a + [c] + b, c) == |a|
  {
    var s := a + [c] + b;
    assert s[|a|] == c;
    assert s[..|a|] == a;
    assert c in s[..|a| + 1];
  }

  lemma SplitJoin(s: string, sep: char)
    ensures Join(Split(s, sep), [sep]) == s
  {
    if sep in s {
      var k := IndexOf(s, sep);
      SplitJoin(s[k + 1..], sep);
      assert s == s[..k] + [sep] + s[k + 1..];
    }
  }

  /** Concatenation of pieces with `glue` in between. */
  function Join(pieces: seq<string>, glue: string): string
  {
    if pieces == [] then ""
    else if |pieces| == 1 then pieces[0]
    else pieces[0] + glue + Join(pieces[1..], glue)
  }

  /** Concatenation of pieces with nothing in between. */
  function Concat(pieces: seq<string>): string
  {
    if pieces == [] then "" else pieces[0] + Concat(pieces[1..])
  }

  lemma ConcatAppend(a: seq<string>, b: seq<string>)
    ensures Concat(a + b) == Concat(a) + Concat(b)
  {
    if a == [] {
      assert a + b == b;
    } else {
      assert (a + b)[1..] == a[1..] + b;
      ConcatAppend(a[1..], b);
    }
  }

  function DigitChar(d: nat): (c: char)
    requires d < 10
    ensures IsDigit(c)
  {
    ('0' as int + d) as char
  }

  /** Decimal rendering of a natural number without leading zeros. */
  function NatDigits(n: nat): (r: string)
    ensures |r| >= 1
    ensures forall i :: 0 <= i < |r| ==> IsDigit(r[i])
    ensures n < 10 ==> |r| == 1
    ensures 10 <= n < 100 ==> |r| == 2
  {
    if n < 10 then [DigitChar(n)] else NatDigits(n / 10) + [DigitChar(n % 10)]
  }

  /** `str(n)` in Python and `n.toString()` in JavaScript for an integer. */
  function Decimal(n: int): (r: string)
    ensures |r| >= 1
    ensures forall i :: 0 <= i < |r| ==> IsDigit(r[i]) || (i == 0 && r[i] == '-')
    ensures r[0] == '-' <==> n < 0
  {
    if n < 0 then "-" + NatDigits(-n) else NatDigits(n)
  }

  /** Two-digit, zero-padded rendering (`%m`, `%d`). */
  function Pad2(n: nat): (r: string)
    ensures n < 100 ==> |r| == 2
  {
    if n < 10 then "0" + NatDigits(n) else NatDigits(n)
  }

  /** The value of a non-empty string of decimal digits. */
  function DigitsValue(s: string): nat
    requires forall i :: 0 <= i < |s| ==> IsDigit(s[i])
  {
    if s == [] then 0
    else
      var c := s[|s| - 1];
      assert IsDigit(c);
      DigitsValue(s[..|s| - 1]) * 10 + (c as int - '0' as int)
  }

  /** Each line followed by a line feed: what a sequence of
      `write(line + '\n')` calls leaves in a buffer. */
  function Lines(ls: seq<string>): string
  {
    if ls == [] then "" else ls[0] + "\n" + Lines(ls[1..])
  }

  lemma {:induction false} LinesAppend(a: seq<string>, b: seq<string>)
    ensures Lines(a + b) == Lines(a) + Lines(b)
  {
    if a == [] {
      assert a + b == b;
    } else {
      assert (a + b)[1..] == a[1..] + b;
      LinesAppend(a[1..], b);
    }
  }

  /** Text made of lines without line feeds splits back into those lines,
      and the empty piece after the last line feed. */
  lemma {:induction false} SplitLines(ls: seq<string>)
    requires forall i :: 0 <= i < |ls| ==> '\n' !in ls[i]
    ensures Split(Lines(ls), '\n') == ls + [""]
  {
    if ls != [] {
      var head, tail := ls[0], ls[1..];
      assert forall i :: 0 <= i < |tail| ==> '\n' !in tail[i] by {
        forall i | 0 <= i < |tail| ensures '\n' !in tail[i] {
          assert tail[i] == ls[i + 1];
        }
      }
      SplitLines(tail);
      assert ls == [head] + tail;
      SplitLinesStep(head, tail);
    }
  }

  lemma SplitLinesStep(head: string, tail: seq<string>)
    requires '\n' !in head && Split(Lines(tail), '\n') == tail + [""]
    ensures Split(Lines([head] + tail), '\n') == [head] + tail + [""]
  {
    assert ([head] + tail)[1..] == tail;
    assert Lines([head] + tail) == head + ['\n'] + Lines(tail);
    SplitAt(head, '\n', Lines(tail));
  }

  /** Splitting at the first separator. */
  lemma SplitAt(a: string, sep: char, b: string)
    requires sep !in a
    ensures Split(a + [sep] + b, sep) == [a] + Split(b, sep)
  {
    var s := a + [sep] + b;
    IndexOfSplit(a, sep, b);
    assert s[..|a|] == a;
    assert s[|a| + 1..] == b;
  }

  function Pow10(n: nat): nat
  {
    if n == 0 then 1 else 10 * Pow10(n - 1)
  }

  lemma {:induction false} DigitsValueAppend(a: string, b: string)
    requires forall i :: 0 <= i < |a| ==> IsDigit(a[i])
    requires forall i :: 0 <= i < |b| ==> IsDigit(b[i])
    ensures DigitsValue(a + b) == DigitsValue(a) * Pow10(|b|) + DigitsValue(b)
  {
    if b == [] {
      assert a + b == a;
    } else {
      var init, c := b[..|b| - 1], b[|b| - 1];
      DigitsValueAppend(a, init);
      assert (a + b)[..|a + b| - 1] == a + init;
      var x, p, y, d := DigitsValue(a), Pow10(|init|), DigitsValue(init), c as int - '0' as int;
      assert DigitsValue(a + b) == DigitsValue(a + init) * 10 + d;
      assert DigitsValue(b) == y * 10 + d;
      assert Pow10(|b|) == 10 * p;
      ShiftDigit(x, p, y);
    }
  }

  lemma ShiftDigit(x: int, p: int, y: int)
    ensures (x * p + y) * 10 == x * (10 * p) + y * 10
  {
  }

  lemma FourDigits(n: nat)
    requires 1000 <= n <= 9999
    ensures |NatDigits(n)| == 4
  {
    assert 100 <= n / 10 <= 999;
    assert 10 <= n / 10 / 10 <= 99;
  }

  /** A two-digit field reads back as its value. */
  lemma Pad2RoundTrip(n: nat)
    requires n < 100
    ensures forall i :: 0 <= i < |Pad2(n)| ==> IsDigit(Pad2(n)[i])
    ensures DigitsValue(Pad2(n)) == n
  {
    DigitsRoundTrip(n);
    if n < 10 {
      DigitsValueAppend("0", NatDigits(n));
      assert DigitsValue("0") == 0 by {
        assert "0"[..0] == "";
      }
    }
  }

  /** Reading back a rendered natural number gives the number. */
  lemma {:induction false} DigitsRoundTrip(n: nat)
    ensures DigitsValue(NatDigits(n)) == n
  {
    if n >= 10 {
      DigitsRoundTrip(n / 10);
      var s := NatDigits(n);
      assert s[..|s| - 1] == NatDigits(n / 10);
    }
  }

  /** Distinct integers have distinct renderings, so a rendered id names one id. */
  lemma DecimalInjective(a: int, b: int)
    requires Decimal(a) == Decimal(b)
    ensures a == b
  {
    if a < 0 && b < 0 {
      assert NatDigits(-a) == Decimal(a)[1..];
      assert NatDigits(-b) == Decimal(b)[1..];
      NatDigitsInjective(-a, -b);
    } else if a >= 0 && b >= 0 {
      NatDigitsInjective(a, b);
    }
  }

  lemma NatDigitsInjective(a: nat, b: nat)
    requires NatDigits(a) == NatDigits(b)
    ensures a == b
  {
    DigitsRoundTrip(a);
    DigitsRoundTrip(b);
  }
}
