/**
 * The parts of Go's standard library that the configuration layer leans on:
 * `strconv.Atoi`, decimal formatting of an `int` (`%d`), `strings.Split` with
 * a one-character separator, `strings.ToLower` and `strings.TrimSpace`.
 */
module GoText {
  import opened Wrappers

  /** Go's `int` on a 64-bit platform. */
  const MinInt64: int := -0x8000_0000_0000_0000
  const MaxInt64: int := 0x7fff_ffff_ffff_ffff

  predicate IsInt64(n: int) { MinInt64 <= n <= MaxInt64 }

  predicate IsDigit(c: char) { '0' <= c <= '9' }

  predicate AllDigits(s: string) { forall i | 0 <= i < |s| :: IsDigit(s[i]) }

  function DigitValue(c: char): nat
    requires IsDigit(c)
  {
    (c as int) - ('0' as int)
  }

  function DigitChar(d: nat): char
    requires d < 10
  {
    (('0' as int) + d) as char
  }

  /** The value of a string of decimal digits, read left to right. */
  function DigitsValue(s: string): nat
    requires AllDigits(s)
    decreases |s|
  {
    if s == [] then 0 else DigitsValue(s[..|s| - 1]) * 10 + DigitValue(s[|s| - 1])
  }

  /**
   * strconv.Atoi: an optional '+' or '-', then at least one decimal digit,
   * nothing else (no blanks, no underscores); values outside Go's 64-bit
   * `int` are a range error.  Every error is `None`.
   */
  function Atoi(s: string): (r: Option<int>)
    ensures r.Some? ==> IsInt64(r.value)
    ensures r.Some? ==> s != [] && (IsDigit(s[0]) || s[0] == '+' || s[0] == '-')
  {
    var signed := |s| > 0 && (s[0] == '+' || s[0] == '-');
    var body := if signed then s[1..] else s;
    if body == [] || !AllDigits(body) then None
    else
      var v: int := if signed && s[0] == '-' then 0 - DigitsValue(body) as int else DigitsValue(body);
      if IsInt64(v) then Some(v) else None
  }

  /** The decimal digits of a natural number, most significant first. */
  function NatDigits(n: nat): (d: string)
    ensures |d| > 0 && AllDigits(d)
    decreases n
  {
    if n < 10 then [DigitChar(n)] else NatDigits(n / 10) + [DigitChar(n % 10)]
  }

  /** fmt's `%d`: a '-' for negatives, then the digits of the magnitude. */
  function Itoa(n: int): (s: string)
    ensures |s| > 0
    ensures s[0] == '-' <==> n < 0
  {
    if n < 0 then "-" + NatDigits(-n) else NatDigits(n)
  }

  /** After the sign, `%d` prints only digits. */
  lemma ItoaDigits(n: int)
    ensures n < 0 ==> AllDigits(Itoa(n)[1..])
    ensures n >= 0 ==> AllDigits(Itoa(n))
  {
    if n < 0 {
      assert Itoa(n)[1..] == NatDigits(-n);
    }
  }

  lemma {:induction false} NatDigitsValue(n: nat)
    ensures |NatDigits(n)| > 0 && AllDigits(NatDigits(n))
    ensures DigitsValue(NatDigits(n)) == n
    decreases n
  {
    var d := NatDigits(n);
    if n >= 10 {
      NatDigitsValue(n / 10);
      assert d[..|d| - 1] == NatDigits(n / 10);
    }
  }

  /** Formatting with `%d` and reading back with Atoi is the identity on Go ints. */
  lemma AtoiItoa(n: int)
    requires IsInt64(n)
    ensures Atoi(Itoa(n)) == Some(n)
  {
    if n < 0 {
      AtoiNegative(-n);
    } else {
      NatDigitsValue(n);
    }
  }

  lemma AtoiNegative(m: nat)
    requires 0 < m <= -MinInt64
    ensures Atoi("-" + NatDigits(m)) == Some(-(m as int))
  {
    NatDigitsValue(m);
    var s := "-" + NatDigits(m);
    assert s[0] == '-' && s[1..] == NatDigits(m);
  }

  /** `%d` never prints a character other than a digit or '-'. */
  lemma ItoaAvoids(n: int, c: char)
    requires !IsDigit(c) && c != '-'
    ensures c !in Itoa(n)
  {
    var s := Itoa(n);
    ItoaDigits(n);
    forall i | 0 <= i < |s| ensures s[i] != c {
      if n < 0 && i > 0 {
        assert s[1..][i - 1] == s[i];
      }
    }
  }

  /** The empty string is not a number. */
  lemma AtoiRejectsEmpty()
    ensures Atoi("") == None
  {
  }

  /**
   * strings.Split(s, string(sep)): the pieces between separators, in order.
   * The empty string gives [""], never an empty list.
   */
  function Split(s: string, sep: char): (parts: seq<string>)
    ensures |parts| >= 1
    decreases |s|
  {
    if s == [] then [[]]
    else
      var rest := Split(s[1..], sep);
      if s[0] == sep then [[]] + rest else [[s[0]] + rest[0]] + rest[1..]
  }

  /** strings.Join(parts, string(sep)). */
  function Join(parts: seq<string>, sep: char): string
    requires |parts| >= 1
    decreases |parts|
  {
    if |parts| == 1 then parts[0] else parts[0] + [sep] + Join(parts[1..], sep)
  }

  /** Joining the pieces gives back the input, and no piece holds the separator. */
  lemma {:induction false} JoinSplit(s: string, sep: char)
    ensures Join(Split(s, sep), sep) == s
    ensures forall k | 0 <= k < |Split(s, sep)| :: sep !in Split(s, sep)[k]
    decreases |s|
  {
    if s != [] {
      JoinSplit(s[1..], sep);
      var rest := Split(s[1..], sep);
      if s[0] == sep {
        assert Split(s, sep) == [[]] + rest;
        assert Split(s, sep)[1..] == rest;
      } else {
        var parts := Split(s, sep);
        assert parts == [[s[0]] + rest[0]] + rest[1..];
        if |rest| == 1 {
          assert parts == [[s[0]] + rest[0]];
        } else {
          assert parts[1..] == rest[1..];
          assert Join(rest, sep) == rest[0] + [sep] + Join(rest[1..], sep);
        }
        forall k | 0 <= k < |parts| ensures sep !in parts[k] {
          if k > 0 { assert parts[k] == rest[k]; }
        }
      }
    }
  }

  lemma {:induction false} SplitNoSep(x: string, sep: char)
    requires sep !in x
    ensures Split(x, sep) == [x]
    decreases |x|
  {
    if x != [] {
      SplitNoSep(x[1..], sep);
      assert [x[0]] + x[1..] == x;
    }
  }

  lemma {:induction false} SplitConcat(x: string, y: string, sep: char)
    requires sep !in x
    ensures Split(x + [sep] + y, sep) == [x] + Split(y, sep)
    decreases |x|
  {
    if x == [] {
      assert x + [sep] + y == [sep] + y;
      assert ([sep] + y)[1..] == y;
    } else {
      SplitConcat(x[1..], y, sep);
      assert (x + [sep] + y)[1..] == x[1..] + [sep] + y;
      assert [x[0]] + x[1..] == x;
    }
  }

  /** Two separators after separator-free text make at least three pieces. */
  lemma SplitHasThree(x: string, y: string, z: string, sep: char)
    requires sep !in x && sep !in y
    ensures |Split(x + [sep] + y + [sep] + z, sep)| >= 3
  {
    SplitConcat(x, y + [sep] + z, sep);
    SplitConcat(y, z, sep);
    assert x + [sep] + y + [sep] + z == x + [sep] + (y + [sep] + z);
  }

  /** Splitting a join of separator-free pieces gives the pieces back. */
  lemma {:induction false} SplitJoin(parts: seq<string>, sep: char)
    requires |parts| >= 1
    requires forall k | 0 <= k < |parts| :: sep !in parts[k]
    ensures Split(Join(parts, sep), sep) == parts
    decreases |parts|
  {
    if |parts| == 1 {
      SplitNoSep(parts[0], sep);
    } else {
      SplitJoin(parts[1..], sep);
      SplitConcat(parts[0], Join(parts[1..], sep), sep);
      assert [parts[0]] + parts[1..] == parts;
    }
  }

  /**
   * strings.ToLower, on ASCII letters: the flags it is compared with are all
   * ASCII, and no other letter lowers to an ASCII flag letter.
   */
  function LowerChar(c: char): char
  {
    if 'A' <= c <= 'Z' then ((c as int) + 32) as char else c
  }

  function Lower(s: string): string
    decreases |s|
  {
    if s == [] then [] else [LowerChar(s[0])] + Lower(s[1..])
  }

  /** unicode.IsSpace, the test strings.TrimSpace uses. */
  predicate IsSpace(c: char)
  {
    c == '\t' || c == '\n' || c == '\U{0B}' || c == '\U{0C}' || c == '\r' || c == ' '
    || c == '\U{85}' || c == '\U{A0}' || c == '\U{1680}'
    || ('\U{2000}' <= c <= '\U{200A}')
    || c == '\U{2028}' || c == '\U{2029}' || c == '\U{202F}' || c == '\U{205F}' || c == '\U{3000}'
  }

  function TrimLeft(s: string): string
    decreases |s|
  {
    if s != [] && IsSpace(s[0]) then TrimLeft(s[1..]) else s
  }

  function TrimRight(s: string): string
    decreases |s|
  {
    if s != [] && IsSpace(s[|s| - 1]) then TrimRight(s[..|s| - 1]) else s
  }

  /** strings.TrimSpace: leading and trailing white space removed. */
  function TrimSpace(s: string): string
  {
    TrimRight(TrimLeft(s))
  }

  /** TrimLeft keeps a suffix, after white space only, that does not start with white space. */
  lemma {:induction false} TrimLeftMeaning(s: string)
    ensures |TrimLeft(s)| <= |s| && TrimLeft(s) == s[|s| - |TrimLeft(s)|..]
    ensures forall i | 0 <= i < |s| - |TrimLeft(s)| :: IsSpace(s[i])
    ensures TrimLeft(s) == [] || !IsSpace(TrimLeft(s)[0])
    decreases |s|
  {
    if s != [] && IsSpace(s[0]) {
      TrimLeftMeaning(s[1..]);
    }
  }

  /** TrimRight keeps a prefix, before white space only, that does not end with white space. */
  lemma {:induction false} TrimRightMeaning(s: string)
    ensures |TrimRight(s)| <= |s| && TrimRight(s) == s[..|TrimRight(s)|]
    ensures forall i | |TrimRight(s)| <= i < |s| :: IsSpace(s[i])
    ensures TrimRight(s) == [] || !IsSpace(TrimRight(s)[|TrimRight(s)| - 1])
    decreases |s|
  {
    if s != [] && IsSpace(s[|s| - 1]) {
      TrimRightMeaning(s[..|s| - 1]);
    }
  }

  /** t occurs in s from index k on, with only white space before and after it. */
  predicate SpaceAround(s: string, k: int, t: string)
  {
    0 <= k <= |s| - |t| && t == s[k..k + |t|]
    && (forall i | 0 <= i < k :: IsSpace(s[i]))
    && (forall i | k + |t| <= i < |s| :: IsSpace(s[i]))
  }

  /**
   * TrimSpace removes white space at both ends and keeps the text between
   * as it is; text without white space is left alone.
   */
  lemma TrimSpaceMeaning(s: string)
    ensures TrimSpace(s) == [] || (!IsSpace(TrimSpace(s)[0]) && !IsSpace(TrimSpace(s)[|TrimSpace(s)| - 1]))
    ensures exists k :: SpaceAround(s, k, TrimSpace(s))
    ensures (forall i | 0 <= i < |s| :: !IsSpace(s[i])) ==> TrimSpace(s) == s
  {
    var u := TrimLeft(s);
    var t := TrimRight(u);
    TrimLeftMeaning(s);
    TrimRightMeaning(u);
    assert SpaceAround(s, |s| - |u|, t) by {
      forall i | |s| - |u| + |t| <= i < |s| ensures IsSpace(s[i]) {
        assert s[i] == u[i - (|s| - |u|)];
      }
    }
  }
}
