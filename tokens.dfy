/**
 * Text handling used by the distinct-integer handler: splitting a line into
 * whitespace-separated tokens (`str.split()` with no argument), recognising a
 * token that `int()` accepts, converting it, and printing an integer in
 * decimal (`f"{number}"`).
 */
module Tokens {

  /** The ASCII characters that `str.split()` treats as separators. */
  predicate IsSpace(c: char) {
    // space; tab, line feed, vertical tab, form feed, carriage return;
    // the file, group, record and unit separators
    c == ' ' || 9 <= c as int <= 13 || 28 <= c as int <= 31
  }

  predicate NoSpace(s: string) {
    forall i :: 0 <= i < |s| ==> !IsSpace(s[i])
  }

  /** Length of the run of non-separator characters at the front of `s`. */
  function WordLength(s: string): (k: nat)
    requires s != [] && !IsSpace(s[0])
    ensures 1 <= k <= |s|
    ensures NoSpace(s[..k])
    ensures k < |s| ==> IsSpace(s[k])
  {
    if |s| == 1 || IsSpace(s[1]) then 1 else 1 + WordLength(s[1..])
  }

  /** The maximal runs of non-separator characters of `s`, in order. */
  function Words(s: string): (ws: seq<string>)
    ensures forall i :: 0 <= i < |ws| ==> ws[i] != [] && NoSpace(ws[i])
    decreases |s|
  {
    if s == [] then []
    else if IsSpace(s[0]) then Words(s[1..])
    else
      var k := WordLength(s);
      [s[..k]] + Words(s[k..])
  }

  lemma {:induction false} WordLengthOfPrefix(w: string, rest: string)
    requires w != [] && NoSpace(w)
    requires rest == [] || IsSpace(rest[0])
    ensures WordLength(w + rest) == |w|
    decreases |w|
  {
    if |w| > 1 {
      assert (w + rest)[1..] == w[1..] + rest;
      WordLengthOfPrefix(w[1..], rest);
    }
  }

  /** Whitespace only (possibly empty). */
  predicate AllSpace(s: string) {
    forall i :: 0 <= i < |s| ==> IsSpace(s[i])
  }

  /** `gaps[0] + ws[0] + gaps[1] + ... + ws[|ws| - 1] + gaps[|ws|]`. */
  function Interleave(gaps: seq<string>, ws: seq<string>): string
    requires |gaps| == |ws| + 1
    decreases |ws|
  {
    if ws == [] then gaps[0] else gaps[0] + ws[0] + Interleave(gaps[1..], ws[1..])
  }

  /**
   * A layout of a line: non-empty, whitespace-free words with whitespace
   * gaps around them; the gaps between two words are non-empty, the ones
   * before the first and after the last word may be empty.
   */
  predicate Layout(gaps: seq<string>, ws: seq<string>) {
    && |gaps| == |ws| + 1
    && (forall i :: 0 <= i < |gaps| ==> AllSpace(gaps[i]))
    && (forall i :: 0 < i < |ws| ==> gaps[i] != [])
    && (forall i :: 0 <= i < |ws| ==> ws[i] != [] && NoSpace(ws[i]))
  }

  /** The whitespace runs of `s`: before its first word, between its words, after its last. */
  function Gaps(s: string): (gaps: seq<string>)
    ensures |gaps| == |Words(s)| + 1
    decreases |s|
  {
    if s == [] then [[]]
    else if IsSpace(s[0]) then
      var g := Gaps(s[1..]);
      [[s[0]] + g[0]] + g[1..]
    else
      [[]] + Gaps(s[WordLength(s)..])
  }

  lemma {:induction false} WordsSkipSpace(sp: string, rest: string)
    requires AllSpace(sp)
    ensures Words(sp + rest) == Words(rest)
    decreases |sp|
  {
    if sp != [] {
      var s := sp + rest;
      assert s[0] == sp[0] && IsSpace(s[0]);
      assert Words(s) == Words(s[1..]);
      assert s[1..] == sp[1..] + rest;
      WordsSkipSpace(sp[1..], rest);
    } else {
      assert sp + rest == rest;
    }
  }

  /**
   * Splitting loses and invents nothing: every string is its words laid out
   * with the whitespace runs between and around them.
   */
  lemma {:induction false} LayoutOfWords(s: string)
    ensures Layout(Gaps(s), Words(s))
    ensures Interleave(Gaps(s), Words(s)) == s
    decreases |s|
  {
    if s == [] {
    } else if IsSpace(s[0]) {
      var t := s[1..];
      LayoutOfWords(t);
      var g := Gaps(t);
      assert Words(s) == Words(t);
      assert Gaps(s) == [[s[0]] + g[0]] + g[1..];
      InterleaveSpaceFirst(s[0], g, Words(t));
      assert s == [s[0]] + t;
      LayoutSpaceFirst(s[0], g, Words(t));
    } else {
      var k := WordLength(s);
      var t := s[k..];
      LayoutOfWords(t);
      var g := Gaps(t);
      assert Words(s) == [s[..k]] + Words(t);
      assert Gaps(s) == [[]] + g;
      InterleaveWordFirst(s[..k], g, Words(t));
      assert s == s[..k] + t;
      assert t == [] || IsSpace(t[0]);
      if t != [] {
        assert g[0] == [t[0]] + Gaps(t[1..])[0];
      }
      LayoutWordFirst(s[..k], g, Words(t));
    }
  }

  lemma {:induction false} InterleaveSpaceFirst(c: char, g: seq<string>, ws: seq<string>)
    requires |g| == |ws| + 1
    ensures Interleave([[c] + g[0]] + g[1..], ws) == [c] + Interleave(g, ws)
  {
    var gs := [[c] + g[0]] + g[1..];
    assert gs[0] == [c] + g[0];
    assert gs[1..] == g[1..];
    if ws == [] {
      assert Interleave(gs, ws) == gs[0];
      assert Interleave(g, ws) == g[0];
    } else {
      var tail := Interleave(g[1..], ws[1..]);
      assert Interleave(gs, ws) == gs[0] + ws[0] + tail;
      assert Interleave(g, ws) == g[0] + ws[0] + tail;
      assert ([c] + g[0]) + ws[0] + tail == [c] + (g[0] + ws[0] + tail);
    }
  }

  lemma {:induction false} InterleaveWordFirst(w: string, g: seq<string>, ws: seq<string>)
    requires |g| == |ws| + 1
    ensures Interleave([[]] + g, [w] + ws) == w + Interleave(g, ws)
  {
    var gs := [[]] + g;
    var vs := [w] + ws;
    assert gs[0] == [] && vs[0] == w;
    assert gs[1..] == g && vs[1..] == ws;
    assert Interleave(gs, vs) == gs[0] + vs[0] + Interleave(g, ws);
    assert [] + w == w;
  }

  /** A leading separator joins the first gap. */
  lemma {:induction false} LayoutSpaceFirst(c: char, g: seq<string>, ws: seq<string>)
    requires IsSpace(c) && Layout(g, ws)
    ensures Layout([[c] + g[0]] + g[1..], ws)
  {
    var gs := [[c] + g[0]] + g[1..];
    forall i | 0 <= i < |gs| ensures AllSpace(gs[i]) {
      if i > 0 {
        assert gs[i] == g[i];
      }
    }
    forall i | 0 < i < |ws| ensures gs[i] != [] {
      assert gs[i] == g[i];
    }
  }

  /** A leading word gets an empty gap in front of it. */
  lemma {:induction false} LayoutWordFirst(w: string, g: seq<string>, ws: seq<string>)
    requires w != [] && NoSpace(w) && Layout(g, ws)
    requires ws != [] ==> g[0] != []
    ensures Layout([[]] + g, [w] + ws)
  {
    var gs := [[]] + g;
    var ws' := [w] + ws;
    forall i | 0 <= i < |gs| ensures AllSpace(gs[i]) {
      if i > 0 {
        assert gs[i] == g[i - 1];
      }
    }
    forall i | 0 < i < |ws'| ensures gs[i] != [] {
      assert gs[i] == g[i - 1];
    }
    forall i | 0 <= i < |ws'| ensures ws'[i] != [] && NoSpace(ws'[i]) {
      if i > 0 {
        assert ws'[i] == ws[i - 1];
      }
    }
  }

  /**
   * The converse: words laid out with whitespace gaps, of any length and any
   * separator characters, split back into exactly those words.
   */
  lemma {:induction false} WordsOfLayout(gaps: seq<string>, ws: seq<string>)
    requires Layout(gaps, ws)
    ensures Words(Interleave(gaps, ws)) == ws
    decreases |ws|
  {
    if ws == [] {
      WordsSkipSpace(gaps[0], []);
      assert gaps[0] + [] == gaps[0];
    } else {
      var tail := Interleave(gaps[1..], ws[1..]);
      assert Layout(gaps[1..], ws[1..]) by {
        forall i | 0 < i < |ws| - 1 ensures gaps[1..][i] != [] {
          assert gaps[1..][i] == gaps[i + 1];
        }
      }
      assert Interleave(gaps, ws) == gaps[0] + (ws[0] + tail);
      WordsSkipSpace(gaps[0], ws[0] + tail);
      assert tail == [] || IsSpace(tail[0]) by {
        if ws[1..] == [] {
          assert tail == gaps[1];
        } else {
          assert tail == gaps[1] + ws[1] + Interleave(gaps[2..], ws[2..]) by {
            assert gaps[1..][1..] == gaps[2..];
          }
          assert gaps[1] != [];
        }
      }
      WordLengthOfPrefix(ws[0], tail);
      var s := ws[0] + tail;
      assert s[..|ws[0]|] == ws[0];
      assert s[|ws[0]|..] == tail;
      WordsOfLayout(gaps[1..], ws[1..]);
    }
  }

  /** A token followed by a line break splits into just that token. */
  lemma WordsOfTerminatedWord(w: string)
    requires w != [] && NoSpace(w)
    ensures Words(w + "\n") == [w]
  {
    WordLengthOfPrefix(w, "\n");
    var s := w + "\n";
    assert s[..|w|] == w;
    assert s[|w|..] == "\n";
    assert Words("\n") == Words([]);
  }

  predicate IsDigit(c: char) {
    '0' <= c <= '9'
  }

  predicate AllDigits(s: string) {
    forall i :: 0 <= i < |s| ==> IsDigit(s[i])
  }

  /**
   * The tokens `int()` accepts, restricted to ASCII: an optional `+` or `-`
   * followed by at least one decimal digit. Such a token is a single word.
   */
  predicate IsInteger(t: string)
    ensures IsInteger(t) ==> t != [] && NoSpace(t)
  {
    if t != [] && (t[0] == '+' || t[0] == '-') then t[1..] != [] && AllDigits(t[1..])
    else t != [] && AllDigits(t)
  }

  function DigitValue(c: char): (d: nat)
    requires IsDigit(c)
    ensures d < 10
  {
    c as int - '0' as int
  }

  function DigitChar(d: nat): (c: char)
    requires d < 10
    ensures IsDigit(c) && DigitValue(c) == d
  {
    ('0' as int + d) as char
  }

  /** The value of a string of decimal digits, most significant first. */
  function DigitsValue(s: string): (n: nat)
    requires AllDigits(s)
  {
    if s == [] then 0 else 10 * DigitsValue(s[..|s| - 1]) + DigitValue(s[|s| - 1])
  }

  /** `int(t)` for a token `IsInteger` accepts: the sign decides the sign of the value. */
  function ParseInt(t: string): (n: int)
    requires IsInteger(t)
    ensures t[0] == '-' ==> n <= 0
    ensures t[0] != '-' ==> n >= 0
  {
    if t[0] == '-' then -(DigitsValue(t[1..]) as int)
    else if t[0] == '+' then DigitsValue(t[1..])
    else DigitsValue(t)
  }

  /** Decimal digits with no leading zero, except for `0` itself. */
  predicate CanonicalDigits(d: string) {
    d != [] && AllDigits(d) && (d[0] == '0' ==> |d| == 1)
  }

  /** How `str()` prints an integer: no `+`, no `-0`, no leading zeros. */
  predicate Canonical(t: string) {
    || (t != [] && t[0] == '-' && CanonicalDigits(t[1..]) && t[1] != '0')
    || CanonicalDigits(t)
  }

  /** Decimal digits of a natural number, without leading zeros. */
  function NatToString(n: nat): (s: string)
    ensures CanonicalDigits(s)
    ensures s[0] == '0' <==> n == 0
  {
    if n < 10 then [DigitChar(n)] else NatToString(n / 10) + [DigitChar(n % 10)]
  }

  /** `str(n)`: a leading `-` for negative numbers, then the decimal digits. */
  function IntToString(n: int): (s: string)
    ensures Canonical(s)
    ensures s[0] == '-' <==> n < 0
  {
    if n < 0 then "-" + NatToString(-n) else NatToString(n)
  }

  lemma {:induction false} NatToStringValue(n: nat)
    ensures DigitsValue(NatToString(n)) == n
  {
    if n >= 10 {
      var s := NatToString(n);
      assert s[..|s| - 1] == NatToString(n / 10);
      NatToStringValue(n / 10);
    }
  }

  /** Printing an integer and reading it back with `int()` gives it back. */
  lemma IntToStringRoundTrip(n: int)
    ensures IsInteger(IntToString(n))
    ensures ParseInt(IntToString(n)) == n
  {
    if n < 0 {
      var s := IntToString(n);
      assert s[1..] == NatToString(-n);
      NatToStringValue(-n);
    } else {
      NatToStringValue(n);
    }
  }

  /** Digits that do not start with `0` have a positive value. */
  lemma {:induction false} DigitsPositive(d: string)
    requires d != [] && AllDigits(d) && d[0] != '0'
    ensures DigitsValue(d) > 0
    decreases |d|
  {
    if |d| > 1 {
      DigitsPositive(d[..|d| - 1]);
    }
  }

  /** Canonical digits are exactly what `NatToString` prints for their value. */
  lemma {:induction false} CanonicalDigitsRoundTrip(d: string)
    requires CanonicalDigits(d)
    ensures NatToString(DigitsValue(d)) == d
    decreases |d|
  {
    var last := d[|d| - 1];
    if |d| == 1 {
      assert DigitChar(DigitValue(last)) == last;
    } else {
      var init := d[..|d| - 1];
      assert init[0] == d[0] != '0';
      CanonicalDigitsRoundTrip(init);
      DigitsPositive(init);
      var n := DigitsValue(d);
      assert n == 10 * DigitsValue(init) + DigitValue(last);
      assert n / 10 == DigitsValue(init) && n % 10 == DigitValue(last);
      assert DigitChar(DigitValue(last)) == last;
      assert d == init + [last];
    }
  }

  /**
   * The other direction: a token in the form `str()` prints is exactly the
   * text of its own value.
   */
  lemma CanonicalRoundTrip(t: string)
    requires Canonical(t)
    ensures IsInteger(t)
    ensures IntToString(ParseInt(t)) == t
  {
    if t[0] == '-' {
      DigitsPositive(t[1..]);
      CanonicalDigitsRoundTrip(t[1..]);
      assert t == "-" + t[1..];
    } else {
      CanonicalDigitsRoundTrip(t);
    }
  }
}
