/**
 * The JavaScript string built-ins the core relies on, over `seq<char>`:
 * ASCII `toLowerCase`, `trim`, `split(/\s+/)`, `includes`, `split`/`join`
 * on one separator character, `parseInt(_, 10)`, `toString` and `padStart`.
 */
module Strings {
  import opened Wrappers

  // ---------------------------------------------------------------------
  // Whitespace, case, trimming and keyword splitting
  // ---------------------------------------------------------------------

  /** ASCII white space: space, tab, line feed, vertical tab, form feed, carriage return. */
  predicate IsSpace(c: char)
  {
    c == ' ' || c == '\t' || c == '\n' || c == '\U{B}' || c == '\U{C}' || c == '\r'
  }

  predicate IsUpper(c: char)
  {
    'A' <= c <= 'Z'
  }

  function LowerChar(c: char): (r: char)
    ensures !IsUpper(r)
    ensures !IsUpper(c) ==> r == c
    ensures IsSpace(r) <==> IsSpace(c)
  {
    if IsUpper(c) then (c as int + 32) as char else c
  }

  /** `toLowerCase`, restricted to the ASCII letters. */
  function Lower(s: string): (r: string)
    ensures |r| == |s|
    ensures forall i :: 0 <= i < |r| ==> !IsUpper(r[i])
  {
    seq(|s|, i requires 0 <= i < |s| => LowerChar(s[i]))
  }

  function TrimStart(s: string): (r: string)
    ensures r == [] || !IsSpace(r[0])
    ensures |r| <= |s| && r == s[|s| - |r|..]
    ensures forall i :: 0 <= i < |s| - |r| ==> IsSpace(s[i])
  {
    if s != [] && IsSpace(s[0]) then TrimStart(s[1..]) else s
  }

  function TrimEnd(s: string): (r: string)
    ensures r == [] || !IsSpace(r[|r| - 1])
    ensures |r| <= |s| && r == s[..|r|]
    ensures forall i :: |r| <= i < |s| ==> IsSpace(s[i])
  {
    if s != [] && IsSpace(s[|s| - 1]) then TrimEnd(s[..|s| - 1]) else s
  }

  /**
   * `trim`: drops the white space at both ends. The result is empty exactly
   * when the input is white space only; otherwise it starts and ends with a
   * character that is not white space.
   */
  function Trim(s: string): (r: string)
    ensures r == [] <==> forall i :: 0 <= i < |s| ==> IsSpace(s[i])
    ensures r != [] ==> !IsSpace(r[0]) && !IsSpace(r[|r| - 1])
  {
    var t := TrimStart(s);
    var r := TrimEnd(t);
    assert r == [] ==> t == [];
    assert r != [] ==> r[0] == t[0];
    r
  }

  /**
   * `trim` removes only white space, and only at the ends: its result is a
   * slice of the input and everything outside that slice is white space.
   */
  lemma TrimIsSlice(s: string)
    ensures exists i, j :: 0 <= i <= j <= |s| && Trim(s) == s[i..j] && TrimmedOff(s, i, j)
  {
    var i := TrimSlice(s);
    var j := i + |Trim(s)|;
    assert Trim(s) == s[i..j] && TrimmedOff(s, i, j);
  }

  lemma TrimSlice(s: string) returns (i: nat)
    ensures i + |Trim(s)| <= |s| && Trim(s) == s[i..i + |Trim(s)|] && TrimmedOff(s, i, i + |Trim(s)|)
  {
    var t := TrimStart(s);
    var r := TrimEnd(t);
    assert Trim(s) == r;
    i := |s| - |t|;
    assert r == s[i..][..|r|];
    PrefixOfSuffix(s, i, |r|);
    forall k | 0 <= k < |s| && (k < i || i + |r| <= k)
      ensures IsSpace(s[k])
    {
      if k >= i + |r| {
        assert s[k] == t[k - i];
      }
    }
  }

  lemma PrefixOfSuffix(s: string, i: nat, n: nat)
    requires i + n <= |s|
    ensures s[i..][..n] == s[i..i + n]
  {
  }

  /** Everything of `s` outside `s[i..j]` is white space. */
  predicate TrimmedOff(s: string, i: nat, j: nat)
    requires i <= j <= |s|
  {
    forall k :: 0 <= k < |s| && (k < i || j <= k) ==> IsSpace(s[k])
  }

  /**
   * `split(/\s+/).filter(k => k.length > 0)`: the maximal runs of characters
   * that are not white space, in order.
   */
  function Words(s: string): (ws: seq<string>)
    ensures forall w :: w in ws ==> w != [] && forall i :: 0 <= i < |w| ==> !IsSpace(w[i])
    ensures s != [] && !IsSpace(s[|s| - 1]) ==> ws != []
  {
    if s == [] then []
    else
      var init := s[..|s| - 1];
      var c := s[|s| - 1];
      var ws := Words(init);
      if IsSpace(c) then ws
      else if init == [] || IsSpace(init[|init| - 1]) then ws + [[c]]
      else
        var last := ws[|ws| - 1] + [c];
        assert forall w :: w in ws[..|ws| - 1] ==> w in ws;
        assert forall i :: 0 <= i < |last| ==> !IsSpace(last[i]);
        ws[..|ws| - 1] + [last]
  }

  /** A non-empty run without white space is one word. */
  lemma {:induction false} WordsOfWord(w: string)
    requires w != [] && forall i :: 0 <= i < |w| ==> !IsSpace(w[i])
    ensures Words(w) == [w]
  {
    var init, c := w[..|w| - 1], w[|w| - 1];
    assert init + [c] == w;
    WordsLastStep(init, c);
    if init != [] {
      WordsOfWord(init);
    } else {
      assert Words(init) == [];
    }
  }

  /** A word after a space is one more word. */
  lemma {:induction false} WordsAfterSpace(a: string, b: string)
    requires b != [] && forall i :: 0 <= i < |b| ==> !IsSpace(b[i])
    ensures Words(a + [' '] + b) == Words(a) + [b]
  {
    var init, c := b[..|b| - 1], b[|b| - 1];
    assert init + [c] == b;
    if init == [] {
      WordsLastStep(a + [' '], c);
      WordsLastStep(a, ' ');
    } else {
      WordsAfterSpace(a, init);
      var pre := a + [' '] + init;
      assert pre + [c] == a + [' '] + b;
      WordsLastStep(pre, c);
    }
  }

  /**
   * Words on either side of a white-space character are separate: the
   * words of the whole are the words before it followed by the words after
   * it. With `WordsOfWord` this fixes `Words` on every string.
   */
  lemma {:induction false} WordsSplit(a: string, c: char, b: string)
    requires IsSpace(c)
    ensures Words(a + [c] + b) == Words(a) + Words(b)
  {
    if b == [] {
      assert a + [c] + b == a + [c];
      WordsStepSpace(a, c);
    } else {
      var init, d := b[..|b| - 1], b[|b| - 1];
      assert init + [d] == b;
      WordsSplit(a, c, init);
      WordsSplitStep(a, c, init, d);
    }
  }

  /** One step of `WordsSplit`: the split survives appending a character. */
  lemma WordsSplitStep(a: string, c: char, init: string, d: char)
    requires IsSpace(c)
    requires Words(a + [c] + init) == Words(a) + Words(init)
    ensures Words(a + [c] + (init + [d])) == Words(a) + Words(init + [d])
  {
    var pre := a + [c] + init;
    assert pre + [d] == a + [c] + (init + [d]);
    assert pre[|pre| - 1] == if init == [] then c else init[|init| - 1];
    if IsSpace(d) {
      WordsStepSpace(pre, d);
      WordsStepSpace(init, d);
    } else if init == [] || IsSpace(init[|init| - 1]) {
      NewWordAfterSplit(a, c, init, d);
    } else {
      GrownWordAfterSplit(a, c, init, d);
    }
  }

  lemma NewWordAfterSplit(a: string, c: char, init: string, d: char)
    requires IsSpace(c) && !IsSpace(d) && (init == [] || IsSpace(init[|init| - 1]))
    requires Words(a + [c] + init) == Words(a) + Words(init)
    ensures Words(a + [c] + init + [d]) == Words(a) + Words(init + [d])
  {
    var pre := a + [c] + init;
    assert pre[|pre| - 1] == if init == [] then c else init[|init| - 1];
    WordsStepNew(pre, d);
    WordsStepNew(init, d);
  }

  lemma GrownWordAfterSplit(a: string, c: char, init: string, d: char)
    requires IsSpace(c) && !IsSpace(d) && init != [] && !IsSpace(init[|init| - 1])
    requires Words(a + [c] + init) == Words(a) + Words(init)
    ensures Words(a + [c] + init + [d]) == Words(a) + Words(init + [d])
  {
    var pre := a + [c] + init;
    var ws, vs := Words(a), Words(init);
    assert Words(pre + [d]) == (ws + vs)[..|ws + vs| - 1] + [(ws + vs)[|ws + vs| - 1] + [d]] by {
      assert pre[|pre| - 1] == init[|init| - 1];
      WordsStepExtend(pre, d);
    }
    assert Words(init + [d]) == vs[..|vs| - 1] + [vs[|vs| - 1] + [d]] by {
      WordsStepExtend(init, d);
    }
    ExtendLastOfAppend(ws, vs, d);
  }

  /** White space at the end adds no word. */
  lemma WordsStepSpace(init: string, d: char)
    requires IsSpace(d)
    ensures Words(init + [d]) == Words(init)
  {
    WordsLastStep(init, d);
  }

  /** A character after white space (or at the start) begins a new word. */
  lemma WordsStepNew(init: string, d: char)
    requires !IsSpace(d) && (init == [] || IsSpace(init[|init| - 1]))
    ensures Words(init + [d]) == Words(init) + [[d]]
  {
    WordsLastStep(init, d);
  }

  /** A character after a word character grows the last word. */
  lemma WordsStepExtend(init: string, d: char)
    requires !IsSpace(d) && init != [] && !IsSpace(init[|init| - 1])
    ensures var ws := Words(init);
      ws != [] && Words(init + [d]) == ws[..|ws| - 1] + [ws[|ws| - 1] + [d]]
  {
    WordsLastStep(init, d);
  }

  /** Growing the last word of a concatenation grows the last word of its second half. */
  lemma ExtendLastOfAppend(u: seq<string>, v: seq<string>, x: char)
    requires v != []
    ensures var w := u + v;
      w[..|w| - 1] + [w[|w| - 1] + [x]] == u + (v[..|v| - 1] + [v[|v| - 1] + [x]])
  {
    var w := u + v;
    assert w[..|w| - 1] == u + v[..|v| - 1];
  }

  /** One unfolding of `Words` at the last character. */
  lemma WordsLastStep(init: string, c: char)
    ensures var ws := Words(init);
      Words(init + [c]) ==
        if IsSpace(c) then ws
        else if init == [] || IsSpace(init[|init| - 1]) then ws + [[c]]
        else ws[..|ws| - 1] + [ws[|ws| - 1] + [c]]
  {
    assert (init + [c])[..|init|] == init;
  }

  /** `text.includes(sub)`: `sub` occurs in `text` as a contiguous block. */
  predicate Contains(text: string, sub: string)
  {
    exists i :: 0 <= i <= |text| - |sub| && OccursAt(text, sub, i)
  }

  predicate OccursAt(text: string, sub: string, i: nat)
    requires i + |sub| <= |text|
  {
    text[i..i + |sub|] == sub
  }

  // ---------------------------------------------------------------------
  // Splitting on and joining with one separator character
  // ---------------------------------------------------------------------

  /**
   * `s.split(sep)`: the pieces between separators. There is always at
   * least one piece (`"".split(",")` is `[""]`) and no piece holds `sep`.
   */
  function Split(s: string, sep: char): (parts: seq<string>)
    ensures |parts| >= 1
    ensures forall p :: p in parts ==> sep !in p
  {
    if s == [] then [""]
    else
      var init := Split(s[..|s| - 1], sep);
      var c := s[|s| - 1];
      if c == sep then init + [""]
      else init[..|init| - 1] + [init[|init| - 1] + [c]]
  }

  /** `parts.join(sep)`. */
  function Join(parts: seq<string>, sep: char): string
  {
    if parts == [] then ""
    else if |parts| == 1 then parts[0]
    else Join(parts[..|parts| - 1], sep) + [sep] + parts[|parts| - 1]
  }

  lemma {:induction false} SplitWithoutSeparator(s: string, sep: char)
    requires sep !in s
    ensures Split(s, sep) == [s]
  {
    if s != [] {
      SplitWithoutSeparator(s[..|s| - 1], sep);
      assert s[..|s| - 1] + [s[|s| - 1]] == s;
    }
  }

  lemma {:induction false} SplitAfterSeparator(a: string, b: string, sep: char)
    requires sep !in b
    ensures Split(a + [sep] + b, sep) == Split(a, sep) + [b]
  {
    var s := a + [sep] + b;
    if b == [] {
      assert s[..|s| - 1] == a;
    } else {
      var b' := b[..|b| - 1];
      assert s[..|s| - 1] == a + [sep] + b';
      SplitAfterSeparator(a, b', sep);
      assert b' + [b[|b| - 1]] == b;
    }
  }

  /** Splitting a join gives the parts back when no part holds the separator. */
  lemma {:induction false} SplitJoin(parts: seq<string>, sep: char)
    requires |parts| >= 1
    requires forall p :: p in parts ==> sep !in p
    ensures Split(Join(parts, sep), sep) == parts
  {
    if |parts| == 1 {
      SplitWithoutSeparator(parts[0], sep);
    } else {
      var init := parts[..|parts| - 1];
      SplitJoin(init, sep);
      SplitAfterSeparator(Join(init, sep), parts[|parts| - 1], sep);
      assert init + [parts[|parts| - 1]] == parts;
    }
  }

  lemma {:induction false} JoinExtendLast(parts: seq<string>, x: string, sep: char)
    requires |parts| >= 1
    ensures Join(parts[..|parts| - 1] + [parts[|parts| - 1] + x], sep) == Join(parts, sep) + x
  {
    var q := parts[..|parts| - 1] + [parts[|parts| - 1] + x];
    if |parts| > 1 {
      assert q[..|q| - 1] == parts[..|parts| - 1];
    }
  }

  /** Joining the pieces of a split gives back the original string. */
  lemma {:induction false} JoinSplit(s: string, sep: char)
    ensures Join(Split(s, sep), sep) == s
  {
    if s != [] {
      var init := s[..|s| - 1];
      var c := s[|s| - 1];
      var p := Split(init, sep);
      JoinSplit(init, sep);
      assert init + [c] == s;
      if c == sep {
        var q := p + [""];
        assert q[..|q| - 1] == p;
      } else {
        JoinExtendLast(p, [c], sep);
      }
    }
  }

  // ---------------------------------------------------------------------
  // Decimal digits: parseInt, toString, padStart
  // ---------------------------------------------------------------------

  predicate IsDigit(c: char)
  {
    '0' <= c <= '9'
  }

  predicate AllDigits(s: string)
  {
    forall i :: 0 <= i < |s| ==> IsDigit(s[i])
  }

  function Pow10(k: nat): (p: nat)
    ensures p >= 1
  {
    if k == 0 then 1 else 10 * Pow10(k - 1)
  }

  /** The number a string of decimal digits denotes. */
  function DigitsValue(s: string): (v: nat)
    requires AllDigits(s)
    ensures v < Pow10(|s|)
  {
    if s == [] then 0
    else DigitsValue(s[..|s| - 1]) * 10 + (s[|s| - 1] as int - '0' as int)
  }

  function DigitChar(d: nat): (c: char)
    requires d < 10
    ensures IsDigit(c)
  {
    ('0' as int + d) as char
  }

  /** `n.toString()` for a non-negative integer: its shortest decimal spelling. */
  function NatToString(n: nat): (s: string)
    ensures s != [] && AllDigits(s)
  {
    if n < 10 then [DigitChar(n)] else NatToString(n / 10) + [DigitChar(n % 10)]
  }

  /** `n.toString()` for any integer. */
  function IntToString(n: int): string
  {
    if n < 0 then "-" + NatToString(-n) else NatToString(n)
  }

  /** `s.padStart(width, c)`. */
  function PadStart(s: string, width: nat, c: char): (r: string)
    ensures |r| == if |s| >= width then |s| else width
    ensures r[|r| - |s|..] == s
    ensures forall i :: 0 <= i < |r| - |s| ==> r[i] == c
  {
    if |s| >= width then s else seq(width - |s|, _ => c) + s
  }

  /** The longest prefix of `s` made of decimal digits. */
  function DigitPrefix(s: string): (d: string)
    ensures AllDigits(d) && |d| <= |s| && d == s[..|d|]
    ensures |d| < |s| ==> !IsDigit(s[|d|])
  {
    if s != [] && IsDigit(s[0]) then [s[0]] + DigitPrefix(s[1..]) else []
  }

  /**
   * `parseInt(s, 10)`: skip leading white space, read an optional sign and
   * the longest run of digits after it; `None` (the model's `NaN`) when that
   * run is empty. Whatever follows the digits is ignored.
   */
  function ParseInt(s: string): (r: Option<int>)
  {
    var t := TrimStart(s);
    var negative := t != [] && t[0] == '-';
    var body := if t != [] && (t[0] == '-' || t[0] == '+') then t[1..] else t;
    var digits := DigitPrefix(body);
    var magnitude: int := if digits == [] then 0 else DigitsValue(digits);
    if digits == [] then None
    else if negative then Some(-magnitude)
    else Some(magnitude)
  }

  /** A number read from a string without a minus sign is never negative. */
  lemma ParseIntNonNegative(s: string)
    requires '-' !in s
    ensures ParseInt(s).Some? ==> ParseInt(s).value >= 0
  {
    var t := TrimStart(s);
    if t != [] {
      assert t[0] in s;
    }
  }

  /** A non-empty run of digits parses to the number it denotes. */
  lemma {:induction false} ParseIntOfDigits(s: string)
    requires s != [] && AllDigits(s)
    ensures ParseInt(s) == Some(DigitsValue(s))
  {
    assert TrimStart(s) == s;
    DigitPrefixOfDigits(s);
  }

  /**
   * `parseInt` reads the leading run of digits and ignores whatever follows
   * it, as `normalizeDate` relies on for a part like `"12abc"`.
   */
  lemma ParseIntIgnoresTail(digits: string, rest: string)
    requires digits != [] && AllDigits(digits)
    requires rest == [] || !IsDigit(rest[0])
    ensures ParseInt(digits + rest) == Some(DigitsValue(digits))
  {
    var s := digits + rest;
    assert !IsSpace(s[0]) && s[0] != '-' && s[0] != '+' by {
      assert s[0] == digits[0];
    }
    assert TrimStart(s) == s;
    DigitPrefixThen(digits, rest);
  }

  lemma {:induction false} DigitPrefixThen(digits: string, rest: string)
    requires AllDigits(digits)
    requires rest == [] || !IsDigit(rest[0])
    ensures DigitPrefix(digits + rest) == digits
  {
    if digits != [] {
      assert (digits + rest)[1..] == digits[1..] + rest;
      DigitPrefixThen(digits[1..], rest);
    } else {
      assert digits + rest == rest;
    }
  }

  lemma {:induction false} DigitPrefixOfDigits(s: string)
    requires AllDigits(s)
    ensures DigitPrefix(s) == s
  {
    if s != [] {
      DigitPrefixOfDigits(s[1..]);
    }
  }

  /** `toString` and `parseInt` are inverse on the non-negative integers. */
  lemma {:induction false} DigitsValueOfNatToString(n: nat)
    ensures DigitsValue(NatToString(n)) == n
  {
    if n >= 10 {
      DigitsValueOfNatToString(n / 10);
      var s := NatToString(n);
      assert s[..|s| - 1] == NatToString(n / 10);
    }
  }

  /** Leading zeros do not change the value of a string of digits. */
  lemma {:induction false} DigitsValueLeadingZeros(z: string, t: string)
    requires forall i :: 0 <= i < |z| ==> z[i] == '0'
    requires AllDigits(t)
    ensures AllDigits(z + t) && DigitsValue(z + t) == DigitsValue(t)
  {
    var s := z + t;
    assert AllDigits(s);
    if t == [] {
      if z != [] {
        DigitsValueLeadingZeros(z[..|z| - 1], []);
        assert s[..|s| - 1] == z[..|z| - 1] + [];
      }
    } else {
      DigitsValueLeadingZeros(z, t[..|t| - 1]);
      assert s[..|s| - 1] == z + t[..|t| - 1];
    }
  }

  /** A zero-padded spelling of `n` parses back to `n`. */
  lemma ParseIntOfPadded(n: nat, width: nat)
    ensures AllDigits(PadStart(NatToString(n), width, '0'))
    ensures ParseInt(PadStart(NatToString(n), width, '0')) == Some(n)
  {
    var s := NatToString(n);
    var p := PadStart(s, width, '0');
    var z := p[..|p| - |s|];
    assert p == z + s;
    DigitsValueLeadingZeros(z, s);
    DigitsValueOfNatToString(n);
    ParseIntOfDigits(p);
  }

  /** The spelling of `n` has at most `w` digits exactly when `n < 10^w`. */
  lemma {:induction false} NatToStringLength(n: nat, w: nat)
    requires w >= 1
    ensures |NatToString(n)| <= w <==> n < Pow10(w)
  {
    if n >= 10 {
      if w == 1 {
        NatToStringLengthAtLeast2(n);
      } else {
        NatToStringLength(n / 10, w - 1);
      }
    }
  }

  lemma NatToStringLengthAtLeast2(n: nat)
    requires n >= 10
    ensures |NatToString(n)| >= 2
  {
  }
}
