/**
 * The Python string built-ins the classifier relies on, written out so that
 * their edge cases are explicit: `str.isspace`, `strip`, `upper`, `startswith`,
 * the `in` substring test, `split(",")`, `split()`, `str(int)` and `zfill`.
 */
module PyText {

  // ---------------------------------------------------------------------------
  // Whitespace, strip
  // ---------------------------------------------------------------------------

  /** Python's `str.isspace` for a single character (the full Unicode list). */
  predicate IsSpace(c: char) {
    ('\t' <= c <= '\r') || ('\U{1C}' <= c <= '\U{1F}') || c == ' '
    || c == '\U{85}' || c == '\U{A0}' || c == '\U{1680}'
    || ('\U{2000}' <= c <= '\U{200A}') || c == '\U{2028}' || c == '\U{2029}'
    || c == '\U{202F}' || c == '\U{205F}' || c == '\U{3000}'
  }

  predicate AllSpace(s: string) {
    forall i :: 0 <= i < |s| ==> IsSpace(s[i])
  }

  predicate NoSpace(s: string) {
    forall i :: 0 <= i < |s| ==> !IsSpace(s[i])
  }

  /** No whitespace at either end. */
  predicate Trimmed(s: string) {
    s == [] || (!IsSpace(s[0]) && !IsSpace(s[|s| - 1]))
  }

  /** `s.lstrip()`: drops the leading whitespace and nothing else. */
  function StripLeft(s: string): (r: string)
    ensures |r| <= |s| && r == s[|s| - |r|..]
    ensures r == [] || !IsSpace(r[0])
    ensures forall i :: 0 <= i < |s| - |r| ==> IsSpace(s[i])
  {
    if |s| > 0 && IsSpace(s[0]) then StripLeft(s[1..]) else s
  }

  /** `s.rstrip()`: drops the trailing whitespace and nothing else. */
  function StripRight(s: string): (r: string)
    ensures |r| <= |s| && r == s[..|r|]
    ensures r == [] || !IsSpace(r[|r| - 1])
    ensures forall i :: |r| <= i < |s| ==> IsSpace(s[i])
  {
    if |s| > 0 && IsSpace(s[|s| - 1]) then StripRight(s[..|s| - 1]) else s
  }

  /** `s.strip()`. */
  function Strip(s: string): (r: string)
    ensures |r| <= |s|
    ensures Trimmed(r)
    ensures r == [] <==> AllSpace(s)
    ensures exists i :: Surrounded(s, r, i)
  {
    var l := StripLeft(s);
    var r := StripRight(l);
    assert r != [] ==> r[0] == l[0];
    assert l == [] ==> AllSpace(s);
    assert l != [] ==> s[|s| - |l|] == l[0];
    StripParts(s, l, r);
    r
  }

  /** `s` is `r` with whitespace alone before position `i` and after `r`. */
  predicate Surrounded(s: string, r: string, i: int) {
    0 <= i <= |s| - |r| && r == s[i..i + |r|] && AllSpace(s[..i]) && AllSpace(s[i + |r|..])
  }

  /** Leading whitespace cut from `s` leaves `l`, trailing whitespace cut from `l` leaves `r`:
      then `r` sits in `s` between whitespace alone. */
  lemma StripParts(s: string, l: string, r: string)
    requires |l| <= |s| && l == s[|s| - |l|..] && forall j :: 0 <= j < |s| - |l| ==> IsSpace(s[j])
    requires |r| <= |l| && r == l[..|r|] && forall j :: |r| <= j < |l| ==> IsSpace(l[j])
    ensures Surrounded(s, r, |s| - |l|)
  {
    var i := |s| - |l|;
    var after := s[i + |r|..];
    assert forall j :: 0 <= j < |after| ==> after[j] == l[|r| + j];
  }

  /** A string without surrounding whitespace is its own strip, and only such a string is. */
  lemma StripFixedPoint(s: string)
    ensures Strip(s) == s <==> Trimmed(s)
  {
    if s != [] && !IsSpace(s[0]) && !IsSpace(s[|s| - 1]) {
      assert StripLeft(s) == s;
      assert StripRight(s) == s;
    }
  }

  // ---------------------------------------------------------------------------
  // Upper case, prefix and substring tests
  // ---------------------------------------------------------------------------

  /** `c.upper()` restricted to ASCII letters. */
  function UpperChar(c: char): char {
    if 'a' <= c <= 'z' then (c as int - 'a' as int + 'A' as int) as char else c
  }

  function Upper(s: string): (r: string)
    ensures |r| == |s|
    ensures forall i :: 0 <= i < |s| ==> r[i] == UpperChar(s[i])
  {
    seq(|s|, i requires 0 <= i < |s| => UpperChar(s[i]))
  }

  /** Upper-casing never turns a letter into whitespace or back. */
  lemma UpperCharKeepsSpace(c: char)
    ensures IsSpace(UpperChar(c)) == IsSpace(c)
    ensures UpperChar(UpperChar(c)) == UpperChar(c)
  {
  }

  lemma UpperIdempotent(s: string)
    ensures Upper(Upper(s)) == Upper(s)
  {
    forall i | 0 <= i < |s| ensures Upper(Upper(s))[i] == Upper(s)[i] {
      UpperCharKeepsSpace(s[i]);
    }
  }

  /** Upper-casing a stripped string leaves nothing to strip. */
  lemma UpperKeepsStripped(t: string)
    requires Trimmed(t)
    ensures Strip(Upper(t)) == Upper(t)
  {
    var u := Upper(t);
    if t != [] {
      UpperCharKeepsSpace(t[0]);
      UpperCharKeepsSpace(t[|t| - 1]);
      assert !IsSpace(u[0]) && !IsSpace(u[|u| - 1]);
    }
    StripFixedPoint(u);
  }

  /** `s.startswith(p)`. */
  predicate StartsWith(s: string, p: string) {
    |p| <= |s| && s[..|p|] == p
  }

  predicate OccursAt(s: string, t: string, i: nat) {
    i + |t| <= |s| && s[i..i + |t|] == t
  }

  /** Python's `t in s` for strings: `t` is a contiguous substring of `s`. */
  predicate Contains(s: string, t: string) {
    exists i: nat | i <= |s| :: OccursAt(s, t, i)
  }

  /** For a one-character string, `t in s` is character membership. */
  lemma ContainsSingle(s: string, c: char)
    ensures Contains(s, [c]) <==> c in s
  {
    if c in s {
      var i :| 0 <= i < |s| && s[i] == c;
      assert OccursAt(s, [c], i);
    }
    if Contains(s, [c]) {
      var i: nat :| i <= |s| && OccursAt(s, [c], i);
      assert s[i] == c;
    }
  }

  // ---------------------------------------------------------------------------
  // split(sep) and split()
  // ---------------------------------------------------------------------------

  /** `sep.join(parts)`. */
  function JoinWith(parts: seq<string>, sep: char): string
    requires |parts| >= 1
  {
    if |parts| == 1 then parts[0] else parts[0] + [sep] + JoinWith(parts[1..], sep)
  }

  /**
   * `s.split(sep)` for a one-character separator: every separator cuts, empty
   * pieces are kept, and the empty string gives one empty piece.
   */
  function SplitOn(s: string, sep: char): (parts: seq<string>)
    ensures |parts| >= 1
    ensures forall i :: 0 <= i < |parts| ==> sep !in parts[i]
    ensures JoinWith(parts, sep) == s
  {
    if |s| == 0 then [""]
    else
      var rest := SplitOn(s[1..], sep);
      if s[0] == sep then
        assert [s[0]] + s[1..] == s;
        [""] + rest
      else
        var parts := [[s[0]] + rest[0]] + rest[1..];
        assert parts[1..] == rest[1..];
        assert forall i :: 1 <= i < |parts| ==> parts[i] == rest[i];
        assert |rest| > 1 ==> JoinWith(rest, sep) == rest[0] + [sep] + JoinWith(rest[1..], sep);
        assert JoinWith(parts, sep) == [s[0]] + JoinWith(rest, sep);
        parts
  }

  /** A piece without the separator is split into itself. */
  lemma {:induction false} SplitOnNoSep(a: string, sep: char)
    requires sep !in a
    ensures SplitOn(a, sep) == [a]
  {
    if |a| > 0 {
      assert sep !in a[1..];
      SplitOnNoSep(a[1..], sep);
      assert [a[0]] + a[1..] == a;
    }
  }

  /** Splitting consumes the text up to the first separator as the first piece. */
  lemma {:induction false} SplitOnFirst(a: string, sep: char, r: string)
    requires sep !in a
    ensures SplitOn(a + [sep] + r, sep) == [a] + SplitOn(r, sep)
  {
    var s := a + [sep] + r;
    if |a| == 0 {
      assert s[1..] == r;
    } else {
      assert s[1..] == a[1..] + [sep] + r;
      assert sep !in a[1..];
      SplitOnFirst(a[1..], sep, r);
      assert [a[0]] + a[1..] == a;
    }
  }

  /** `split(sep)` is the only way of cutting `s` into separator-free pieces. */
  lemma {:induction false} SplitOnUnique(parts: seq<string>, sep: char)
    requires |parts| >= 1
    requires forall i :: 0 <= i < |parts| ==> sep !in parts[i]
    ensures SplitOn(JoinWith(parts, sep), sep) == parts
  {
    if |parts| == 1 {
      SplitOnNoSep(parts[0], sep);
    } else {
      SplitOnUnique(parts[1..], sep);
      SplitOnFirst(parts[0], sep, JoinWith(parts[1..], sep));
      assert [parts[0]] + parts[1..] == parts;
    }
  }

  /** Length of the longest whitespace-free prefix. */
  function NonSpaceRun(s: string): (n: nat)
    ensures n <= |s|
    ensures forall i :: 0 <= i < n ==> !IsSpace(s[i])
    ensures n == |s| || IsSpace(s[n])
  {
    if |s| == 0 || IsSpace(s[0]) then 0 else 1 + NonSpaceRun(s[1..])
  }

  /** `s.split()`: the maximal runs of non-whitespace characters, in order. */
  function SplitWs(s: string): seq<string> {
    if s == [] then []
    else if IsSpace(s[0]) then SplitWs(s[1..])
    else
      var n := NonSpaceRun(s);
      [s[..n]] + SplitWs(s[n..])
  }

  /** No token of `split()` is empty or holds whitespace. */
  lemma {:induction false} SplitWsTokens(s: string)
    ensures forall k :: 0 <= k < |SplitWs(s)| ==> SplitWs(s)[k] != [] && NoSpace(SplitWs(s)[k])
    decreases |s|
  {
    if s != [] {
      if IsSpace(s[0]) {
        SplitWsTokens(s[1..]);
      } else {
        SplitWsTokens(s[NonSpaceRun(s)..]);
      }
    }
  }

  /** `split()` gives no token exactly when the text is whitespace alone. */
  lemma {:induction false} SplitWsEmpty(s: string)
    ensures SplitWs(s) == [] <==> AllSpace(s)
    decreases |s|
  {
    if s != [] {
      if IsSpace(s[0]) {
        SplitWsEmpty(s[1..]);
        assert AllSpace(s[1..]) ==> AllSpace(s);
      }
    }
  }

  /** The text `gaps[0] + tokens[0] + gaps[1] + ... + tokens[n - 1] + gaps[n]`. */
  function Interleave(gaps: seq<string>, tokens: seq<string>): string
    requires |gaps| == |tokens| + 1
    decreases |tokens|
  {
    if tokens == [] then gaps[0] else gaps[0] + tokens[0] + Interleave(gaps[1..], tokens[1..])
  }

  /** Whitespace-free, non-empty tokens and whitespace gaps between and around them,
      every gap between two tokens non-empty. */
  predicate Tokenised(gaps: seq<string>, tokens: seq<string>) {
    && |gaps| == |tokens| + 1
    && (forall k :: 0 <= k < |gaps| ==> AllSpace(gaps[k]))
    && (forall k :: 0 < k < |tokens| ==> gaps[k] != [])
    && (forall k :: 0 <= k < |tokens| ==> tokens[k] != [] && NoSpace(tokens[k]))
  }

  lemma InterleaveStart(gaps: seq<string>, tokens: seq<string>)
    requires |gaps| == |tokens| + 1
    ensures gaps[0] <= Interleave(gaps, tokens)
    ensures gaps[0] == [] && tokens != [] ==> tokens[0] <= Interleave(gaps, tokens)
  {
  }

  lemma InterleaveConsGap(c: string, gaps: seq<string>, tokens: seq<string>)
    requires |gaps| == |tokens| + 1
    ensures Interleave([c + gaps[0]] + gaps[1..], tokens) == c + Interleave(gaps, tokens)
  {
    var g := [c + gaps[0]] + gaps[1..];
    if tokens != [] {
      assert g[1..] == gaps[1..];
    }
  }

  /** The run length of a whitespace-free prefix that whitespace or the end follows. */
  lemma {:induction false} NonSpaceRunOf(s: string, m: nat)
    requires m <= |s| && (forall i :: 0 <= i < m ==> !IsSpace(s[i])) && (m == |s| || IsSpace(s[m]))
    ensures NonSpaceRun(s) == m
    decreases m
  {
    if m > 0 {
      NonSpaceRunOf(s[1..], m - 1);
    }
  }

  /** Leading whitespace does not change `split()`. */
  lemma {:induction false} SplitWsSkipSpace(g: string, t: string)
    requires AllSpace(g)
    ensures SplitWs(g + t) == SplitWs(t)
    decreases |g|
  {
    if g == [] {
      assert g + t == t;
    } else {
      assert (g + t)[1..] == g[1..] + t;
      SplitWsSkipSpace(g[1..], t);
    }
  }

  /** A whitespace-free token that whitespace or the end follows is the first token. */
  lemma SplitWsToken(tok: string, rest: string)
    requires tok != [] && NoSpace(tok) && (rest == [] || IsSpace(rest[0]))
    ensures SplitWs(tok + rest) == [tok] + SplitWs(rest)
  {
    var s := tok + rest;
    NonSpaceRunOf(s, |tok|);
    assert s[..|tok|] == tok && s[|tok|..] == rest;
  }

  /** `split()` undoes the interleaving: it returns exactly the tokens. */
  lemma {:induction false} SplitWsOfInterleave(gaps: seq<string>, tokens: seq<string>)
    requires Tokenised(gaps, tokens)
    ensures SplitWs(Interleave(gaps, tokens)) == tokens
    decreases |tokens|
  {
    if tokens == [] {
      SplitWsEmpty(gaps[0]);
    } else {
      var rest := Interleave(gaps[1..], tokens[1..]);
      assert Tokenised(gaps[1..], tokens[1..]);
      SplitWsOfInterleave(gaps[1..], tokens[1..]);
      InterleaveStart(gaps[1..], tokens[1..]);
      assert rest == [] || IsSpace(rest[0]);
      SplitWsToken(tokens[0], rest);
      assert Interleave(gaps, tokens) == gaps[0] + (tokens[0] + rest);
      SplitWsSkipSpace(gaps[0], tokens[0] + rest);
    }
  }

  /** A leading whitespace character joins the first gap. */
  lemma GapsForSpace(c: char, g: seq<string>, ts: seq<string>)
    requires IsSpace(c) && Tokenised(g, ts)
    ensures Tokenised([[c] + g[0]] + g[1..], ts)
    ensures Interleave([[c] + g[0]] + g[1..], ts) == [c] + Interleave(g, ts)
  {
    InterleaveConsGap([c], g, ts);
    assert AllSpace([c] + g[0]);
  }

  /** A leading token gets an empty gap before it. */
  lemma GapsForToken(tok: string, g: seq<string>, ts: seq<string>)
    requires tok != [] && NoSpace(tok) && Tokenised(g, ts)
    requires Interleave(g, ts) == [] || IsSpace(Interleave(g, ts)[0])
    ensures Tokenised([[]] + g, [tok] + ts)
    ensures Interleave([[]] + g, [tok] + ts) == tok + Interleave(g, ts)
  {
    InterleaveStart(g, ts);
    assert ts != [] ==> g[0] != [];
    var g2 := [[]] + g;
    assert g2[1..] == g && ([tok] + ts)[1..] == ts;
  }

  /** Every text is the tokens of its `split()` interleaved with whitespace gaps. */
  lemma {:induction false} SplitWsReconstructs(s: string)
    ensures exists gaps :: Tokenised(gaps, SplitWs(s)) && Interleave(gaps, SplitWs(s)) == s
    decreases |s|
  {
    if s == [] {
      assert Tokenised([[]], SplitWs(s)) && Interleave([[]], SplitWs(s)) == s;
    } else if IsSpace(s[0]) {
      var ts := SplitWs(s[1..]);
      SplitWsReconstructs(s[1..]);
      var g :| Tokenised(g, ts) && Interleave(g, ts) == s[1..];
      GapsForSpace(s[0], g, ts);
      assert [s[0]] + s[1..] == s;
      assert Tokenised([[s[0]] + g[0]] + g[1..], SplitWs(s));
    } else {
      var n := NonSpaceRun(s);
      var rest := s[n..];
      var ts := SplitWs(rest);
      SplitWsReconstructs(rest);
      var g :| Tokenised(g, ts) && Interleave(g, ts) == rest;
      GapsForToken(s[..n], g, ts);
      assert s[..n] + rest == s;
      assert SplitWs(s) == [s[..n]] + ts;
    }
  }

  // ---------------------------------------------------------------------------
  // str(int) and zfill
  // ---------------------------------------------------------------------------

  predicate IsDigit(c: char) {
    '0' <= c <= '9'
  }

  predicate AllDigits(s: string) {
    forall i :: 0 <= i < |s| ==> IsDigit(s[i])
  }

  function DigitValue(c: char): nat
    requires IsDigit(c)
  {
    c as int - '0' as int
  }

  function DigitChar(d: nat): (c: char)
    requires d < 10
    ensures IsDigit(c) && DigitValue(c) == d
  {
    (d + '0' as int) as char
  }

  /** The value of a string of decimal digits; leading zeros are allowed. */
  function DigitsValue(s: string): nat
    requires AllDigits(s)
  {
    if s == [] then 0 else DigitsValue(s[..|s| - 1]) * 10 + DigitValue(s[|s| - 1])
  }

  /** `str(n)` for a non-negative integer: digits only, no leading zero. */
  function DecimalString(n: nat): (s: string)
    ensures |s| >= 1 && AllDigits(s)
    ensures s[0] == '0' ==> n == 0
  {
    if n < 10 then [DigitChar(n)] else DecimalString(n / 10) + [DigitChar(n % 10)]
  }

  lemma {:induction false} DecimalStringRoundTrip(n: nat)
    ensures DigitsValue(DecimalString(n)) == n
  {
    var s := DecimalString(n);
    if n < 10 {
      assert s[..0] == [];
    } else {
      assert s[..|s| - 1] == DecimalString(n / 10);
      DecimalStringRoundTrip(n / 10);
    }
  }

  function Zeros(k: nat): (z: string)
    ensures |z| == k && AllDigits(z)
    ensures forall i :: 0 <= i < k ==> z[i] == '0'
  {
    seq(k, _ => '0')
  }

  /** Leading zeros do not change a digit string's value. */
  lemma {:induction false} LeadingZerosValue(k: nat, s: string)
    requires AllDigits(s)
    ensures AllDigits(Zeros(k) + s)
    ensures DigitsValue(Zeros(k) + s) == DigitsValue(s)
    decreases |s|, k
  {
    var z := Zeros(k) + s;
    if s == [] {
      assert z == Zeros(k);
      if k > 0 {
        assert z[..k - 1] == Zeros(k - 1) + [];
        LeadingZerosValue(k - 1, []);
      }
    } else {
      assert z[..|z| - 1] == Zeros(k) + s[..|s| - 1];
      LeadingZerosValue(k, s[..|s| - 1]);
    }
  }

  /**
   * `s.zfill(width)`: pads with '0' on the left (after a leading sign) up to
   * `width` characters, and never shortens `s`.
   */
  function ZFill(s: string, width: int): (r: string)
    ensures |r| == if width > |s| then width else |s|
    decreases width - |s|
  {
    if width <= |s| then s
    else if |s| > 0 && (s[0] == '+' || s[0] == '-') then [s[0]] + Zeros(width - |s|) + s[1..]
    else ZFill(['0'] + s, width)
  }

  /** Without a sign, `zfill` puts exactly the missing zeros in front. */
  lemma {:induction false} ZFillUnsigned(s: string, width: int)
    requires s == [] || (s[0] != '+' && s[0] != '-')
    ensures ZFill(s, width) == Zeros(if width > |s| then width - |s| else 0) + s
    decreases width - |s|
  {
    if width <= |s| {
      assert Zeros(0) + s == s;
    } else {
      var k := width - |s|;
      ZFillUnsigned(['0'] + s, width);
      assert Zeros(k - 1) + (['0'] + s) == Zeros(k) + s;
    }
  }
}
