/** Python string and integer semantics used by the manifest and discovery scripts:
    str.isspace, str.strip / lstrip / rstrip, str.split and str.join on one separator
    character, str(int) and int(str). */
module Text {

  newtype byte = b: int | 0 <= b < 256

  datatype Option<+T> = None | Some(value: T)

  datatype Result<+T, +E> = Ok(value: T) | Err(error: E)

  /** Python's str.isspace for a single character: the 29 characters of Unicode that
      are whitespace or have bidirectional class WS, B or S. */
  predicate IsSpace(c: char) {
    || c == ' '
    || '\t' <= c <= '\r'
    || '\U{1c}' <= c <= '\U{1f}'
    || c == '\U{85}' || c == '\U{a0}' || c == '\U{1680}'
    || '\U{2000}' <= c <= '\U{200a}'
    || c == '\U{2028}' || c == '\U{2029}' || c == '\U{202f}' || c == '\U{205f}' || c == '\U{3000}'
  }

  predicate IsBlank(s: string) {
    forall i :: 0 <= i < |s| ==> IsSpace(s[i])
  }

  /** s.lstrip(): the suffix left after every leading whitespace character is removed. */
  function LStrip(s: string): (r: string)
    ensures |r| <= |s| && r == s[|s| - |r|..]
    ensures r == [] || !IsSpace(r[0])
    ensures forall i :: 0 <= i < |s| - |r| ==> IsSpace(s[i])
  {
    if s != [] && IsSpace(s[0]) then
      var r := LStrip(s[1..]);
      assert forall i :: 1 <= i < |s| ==> s[i] == s[1..][i - 1];
      r
    else s
  }

  /** s.rstrip(): the prefix left after every trailing whitespace character is removed. */
  function RStrip(s: string): (r: string)
    ensures |r| <= |s| && r == s[..|r|]
    ensures r == [] || !IsSpace(r[|r| - 1])
    ensures forall i :: |r| <= i < |s| ==> IsSpace(s[i])
  {
    if s != [] && IsSpace(s[|s| - 1]) then
      var r := RStrip(s[..|s| - 1]);
      assert forall i :: 0 <= i < |s| - 1 ==> s[i] == s[..|s| - 1][i];
      r
    else s
  }

  /** s.strip() */
  function Strip(s: string): (r: string)
    ensures r == [] <==> IsBlank(s)
    ensures r != [] ==> !IsSpace(r[0]) && !IsSpace(r[|r| - 1])
  {
    var l := LStrip(s);
    var r := RStrip(l);
    assert r == [] ==> l == [];
    r
  }

  /** A string whose ends are not whitespace, padded with whitespace on both sides,
      strips back to itself. */
  lemma {:induction false} StripPadded(a: string, s: string, b: string)
    requires IsBlank(a) && IsBlank(b)
    requires s == [] || (!IsSpace(s[0]) && !IsSpace(s[|s| - 1]))
    ensures Strip(a + s + b) == s
  {
    if s == [] {
      assert a + s + b == a + b;
      assert IsBlank(a + b);
    } else {
      LStripBlankPrefix(a, s + b);
      assert a + s + b == a + (s + b);
      RStripBlankSuffix(s, b);
    }
  }

  lemma {:induction false} LStripBlankPrefix(a: string, t: string)
    requires IsBlank(a)
    requires t == [] || !IsSpace(t[0])
    ensures LStrip(a + t) == t
  {
    if a != [] {
      assert (a + t)[1..] == a[1..] + t;
      LStripBlankPrefix(a[1..], t);
    }
  }

  lemma {:induction false} RStripBlankSuffix(s: string, b: string)
    requires IsBlank(b)
    requires s == [] || !IsSpace(s[|s| - 1])
    ensures RStrip(s + b) == s
  {
    if b != [] {
      assert (s + b)[..|s + b| - 1] == s + b[..|b| - 1];
      RStripBlankSuffix(s, b[..|b| - 1]);
    } else {
      assert s + b == s;
    }
  }

  /** s.lstrip(c) for one character c. */
  function LStripChar(s: string, c: char): (r: string)
    ensures |r| <= |s| && r == s[|s| - |r|..]
    ensures r == [] || r[0] != c
    ensures forall i :: 0 <= i < |s| - |r| ==> s[i] == c
  {
    if s != [] && s[0] == c then LStripChar(s[1..], c) else s
  }

  /** s.rstrip(c) for one character c. */
  function RStripChar(s: string, c: char): (r: string)
    ensures |r| <= |s| && r == s[..|r|]
    ensures r == [] || r[|r| - 1] != c
    ensures forall i :: |r| <= i < |s| ==> s[i] == c
  {
    if s != [] && s[|s| - 1] == c then RStripChar(s[..|s| - 1], c) else s
  }

  predicate AllChar(s: string, c: char) {
    forall i :: 0 <= i < |s| ==> s[i] == c
  }

  /** Stripping a run of c characters off a string that does not start (end) with c
      gives back that string: the strips are characterised by their results. */
  lemma {:induction false} LStripCharRun(run: string, s: string, c: char)
    requires AllChar(run, c)
    requires s == [] || s[0] != c
    ensures LStripChar(run + s, c) == s
  {
    if run != [] {
      assert (run + s)[1..] == run[1..] + s;
      LStripCharRun(run[1..], s, c);
    }
  }

  lemma {:induction false} RStripCharRun(s: string, run: string, c: char)
    requires AllChar(run, c)
    requires s == [] || s[|s| - 1] != c
    ensures RStripChar(s + run, c) == s
  {
    if run != [] {
      assert (s + run)[..|s + run| - 1] == s + run[..|run| - 1];
      RStripCharRun(s, run[..|run| - 1], c);
    } else {
      assert s + run == s;
    }
  }

  // Regrouping concatenations, stated once so that larger proofs need not
  // rediscover associativity.

  lemma Regroup3<T>(a: seq<T>, b: seq<T>, c: seq<T>)
    ensures a + (b + c) == a + b + c
  {
  }

  lemma Regroup<T>(a: seq<T>, b: seq<T>, c: seq<T>, d: seq<T>)
    ensures a + b + c + d == a + (b + c + d)
  {
  }

  lemma RegroupMiddle<T>(a: seq<T>, b: seq<T>, c: seq<T>, d: seq<T>)
    ensures a + (b + c) + d == a + b + (c + d)
  {
  }

  lemma Regroup5<T>(p: seq<T>, a: seq<T>, b: seq<T>, c: seq<T>, d: seq<T>)
    ensures p + a + b + c + d == p + (a + b + c + d)
  {
  }

  /** Lower-cases the ASCII letters of s (str.lower on ASCII text). */
  function AsciiLower(s: string): (r: string)
    ensures |r| == |s|
    ensures forall i :: 0 <= i < |s| ==> r[i] == (if 'A' <= s[i] <= 'Z' then (s[i] as int + 32) as char else s[i])
  {
    if s == [] then []
    else [if 'A' <= s[0] <= 'Z' then (s[0] as int + 32) as char else s[0]] + AsciiLower(s[1..])
  }

  // ---------------------------------------------------------------------------
  // str.split(sep) and sep.join(fields) for a one-character separator

  /** s.split(sep): the pieces between separators, always at least one. */
  function Split(s: string, sep: char): (r: seq<string>)
    ensures |r| >= 1
    ensures forall k :: 0 <= k < |r| ==> sep !in r[k]
  {
    if s == [] then [""]
    else
      var rest := Split(s[1..], sep);
      if s[0] == sep then [""] + rest
      else [[s[0]] + rest[0]] + rest[1..]
  }

  /** sep.join(fields) */
  function Join(fields: seq<string>, sep: char): string
    requires |fields| >= 1
  {
    if |fields| == 1 then fields[0] else fields[0] + [sep] + Join(fields[1..], sep)
  }

  lemma {:induction false} SplitWithoutSep(s: string, sep: char)
    requires sep !in s
    ensures Split(s, sep) == [s]
  {
    if s != [] {
      assert s[0] != sep;
      SplitWithoutSep(s[1..], sep);
      assert [s[0]] + s[1..] == s;
    }
  }

  /** Splitting distributes over a separator. */
  lemma {:induction false} SplitAround(a: string, sep: char, b: string)
    ensures Split(a + [sep] + b, sep) == Split(a, sep) + Split(b, sep)
  {
    if a == [] {
      assert a + [sep] + b == [sep] + b;
      assert ([sep] + b)[1..] == b;
    } else {
      assert (a + [sep] + b)[1..] == a[1..] + [sep] + b;
      SplitAround(a[1..], sep, b);
    }
  }

  /** Splitting a joined line gives back its fields when no field holds the separator. */
  lemma {:induction false} SplitJoin(fields: seq<string>, sep: char)
    requires |fields| >= 1
    requires forall k :: 0 <= k < |fields| ==> sep !in fields[k]
    ensures Split(Join(fields, sep), sep) == fields
  {
    SplitWithoutSep(fields[0], sep);
    if |fields| > 1 {
      SplitAround(fields[0], sep, Join(fields[1..], sep));
      SplitJoin(fields[1..], sep);
    }
  }

  // ---------------------------------------------------------------------------
  // str(n) and int(text)

  predicate IsDigit(c: char) { '0' <= c <= '9' }

  predicate AllDigits(s: string) {
    forall i :: 0 <= i < |s| ==> IsDigit(s[i])
  }

  function DigitChar(d: nat): char
    requires d < 10
  {
    ('0' as int + d) as char
  }

  /** The value of a string of decimal digits. */
  function DigitsValue(s: string): nat
    requires AllDigits(s)
  {
    if s == [] then 0 else DigitsValue(s[..|s| - 1]) * 10 + (s[|s| - 1] as int - '0' as int)
  }

  /** str(n) for n >= 0: decimal digits without leading zeros. */
  function NatToDecimal(n: nat): (r: string)
    ensures r != [] && AllDigits(r)
    ensures DigitsValue(r) == n
    ensures r[0] != '0' || n == 0
  {
    if n < 10 then [DigitChar(n)]
    else
      var r := NatToDecimal(n / 10) + [DigitChar(n % 10)];
      assert r[..|r| - 1] == NatToDecimal(n / 10);
      r
  }

  /** str(n) */
  function IntToDecimal(n: int): string {
    if n < 0 then "-" + NatToDecimal(-n) else NatToDecimal(n)
  }

  /** The body of a Python integer literal in base 10: digits, with single underscores
      only between two digits. */
  predicate IsDigitGroup(s: string) {
    && s != []
    && (forall i :: 0 <= i < |s| ==> IsDigit(s[i]) || s[i] == '_')
    && IsDigit(s[0]) && IsDigit(s[|s| - 1])
    && (forall i :: 0 < i < |s| && s[i] == '_' ==> s[i - 1] != '_')
  }

  function RemoveUnderscores(s: string): (r: string)
    ensures (forall i :: 0 <= i < |s| ==> IsDigit(s[i]) || s[i] == '_') ==> AllDigits(r)
  {
    if s == [] then [] else (if s[0] == '_' then [] else [s[0]]) + RemoveUnderscores(s[1..])
  }

  /** int(text) in base 10 for text without surrounding whitespace (ASCII digits only). */
  function ParseInt(s: string): (r: Option<int>)
  {
    var negative := s != [] && s[0] == '-';
    var body := if s != [] && (s[0] == '+' || s[0] == '-') then s[1..] else s;
    if !IsDigitGroup(body) then None
    else
      var v: int := DigitsValue(RemoveUnderscores(body));
      Some(if negative then -v else v)
  }

  /** int(text) accepts what str(n) produces: the size written to a manifest reads back. */
  lemma ParseIntDecimal(n: int)
    ensures ParseInt(IntToDecimal(n)) == Some(n)
  {
    var body := NatToDecimal(if n < 0 then -n else n);
    DigitsAreGroup(body);
    if n < 0 {
      var s := "-" + body;
      assert s[0] == '-' && s[1..] == body;
    } else {
      assert body[0] != '+' && body[0] != '-';
    }
  }

  /** Plain decimal digits form a digit group with nothing to remove. */
  lemma DigitsAreGroup(s: string)
    requires s != [] && AllDigits(s)
    ensures IsDigitGroup(s) && RemoveUnderscores(s) == s
  {
    NoUnderscores(s);
  }

  lemma {:induction false} NoUnderscores(s: string)
    requires AllDigits(s)
    ensures RemoveUnderscores(s) == s
  {
    if s != [] {
      NoUnderscores(s[1..]);
    }
  }

  /** ParseInt accepts only a sign followed by a digit group: text that is empty,
      holds a space, a letter or a doubled underscore is refused. */
  lemma ParseIntRefuses(s: string)
    requires ParseInt(s).Some?
    ensures s != [] && !IsSpace(s[0]) && !IsSpace(s[|s| - 1])
    ensures forall i :: 0 <= i < |s| ==> IsDigit(s[i]) || s[i] == '_' || (i == 0 && (s[0] == '+' || s[0] == '-'))
  {
    if s != [] && (s[0] == '+' || s[0] == '-') {
      var body := s[1..];
      assert IsDigitGroup(body);
      assert s[|s| - 1] == body[|body| - 1];
      assert forall i :: 1 <= i < |s| ==> s[i] == body[i - 1];
    } else {
      assert IsDigitGroup(s);
    }
  }
}
