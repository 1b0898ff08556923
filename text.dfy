/** String primitives of the JavaScript runtime that the table code relies
    on: `split`/`join` with a one-character delimiter, number formatting and
    parsing (`toString(radix)`, `Number(s)`, `parseInt`), ASCII case mapping
    and UTF-16 code units. */
module Text {
  import opened Common

  // ---------------------------------------------------------------------
  // split / join

  /** `s.split(d)` for a one-character separator `d`: the pieces between
      separators, always at least one (`"".split(",")` is `[""]`). */
  function Split(s: string, d: char): (parts: seq<string>)
    ensures |parts| >= 1
  {
    if s == [] then [[]]
    else
      var rest := Split(s[1..], d);
      if s[0] == d then [[]] + rest
      else [[s[0]] + rest[0]] + rest[1..]
  }

  /** `parts.join(d)`. */
  function Join(parts: seq<string>, d: char): string
  {
    if |parts| == 0 then []
    else if |parts| == 1 then parts[0]
    else parts[0] + [d] + Join(parts[1..], d)
  }

  /** Joining the pieces of a split restores the string. */
  lemma {:induction false} JoinSplit(s: string, d: char)
    ensures Join(Split(s, d), d) == s
  {
    if s != [] {
      JoinSplit(s[1..], d);
      var rest := Split(s[1..], d);
      if s[0] == d {
        assert Split(s, d) == [[]] + rest;
        assert ([[]] + rest)[1..] == rest;
      } else {
        var parts := Split(s, d);
        assert parts == [[s[0]] + rest[0]] + rest[1..];
        if |rest| == 1 {
          assert Join(parts, d) == [s[0]] + rest[0];
        } else {
          assert parts[1..] == rest[1..];
          assert Join(parts, d) == [s[0]] + rest[0] + [d] + Join(rest[1..], d);
        }
        assert s == [s[0]] + s[1..];
      }
    }
  }

  /** A string without the separator splits into itself alone. */
  lemma {:induction false} SplitWithout(p: string, d: char)
    requires d !in p
    ensures Split(p, d) == [p]
  {
    if p != [] {
      SplitWithout(p[1..], d);
      assert [p[0]] + p[1..] == p;
    }
  }

  /** Splitting `p + d + t` where `p` has no separator peels `p` off. */
  lemma {:induction false} SplitAtFirst(p: string, t: string, d: char)
    requires d !in p
    ensures Split(p + [d] + t, d) == [p] + Split(t, d)
  {
    if p == [] {
      assert [d] + t == p + [d] + t;
      assert ([d] + t)[1..] == t;
    } else {
      var s := p + [d] + t;
      assert s[1..] == p[1..] + [d] + t;
      SplitAtFirst(p[1..], t, d);
      assert [p[0]] + p[1..] == p;
    }
  }

  /** Splitting a join gives back the pieces, provided no piece contains the
      separator. */
  lemma {:induction false} SplitJoin(parts: seq<string>, d: char)
    requires |parts| >= 1
    requires forall i :: 0 <= i < |parts| ==> d !in parts[i]
    ensures Split(Join(parts, d), d) == parts
  {
    if |parts| == 1 {
      SplitWithout(parts[0], d);
    } else {
      SplitJoin(parts[1..], d);
      SplitAtFirst(parts[0], Join(parts[1..], d), d);
      assert [parts[0]] + parts[1..] == parts;
    }
  }

  /** A string holding the separator splits into at least two pieces. */
  lemma {:induction false} SplitCount(s: string, d: char)
    requires d in s
    ensures |Split(s, d)| >= 2
  {
    if s[0] != d {
      assert d in s[1..] by {
        var k :| 0 <= k < |s| && s[k] == d;
        assert s[1..][k - 1] == d;
      }
      SplitCount(s[1..], d);
    }
  }

  /** Joining one more piece appends the separator and the piece. */
  lemma {:induction false} JoinSnoc(init: seq<string>, x: string, d: char)
    requires init != []
    ensures Join(init + [x], d) == Join(init, d) + [d] + x
  {
    if |init| > 1 {
      JoinSnoc(init[1..], x, d);
      assert (init + [x])[1..] == init[1..] + [x];
    } else {
      assert init + [x] == [init[0], x];
      assert [init[0], x][1..] == [x];
    }
  }

  /** A string holding the separator is the join of all pieces but the
      last, the separator, and the last piece; a string without it is its
      own only piece. */
  lemma LastPiece(s: string, d: char)
    ensures var parts := Split(s, d);
            d in s ==> Join(parts[..|parts| - 1], d) + [d] + parts[|parts| - 1] == s
    ensures d !in s ==> Split(s, d) == [s]
  {
    if d in s {
      var parts := Split(s, d);
      JoinSplit(s, d);
      SplitCount(s, d);
      var init, last := parts[..|parts| - 1], parts[|parts| - 1];
      assert parts == init + [last];
      JoinSnoc(init, last, d);
    } else {
      SplitWithout(s, d);
    }
  }

  /** No piece of a split holds the separator. */
  lemma {:induction false} SplitParts(s: string, d: char)
    ensures forall i :: 0 <= i < |Split(s, d)| ==> d !in Split(s, d)[i]
  {
    if s != [] {
      SplitParts(s[1..], d);
    }
  }

  // ---------------------------------------------------------------------
  // Digits: Number.prototype.toString(radix) on non-negative integers

  /** The digit characters `toString(16).toUpperCase()` produces; the first
      ten are also the decimal digits. */
  function DigitChar(v: nat): (c: char)
    requires v < 16
  {
    if v < 10 then ('0' as int + v) as char else ('A' as int + v - 10) as char
  }

  /** The value of one digit character, or 16 when it is not one. */
  function DigitValue(c: char): (v: nat)
    ensures v <= 16
  {
    if '0' <= c <= '9' then c as int - '0' as int
    else if 'A' <= c <= 'F' then c as int - 'A' as int + 10
    else 16
  }

  lemma DigitRoundTrip(v: nat)
    requires v < 16
    ensures DigitValue(DigitChar(v)) == v
  {
  }

  /** `n.toString(base)` in upper case, without leading zeros ("0" for 0). */
  function ToBase(n: nat, base: nat): (s: string)
    requires 2 <= base <= 16
    ensures |s| >= 1
  {
    if n < base then [DigitChar(n)]
    else ToBase(n / base, base) + [DigitChar(n % base)]
  }

  predicate AllDigits(s: string, base: nat)
  {
    forall i :: 0 <= i < |s| ==> DigitValue(s[i]) < base
  }

  /** The value of a digit string read in `base`. */
  function FromBase(s: string, base: nat): nat
    requires AllDigits(s, base)
  {
    if s == [] then 0
    else FromBase(s[..|s| - 1], base) * base + DigitValue(s[|s| - 1])
  }

  lemma FromBaseSnoc(init: string, c: char, base: nat)
    requires AllDigits(init, base) && DigitValue(c) < base
    ensures AllDigits(init + [c], base)
    ensures FromBase(init + [c], base) == FromBase(init, base) * base + DigitValue(c)
  {
    assert (init + [c])[..|init|] == init;
  }

  /** Quotient and remainder, with ToBase unfolded once. */
  lemma DivMod(n: nat, base: nat) returns (q: nat, r: nat)
    requires 2 <= base <= 16 && n >= base
    ensures n == q * base + r && r < base && q < n
    ensures ToBase(n, base) == ToBase(q, base) + [DigitChar(r)]
  {
    q, r := n / base, n % base;
    assert n == q * base + r && 0 <= r < base;
    TwiceAtMost(q, base);
  }

  lemma TwiceAtMost(q: nat, b: nat)
    requires b >= 2
    ensures 2 * q <= q * b
  {
  }

  /** Reading back what ToBase wrote gives the number. */
  lemma {:induction false} BaseRoundTrip(n: nat, base: nat)
    requires 2 <= base <= 16
    ensures AllDigits(ToBase(n, base), base)
    ensures FromBase(ToBase(n, base), base) == n
    decreases n
  {
    if n < base {
      DigitRoundTrip(n);
      assert ToBase(n, base) == [] + [DigitChar(n)];
      FromBaseSnoc([], DigitChar(n), base);
    } else {
      var q, r := DivMod(n, base);
      BaseRoundTrip(q, base);
      DigitRoundTrip(r);
      FromBaseSnoc(ToBase(q, base), DigitChar(r), base);
    }
  }

  /** A number below base^k takes at most k digits. */
  lemma {:induction false} ToBaseLength(n: nat, base: nat, k: nat, bound: nat)
    requires 2 <= base <= 16 && k >= 1
    requires bound == Pow(base, k) && n < bound
    ensures |ToBase(n, base)| <= k
  {
    if n >= base {
      var q, r := DivMod(n, base);
      var p := Pow(base, k - 1);
      assert bound == base * p;
      QuotientBound(n, base, p, q, r);
      assert k - 1 != 0 by {
        assert Pow(base, 0) == 1;
      }
      ToBaseLength(q, base, k - 1, p);
    }
  }

  /** The quotient of a number below `b * p` is below `p`, and from `b` on
      it is at least one. */
  lemma QuotientBound(n: nat, b: nat, p: nat, q: nat, r: nat)
    requires b >= 1 && n == q * b + r && r < b && n < b * p && n >= b
    ensures q < p && 1 <= q && p >= 2
  {
  }

  /** From `base` on, a number takes at least two digits. */
  lemma ToBaseAtLeastTwo(n: nat, base: nat)
    requires 2 <= base <= 16 && n >= base
    ensures |ToBase(n, base)| >= 2
  {
  }

  function Pow(b: nat, k: nat): nat
  {
    if k == 0 then 1 else b * Pow(b, k - 1)
  }

  /** Hexadecimal in upper case, as `toString(16).toUpperCase()` gives it. */
  function Hex(n: nat): string
  {
    ToBase(n, 16)
  }

  /** `String(n)` for an integer: optional minus sign, then decimal digits. */
  function Decimal(n: int): (s: string)
    ensures |s| >= 1
  {
    if n < 0 then "-" + ToBase(-n, 10) else ToBase(n, 10)
  }

  // ---------------------------------------------------------------------
  // Whitespace and number parsing

  /** The characters `Number(s)` and `parseInt` strip: the ECMAScript
      WhiteSpace and LineTerminator code points. */
  predicate IsJsSpace(c: char)
  {
    c == '\t' || c == '\n' || c == '\U{000B}' || c == '\U{000C}' || c == '\r' || c == ' '
    || c == '\U{00A0}' || c == '\U{1680}' || ('\U{2000}' <= c <= '\U{200A}')
    || c == '\U{2028}' || c == '\U{2029}' || c == '\U{202F}' || c == '\U{205F}'
    || c == '\U{3000}' || c == '\U{FEFF}'
  }

  function TrimStart(s: string): (r: string)
    ensures r == [] || !IsJsSpace(r[0])
  {
    if s != [] && IsJsSpace(s[0]) then TrimStart(s[1..]) else s
  }

  function TrimEnd(s: string): (r: string)
    ensures r == [] || !IsJsSpace(r[|r| - 1])
  {
    if s != [] && IsJsSpace(s[|s| - 1]) then TrimEnd(s[..|s| - 1]) else s
  }

  function Trim(s: string): string
  {
    TrimEnd(TrimStart(s))
  }

  /** `Number(s)` on the integer subset of the numeric-string grammar:
      surrounding white space is ignored, the empty string is 0, an
      optional sign is followed by decimal digits; anything else is NaN
      (`None`). */
  function StringToNumber(s: string): (r: Option<int>)
    ensures Trim(s) == [] ==> r == Some(0)
    ensures r.None? ==> Trim(s) != []
    ensures Trim(s) != [] && AllDigits(Trim(s), 10) ==> r == Some(FromBase(Trim(s), 10))
    ensures r.Some? && r.value < 0 ==> Trim(s)[0] == '-'
  {
    IntegerLiteral(Trim(s))
  }

  /** The value of trimmed text under `Number`: empty is 0, an optional sign
      then digits is that integer, anything else NaN. */
  function IntegerLiteral(t: string): Option<int>
  {
    if t == [] then Some(0)
    else if t[0] == '-' && |t| > 1 && AllDigits(t[1..], 10) then Some(0 - FromBase(t[1..], 10))
    else if t[0] == '+' && |t| > 1 && AllDigits(t[1..], 10) then Some(FromBase(t[1..], 10))
    else if AllDigits(t, 10) then Some(FromBase(t, 10))
    else None
  }

  lemma DigitIsNotSpace(c: char)
    requires DigitValue(c) < 16
    ensures !IsJsSpace(c)
  {
  }

  /** Trimming leaves a string alone when both of its ends are not white space. */
  lemma TrimUnchanged(s: string)
    requires s != [] && !IsJsSpace(s[0]) && !IsJsSpace(s[|s| - 1])
    ensures Trim(s) == s
  {
    assert TrimStart(s) == s;
  }

  /** `Number(String(n))` is `n` for every integer. */
  lemma DecimalRoundTrip(n: int)
    ensures StringToNumber(Decimal(n)) == Some(n)
  {
    var s := Decimal(n);
    var m: nat := if n < 0 then -n else n;
    BaseRoundTrip(m, 10);
    var digits := ToBase(m, 10);
    DigitIsNotSpace(digits[|digits| - 1]);
    if n < 0 {
      assert s == "-" + digits;
      TrimUnchanged(s);
      assert s[1..] == digits;
    } else {
      assert s == digits;
      DigitIsNotSpace(digits[0]);
      TrimUnchanged(s);
    }
  }

  /** The decimal digits of a number hold no '-' and no white space at
      either end. */
  lemma NoDelimiterInDigits(n: nat)
    ensures AllDigits(ToBase(n, 10), 10)
    ensures '-' !in ToBase(n, 10)
    ensures !IsJsSpace(ToBase(n, 10)[0]) && !IsJsSpace(ToBase(n, 10)[|ToBase(n, 10)| - 1])
  {
    var ds := ToBase(n, 10);
    BaseRoundTrip(n, 10);
    DigitIsNotSpace(ds[0]);
    DigitIsNotSpace(ds[|ds| - 1]);
    forall k | 0 <= k < |ds|
      ensures ds[k] != '-'
    {
      assert DigitValue(ds[k]) < 10;
    }
  }

  /** `String(n)` starts and ends with a character that is not white space. */
  lemma DecimalEnds(n: int)
    ensures !IsJsSpace(Decimal(n)[0]) && !IsJsSpace(Decimal(n)[|Decimal(n)| - 1])
  {
    var m := if n < 0 then -n else n;
    NoDelimiterInDigits(m);
    if n < 0 {
      assert Decimal(n) == "-" + ToBase(m, 10);
    }
  }

  /** Two non-negative numbers joined by '-' are not a number, and split
      on '-' into their two decimals. */
  lemma DecimalPair(lo: nat, hi: nat)
    ensures var s := Decimal(lo) + "-" + Decimal(hi);
            StringToNumber(s) == None && Split(s, '-') == [Decimal(lo), Decimal(hi)]
  {
    var a, b := Decimal(lo), Decimal(hi);
    var s := a + "-" + b;
    NoDelimiterInDigits(lo);
    NoDelimiterInDigits(hi);
    assert s[|a|] == '-' && s[0] == a[0] && s[|s| - 1] == b[|b| - 1];
    InnerMinusIsNaN(s, |a|);
    SplitJoin([a, b], '-');
    assert [a, b][1..] == [b];
    assert Join([a, b], '-') == s;
  }

  /** A string with a '-' after its first character is not a number. */
  lemma InnerMinusIsNaN(s: string, k: nat)
    requires 0 < k < |s| && s[k] == '-'
    requires !IsJsSpace(s[0]) && !IsJsSpace(s[|s| - 1])
    ensures StringToNumber(s) == None
  {
    TrimUnchanged(s);
    assert DigitValue(s[k]) == 16;
    if s[0] == '-' || s[0] == '+' {
      assert s[1..][k - 1] == s[k];
    }
  }

  /** The longest run of decimal digits at the start of `s`. */
  function LeadingDigits(s: string): (r: string)
    ensures |r| <= |s| && r == s[..|r|] && AllDigits(r, 10)
    ensures |r| < |s| ==> DigitValue(s[|r|]) >= 10
  {
    if s != [] && DigitValue(s[0]) < 10 then [s[0]] + LeadingDigits(s[1..]) else []
  }

  /** `Number.parseInt(s)` for the decimal strings a number input holds:
      leading white space and an optional sign, then the longest digit
      prefix; NaN (`None`) when there are no digits. */
  function ParseInt(s: string): (r: Option<int>)
    ensures r.None? <==> var t := TrimStart(s);
                         var u := if t != [] && (t[0] == '-' || t[0] == '+') then t[1..] else t;
                         u == [] || DigitValue(u[0]) >= 10
    ensures r.Some? && r.value < 0 ==> TrimStart(s)[0] == '-'
  {
    LeadingInteger(TrimStart(s))
  }

  /** `parseInt` after the leading white space: an optional sign, then the
      longest digit prefix. */
  function LeadingInteger(t: string): Option<int>
  {
    if t != [] && (t[0] == '-' || t[0] == '+') then
      var ds := LeadingDigits(t[1..]);
      if ds == [] then None
      else if t[0] == '-' then Some(0 - FromBase(ds, 10)) else Some(FromBase(ds, 10))
    else
      var ds := LeadingDigits(t);
      if ds == [] then None else Some(FromBase(ds, 10))
  }

  /** `TrimEnd` cuts off a suffix that starts with white space. */
  lemma {:induction false} TrimEndPrefix(s: string)
    ensures TrimEnd(s) <= s
    ensures |TrimEnd(s)| < |s| ==> IsJsSpace(s[|TrimEnd(s)|])
  {
    if s != [] && IsJsSpace(s[|s| - 1]) {
      TrimEndPrefix(s[..|s| - 1]);
    }
  }

  /** The digit prefix of digits followed by a non-digit is those digits. */
  lemma {:induction false} LeadingDigitsOf(ds: string, w: string)
    requires AllDigits(ds, 10)
    requires w == [] || DigitValue(w[0]) >= 10
    ensures LeadingDigits(ds + w) == ds
  {
    if ds != [] {
      assert (ds + w)[1..] == ds[1..] + w;
      LeadingDigitsOf(ds[1..], w);
      assert [ds[0]] + ds[1..] == ds;
    } else {
      assert ds + w == w;
    }
  }

  /** `parseInt` and `Number` agree on text that holds an integer: both read
      the same number. */
  lemma ParseIntAgreesWithNumber(s: string)
    requires Trim(s) != [] && StringToNumber(s).Some?
    ensures ParseInt(s) == StringToNumber(s)
  {
    var t := TrimStart(s);
    var u := Trim(s);
    var w := TrimmedTail(t);
    LiteralAgrees(u, w);
  }

  /** The text after the trimmed part: empty or starting with white space. */
  lemma TrimmedTail(t: string) returns (w: string)
    ensures t == TrimEnd(t) + w
    ensures w == [] || DigitValue(w[0]) >= 10
  {
    TrimEndPrefix(t);
    w := t[|TrimEnd(t)|..];
    if w != [] {
      DigitIsNotSpaceContra(w[0]);
    }
  }

  /** Integer text followed by white space reads the same under both. */
  lemma LiteralAgrees(u: string, w: string)
    requires u != [] && IntegerLiteral(u).Some?
    requires w == [] || DigitValue(w[0]) >= 10
    ensures LeadingInteger(u + w) == IntegerLiteral(u)
  {
    var t := u + w;
    if u[0] == '-' || u[0] == '+' {
      assert DigitValue(u[0]) >= 10;
      assert t[0] == u[0] && t[1..] == u[1..] + w;
      LeadingDigitsOf(u[1..], w);
    } else {
      LeadingDigitsOf(u, w);
      assert t[0] == u[0];
    }
  }

  lemma DigitIsNotSpaceContra(c: char)
    requires IsJsSpace(c)
    ensures DigitValue(c) >= 10
  {
  }

  /** A character that is neither white space, a digit nor a sign makes the
      text NaN, wherever it stands. */
  lemma ForeignCharIsNaN(s: string, k: nat)
    requires k < |s| && !IsJsSpace(s[k]) && DigitValue(s[k]) >= 10 && s[k] != '-' && s[k] != '+'
    ensures StringToNumber(s) == None
  {
    var j := TrimKeeps(s, k);
    var t := Trim(s);
    if t[0] == '-' || t[0] == '+' {
      assert j > 0 && t[1..][j - 1] == t[j];
    }
  }

  /** A character that is not white space survives trimming. */
  lemma TrimKeeps(s: string, k: nat) returns (j: nat)
    requires k < |s| && !IsJsSpace(s[k])
    ensures j < |Trim(s)| && Trim(s)[j] == s[k]
  {
    var i := TrimStartKeeps(s, k);
    var t := TrimStart(s);
    TrimEndPrefix(t);
    j := i;
    if j >= |TrimEnd(t)| {
      TrimEndTail(t, |TrimEnd(t)|, i);
    }
  }

  /** Everything `TrimEnd` cuts off is white space. */
  lemma {:induction false} TrimEndTail(s: string, n: nat, i: nat)
    requires n == |TrimEnd(s)| && n <= i < |s|
    ensures IsJsSpace(s[i])
  {
    if s != [] && IsJsSpace(s[|s| - 1]) && i < |s| - 1 {
      TrimEndTail(s[..|s| - 1], n, i);
    }
  }

  /** `TrimStart` drops a prefix of white space and keeps the rest. */
  lemma {:induction false} TrimStartKeeps(s: string, k: nat) returns (i: nat)
    requires k < |s| && !IsJsSpace(s[k])
    ensures i < |TrimStart(s)| && TrimStart(s)[i] == s[k]
    ensures i == k - (|s| - |TrimStart(s)|)
  {
    if IsJsSpace(s[0]) {
      i := TrimStartKeeps(s[1..], k - 1);
    } else {
      i := k;
    }
  }

  // ---------------------------------------------------------------------
  // Case mapping

  function AsciiUpper(c: char): char
  {
    if 'a' <= c <= 'z' then (c as int - 32) as char else c
  }

  function AsciiLower(c: char): char
  {
    if 'A' <= c <= 'Z' then (c as int + 32) as char else c
  }

  /** `s.toLowerCase()` restricted to the ASCII letters. */
  function LowerCase(s: string): (r: string)
    ensures |r| == |s|
    ensures forall i :: 0 <= i < |s| ==> r[i] == AsciiLower(s[i])
  {
    seq(|s|, i requires 0 <= i < |s| => AsciiLower(s[i]))
  }

  /** `s.charAt(0).toUpperCase() + s.slice(1)`, with ASCII case mapping. */
  function CapitalizeFirstLetter(s: string): (r: string)
    ensures |r| == |s|
    ensures s != [] ==> r[0] == AsciiUpper(s[0]) && r[1..] == s[1..]
  {
    if s == [] then [] else [AsciiUpper(s[0])] + s[1..]
  }

  /** Capitalising twice is capitalising once; lower-casing the first
      letter of the result gives back the lower-cased original. */
  lemma CapitalizeIdempotent(s: string)
    ensures CapitalizeFirstLetter(CapitalizeFirstLetter(s)) == CapitalizeFirstLetter(s)
    ensures s != [] ==> AsciiLower(CapitalizeFirstLetter(s)[0]) == AsciiLower(s[0])
  {
  }

  // ---------------------------------------------------------------------
  // UTF-16

  /** The UTF-16 code units of a string, as `charCodeAt` reports them: one
      unit per character of the Basic Multilingual Plane and a surrogate
      pair for every other character. */
  function CodeUnits(s: string): (u: seq<nat>)
    ensures |u| >= |s|
    ensures forall i :: 0 <= i < |u| ==> u[i] < 0x1_0000
  {
    if s == [] then []
    else
      var c := s[|s| - 1] as int;
      CodeUnits(s[..|s| - 1])
        + (if c < 0x1_0000 then [c]
           else [0xD800 + (c - 0x1_0000) / 0x400, 0xDC00 + (c - 0x1_0000) % 0x400])
  }
}
