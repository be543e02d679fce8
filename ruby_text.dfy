/**
 * The parts of Ruby's core String, Integer and Array behaviour that the
 * generator helpers and the rake tasks rely on: `split` on a one-character
 * separator, `strip`, `to_i`, `Integer#to_s`, ASCII `downcase`, `Array#join`,
 * and `gsub`/`=~` with a fixed-length pattern of character classes (every
 * regular expression the generators substitute with is of that shape).
 */
module RubyText {

  // ---------------------------------------------------------------- characters

  predicate IsDigit(c: char) {
    '0' <= c <= '9'
  }

  /** The whitespace `strip` removes: space, tab, line feed, vertical tab, form feed, carriage return. */
  predicate IsSpace(c: char) {
    c == ' ' || c == '\t' || c == '\n' || c == '\U{0B}' || c == '\U{0C}' || c == '\r'
  }

  /** The regular-expression class `\s` of Ruby 1.8 and 1.9: space, tab, line feed, form feed, carriage return. */
  predicate IsRegexSpace(c: char) {
    c == ' ' || c == '\t' || c == '\n' || c == '\U{0C}' || c == '\r'
  }

  function LowerChar(c: char): char {
    if 'A' <= c <= 'Z' then (c as int + 32) as char else c
  }

  /** `String#downcase`, on ASCII letters. */
  function Downcase(s: string): (r: string)
    ensures |r| == |s|
    ensures forall i :: 0 <= i < |s| ==> r[i] == LowerChar(s[i])
  {
    seq(|s|, i requires 0 <= i < |s| => LowerChar(s[i]))
  }

  predicate AllDigits(d: string) {
    forall i :: 0 <= i < |d| ==> IsDigit(d[i])
  }

  // ------------------------------------------------------------ join and split

  /** `Array#join(sep)`. */
  function Join(parts: seq<string>, sep: string): string {
    if |parts| == 0 then ""
    else if |parts| == 1 then parts[0]
    else parts[0] + sep + Join(parts[1..], sep)
  }

  /** The pieces of `s` between occurrences of `c`, empty pieces included. */
  function Fields(s: string, c: char): (parts: seq<string>)
    ensures |parts| >= 1
    ensures forall k :: 0 <= k < |parts| ==> c !in parts[k]
  {
    if s == [] then [""]
    else
      var rest := Fields(s[1..], c);
      if s[0] == c then [""] + rest else [[s[0]] + rest[0]] + rest[1..]
  }

  /** The pieces with the trailing empty ones removed. */
  function DropTrailingEmpty(parts: seq<string>): (r: seq<string>)
    ensures r <= parts
    ensures r == [] || r[|r| - 1] != ""
    ensures forall k :: |r| <= k < |parts| ==> parts[k] == ""
  {
    if parts == [] then []
    else if parts[|parts| - 1] == "" then DropTrailingEmpty(parts[..|parts| - 1])
    else parts
  }

  /** `String#split` with a one-character string separator: trailing empty pieces are dropped, so `"".split(":")` is `[]`. */
  function Split(s: string, c: char): (r: seq<string>)
    ensures forall k :: 0 <= k < |r| ==> c !in r[k]
    ensures r == [] || r[|r| - 1] != ""
    ensures s == "" ==> r == []
  {
    DropTrailingEmpty(Fields(s, c))
  }

  /** Joining the pieces with the separator gives the string back. */
  lemma {:induction false} JoinFields(s: string, c: char)
    ensures Join(Fields(s, c), [c]) == s
  {
    if s != [] {
      var rest := Fields(s[1..], c);
      JoinFields(s[1..], c);
      if s[0] == c {
        assert ([""] + rest)[1..] == rest;
        assert Join([""] + rest, [c]) == "" + [c] + Join(rest, [c]);
      } else {
        JoinExtendFirst([s[0]], rest, [c]);
      }
      assert s == [s[0]] + s[1..];
    }
  }

  /** Putting `x` in front of the first piece puts it in front of the joined text. */
  lemma JoinExtendFirst(x: string, parts: seq<string>, sep: string)
    requires |parts| >= 1
    ensures Join([x + parts[0]] + parts[1..], sep) == x + Join(parts, sep)
  {
    var extended := [x + parts[0]] + parts[1..];
    if |parts| > 1 {
      assert extended[1..] == parts[1..];
      assert Join(extended, sep) == (x + parts[0]) + sep + Join(parts[1..], sep);
    }
  }

  /** A string without the separator is a single piece. */
  lemma {:induction false} FieldsWithoutSeparator(s: string, c: char)
    requires c !in s
    ensures Fields(s, c) == [s]
  {
    if s != [] {
      FieldsWithoutSeparator(s[1..], c);
      assert s[0] != c;
      assert [s[1..]][1..] == [];
      assert [s[0]] + s[1..] == s;
    }
  }

  lemma {:induction false} FieldsOfPrefix(p: string, t: string, c: char)
    requires c !in p
    ensures Fields(p + [c] + t, c) == [p] + Fields(t, c)
  {
    if p == [] {
      assert p + [c] + t == [c] + t;
      assert ([c] + t)[1..] == t;
    } else {
      assert (p + [c] + t)[1..] == p[1..] + [c] + t;
      FieldsOfPrefix(p[1..], t, c);
      assert [p[0]] + p[1..] == p;
    }
  }

  /** Splitting a join of separator-free pieces gives the pieces back. */
  lemma {:induction false} FieldsOfJoin(parts: seq<string>, c: char)
    requires |parts| >= 1
    requires forall k :: 0 <= k < |parts| ==> c !in parts[k]
    ensures Fields(Join(parts, [c]), c) == parts
  {
    if |parts| == 1 {
      FieldsWithoutSeparator(parts[0], c);
    } else {
      FieldsOfJoin(parts[1..], c);
      FieldsOfPrefix(parts[0], Join(parts[1..], [c]), c);
      assert [parts[0]] + parts[1..] == parts;
    }
  }

  /** `Join` of a non-empty list followed by one more piece. */
  lemma {:induction false} JoinSnoc(parts: seq<string>, x: string, sep: string)
    requires |parts| >= 1
    ensures Join(parts + [x], sep) == Join(parts, sep) + sep + x
  {
    if |parts| == 1 {
      assert (parts + [x])[1..] == [x];
    } else {
      assert (parts + [x])[1..] == parts[1..] + [x];
      JoinSnoc(parts[1..], x, sep);
    }
  }

  // ------------------------------------------------------------------ strip

  function TrimStart(s: string): (r: string)
    ensures |r| <= |s| && r == s[|s| - |r|..]
    ensures r == [] || !IsSpace(r[0])
  {
    if |s| > 0 && IsSpace(s[0]) then TrimStart(s[1..]) else s
  }

  function TrimEnd(s: string): (r: string)
    ensures r <= s
    ensures r == [] || !(IsSpace(r[|r| - 1]) || r[|r| - 1] == '\0')
  {
    if |s| > 0 && (IsSpace(s[|s| - 1]) || s[|s| - 1] == '\0') then TrimEnd(s[..|s| - 1]) else s
  }

  /** `String#strip`: leading whitespace and trailing whitespace or NUL removed. */
  function Strip(s: string): (r: string)
    ensures |r| <= |s|
    ensures Stripped(r)
  {
    TrimEnd(TrimStart(s))
  }

  /** A string that `strip` leaves as it is. */
  predicate Stripped(s: string) {
    s == [] || (!IsSpace(s[0]) && !IsSpace(s[|s| - 1]) && s[|s| - 1] != '\0')
  }

  lemma StripStripped(s: string)
    requires Stripped(s)
    ensures Strip(s) == s
  {
  }

  // -------------------------------------------------------- integers as text

  function DigitValue(c: char): nat
    requires IsDigit(c)
  {
    c as int - '0' as int
  }

  function DigitChar(n: nat): (c: char)
    requires n < 10
    ensures IsDigit(c) && DigitValue(c) == n
  {
    ('0' as int + n) as char
  }

  /** The value of a string of decimal digits, leading zeros allowed. */
  function DecimalValue(d: string): nat
    requires AllDigits(d)
  {
    if d == [] then 0 else 10 * DecimalValue(d[..|d| - 1]) + DigitValue(d[|d| - 1])
  }

  /** `Integer#to_s` of a non-negative number: the shortest decimal numeral. */
  function NatToDecimal(n: nat): (d: string)
    ensures |d| >= 1 && AllDigits(d)
    ensures DecimalValue(d) == n
    ensures |d| > 1 ==> d[0] != '0'
  {
    if n < 10 then [DigitChar(n)]
    else
      var d := NatToDecimal(n / 10) + [DigitChar(n % 10)];
      assert d[..|d| - 1] == NatToDecimal(n / 10);
      d
  }

  /** `Integer#to_s`. */
  function IntToS(n: int): string {
    if n < 0 then "-" + NatToDecimal(-n) else NatToDecimal(n)
  }

  /** Zeros in front of a numeral do not change its value. */
  lemma {:induction false} LeadingZeros(k: nat, d: string)
    requires AllDigits(d)
    ensures AllDigits(seq(k, _ => '0') + d)
    ensures DecimalValue(seq(k, _ => '0') + d) == DecimalValue(d)
  {
    var z := seq(k, _ => '0');
    if d == [] {
      assert z + d == z;
      ZerosValue(k);
    } else {
      assert (z + d)[..|z + d| - 1] == z + d[..|d| - 1];
      LeadingZeros(k, d[..|d| - 1]);
    }
  }

  lemma {:induction false} ZerosValue(k: nat)
    ensures AllDigits(seq(k, _ => '0'))
    ensures DecimalValue(seq(k, _ => '0')) == 0
  {
    if k > 0 {
      var z := seq(k, _ => '0');
      assert z[..k - 1] == seq(k - 1, _ => '0');
      ZerosValue(k - 1);
    }
  }

  /** The digits at the head of `s`, where single underscores between digits are allowed and skipped. */
  function DigitRun(s: string): (d: string)
    ensures AllDigits(d)
  {
    if |s| > 0 && IsDigit(s[0]) then [s[0]] + DigitRunTail(s[1..]) else ""
  }

  function DigitRunTail(s: string): (d: string)
    ensures AllDigits(d)
    decreases |s|
  {
    if |s| > 0 && IsDigit(s[0]) then [s[0]] + DigitRunTail(s[1..])
    else if |s| > 1 && s[0] == '_' && IsDigit(s[1]) then [s[1]] + DigitRunTail(s[2..])
    else ""
  }

  /** The numeral after an optional `0d`/`0D` radix prefix, which base-10 `to_i` accepts. */
  function Unprefixed(u: string): (r: string)
    ensures |u| >= 2 && u[0] == '0' && (u[1] == 'd' || u[1] == 'D') ==> u == u[..2] + r
    ensures !(|u| >= 2 && u[0] == '0' && (u[1] == 'd' || u[1] == 'D')) ==> r == u
  {
    if |u| >= 2 && u[0] == '0' && (u[1] == 'd' || u[1] == 'D') then u[2..] else u
  }

  /**
   * `String#to_i`: optional leading whitespace and sign, an optional `0d`
   * prefix, then the digit run; 0 when there is none.
   */
  function ToI(s: string): (r: int)
    ensures r < 0 ==> TrimStart(s) != [] && TrimStart(s)[0] == '-'
  {
    var t := TrimStart(s);
    if |t| > 0 && t[0] == '-' then 0 - UnsignedValue(t[1..])
    else if |t| > 0 && t[0] == '+' then UnsignedValue(t[1..])
    else UnsignedValue(t)
  }

  /** The value `to_i` reads after the sign. */
  function UnsignedValue(u: string): nat {
    DecimalValue(DigitRun(Unprefixed(u)))
  }

  lemma {:induction false} DigitRunTailOfDigits(d: string)
    requires AllDigits(d)
    ensures DigitRunTail(d) == d
  {
    if d != [] {
      DigitRunTailOfDigits(d[1..]);
    }
  }

  /** A text without a digit reads as 0: neither a sign nor a radix prefix makes a value. */
  lemma ToIWithoutDigits(s: string)
    requires forall k :: 0 <= k < |s| ==> !IsDigit(s[k])
    ensures ToI(s) == 0
  {
    var t := TrimStart(s);
    assert t == [] || !IsDigit(t[0]) by {
      if t != [] {
        assert t[0] == s[|s| - |t|];
      }
    }
    if |t| > 0 && (t[0] == '-' || t[0] == '+') {
      assert t[1..] == [] || !IsDigit(t[1..][0]) by {
        if |t| > 1 {
          assert t[1] == s[|s| - |t| + 1];
        }
      }
      UnsignedValueWithoutDigit(t[1..]);
    } else {
      UnsignedValueWithoutDigit(t);
    }
  }

  /** Text that does not start with a digit has no numeral to read. */
  lemma UnsignedValueWithoutDigit(u: string)
    requires u == [] || !IsDigit(u[0])
    ensures UnsignedValue(u) == 0
  {
    assert Unprefixed(u) == u;
    assert DigitRun(u) == "";
  }

  /** On a string of digits, `to_i` is the decimal value. */
  lemma {:induction false} DigitRunOfDigits(d: string)
    requires AllDigits(d)
    ensures DigitRun(d) == d
    ensures UnsignedValue(d) == DecimalValue(d)
    ensures ToI(d) == DecimalValue(d)
  {
    if d != [] {
      DigitRunTailOfDigits(d[1..]);
      assert DigitRun(d) == [d[0]] + d[1..] == d;
      assert IsDigit(d[0]) && !IsSpace(d[0]) && d[0] != '-' && d[0] != '+';
      assert TrimStart(d) == d;
      assert Unprefixed(d) == d by {
        assert |d| >= 2 ==> IsDigit(d[1]) && d[1] != 'd' && d[1] != 'D';
      }
      assert UnsignedValue(d) == DecimalValue(DigitRun(d));
      assert UnsignedValue(d) == DecimalValue(d);
      assert ToI(d) == UnsignedValue(d);
    }
  }

  /** A numeral behind the `0d` or `0D` radix prefix reads as its decimal value. */
  lemma ToIOfDecimalPrefix(d: string, prefix: string)
    requires prefix == "0d" || prefix == "0D"
    requires AllDigits(d)
    ensures ToI(prefix + d) == DecimalValue(d)
  {
    var s := prefix + d;
    assert s[0] == '0' && (s[1] == 'd' || s[1] == 'D') && s[2..] == d;
    assert TrimStart(s) == s;
    assert ToI(s) == UnsignedValue(s);
    assert Unprefixed(s) == d;
    DigitRunOfDigits(d);
  }

  /** `n.to_s.to_i == n` for every integer. */
  lemma IntToSRoundTrip(n: int)
    ensures ToI(IntToS(n)) == n
  {
    var d := NatToDecimal(if n < 0 then -n else n);
    DigitRunOfDigits(d);
    if n < 0 {
      var s := IntToS(n);
      assert s == "-" + d && s[1..] == d;
      assert TrimStart(s) == s;
    }
  }

  // ------------------------------------------------------- patterns and gsub

  /** One position of a fixed-length regular expression. */
  datatype CharClass =
    | Exactly(c: char)      // a literal character
    | Whitespace            // `\s`
    | AnyCase(lower: char)  // a letter under the `/i` flag

  type Pattern = seq<CharClass>

  predicate ClassHas(k: CharClass, c: char) {
    match k
    case Exactly(d) => c == d
    case Whitespace => IsRegexSpace(c)
    case AnyCase(d) => LowerChar(c) == d
  }

  /** The pattern that matches exactly the text `t`. */
  function Literal(t: string): (p: Pattern)
    ensures |p| == |t|
  {
    seq(|t|, i requires 0 <= i < |t| => Exactly(t[i]))
  }

  /** The pattern that matches `t` with ASCII letter case ignored. */
  function IgnoringCase(t: string): (p: Pattern)
    ensures |p| == |t|
  {
    seq(|t|, i requires 0 <= i < |t| => AnyCase(LowerChar(t[i])))
  }

  predicate MatchesAt(s: string, i: int, p: Pattern) {
    0 <= i && i + |p| <= |s| && forall j :: 0 <= j < |p| ==> ClassHas(p[j], s[i + j])
  }

  /** `s =~ p` succeeds. */
  predicate Occurs(s: string, p: Pattern) {
    exists i :: 0 <= i <= |s| && MatchesAt(s, i, p)
  }

  /**
   * `s.gsub(p, r)` for a non-empty fixed-length pattern: from left to right,
   * every match that does not overlap an earlier one is replaced by `r`.
   * The replacement is taken literally.
   */
  function Gsub(s: string, p: Pattern, r: string): string
    requires |p| > 0
    decreases |s|
  {
    if s == [] then ""
    else if MatchesAt(s, 0, p) then r + Gsub(s[|p|..], p, r)
    else [s[0]] + Gsub(s[1..], p, r)
  }

  /**
   * A replacement as long as the pattern keeps the length of the text, and an
   * empty replacement never lengthens it.
   */
  lemma {:induction false} GsubLength(s: string, p: Pattern, r: string)
    requires |p| > 0
    ensures |r| == |p| ==> |Gsub(s, p, r)| == |s|
    ensures r == [] ==> |Gsub(s, p, r)| <= |s|
    decreases |s|
  {
    if s != [] {
      if MatchesAt(s, 0, p) {
        GsubLength(s[|p|..], p, r);
      } else {
        GsubLength(s[1..], p, r);
      }
    }
  }

  lemma MatchesAtTail(s: string, i: int, p: Pattern, k: nat)
    requires k <= |s| && 0 <= i
    ensures MatchesAt(s[k..], i, p) <==> MatchesAt(s, i + k, p)
  {
    if MatchesAt(s, i + k, p) {
      forall j | 0 <= j < |p| ensures ClassHas(p[j], s[k..][i + j]) {
        assert s[k..][i + j] == s[i + k + j];
      }
    }
  }

  /** A text in which the pattern does not occur is left untouched. */
  lemma {:induction false} GsubWithoutMatch(s: string, p: Pattern, r: string)
    requires |p| > 0
    requires !Occurs(s, p)
    ensures Gsub(s, p, r) == s
  {
    if s != [] {
      assert !MatchesAt(s, 0, p);
      forall i | 0 <= i <= |s[1..]| ensures !MatchesAt(s[1..], i, p) {
        MatchesAtTail(s, i, p, 1);
      }
      GsubWithoutMatch(s[1..], p, r);
    }
  }

  /**
   * When the first match in `a + m + b` is `m` itself, everything before it is
   * kept, `m` becomes `r`, and substitution carries on in `b`.
   */
  lemma {:induction false} GsubSplice(a: string, m: string, b: string, p: Pattern, r: string)
    requires |p| > 0 && |m| == |p| && MatchesAt(m, 0, p)
    requires forall i :: 0 <= i < |a| ==> !MatchesAt(a + m + b, i, p)
    ensures Gsub(a + m + b, p, r) == a + r + Gsub(b, p, r)
  {
    var s := a + m + b;
    if a == [] {
      assert s == m + b;
      assert MatchesAt(s, 0, p) by {
        forall j | 0 <= j < |p| ensures ClassHas(p[j], s[j]) {
          assert s[j] == m[j];
        }
      }
      assert s[|p|..] == b;
    } else {
      assert !MatchesAt(s, 0, p);
      assert s[1..] == a[1..] + m + b;
      forall i | 0 <= i < |a[1..]| ensures !MatchesAt(a[1..] + m + b, i, p) {
        MatchesAtTail(s, i, p, 1);
      }
      GsubSplice(a[1..], m, b, p, r);
      assert [a[0]] + a[1..] == a;
    }
  }

  /**
   * Substitution is faithful: a text made of pieces separated by a literal
   * marker that occurs in none of the pieces renders to the same pieces
   * separated by the value, so each value sits exactly where its marker
   * stood. The marker's first character must not recur inside it, so that
   * no occurrence can straddle a piece and the marker after it.
   */
  lemma {:induction false} GsubJoin(pieces: seq<string>, marker: string, value: string)
    requires |pieces| >= 1
    requires |marker| > 0 && marker[0] !in marker[1..]
    requires forall k :: 0 <= k < |pieces| ==> !Occurs(pieces[k], Literal(marker))
    ensures Gsub(Join(pieces, marker), Literal(marker), value) == Join(pieces, value)
  {
    var p := Literal(marker);
    if |pieces| == 1 {
      GsubWithoutMatch(pieces[0], p, value);
    } else {
      var a, b := pieces[0], Join(pieces[1..], marker);
      assert MatchesAt(marker, 0, p);
      NoMatchBeforeMarker(a, marker, b);
      GsubSplice(a, marker, b, p, value);
      GsubJoin(pieces[1..], marker, value);
    }
  }

  /**
   * In `a + marker + b`, with the marker absent from `a` and its first
   * character not recurring inside it, no occurrence of the marker starts
   * within `a`: one lying wholly in `a` is excluded, and one running into
   * the marker would meet the marker's first character at a later offset.
   */
  lemma NoMatchBeforeMarker(a: string, marker: string, b: string)
    requires |marker| > 0 && marker[0] !in marker[1..]
    requires !Occurs(a, Literal(marker))
    ensures forall i :: 0 <= i < |a| ==> !MatchesAt(a + marker + b, i, Literal(marker))
  {
    var p := Literal(marker);
    var s := a + marker + b;
    forall i | 0 <= i < |a| ensures !MatchesAt(s, i, p) {
      if i + |p| <= |a| {
        assert s == a + (marker + b);
        MatchesAtPrefix(a, marker + b, i, p);
        assert !MatchesAt(a, i, p);
      } else {
        var j := |a| - i;
        assert 0 < j < |p|;
        assert s[i + j] == marker[0];
        assert p[j] == Exactly(marker[j]);
        assert marker[j] == marker[1..][j - 1];
      }
    }
  }

  /** A match that lies inside `x` is seen the same in `x + y`. */
  lemma MatchesAtPrefix(x: string, y: string, i: nat, p: Pattern)
    requires i + |p| <= |x|
    ensures MatchesAt(x + y, i, p) <==> MatchesAt(x, i, p)
  {
    forall j | 0 <= j < |p| ensures ClassHas(p[j], (x + y)[i + j]) == ClassHas(p[j], x[i + j]) {
    }
  }

  /**
   * Substitution distributes over a concatenation that no match straddles:
   * no match starting in `x` runs past its end.
   */
  lemma {:induction false} GsubConcat(x: string, y: string, p: Pattern, r: string)
    requires |p| > 0
    requires forall i :: 0 <= i < |x| < i + |p| ==> !MatchesAt(x + y, i, p)
    ensures Gsub(x + y, p, r) == Gsub(x, p, r) + Gsub(y, p, r)
    decreases |x|
  {
    if x == [] {
      assert x + y == y;
    } else {
      // `k` characters of `x` are consumed and become `head` in the output
      var matched := MatchesAt(x + y, 0, p);
      var k := if matched then |p| else 1;
      var head := if matched then r else [x[0]];
      assert k <= |x| by {
        if matched {
          assert |p| <= |x|;
        }
      }
      var x' := x[k..];
      assert Gsub(x + y, p, r) == head + Gsub(x' + y, p, r) by {
        assert (x + y)[k..] == x' + y;
      }
      assert Gsub(x, p, r) == head + Gsub(x', p, r) by {
        if |p| <= |x| {
          MatchesAtPrefix(x, y, 0, p);
        }
      }
      assert Gsub(x' + y, p, r) == Gsub(x', p, r) + Gsub(y, p, r) by {
        forall i | 0 <= i < |x'| < i + |p| ensures !MatchesAt(x' + y, i, p) {
          assert (x + y)[k..] == x' + y;
          MatchesAtTail(x + y, i, p, k);
        }
        GsubConcat(x', y, p, r);
      }
      assert head + (Gsub(x', p, r) + Gsub(y, p, r)) == (head + Gsub(x', p, r)) + Gsub(y, p, r);
    }
  }
}
