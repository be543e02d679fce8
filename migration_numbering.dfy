/**
 * Migration numbering: the version a new migration gets is one more than the
 * largest number found at the head of the existing migration file
 * names, and its file name is that version zero-padded to three digits,
 * an underscore, the underscored name and `.rb`.
 *
 * The directory listing is an input: the base names the glob for Ruby files in `db/migrate` finds.
 */
module MigrationNumbering {
  import opened RubyText

  predicate StartsWithDigit(name: string) {
    |name| > 0 && IsDigit(name[0])
  }

  /** The longest run of digits at the head of `name` (the text `/^(\d+)/` captures). */
  function LeadingDigits(name: string): (d: string)
    ensures |d| <= |name| && d == name[..|d|]
    ensures AllDigits(d)
    ensures |d| < |name| ==> !IsDigit(name[|d|])
  {
    if |name| > 0 && IsDigit(name[0]) then [name[0]] + LeadingDigits(name[1..]) else ""
  }

  /** The version an existing migration file carries: its leading digits read with `to_i`. */
  function VersionOf(name: string): nat {
    DecimalValue(LeadingDigits(name))
  }

  /** The largest version among the names, or 0 when there are none (`max.to_i`). */
  function MaxVersion(names: seq<string>): (m: nat)
    ensures forall k :: 0 <= k < |names| ==> VersionOf(names[k]) <= m
    ensures |names| == 0 ==> m == 0
    ensures |names| > 0 ==> exists k :: 0 <= k < |names| && VersionOf(names[k]) == m
  {
    if |names| == 0 then 0
    else
      var rest := MaxVersion(names[1..]);
      assert forall k :: 1 <= k < |names| ==> names[k] == names[1..][k - 1];
      if VersionOf(names[0]) >= rest then VersionOf(names[0]) else rest
  }

  /**
   * The version the next generated migration gets. The code reads the digits
   * with `match(/^(\d+)/)[0]`, which fails on a name that does not start with
   * one, so every name must.
   */
  function NextVersion(names: seq<string>): (v: nat)
    requires forall k :: 0 <= k < |names| ==> StartsWithDigit(names[k])
    ensures v >= 1
    ensures forall k :: 0 <= k < |names| ==> VersionOf(names[k]) < v
    ensures |names| == 0 ==> v == 1
    ensures |names| > 0 ==> exists k :: 0 <= k < |names| && VersionOf(names[k]) == v - 1
  {
    MaxVersion(names) + 1
  }

  /** `format("%03d", n)`. */
  function Pad3(n: nat): (s: string)
    ensures AllDigits(s)
    ensures DecimalValue(s) == n
    ensures |s| == if |NatToDecimal(n)| < 3 then 3 else |NatToDecimal(n)|
    ensures s[|s| - |NatToDecimal(n)|..] == NatToDecimal(n)
  {
    var d := NatToDecimal(n);
    var zeros := if |d| < 3 then 3 - |d| else 0;
    LeadingZeros(zeros, d);
    seq(zeros, _ => '0') + d
  }

  /** The name of the migration file with the given version: `"%03d_%s.rb"`. */
  function MigrationFileName(version: nat, underscored: string): string {
    Pad3(version) + "_" + underscored + ".rb"
  }

  lemma {:induction false} LeadingDigitsOfNumeral(d: string, rest: string)
    requires AllDigits(d)
    requires rest == [] || !IsDigit(rest[0])
    ensures LeadingDigits(d + rest) == d
  {
    if d != [] {
      assert (d + rest)[1..] == d[1..] + rest;
      LeadingDigitsOfNumeral(d[1..], rest);
      assert [d[0]] + d[1..] == d;
    }
  }

  /** A generated file name starts with a digit and is read back as the version it was made for. */
  lemma FileNameCarriesVersion(version: nat, underscored: string)
    ensures StartsWithDigit(MigrationFileName(version, underscored))
    ensures VersionOf(MigrationFileName(version, underscored)) == version
  {
    var pad := Pad3(version);
    assert MigrationFileName(version, underscored) == pad + ("_" + underscored + ".rb");
    LeadingDigitsOfNumeral(pad, "_" + underscored + ".rb");
  }

  /**
   * Generating migrations one after the other numbers them 1, 2, 3, ...:
   * once the file for the next version exists, the version after it is one more.
   */
  lemma {:induction false} NextVersionAfterWrite(names: seq<string>, underscored: string)
    requires forall k :: 0 <= k < |names| ==> StartsWithDigit(names[k])
    ensures var written := names + [MigrationFileName(NextVersion(names), underscored)];
      (forall k :: 0 <= k < |written| ==> StartsWithDigit(written[k])) &&
      NextVersion(written) == NextVersion(names) + 1
  {
    var v := NextVersion(names);
    var written := names + [MigrationFileName(v, underscored)];
    FileNameCarriesVersion(v, underscored);
    assert written[|names|] == MigrationFileName(v, underscored);
    assert forall k :: 0 <= k < |names| ==> written[k] == names[k];
  }

  lemma VersionOfThreeDigits(name: string, a: char, b: char, c: char)
    requires |name| > 3 && name[..3] == [a, b, c] && !IsDigit(name[3])
    requires IsDigit(a) && IsDigit(b) && IsDigit(c)
    ensures VersionOf(name) == 100 * DigitValue(a) + 10 * DigitValue(b) + DigitValue(c)
  {
    assert name == [a, b, c] + name[3..];
    LeadingDigitsOfNumeral([a, b, c], name[3..]);
    assert LeadingDigits(name) == [a, b, c];
    assert [a, b, c][..2] == [a, b];
    assert [a, b][..1] == [a];
    assert [a][..0] == [];
    assert DecimalValue([a]) == DigitValue(a);
    assert DecimalValue([a, b]) == 10 * DigitValue(a) + DigitValue(b);
  }

  lemma MaxVersionOfTwo(a: string, b: string)
    ensures MaxVersion([a, b]) == if VersionOf(a) >= VersionOf(b) then VersionOf(a) else VersionOf(b)
  {
    assert [a, b][1..] == [b];
    assert [b][1..] == [];
  }

  lemma Pad3OneDigit(n: nat)
    requires n < 10
    ensures Pad3(n) == ['0', '0', DigitChar(n)]
  {
    assert NatToDecimal(n) == [DigitChar(n)];
    assert seq(2, _ => '0') == ['0', '0'];
  }

  /** The two numbered files of the scenario below carry versions 1 and 3. */
  lemma MaxVersionOfGap(names: seq<string>)
    requires names == ["001_x.rb", "003_y.rb"]
    ensures MaxVersion(names) == 3
  {
    var x, y := names[0], names[1];
    assert x[..3] == ['0', '0', '1'] && x[3] == '_';
    assert y[..3] == ['0', '0', '3'] && y[3] == '_';
    VersionOfThreeDigits(x, '0', '0', '1');
    VersionOfThreeDigits(y, '0', '0', '3');
    MaxVersionOfTwo(x, y);
    assert names == [x, y];
  }

  /**
   * Scenario: with `001_x.rb` and `003_y.rb` present the next migration is 4,
   * not 3, and a migration named `add_email` is written to `004_add_email.rb`.
   */
  lemma NextVersionSkipsGaps(names: seq<string>)
    requires names == ["001_x.rb", "003_y.rb"]
    ensures NextVersion(names) == 4
    ensures MigrationFileName(NextVersion(names), "add_email") == "004_add_email.rb"
  {
    MaxVersionOfGap(names);
    assert StartsWithDigit(names[0]) && StartsWithDigit(names[1]);
    FileNameOfVersionFour();
  }

  lemma FileNameOfVersionFour()
    ensures MigrationFileName(4, "add_email") == "004_add_email.rb"
  {
    Pad3OneDigit(4);
    assert DigitChar(4) == '4';
  }
}
