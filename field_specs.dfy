/**
 * Field specifications: the `field:kind` tokens given to the migration
 * generators, split on `:` and destructured into a pair, and the "datetime
 * fix" that renames any kind mentioning `datetime`, in any letter case, to
 * `DateTime`.
 */
module FieldSpecs {
  import opened Wrappers
  import opened RubyText

  /** The pair `|field, kind|` a token's `split(":")` is destructured into; a missing part is nil. */
  datatype FieldSpec = FieldSpec(field: Option<string>, kind: Option<string>)

  /** `value.split(":")` taken as `|field, kind|`: pieces after the second are ignored. */
  function ParseToken(token: string): FieldSpec {
    var parts := Split(token, ':');
    FieldSpec(if |parts| > 0 then Some(parts[0]) else None,
              if |parts| > 1 then Some(parts[1]) else None)
  }

  /** `fields.collect { |value| value.split(":") }` */
  function ParseTokens(tokens: seq<string>): (specs: seq<FieldSpec>)
    ensures |specs| == |tokens|
    ensures forall k :: 0 <= k < |tokens| ==> specs[k] == ParseToken(tokens[k])
  {
    seq(|tokens|, k requires 0 <= k < |tokens| => ParseToken(tokens[k]))
  }

  /** A token `name:kind` with a non-empty kind gives back its name and its kind. */
  lemma ParseNameAndKind(name: string, kind: string)
    requires ':' !in name && ':' !in kind && kind != ""
    ensures ParseToken(name + ":" + kind) == FieldSpec(Some(name), Some(kind))
  {
    FieldsOfPrefix(name, kind, ':');
    FieldsWithoutSeparator(kind, ':');
    assert Fields(name + ":" + kind, ':') == [name, kind];
  }

  /** A token without `:` is a field whose kind is nil; it is not an error. */
  lemma ParseBareToken(token: string)
    requires ':' !in token && token != ""
    ensures ParseToken(token) == FieldSpec(Some(token), None)
  {
    FieldsWithoutSeparator(token, ':');
  }

  /** The canonical kind name the fix writes. */
  const DateTimeKind := "DateTime"

  /** `kind =~ /datetime/i` */
  predicate MentionsDatetime(kind: string) {
    Occurs(kind, IgnoringCase("datetime"))
  }

  /** Reference reading of the same test: some stretch of the kind downcases to `datetime`. */
  ghost predicate HasDatetimeStretch(kind: string) {
    exists i, j :: 0 <= i <= j <= |kind| && Downcase(kind[i..j]) == "datetime"
  }

  lemma MatchesDatetimeAt(kind: string, i: int)
    requires 0 <= i && i + 8 <= |kind|
    ensures MatchesAt(kind, i, IgnoringCase("datetime")) <==> Downcase(kind[i..i + 8]) == "datetime"
  {
    var p := IgnoringCase("datetime");
    assert forall j :: 0 <= j < 8 ==> p[j] == AnyCase("datetime"[j]);
    if Downcase(kind[i..i + 8]) == "datetime" {
      forall j | 0 <= j < 8 ensures ClassHas(p[j], kind[i + j]) {
        assert Downcase(kind[i..i + 8])[j] == LowerChar(kind[i + j]);
      }
    }
    if MatchesAt(kind, i, p) {
      forall j | 0 <= j < 8 ensures Downcase(kind[i..i + 8])[j] == "datetime"[j] {
        assert ClassHas(p[j], kind[i + j]);
      }
    }
  }

  /** The regular-expression test and the reference reading agree on every kind. */
  lemma MentionsDatetimeIff(kind: string)
    ensures MentionsDatetime(kind) <==> HasDatetimeStretch(kind)
  {
    var p := IgnoringCase("datetime");
    if MentionsDatetime(kind) {
      var i :| 0 <= i <= |kind| && MatchesAt(kind, i, p);
      MatchesDatetimeAt(kind, i);
      assert Downcase(kind[i..i + 8]) == "datetime";
    }
    if HasDatetimeStretch(kind) {
      var i, j :| 0 <= i <= j <= |kind| && Downcase(kind[i..j]) == "datetime";
      assert j == i + 8;
      MatchesDatetimeAt(kind, i);
      assert MatchesAt(kind, i, p);
    }
  }

  /** The datetime fix for one pair: the field is kept, and so is every other kind, nil included. */
  function FixDatetime(spec: FieldSpec): (r: FieldSpec)
    ensures r.field == spec.field
    ensures spec.kind.Some? && HasDatetimeStretch(spec.kind.value) ==> r.kind == Some(DateTimeKind)
    ensures !(spec.kind.Some? && HasDatetimeStretch(spec.kind.value)) ==> r.kind == spec.kind
  {
    if spec.kind.Some? then
      MentionsDatetimeIff(spec.kind.value);
      if MentionsDatetime(spec.kind.value) then FieldSpec(spec.field, Some(DateTimeKind)) else spec
    else spec
  }

  /** The fix is idempotent: `DateTime` itself mentions datetime and is left as it is. */
  lemma FixDatetimeIdempotent(spec: FieldSpec)
    ensures FixDatetime(FixDatetime(spec)) == FixDatetime(spec)
  {
    assert Downcase(DateTimeKind[0..8]) == "datetime";
  }

  /** The fix applied to every pair, in order. */
  function FixAll(specs: seq<FieldSpec>): (r: seq<FieldSpec>)
    ensures |r| == |specs|
    ensures forall k :: 0 <= k < |specs| ==> r[k] == FixDatetime(specs[k])
  {
    seq(|specs|, k requires 0 <= k < |specs| => FixDatetime(specs[k]))
  }

  /** `field_tuples.collect! { |field, kind| ... }`: the datetime fix, applied in place, in order. */
  method FixDatetimeInPlace(tuples: array<FieldSpec>)
    modifies tuples
    ensures tuples[..] == FixAll(old(tuples[..]))
  {
    for k := 0 to tuples.Length
      invariant forall j :: 0 <= j < k ==> tuples[j] == FixDatetime(old(tuples[j]))
      invariant forall j :: k <= j < tuples.Length ==> tuples[j] == old(tuples[j])
    {
      tuples[k] := FixDatetime(tuples[k]);
    }
  }

  /** `collect(&format)`: each pair formatted, in order. */
  function Render(specs: seq<FieldSpec>, format: FieldSpec -> string): (r: seq<string>)
    ensures |r| == |specs|
    ensures forall k :: 0 <= k < |specs| ==> r[k] == format(specs[k])
  {
    seq(|specs|, k requires 0 <= k < |specs| => format(specs[k]))
  }

  /** The pairs the generators format: every token parsed, then fixed. */
  function NormalizedFields(tokens: seq<string>): seq<FieldSpec> {
    FixAll(ParseTokens(tokens))
  }

  /**
   * Each `name:kind` token becomes the pair of its name and its kind, with a
   * kind that mentions datetime in any letter case replaced by `DateTime`.
   */
  lemma NormalizedToken(name: string, kind: string)
    requires ':' !in name && ':' !in kind && kind != ""
    ensures FixDatetime(ParseToken(name + ":" + kind))
         == FieldSpec(Some(name), Some(if HasDatetimeStretch(kind) then DateTimeKind else kind))
  {
    ParseNameAndKind(name, kind);
  }

  lemma StringIsNoDatetime()
    ensures !HasDatetimeStretch("string")
  {
    forall i, j | 0 <= i <= j <= |"string"| ensures Downcase("string"[i..j]) != "datetime" {
      assert |Downcase("string"[i..j])| <= 6;
    }
  }

  lemma DatetimeIsDatetime()
    ensures HasDatetimeStretch("datetime")
  {
    var d := "datetime";
    assert forall k :: 0 <= k < |d| ==> LowerChar(d[k]) == d[k];
    assert d[0..8] == d;
    assert Downcase(d[0..8]) == d;
  }

  /** Scenario: `title:string` is the pair `(title, string)`. */
  lemma ScenarioTitle(token: string)
    requires token == "title:string"
    ensures FixDatetime(ParseToken(token)) == FieldSpec(Some("title"), Some("string"))
  {
    assert token == "title" + ":" + "string";
    NormalizedToken("title", "string");
    StringIsNoDatetime();
  }

  /** Scenario: `published_at:datetime` is the pair `(published_at, DateTime)`. */
  lemma ScenarioPublishedAt(token: string)
    requires token == "published_at:datetime"
    ensures FixDatetime(ParseToken(token)) == FieldSpec(Some("published_at"), Some(DateTimeKind))
  {
    assert token == "published_at" + ":" + "datetime";
    NormalizedToken("published_at", "datetime");
    DatetimeIsDatetime();
  }
}
