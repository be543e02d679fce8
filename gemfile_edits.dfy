/**
 * Adding gems to the Gemfile: `insert_into_gemfile` builds the `gem` line and
 * the anchor after which it goes, records both in the options hash it was
 * given, and injects the line after every occurrence of the anchor;
 * `require_dependencies` does that for each gem name, last name first.
 *
 * The Gemfile is held as its lines (the text split at line feeds, so only the
 * last line is not followed by one). The anchor ends with a line feed, so it
 * occurs exactly where a line that is not the last ends with the anchor text.
 */
module GemfileEdits {
  import opened Wrappers
  import opened RubyText

  /** A value in the options hash: a symbol, a string, `true`/`false` or nil. */
  datatype Value = Sym(name: string) | Str(text: string) | Bool(b: bool) | Nil

  /** Ruby truthiness of `options[key]`: a missing key reads as nil, and only nil and false are false. */
  predicate Truthy(v: Option<Value>) {
    v.Some? && v.value != Nil && v.value != Bool(false)
  }

  /** `to_s`. */
  function ToS(v: Value): string {
    match v
    case Sym(n) => n
    case Str(t) => t
    case Bool(b) => if b then "true" else "false"
    case Nil => ""
  }

  /** The body of a double-quoted string literal: `"` and `\` get a backslash. */
  function Escape(s: string): (r: string)
    ensures |r| >= |s|
  {
    if s == [] then ""
    else if s[0] == '"' || s[0] == '\\' then ['\\', s[0]] + Escape(s[1..])
    else [s[0]] + Escape(s[1..])
  }

  /** Reading the body of a literal back: a backslash takes the next character as it is. */
  function Unescape(s: string): string
    decreases |s|
  {
    if s == [] then ""
    else if s[0] == '\\' && |s| >= 2 then [s[1]] + Unescape(s[2..])
    else [s[0]] + Unescape(s[1..])
  }

  /** The escaped body reads back as the original text. */
  lemma {:induction false} EscapeRoundTrip(s: string)
    ensures Unescape(Escape(s)) == s
  {
    if s != [] {
      EscapeRoundTrip(s[1..]);
      var e := Escape(s);
      if s[0] == '"' || s[0] == '\\' {
        assert e[2..] == Escape(s[1..]);
      } else {
        assert e[1..] == Escape(s[1..]);
      }
      assert s == [s[0]] + s[1..];
    }
  }

  /** `inspect`. */
  function Inspect(v: Value): (r: string)
    ensures v.Str? ==> |r| >= 2 && r[0] == '"' && r[|r| - 1] == '"' && Unescape(r[1..|r| - 1]) == v.text
    ensures v.Sym? ==> r == ":" + v.name
  {
    match v
    case Sym(n) => ":" + n
    case Str(t) =>
      EscapeRoundTrip(t);
      var r := "\"" + Escape(t) + "\"";
      assert r[1..|r| - 1] == Escape(t);
      r
    case Bool(b) => if b then "true" else "false"
    case Nil => "nil"
  }

  function UpperChar(c: char): char {
    if 'a' <= c <= 'z' then (c as int - 32) as char else c
  }

  /** `String#capitalize`: the first character upcased, the rest downcased. */
  function Capitalize(s: string): (r: string)
    ensures |r| == |s|
    ensures |s| > 0 ==> r[0] == UpperChar(s[0]) && r[1..] == Downcase(s[1..])
  {
    if s == [] then "" else [UpperChar(s[0])] + Downcase(s[1..])
  }

  // ------------------------------------------------------------ gem line text

  /** The anchor line: `"<Only> requirements"` for a truthy `:only`, else `"Component requirements"`. */
  function AnchorLine(only: Option<Value>): string {
    if Truthy(only) then Capitalize(ToS(only.value)) + " requirements" else "Component requirements"
  }

  /** `after_pattern`: the anchor line with its line feed. */
  function AfterPattern(only: Option<Value>): string {
    AnchorLine(only) + "\n"
  }

  /**
   * `options.slice(:only, :require_as)` rendered as `key.inspect => value.inspect`
   * pairs: a key that is present is rendered even when its value is nil.
   */
  function GemOptionPairs(only: Option<Value>, requireAs: Option<Value>): (pairs: seq<string>)
    ensures |pairs| == (if only.Some? then 1 else 0) + (if requireAs.Some? then 1 else 0)
  {
    (if only.Some? then [":only => " + Inspect(only.value)] else []) +
    (if requireAs.Some? then [":require_as => " + Inspect(requireAs.value)] else [])
  }

  function GemOptionsText(only: Option<Value>, requireAs: Option<Value>): string {
    Join(GemOptionPairs(only, requireAs), ", ")
  }

  /** `present?` on a string: some character that is not whitespace. */
  predicate Present(s: string) {
    exists i :: 0 <= i < |s| && !IsRegexSpace(s[i])
  }

  /** The gem options are written out exactly when `:only` or `:require_as` is given. */
  lemma GemOptionsPresent(only: Option<Value>, requireAs: Option<Value>)
    ensures Present(GemOptionsText(only, requireAs)) <==> only.Some? || requireAs.Some?
  {
    var pairs := GemOptionPairs(only, requireAs);
    var text := GemOptionsText(only, requireAs);
    if |pairs| == 2 {
      assert pairs[1..] == [pairs[1]];
      assert Join(pairs[1..], ", ") == pairs[1];
      assert text == pairs[0] + ", " + pairs[1];
    }
    if |pairs| > 0 {
      assert pairs[0][0] == ':';
      assert text[0] == ':';
    }
  }

  /** The `gem` line `include_text` holds, without its line feed. */
  function GemLine(name: string, only: Option<Value>, requireAs: Option<Value>): string {
    var gemOptions := GemOptionsText(only, requireAs);
    "gem '" + name + "'" + (if Present(gemOptions) then ", " + gemOptions else "")
  }

  /** `include_text`. */
  function IncludeText(name: string, only: Option<Value>, requireAs: Option<Value>): string {
    GemLine(name, only, requireAs) + "\n"
  }

  /** With `:only => :sym` the line carries the option and goes under `"<Sym> requirements"`. */
  lemma GemLineOnlySymbol(name: string, sym: string)
    ensures GemLine(name, Some(Sym(sym)), None) == "gem '" + name + "', :only => :" + sym
    ensures AfterPattern(Some(Sym(sym))) == Capitalize(sym) + " requirements\n"
  {
    GemOptionsPresent(Some(Sym(sym)), None);
    assert GemOptionsText(Some(Sym(sym)), None) == ":only => :" + sym;
  }

  lemma CapitalizeTesting()
    ensures Capitalize("testing") == "Testing"
  {
    assert "testing"[1..] == "esting";
    assert Downcase("esting") == "esting";
  }

  /** Scenario: without options the line is bare and goes under the component requirements. */
  lemma GemLineWithoutOptions(name: string)
    ensures GemLine(name, None, None) == "gem '" + name + "'"
    ensures AfterPattern(None) == "Component requirements\n"
  {
    GemOptionsPresent(None, None);
  }

  // -------------------------------------------------------------- the Gemfile

  predicate EndsWith(line: string, suffix: string) {
    |suffix| <= |line| && line[|line| - |suffix|..] == suffix
  }

  /** Line `i` is followed by a line feed and ends with the anchor text: the anchor occurs there. */
  predicate Anchored(lines: seq<string>, i: int, anchor: string) {
    0 <= i < |lines| - 1 && EndsWith(lines[i], anchor)
  }

  /** The new line put after every line the anchor ends. */
  function InsertAfterAnchor(lines: seq<string>, anchor: string, line: string): seq<string>
  {
    if |lines| <= 1 then lines
    else if EndsWith(lines[0], anchor) then [lines[0], line] + InsertAfterAnchor(lines[1..], anchor, line)
    else [lines[0]] + InsertAfterAnchor(lines[1..], anchor, line)
  }

  /** Lines are only added: the first and the last line stay where they were. */
  lemma {:induction false} InsertAfterAnchorKeepsEnds(lines: seq<string>, anchor: string, line: string)
    ensures |InsertAfterAnchor(lines, anchor, line)| >= |lines|
    ensures |lines| > 0 ==> var r := InsertAfterAnchor(lines, anchor, line);
      |r| > 0 && r[0] == lines[0] && r[|r| - 1] == lines[|lines| - 1]
  {
    if |lines| > 1 {
      InsertAfterAnchorKeepsEnds(lines[1..], anchor, line);
    }
  }

  /** Without an anchor the Gemfile is left as it is. */
  lemma {:induction false} InsertWithoutAnchor(lines: seq<string>, anchor: string, line: string)
    requires forall i :: 0 <= i < |lines| ==> !Anchored(lines, i, anchor)
    ensures InsertAfterAnchor(lines, anchor, line) == lines
  {
    if |lines| > 1 {
      assert !Anchored(lines, 0, anchor);
      forall i | 0 <= i < |lines[1..]| ensures !Anchored(lines[1..], i, anchor) {
        assert !Anchored(lines, i + 1, anchor);
      }
      InsertWithoutAnchor(lines[1..], anchor, line);
      assert lines == [lines[0]] + lines[1..];
    }
  }

  /** With one anchor the new line goes right after it and nothing else moves. */
  lemma {:induction false} InsertAfterOneAnchor(pre: seq<string>, a: string, post: seq<string>,
                                                anchor: string, line: string)
    requires forall i :: 0 <= i < |pre| ==> !EndsWith(pre[i], anchor)
    requires EndsWith(a, anchor) && |post| > 0
    requires forall i :: 0 <= i < |post| ==> !Anchored(post, i, anchor)
    ensures InsertAfterAnchor(pre + [a] + post, anchor, line) == pre + [a, line] + post
    decreases |pre|
  {
    var lines := pre + [a] + post;
    if pre == [] {
      assert lines == [a] + post;
      assert lines[1..] == post;
      InsertWithoutAnchor(post, anchor, line);
      assert InsertAfterAnchor(lines, anchor, line) == [a, line] + InsertAfterAnchor(post, anchor, line);
    } else {
      assert lines[0] == pre[0] && !EndsWith(pre[0], anchor);
      assert lines[1..] == pre[1..] + [a] + post;
      assert InsertAfterAnchor(lines, anchor, line) == [pre[0]] + InsertAfterAnchor(lines[1..], anchor, line);
      InsertAfterOneAnchor(pre[1..], a, post, anchor, line);
      assert pre + [a, line] + post == [pre[0]] + (pre[1..] + [a, line] + post);
    }
  }

  /** Options the generator is given; `content` and `after` are written by `insert_into_gemfile`. */
  class GemOptions {
    var only: Option<Value>
    var requireAs: Option<Value>
    var content: Option<string>
    var after: Option<string>

    constructor (only: Option<Value>, requireAs: Option<Value>)
      ensures this.only == only && this.requireAs == requireAs
      ensures content == None && after == None
    {
      this.only := only;
      this.requireAs := requireAs;
      content := None;
      after := None;
    }
  }

  class Gemfile {
    var lines: seq<string>

    constructor (lines: seq<string>)
      ensures this.lines == lines
    {
      this.lines := lines;
    }
  }

  /**
   * `insert_into_gemfile(name, options)`: `options` gets the `gem` line as
   * `:content` and the anchor as `:after` (`merge!`), and the line is put
   * after every occurrence of the anchor.
   */
  method InsertIntoGemfile(name: string, options: GemOptions, gemfile: Gemfile)
    modifies options, gemfile
    ensures options.only == old(options.only) && options.requireAs == old(options.requireAs)
    ensures options.content == Some(IncludeText(name, options.only, options.requireAs))
    ensures options.after == Some(AfterPattern(options.only))
    ensures gemfile.lines == InsertAfterAnchor(old(gemfile.lines), AnchorLine(options.only),
                                               GemLine(name, options.only, options.requireAs))
  {
    var afterPattern := AfterPattern(options.only);
    var gemOptions := GemOptionsText(options.only, options.requireAs);
    var includeText := "gem '" + name + "'" + (if Present(gemOptions) then ", " + gemOptions else "") + "\n";
    options.content := Some(includeText);
    options.after := Some(afterPattern);
    var anchor := afterPattern[..|afterPattern| - 1];
    var line := includeText[..|includeText| - 1];
    assert anchor == AnchorLine(options.only);
    assert line == GemLine(name, options.only, options.requireAs);
    gemfile.lines := InsertAfterAnchor(gemfile.lines, anchor, line);
  }

  function Reverse(names: seq<string>): (r: seq<string>)
    ensures |r| == |names|
    ensures forall k :: 0 <= k < |names| ==> r[k] == names[|names| - 1 - k]
  {
    seq(|names|, k requires 0 <= k < |names| => names[|names| - 1 - k])
  }

  /** The lines after inserting the gems one after the other, in the order given. */
  function InsertEach(lines: seq<string>, names: seq<string>, anchor: string,
                      only: Option<Value>, requireAs: Option<Value>): seq<string>
    decreases |names|
  {
    if names == [] then lines
    else InsertEach(InsertAfterAnchor(lines, anchor, GemLine(names[0], only, requireAs)), names[1..],
                    anchor, only, requireAs)
  }

  /** `require_dependencies(*gem_names, options)`: every gem inserted, the last name first. */
  method RequireDependencies(names: seq<string>, options: GemOptions, gemfile: Gemfile)
    modifies options, gemfile
    ensures options.only == old(options.only) && options.requireAs == old(options.requireAs)
    ensures gemfile.lines == InsertEach(old(gemfile.lines), Reverse(names), AnchorLine(options.only),
                                        options.only, options.requireAs)
    ensures |names| > 0 ==> options.content == Some(IncludeText(names[0], options.only, options.requireAs))
    ensures |names| > 0 ==> options.after == Some(AfterPattern(options.only))
    ensures names == [] ==> options.content == old(options.content) && options.after == old(options.after)
  {
    var reversed := Reverse(names);
    var k := 0;
    while k < |reversed|
      invariant 0 <= k <= |reversed|
      invariant options.only == old(options.only) && options.requireAs == old(options.requireAs)
      invariant InsertEach(gemfile.lines, reversed[k..], AnchorLine(options.only), options.only, options.requireAs)
             == InsertEach(old(gemfile.lines), reversed, AnchorLine(options.only), options.only, options.requireAs)
      invariant k > 0 ==> options.content == Some(IncludeText(reversed[k - 1], options.only, options.requireAs))
      invariant k > 0 ==> options.after == Some(AfterPattern(options.only))
      invariant k == 0 ==> options.content == old(options.content) && options.after == old(options.after)
    {
      InsertIntoGemfile(reversed[k], options, gemfile);
      assert reversed[k..][1..] == reversed[k + 1..];
      k := k + 1;
    }
  }

  /** The `gem` lines of the names, in the order given. */
  function GemLines(names: seq<string>, only: Option<Value>, requireAs: Option<Value>): (r: seq<string>)
    ensures |r| == |names|
    ensures forall k :: 0 <= k < |names| ==> r[k] == GemLine(names[k], only, requireAs)
  {
    seq(|names|, k requires 0 <= k < |names| => GemLine(names[k], only, requireAs))
  }

  lemma ReverseInit(names: seq<string>)
    requires |names| > 0
    ensures Reverse(names)[0] == names[|names| - 1]
    ensures Reverse(names)[1..] == Reverse(names[..|names| - 1])
  {
  }

  lemma GemLinesSnoc(names: seq<string>, only: Option<Value>, requireAs: Option<Value>)
    requires |names| > 0
    ensures GemLines(names, only, requireAs)
         == GemLines(names[..|names| - 1], only, requireAs) + [GemLine(names[|names| - 1], only, requireAs)]
  {
  }

  /** A line that the anchor does not end keeps the lines below it free of anchors. */
  lemma PrependUnanchored(line: string, post: seq<string>, anchor: string)
    requires !EndsWith(line, anchor)
    requires forall i :: 0 <= i < |post| ==> !Anchored(post, i, anchor)
    ensures forall i :: 0 <= i < |[line] + post| ==> !Anchored([line] + post, i, anchor)
  {
    var post' := [line] + post;
    forall i | 0 <= i < |post'| ensures !Anchored(post', i, anchor) {
      if i > 0 {
        assert post'[i] == post[i - 1];
        assert !Anchored(post, i - 1, anchor);
      }
    }
  }

  /** The first gem inserted is the last name, and it lands right under the anchor. */
  lemma InsertLastGem(pre: seq<string>, a: string, post: seq<string>, names: seq<string>,
                      only: Option<Value>, requireAs: Option<Value>, anchor: string)
    requires forall i :: 0 <= i < |pre| ==> !EndsWith(pre[i], anchor)
    requires EndsWith(a, anchor) && |post| > 0
    requires forall i :: 0 <= i < |post| ==> !Anchored(post, i, anchor)
    requires |names| > 0
    ensures var n := |names| - 1;
      InsertEach(pre + [a] + post, Reverse(names), anchor, only, requireAs)
        == InsertEach(pre + [a] + ([GemLine(names[n], only, requireAs)] + post), Reverse(names[..n]),
                      anchor, only, requireAs)
  {
    var n := |names| - 1;
    var last := GemLine(names[n], only, requireAs);
    var lines, reversed := pre + [a] + post, Reverse(names);
    var inserted := InsertAfterAnchor(lines, anchor, last);
    assert inserted == pre + [a] + ([last] + post) by {
      InsertAfterOneAnchor(pre, a, post, anchor, last);
      assert pre + [a, last] + post == pre + [a] + ([last] + post);
    }
    assert reversed[0] == names[n] && reversed[1..] == Reverse(names[..n]) by {
      ReverseInit(names);
    }
    assert InsertEach(lines, reversed, anchor, only, requireAs)
        == InsertEach(inserted, reversed[1..], anchor, only, requireAs);
  }

  /**
   * Inserting last name first, each right after the single anchor, leaves
   * the gems below the anchor in the order they were given.
   */
  lemma {:induction false} RequireDependenciesKeepOrder(pre: seq<string>, a: string, post: seq<string>,
                                                        names: seq<string>, only: Option<Value>,
                                                        requireAs: Option<Value>, anchor: string)
    requires anchor == AnchorLine(only)
    requires forall i :: 0 <= i < |pre| ==> !EndsWith(pre[i], anchor)
    requires EndsWith(a, anchor) && |post| > 0
    requires forall i :: 0 <= i < |post| ==> !Anchored(post, i, anchor)
    requires forall k :: 0 <= k < |names| ==> !EndsWith(GemLine(names[k], only, requireAs), anchor)
    ensures InsertEach(pre + [a] + post, Reverse(names), anchor, only, requireAs)
         == pre + [a] + GemLines(names, only, requireAs) + post
    decreases |names|
  {
    if names != [] {
      var n := |names| - 1;
      var last := GemLine(names[n], only, requireAs);
      var post' := [last] + post;
      InsertLastGem(pre, a, post, names, only, requireAs, anchor);
      PrependUnanchored(last, post, anchor);
      RequireDependenciesKeepOrder(pre, a, post', names[..n], only, requireAs, anchor);
      GemLinesSnoc(names, only, requireAs);
      assert pre + [a] + GemLines(names[..n], only, requireAs) + post'
          == pre + [a] + GemLines(names, only, requireAs) + post;
    }
  }
}
