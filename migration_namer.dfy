/**
 * The name scan of a standalone migration: the camelized file name is
 * searched with `(Add|Remove)(?:.*?)(?:To|From)(.*?)$`, and the first match
 * gives the direction (its keyword, downcased) and the table (the text after
 * `To`/`From` up to the end of that line, downcased and pluralized).
 *
 * The regular expression is encoded directly: the leftmost start wins, `Add`
 * is tried before `Remove`, the lazy middle stops at the first `To` or `From`
 * and, having no `/m` flag, never crosses a line feed, and the lazy table
 * stops at the first `$`, which is the first line feed or the end of the text.
 */
module MigrationNamer {
  import opened Wrappers
  import opened RubyText

  datatype Direction = Add | Remove

  /** The keyword a direction is spelled with in a migration name. */
  function Keyword(d: Direction): string {
    match d
    case Add => "Add"
    case Remove => "Remove"
  }

  /** `migration_scan[0].downcase`. */
  function DirectionName(d: Direction): string {
    match d
    case Add => "add"
    case Remove => "remove"
  }

  /** The direction names are the keywords, downcased. */
  lemma DirectionNameIsDowncasedKeyword(d: Direction)
    ensures DirectionName(d) == Downcase(Keyword(d))
  {
    match d
    case Add =>
      assert LowerChar('A') == 'a';
    case Remove =>
      assert LowerChar('R') == 'r';
  }

  /** The two captures of the first match: the direction and the raw table text. */
  datatype NameScan = NameScan(direction: Direction, table: string)

  /**
   * The direction keyword at position `i`, `Add` tried first; the letters are
   * compared one by one.
   */
  function DirectionAt(s: string, i: int): (r: Option<Direction>)
    ensures r.Some? ==> 0 <= i && i + |Keyword(r.value)| <= |s|
  {
    if 0 <= i && i + 3 <= |s| && s[i] == 'A' && s[i + 1] == 'd' && s[i + 2] == 'd' then
      Some(Add)
    else if 0 <= i && i + 6 <= |s| && s[i] == 'R' && s[i + 1] == 'e' && s[i + 2] == 'm' &&
            s[i + 3] == 'o' && s[i + 4] == 'v' && s[i + 5] == 'e' then
      Some(Remove)
    else None
  }

  /** The length of the `To` or `From` at position `m`, or 0 when neither is there. */
  function ToFromLength(s: string, m: int): (n: nat)
    ensures n > 0 ==> 0 <= m && m + n <= |s|
  {
    if 0 <= m && m + 2 <= |s| && s[m] == 'T' && s[m + 1] == 'o' then
      2
    else if 0 <= m && m + 4 <= |s| && s[m] == 'F' && s[m + 1] == 'r' && s[m + 2] == 'o' && s[m + 3] == 'm' then
      4
    else 0
  }

  /** No line feed in `s[j..m]`: the stretch `.` may run over. */
  predicate OnOneLine(s: string, j: int, m: int)
    requires 0 <= j <= m <= |s|
  {
    forall k :: j <= k < m ==> s[k] != '\n'
  }

  /** Where `$` first matches at or after `j`: the next line feed, or the end of the text. */
  function LineEnd(s: string, j: nat): (e: nat)
    requires j <= |s|
    ensures j <= e <= |s|
    decreases |s| - j
  {
    if j == |s| || s[j] == '\n' then j else LineEnd(s, j + 1)
  }

  /** The line from `j` runs without a line feed up to its end, which is a line feed or the end of the text. */
  lemma {:induction false} LineEndIsFirstLineFeed(s: string, j: nat)
    requires j <= |s|
    ensures OnOneLine(s, j, LineEnd(s, j))
    ensures LineEnd(s, j) < |s| ==> s[LineEnd(s, j)] == '\n'
    decreases |s| - j
  {
    if j < |s| && s[j] != '\n' {
      LineEndIsFirstLineFeed(s, j + 1);
    }
  }

  /** The lazy `(?:.*?)(?:To|From)` from `j`: the first `To` or `From` on the same line. */
  function FindToFrom(s: string, j: nat): (r: Option<nat>)
    requires j <= |s|
    ensures r.Some? ==> j <= r.value <= |s|
    decreases |s| - j
  {
    if ToFromLength(s, j) > 0 then Some(j)
    else if j == |s| || s[j] == '\n' then None
    else FindToFrom(s, j + 1)
  }

  /**
   * The search finds a `To` or `From` on the line with none before it; when it
   * finds none, the line from `j` has none.
   */
  lemma {:induction false} FindToFromIsNearest(s: string, j: nat)
    requires j <= |s|
    ensures FindToFrom(s, j).Some? ==>
      OnOneLine(s, j, FindToFrom(s, j).value) && ToFromLength(s, FindToFrom(s, j).value) > 0
    ensures FindToFrom(s, j).Some? ==> forall m :: j <= m < FindToFrom(s, j).value ==> ToFromLength(s, m) == 0
    ensures FindToFrom(s, j).None? ==> forall m :: j <= m <= |s| && OnOneLine(s, j, m) ==> ToFromLength(s, m) == 0
    decreases |s| - j
  {
    if ToFromLength(s, j) == 0 && j < |s| && s[j] != '\n' {
      FindToFromIsNearest(s, j + 1);
    }
  }

  /** The match of the whole expression that starts at `i`, if there is one. */
  function ScanAt(s: string, i: nat): Option<NameScan>
    requires i <= |s|
  {
    match DirectionAt(s, i)
    case None => None
    case Some(d) =>
      match FindToFrom(s, i + |Keyword(d)|)
      case None => None
      case Some(m) =>
        var t := m + ToFromLength(s, m);
        Some(NameScan(d, s[t..LineEnd(s, t)]))
  }

  /** Where the first match starting at `i` or later starts. */
  function FirstMatchStart(s: string, i: nat): (r: Option<nat>)
    requires i <= |s|
    ensures r.Some? ==> i <= r.value <= |s|
    decreases |s| - i
  {
    if ScanAt(s, i).Some? then Some(i)
    else if i == |s| then None
    else FirstMatchStart(s, i + 1)
  }

  /** The start found is a match. */
  lemma {:induction false} FirstMatchStartIsMatch(s: string, i: nat)
    requires i <= |s|
    ensures FirstMatchStart(s, i).Some? ==> ScanAt(s, FirstMatchStart(s, i).value).Some?
    decreases |s| - i
  {
    if i < |s| && ScanAt(s, i).None? {
      FirstMatchStartIsMatch(s, i + 1);
    }
  }

  /** No match starts between `i` and the start found; with none found, none starts from `i` on. */
  lemma {:induction false} FirstMatchStartIsFirst(s: string, i: nat)
    requires i <= |s|
    ensures FirstMatchStart(s, i).Some? ==>
      forall k :: i <= k < FirstMatchStart(s, i).value ==> ScanAt(s, k).None?
    ensures FirstMatchStart(s, i).None? ==> forall k :: i <= k <= |s| ==> ScanAt(s, k).None?
    decreases |s| - i
  {
    if i < |s| && ScanAt(s, i).None? {
      FirstMatchStartIsFirst(s, i + 1);
    }
  }

  /** `name.scan(...)`, reduced to its first match, the only one the generator reads. */
  function MigrationScan(s: string): (r: Option<NameScan>)
    ensures r.None? <==> forall k :: 0 <= k <= |s| ==> ScanAt(s, k).None?
    ensures r.Some? ==> exists k :: 0 <= k <= |s| && r == ScanAt(s, k)
  {
    FirstMatchStartIsMatch(s, 0);
    FirstMatchStartIsFirst(s, 0);
    match FirstMatchStart(s, 0)
    case None => None
    case Some(i) => ScanAt(s, i)
  }

  /**
   * Reference reading of "the expression matches at `i` with its `To`/`From` at
   * `m`": a keyword at `i`, then `To` or `From` at `m` on the same line.
   */
  ghost predicate MatchWith(s: string, i: int, m: int) {
    0 <= i <= |s| && DirectionAt(s, i).Some? &&
    i + |Keyword(DirectionAt(s, i).value)| <= m <= |s| &&
    OnOneLine(s, i + |Keyword(DirectionAt(s, i).value)|, m) &&
    ToFromLength(s, m) > 0
  }

  /** What a match at `i` with its `To`/`From` at `m` captures. */
  ghost function Captured(s: string, i: int, m: int): NameScan
    requires MatchWith(s, i, m)
  {
    var t := m + ToFromLength(s, m);
    NameScan(DirectionAt(s, i).value, s[t..LineEnd(s, t)])
  }

  lemma ScanAtSound(s: string, i: nat)
    requires i <= |s|
    ensures ScanAt(s, i).None? <==> forall m :: !MatchWith(s, i, m)
    ensures ScanAt(s, i).Some? ==>
      exists m :: MatchWith(s, i, m) && ScanAt(s, i) == Some(Captured(s, i, m)) &&
                  forall m' :: m' < m ==> !MatchWith(s, i, m')
  {
    match DirectionAt(s, i)
    case None =>
    case Some(d) =>
      var j := i + |Keyword(d)|;
      FindToFromIsNearest(s, j);
      match FindToFrom(s, j)
      case None =>
        forall m ensures !MatchWith(s, i, m) {
          if j <= m <= |s| && OnOneLine(s, j, m) {
            assert ToFromLength(s, m) == 0;
          }
        }
      case Some(m) =>
        assert MatchWith(s, i, m);
        assert ScanAt(s, i) == Some(Captured(s, i, m));
        forall m' | m' < m ensures !MatchWith(s, i, m') {
          if j <= m' {
            assert ToFromLength(s, m') == 0;
          }
        }
  }

  /** With no match anywhere the scan finds nothing, and when it finds something there is a match. */
  lemma ScanNoneIff(s: string)
    ensures MigrationScan(s).None? <==> forall i, m :: !MatchWith(s, i, m)
  {
    FirstMatchStartIsMatch(s, 0);
    FirstMatchStartIsFirst(s, 0);
    if MigrationScan(s).None? {
      forall i, m ensures !MatchWith(s, i, m) {
        if 0 <= i <= |s| {
          ScanAtSound(s, i);
        }
      }
    } else {
      ScanAtSound(s, FirstMatchStart(s, 0).value);
    }
  }

  /**
   * A scan that finds something returns the captures of the leftmost match,
   * with the nearest `To`/`From` after its keyword.
   */
  lemma ScanIsLeftmostShortest(s: string)
    requires MigrationScan(s).Some?
    ensures exists i, m :: MatchWith(s, i, m) && MigrationScan(s) == Some(Captured(s, i, m)) &&
                           (forall i', m' :: i' < i ==> !MatchWith(s, i', m')) &&
                           (forall m' :: m' < m ==> !MatchWith(s, i, m'))
  {
    var i := FirstMatchStart(s, 0).value;
    FirstMatchStartIsMatch(s, 0);
    FirstMatchStartIsFirst(s, 0);
    ScanAtSound(s, i);
    var m :| MatchWith(s, i, m) && ScanAt(s, i) == Some(Captured(s, i, m)) &&
             forall m' :: m' < m ==> !MatchWith(s, i, m');
    forall i', m' | i' < i ensures !MatchWith(s, i', m') {
      if 0 <= i' {
        ScanAtSound(s, i');
      }
    }
  }

  /** No keyword of the expression starts inside a text without `T`, `F` and line feeds. */
  lemma PlainMiddle(s: string, j: nat, n: nat)
    requires j + n <= |s|
    requires forall k :: j <= k < j + n ==> s[k] != 'T' && s[k] != 'F' && s[k] != '\n'
    ensures OnOneLine(s, j, j + n)
    ensures forall m :: j <= m < j + n ==> ToFromLength(s, m) == 0
  {
    forall m | j <= m < j + n ensures ToFromLength(s, m) == 0 {
      assert s[m] != 'T' && s[m] != 'F';
    }
  }

  lemma DirectionAtKeyword(d: Direction, rest: string)
    ensures DirectionAt(Keyword(d) + rest, 0) == Some(d)
  {
    var s := Keyword(d) + rest;
    forall k | 0 <= k < |Keyword(d)| ensures s[k] == Keyword(d)[k] {
    }
  }

  /** The lazy search stops at the first `To` or `From` on the line. */
  lemma {:induction false} FindToFromStops(s: string, j: nat, m: nat)
    requires j <= m <= |s| && OnOneLine(s, j, m)
    requires forall k :: j <= k < m ==> ToFromLength(s, k) == 0
    requires ToFromLength(s, m) > 0
    ensures FindToFrom(s, j) == Some(m)
    decreases m - j
  {
    if j < m {
      FindToFromStops(s, j + 1, m);
    }
  }

  lemma FindLink(a: string, middle: string, link: string, b: string)
    requires link == "To" || link == "From"
    requires forall k :: 0 <= k < |middle| ==> middle[k] != 'T' && middle[k] != 'F' && middle[k] != '\n'
    ensures FindToFrom(a + middle + link + b, |a|) == Some(|a| + |middle|)
    ensures ToFromLength(a + middle + link + b, |a| + |middle|) == |link|
  {
    var s := a + middle + link + b;
    var m := |a| + |middle|;
    forall k | 0 <= k < |link| ensures s[m + k] == link[k] {
      assert s == (a + middle) + link + b;
    }
    if link == "To" {
      assert s[m + 0] == 'T' && s[m + 1] == 'o';
    } else {
      assert s[m + 0] == 'F' && s[m + 1] == 'r' && s[m + 2] == 'o' && s[m + 3] == 'm';
    }
    assert ToFromLength(s, m) == |link|;
    assert forall k :: |a| <= k < m ==> s[k] == middle[k - |a|];
    PlainMiddle(s, |a|, |middle|);
    FindToFromStops(s, |a|, m);
  }

  /** With no line feed from `j` on, the line runs to the end of the text. */
  lemma {:induction false} LineEndWithoutLineFeed(s: string, j: nat)
    requires j <= |s|
    requires forall k :: j <= k < |s| ==> s[k] != '\n'
    ensures LineEnd(s, j) == |s|
    decreases |s| - j
  {
    if j < |s| {
      LineEndWithoutLineFeed(s, j + 1);
    }
  }

  lemma LineEndOfLastLine(a: string, table: string)
    requires '\n' !in table
    ensures LineEnd(a + table, |a|) == |a + table|
  {
    var s := a + table;
    forall k | |a| <= k < |s| ensures s[k] != '\n' {
      assert s[k] == table[k - |a|];
    }
    LineEndWithoutLineFeed(s, |a|);
  }

  lemma ScanAtParts(s: string, i: nat, d: Direction, m: nat, t: nat)
    requires i + |Keyword(d)| <= |s|
    requires DirectionAt(s, i) == Some(d)
    requires FindToFrom(s, i + |Keyword(d)|) == Some(m)
    requires t == m + ToFromLength(s, m) && t <= |s|
    ensures ScanAt(s, i) == Some(NameScan(d, s[t..LineEnd(s, t)]))
  {
  }

  lemma ScanMatchingAtStart(s: string)
    requires ScanAt(s, 0).Some?
    ensures MigrationScan(s) == ScanAt(s, 0)
  {
  }

  /**
   * `<Keyword><middle><To|From><table>` with a middle free of `T`, `F` and
   * line feeds and a one-line table scans to that keyword's direction and that
   * table.
   */
  lemma ScanOfConventionalName(d: Direction, middle: string, link: string, table: string)
    requires link == "To" || link == "From"
    requires forall k :: 0 <= k < |middle| ==> middle[k] != 'T' && middle[k] != 'F' && middle[k] != '\n'
    requires '\n' !in table
    ensures MigrationScan(Keyword(d) + middle + link + table) == Some(NameScan(d, table))
  {
    var kw := Keyword(d);
    var s := kw + middle + link + table;
    var m := |kw| + |middle|;
    var t := m + |link|;
    assert DirectionAt(s, 0) == Some(d) by {
      DirectionAtKeyword(d, middle + link + table);
      assert kw + (middle + link + table) == s;
    }
    assert FindToFrom(s, |kw|) == Some(m) && ToFromLength(s, m) == |link| by {
      FindLink(kw, middle, link, table);
    }
    assert LineEnd(s, t) == |s| && s[t..] == table by {
      assert s == (kw + middle + link) + table;
      LineEndOfLastLine(kw + middle + link, table);
    }
    assert s[t..LineEnd(s, t)] == table;
    ScanAtParts(s, 0, d, m, t);
    ScanMatchingAtStart(s);
    assert MigrationScan(s) == Some(NameScan(d, table));
  }

  /** A name with neither an `A` nor an `R` has no match: no direction and no table. */
  lemma ScanWithoutKeyword(s: string)
    requires 'A' !in s && 'R' !in s
    ensures MigrationScan(s) == None
  {
    forall i | 0 <= i <= |s| ensures ScanAt(s, i).None? {
      assert i < |s| ==> s[i] != 'A' && s[i] != 'R';
    }
    FirstMatchStartIsMatch(s, 0);
    FirstMatchStartIsFirst(s, 0);
    assert FirstMatchStart(s, 0).None?;
  }

  /** Scenario: `AddEmailToUsers` adds to the table `Users`. */
  lemma ScenarioAddEmailToUsers(name: string)
    requires name == "AddEmailToUsers"
    ensures MigrationScan(name) == Some(NameScan(Add, "Users"))
  {
    assert name == Keyword(Add) + "Email" + "To" + "Users";
    ScanOfConventionalName(Add, "Email", "To", "Users");
  }

  /** `direction, table_name = ...` : the downcased keyword and the downcased, pluralized table, or nil for both. */
  function DirectionAndTable(s: string, pluralize: string -> string): (r: (Option<string>, Option<string>))
    ensures r.0.Some? <==> r.1.Some?
  {
    match MigrationScan(s)
    case None => (None, None)
    case Some(scan) => (Some(DirectionName(scan.direction)), Some(pluralize(Downcase(scan.table))))
  }

  /**
   * For a conventional name the direction is the downcased keyword and the
   * table is the text after `To`/`From`, downcased and then pluralized.
   */
  lemma DirectionAndTableOfName(d: Direction, middle: string, link: string, table: string,
                                pluralize: string -> string)
    requires link == "To" || link == "From"
    requires forall k :: 0 <= k < |middle| ==> middle[k] != 'T' && middle[k] != 'F' && middle[k] != '\n'
    requires '\n' !in table
    ensures DirectionAndTable(Keyword(d) + middle + link + table, pluralize)
         == (Some(Downcase(Keyword(d))), Some(pluralize(Downcase(table))))
  {
    ScanOfConventionalName(d, middle, link, table);
    DirectionNameIsDowncasedKeyword(d);
  }

}
