/** Adding the defaults of newer columns to older INSERT statements. */
module SqlDefaults {
  import opened Scanning

  /** A column that may be missing from an INSERT, and the value it then gets. */
  datatype Default = Default(column: string, value: string)
  type Defaults = map<string, seq<Default>>

  /** The classes \s and \w of regular expressions, and the two keywords. */
  datatype Grammar = Grammar(space: char -> bool, word: char -> bool, insert: string, values: string)

  function Sql(space: char -> bool, word: char -> bool): Grammar {
    Grammar(space, word, "INSERT INTO ", "VALUES")
  }

  // ----- taking text apart

  predicate NotComma(c: char) { c != ',' }

  predicate NotClose(c: char) { c != ')' }

  /** s.split(','). */
  function SplitCommas(s: string): seq<string>
    decreases |s|
  {
    var piece := TakeWhile(NotComma, s);
    if |piece| == |s| then [s] else [piece] + SplitCommas(s[|piece| + 1..])
  }

  lemma SplitOnce(piece: string, rest: string)
    requires forall i | 0 <= i < |piece| :: piece[i] != ','
    ensures SplitCommas(piece + "," + rest) == [piece] + SplitCommas(rest)
    ensures SplitCommas(piece) == [piece]
  {
    var s := piece + "," + rest;
    assert s == piece + ("," + rest) && piece + "" == piece;
    TakeWhileIs(NotComma, piece, "," + rest);
    TakeWhileIs(NotComma, piece, "");
    assert TakeWhile(NotComma, s) == piece && TakeWhile(NotComma, piece) == piece;
    assert s[|piece| + 1..] == rest;
  }

  lemma CommaAgain(piece: string, rest: string, b: string)
    ensures piece + "," + rest + "," + b == piece + "," + (rest + "," + b)
  {
  }

  lemma FirstComma(s: string)
    ensures var piece := TakeWhile(NotComma, s);
      if |piece| == |s| then s == piece else s == piece + "," + s[|piece| + 1..]
  {
  }

  lemma {:induction false} SplitCommasAppend(a: string, b: string)
    ensures SplitCommas(a + "," + b) == SplitCommas(a) + SplitCommas(b)
    decreases |a|
  {
    var piece := TakeWhile(NotComma, a);
    FirstComma(a);
    if |piece| == |a| {
      SplitOnce(a, b);
    } else {
      var rest := a[|piece| + 1..];
      SplitRest(piece, rest, b);
      SplitCommasAppend(rest, b);
      SplitTogether(piece, SplitCommas(rest), SplitCommas(b));
    }
  }

  lemma SplitTogether(piece: string, more: seq<string>, others: seq<string>)
    ensures [piece] + (more + others) == [piece] + more + others
  {
  }

  lemma SplitRest(piece: string, rest: string, b: string)
    requires forall i | 0 <= i < |piece| :: piece[i] != ','
    ensures SplitCommas(piece + "," + rest) == [piece] + SplitCommas(rest)
    ensures SplitCommas(piece + "," + rest + "," + b) == [piece] + SplitCommas(rest + "," + b)
  {
    SplitOnce(piece, rest);
    SplitOnce(piece, rest + "," + b);
    CommaAgain(piece, rest, b);
  }

  // ----- one INSERT

  /** A part of a regular expression: kind*, kind+, or a literal. */
  datatype Token = Many(kind: char -> bool) | Some(kind: char -> bool) | Literal(text: string)

  datatype Parsed = NoMatch | Parsed(pieces: seq<string>, rest: string)

  function Before(piece: string, p: Parsed): Parsed {
    if p.NoMatch? then NoMatch else Parsed([piece] + p.pieces, p.rest)
  }

  /** re.match of a concatenation whose repetitions end where the next part begins. */
  function Parse(tokens: seq<Token>, s: string): Parsed
    decreases |tokens|
  {
    if |tokens| == 0 then Parsed([], s)
    else if tokens[0].Literal? then
      if StartsWith(s, tokens[0].text) then Before(tokens[0].text, Parse(tokens[1..], s[|tokens[0].text|..])) else NoMatch
    else
      var piece := TakeWhile(tokens[0].kind, s);
      if tokens[0].Some? && |piece| == 0 then NoMatch else Before(piece, Parse(tokens[1..], s[|piece|..]))
  }

  const TABLE := 2
  const COLUMNS := 5

  /** \s*INSERT INTO (\w+)\s*\(([^)]*)\)\s*VALUES */
  function InsertTokens(g: Grammar): (tokens: seq<Token>)
    ensures |tokens| == 9
  {
    [Many(g.space), Literal(g.insert), Some(g.word), Many(g.space), Literal("("),
     Many(NotClose), Literal(")"), Many(g.space), Literal(g.values)]
  }

  function Join(parts: seq<string>): string {
    if |parts| == 0 then "" else parts[0] + Join(parts[1..])
  }

  function HasColumn(g: Grammar, columns: string, name: string): bool {
    exists i :: 0 <= i < |SplitCommas(columns)| && Strip(g.space, SplitCommas(columns)[i]) == name
  }

  function Missing(g: Grammar, defaults: seq<Default>, columns: string): seq<Default> {
    if |defaults| == 0 then []
    else (if HasColumn(g, columns, defaults[0].column) then [] else [defaults[0]]) + Missing(g, defaults[1..], columns)
  }

  function Names(missing: seq<Default>): string {
    if |missing| == 0 then "" else "," + missing[0].column + Names(missing[1..])
  }

  function ValuesOf(missing: seq<Default>): string {
    if |missing| == 0 then "" else "," + missing[0].value + ValuesOf(missing[1..])
  }

  /** The loop over the characters behind VALUES, from a depth of parentheses and inside or outside a string. */
  function Rows(added: string, depth: int, quoted: bool, s: string): string
    decreases |s|
  {
    if |s| == 0 then []
    else
      var q := if s[0] == '\'' then !quoted else quoted;
      if !q && s[0] == '(' then [s[0]] + Rows(added, depth + 1, q, s[1..])
      else if !q && s[0] == ')' then (if depth == 1 then added else []) + [s[0]] + Rows(added, depth - 1, q, s[1..])
      else [s[0]] + Rows(added, depth, q, s[1..])
  }

  /** The pieces with the names added to the columns. */
  function Named(pieces: seq<string>, missing: seq<Default>): seq<string>
    requires |pieces| == 9
  {
    pieces[COLUMNS := pieces[COLUMNS] + Names(missing)]
  }

  function Rewrite(g: Grammar, defaults: Defaults, s: string): string {
    var p := Parse(InsertTokens(g), s);
    if p.NoMatch? || |p.pieces| != 9 || p.pieces[TABLE] !in defaults then s
    else
      var missing := Missing(g, defaults[p.pieces[TABLE]], p.pieces[COLUMNS]);
      if |missing| == 0 then s else Join(Named(p.pieces, missing)) + Rows(ValuesOf(missing), 0, false, p.rest)
  }

  // ----- the whole query

  function Quotes(s: string): nat {
    if |s| == 0 then 0 else (if s[0] == '\'' then 1 else 0) + Quotes(s[1..])
  }

  /** A semicolon with an even number of quotes from there to the end. */
  predicate Cuts(s: string, i: nat)
    requires i < |s|
  {
    s[i] == ';' && Quotes(s[i + 1..]) % 2 == 0
  }

  /** The first such semicolon, or the end. */
  function FirstCut(s: string): (i: nat)
    ensures i <= |s|
  {
    if |s| == 0 || Cuts(s, 0) then 0 else 1 + FirstCut(s[1..])
  }

  /** The statements, with the semicolons between them. */
  function SplitBy(cut: string -> nat, s: string): seq<string>
    decreases |s|
  {
    var i := cut(s);
    if i >= |s| then [s] else [s[..i], ";"] + SplitBy(cut, s[i + 1..])
  }

  function Split(s: string): seq<string> {
    SplitBy(FirstCut, s)
  }

  function Each(f: string -> string, parts: seq<string>): (r: seq<string>)
    ensures |r| == |parts| && forall i | 0 <= i < |r| :: r[i] == f(parts[i])
  {
    seq(|parts|, i requires 0 <= i < |parts| => f(parts[i]))
  }

  function Rewriter(g: Grammar, defaults: Defaults): string -> string {
    (s: string) => Rewrite(g, defaults, s)
  }

  function WithDefaults(g: Grammar, defaults: Defaults, query: string): string {
    Join(Each(Rewriter(g, defaults), Split(query)))
  }

  // ----- the loops

  lemma RowsOneMore(r: string, added: string, depth: int, quoted: bool, s: string, i: nat)
    requires i < |s|
    ensures var q := if s[i] == '\'' then !quoted else quoted;
      var change := if q then 0 else if s[i] == '(' then 1 else if s[i] == ')' then -1 else 0;
      var front := if change == -1 && depth == 1 then added else "";
      r + Rows(added, depth, quoted, s[i..]) == r + front + [s[i]] + Rows(added, depth + change, q, s[i + 1..])
  {
    assert s[i..][0] == s[i] && s[i..][1..] == s[i + 1..];
  }

  method ExtendRows(added: string, s: string) returns (r: string)
    ensures r == Rows(added, 0, false, s)
  {
    r := "";
    var depth, quoted := 0, false;
    ghost var whole := Rows(added, 0, false, s);
    assert s[0..] == s && r + whole == whole;
    for i := 0 to |s|
      invariant whole == r + Rows(added, depth, quoted, s[i..])
    {
      RowsOneMore(r, added, depth, quoted, s, i);
      ghost var q := if s[i] == '\'' then !quoted else quoted;
      ghost var next := depth + if q then 0 else if s[i] == '(' then 1 else if s[i] == ')' then -1 else 0;
      ghost var longer := r + (if next == 0 && depth == 1 then added else "") + [s[i]];
      if s[i] == '\'' {
        quoted := !quoted;
      }
      if !quoted {
        if s[i] == '(' {
          depth := depth + 1;
        } else if s[i] == ')' {
          depth := depth - 1;
          if depth == 0 {
            r := r + added;
          }
        }
      }
      r := r + [s[i]];
      assert r == longer && depth == next && quoted == q;
    }
    assert s[|s|..] == "" && r + "" == r;
  }

  method RewriteStatement(g: Grammar, defaults: Defaults, statement: string) returns (r: string)
    ensures r == Rewrite(g, defaults, statement)
  {
    var p := Parse(InsertTokens(g), statement);
    if p.NoMatch? || |p.pieces| != 9 || p.pieces[TABLE] !in defaults {
      return statement;
    }
    var missing := Missing(g, defaults[p.pieces[TABLE]], p.pieces[COLUMNS]);
    if |missing| == 0 {
      return statement;
    }
    var rows := ExtendRows(ValuesOf(missing), p.rest);
    r := Join(Named(p.pieces, missing)) + rows;
  }

  method InsertDefaults(g: Grammar, defaults: Defaults, query: string) returns (r: string)
    ensures r == WithDefaults(g, defaults, query)
  {
    var statements := Split(query);
    ghost var first := statements;
    for index := 0 to |statements|
      invariant |statements| == |first|
      invariant forall j | 0 <= j < index :: statements[j] == Rewrite(g, defaults, first[j])
      invariant forall j | index <= j < |first| :: statements[j] == first[j]
    {
      var rewritten := RewriteStatement(g, defaults, statements[index]);
      statements := statements[index := rewritten];
    }
    assert statements == Each(Rewriter(g, defaults), first);
    r := Join(statements);
  }

  // ----- every group of every row list is extended

  /** Text after VALUES: text between the groups, and groups in parentheses. */
  datatype Item = Gap(text: string) | Row(inner: string)

  function Toggled(quoted: bool, c: char): bool { if c == '\'' then !quoted else quoted }

  function Change(quoted: bool, c: char): int {
    if quoted then 0 else if c == '(' then 1 else if c == ')' then -1 else 0
  }

  /** No parenthesis outside strings, and no string left open. */
  predicate Flat(s: string, quoted: bool) {
    if |s| == 0 then !quoted
    else var q := Toggled(quoted, s[0]); Change(q, s[0]) == 0 && Flat(s[1..], q)
  }

  /** From inside a group to just before its end. */
  predicate Inside(s: string, depth: int, quoted: bool)
    decreases |s|
  {
    depth > 0 &&
    if |s| == 0 then depth == 1 && !quoted
    else var q := Toggled(quoted, s[0]); Inside(s[1..], depth + Change(q, s[0]), q)
  }

  /** Parentheses outside strings match, and no string is left open. */
  predicate Balanced(s: string, depth: int, quoted: bool)
    decreases |s|
  {
    depth >= 0 &&
    if |s| == 0 then depth == 0 && !quoted
    else var q := Toggled(quoted, s[0]); Balanced(s[1..], depth + Change(q, s[0]), q)
  }

  predicate ItemsOk(items: seq<Item>) {
    forall i | 0 <= i < |items| :: if items[i].Gap? then Flat(items[i].text, false) else Inside(items[i].inner, 1, false)
  }

  function Render(items: seq<Item>): string {
    if |items| == 0 then ""
    else (if items[0].Gap? then items[0].text else "(" + items[0].inner + ")") + Render(items[1..])
  }

  function ExtendItems(items: seq<Item>, added: string): seq<Item> {
    if |items| == 0 then []
    else [if items[0].Gap? then items[0] else Row(items[0].inner + added)] + ExtendItems(items[1..], added)
  }

  lemma FrontOf(s: string, rest: string)
    requires |s| > 0
    ensures [s[0]] + (s[1..] + rest) == s + rest
  {
  }

  lemma {:induction false} RowsInside(added: string, inner: string, depth: int, quoted: bool, rest: string)
    requires Inside(inner, depth, quoted)
    ensures Rows(added, depth, quoted, inner + rest) == inner + Rows(added, 1, false, rest)
    decreases |inner|
  {
    if |inner| > 0 {
      var q := Toggled(quoted, inner[0]);
      assert (inner + rest)[0] == inner[0] && (inner + rest)[1..] == inner[1..] + rest;
      RowsInside(added, inner[1..], depth + Change(q, inner[0]), q, rest);
      FrontOf(inner, Rows(added, 1, false, rest));
    } else {
      assert inner + rest == rest;
    }
  }

  lemma {:induction false} RowsFlat(added: string, text: string, quoted: bool, rest: string)
    requires Flat(text, quoted)
    ensures Rows(added, 0, quoted, text + rest) == text + Rows(added, 0, false, rest)
    decreases |text|
  {
    if |text| > 0 {
      var q := Toggled(quoted, text[0]);
      assert (text + rest)[0] == text[0] && (text + rest)[1..] == text[1..] + rest;
      RowsFlat(added, text[1..], q, rest);
      FrontOf(text, Rows(added, 0, false, rest));
    } else {
      assert text + rest == rest;
    }
  }

  lemma RowsGroup(added: string, inner: string, rest: string)
    requires Inside(inner, 1, false)
    ensures Rows(added, 0, false, "(" + inner + ")" + rest) == "(" + (inner + added) + ")" + Rows(added, 0, false, rest)
  {
    var tail := inner + (")" + rest);
    assert "(" + inner + ")" + rest == "(" + tail;
    assert ("(" + tail)[0] == '(' && ("(" + tail)[1..] == tail;
    RowsInside(added, inner, 1, false, ")" + rest);
    assert (")" + rest)[0] == ')' && (")" + rest)[1..] == rest;
    assert Rows(added, 1, false, ")" + rest) == added + [')'] + Rows(added, 0, false, rest);
  }

  lemma {:induction false} RowsOfItems(added: string, items: seq<Item>, tail: string)
    requires ItemsOk(items)
    ensures Rows(added, 0, false, Render(items) + tail) == Render(ExtendItems(items, added)) + Rows(added, 0, false, tail)
    decreases |items|
  {
    if |items| > 0 {
      RowsOfItems(added, items[1..], tail);
      var rest := Render(items[1..]) + tail;
      RenderedFront(items, tail);
      RenderedFront(ExtendItems(items, added), Rows(added, 0, false, tail));
      assert ExtendItems(items, added)[1..] == ExtendItems(items[1..], added);
      if items[0].Gap? {
        RowsFlat(added, items[0].text, false, rest);
      } else {
        RowsGroup(added, items[0].inner, rest);
      }
    } else {
      assert "" + tail == tail && "" + Rows(added, 0, false, tail) == Rows(added, 0, false, tail);
    }
  }

  lemma RenderedFront(items: seq<Item>, tail: string)
    requires |items| > 0
    ensures Render(items) + tail == (if items[0].Gap? then items[0].text else "(" + items[0].inner + ")") + (Render(items[1..]) + tail)
  {
  }

  /** Every group gets the added values at its end, and everything else stays. */
  lemma RowsExtendsGroups(added: string, items: seq<Item>)
    requires ItemsOk(items)
    ensures Rows(added, 0, false, Render(items)) == Render(ExtendItems(items, added))
  {
    RowsOfItems(added, items, "");
    assert Render(items) + "" == Render(items);
    assert Render(ExtendItems(items, added)) + "" == Render(ExtendItems(items, added));
  }

  lemma {:induction false} RowsLonger(added: string, depth: int, quoted: bool, s: string)
    requires |added| > 0 && Balanced(s, depth, quoted)
    ensures |Rows(added, depth, quoted, s)| >= |s|
    ensures depth > 0 || !Flat(s, quoted) ==> |Rows(added, depth, quoted, s)| > |s|
    decreases |s|
  {
    if |s| > 0 {
      var q := Toggled(quoted, s[0]);
      RowsLonger(added, depth + Change(q, s[0]), q, s[1..]);
    }
  }

  /** Only the rows are extended exactly when no parenthesis outside strings follows them. */
  lemma OnlyRowsIff(added: string, rows: seq<Item>, tail: string)
    requires |added| > 0 && ItemsOk(rows) && Balanced(tail, 0, false)
    ensures Rows(added, 0, false, Render(rows) + tail) == Render(ExtendItems(rows, added)) + tail <==> Flat(tail, false)
  {
    RowsOfItems(added, rows, tail);
    RowsLonger(added, 0, false, tail);
    if Flat(tail, false) {
      RowsFlat(added, tail, false, "");
      assert tail + "" == tail;
    }
  }

  lemma {:induction false} ExtendedItems(items: seq<Item>, added: string)
    ensures var r := ExtendItems(items, added);
      |r| == |items| && forall i | 0 <= i < |r| :: r[i] == if items[i].Gap? then items[i] else Row(items[i].inner + added)
    decreases |items|
  {
    if |items| > 0 {
      ExtendedItems(items[1..], added);
    }
  }

  /** Any balanced text is made of such items. */
  lemma {:induction false} BalancedIsItems(s: string) returns (items: seq<Item>)
    requires Balanced(s, 0, false)
    ensures ItemsOk(items) && Render(items) == s
    decreases |s|
  {
    var gap, tail := GapEnds(s, false);
    if |tail| == 0 {
      items := [Gap(gap)];
      assert gap + "" == gap;
    } else {
      var inner, rest := GroupEnds(tail[1..], 1, false);
      var more := BalancedIsItems(rest);
      items := [Gap(gap)] + ([Row(inner)] + more);
      assert items[1..] == [Row(inner)] + more && ([Row(inner)] + more)[1..] == more;
      assert tail == "(" + inner + ")" + rest;
    }
  }

  lemma {:induction false} GapEnds(s: string, quoted: bool) returns (gap: string, rest: string)
    requires Balanced(s, 0, quoted)
    ensures s == gap + rest && Flat(gap, quoted)
    ensures |rest| > 0 ==> rest[0] == '(' && Balanced(rest[1..], 1, false)
    decreases |s|
  {
    if |s| == 0 || Change(Toggled(quoted, s[0]), s[0]) == 1 {
      gap, rest := "", s;
    } else {
      gap, rest := GapEnds(s[1..], Toggled(quoted, s[0]));
      gap := [s[0]] + gap;
      assert gap[1..] + rest == s[1..];
    }
  }

  lemma {:induction false} GroupEnds(s: string, depth: int, quoted: bool) returns (inner: string, rest: string)
    requires depth > 0 && Balanced(s, depth, quoted)
    ensures s == inner + ")" + rest && Inside(inner, depth, quoted) && Balanced(rest, 0, false)
    decreases |s|
  {
    var q := Toggled(quoted, s[0]);
    var next := depth + Change(q, s[0]);
    if next == 0 {
      inner, rest := "", s[1..];
    } else {
      inner, rest := GroupEnds(s[1..], next, q);
      inner := [s[0]] + inner;
      assert inner[1..] + ")" + rest == s[1..];
    }
  }

  // ----- splitting at the semicolons outside strings

  lemma {:induction false} QuotesAppend(a: string, b: string)
    ensures Quotes(a + b) == Quotes(a) + Quotes(b)
    decreases |a|
  {
    if |a| > 0 {
      assert (a + b)[1..] == a[1..] + b;
      QuotesAppend(a[1..], b);
    } else {
      assert a + b == b;
    }
  }

  /** A semicolon separates statements when as many quotes stand before it as in the whole query, up to an even
      number; with balanced quotes, when it is outside strings. */
  lemma CutsIff(s: string, i: nat)
    requires i < |s|
    ensures Cuts(s, i) <==> s[i] == ';' && Quotes(s[..i]) % 2 == Quotes(s) % 2
  {
    assert s == s[..i] + ([s[i]] + s[i + 1..]);
    QuotesAppend(s[..i], [s[i]] + s[i + 1..]);
    QuotesAppend([s[i]], s[i + 1..]);
  }

  lemma {:induction false} FirstCutCuts(s: string)
    ensures var i := FirstCut(s); i < |s| ==> Cuts(s, i)
    decreases |s|
  {
    if |s| > 0 && !Cuts(s, 0) {
      FirstCutCuts(s[1..]);
      var i := FirstCut(s[1..]);
      assert i < |s| - 1 ==> s[1..][i] == s[i + 1] && s[1..][i + 1..] == s[i + 2..];
    }
  }

  lemma {:induction false} PartsJoin(cut: string -> nat, s: string)
    requires CutsAtSemicolons(cut)
    ensures Join(SplitBy(cut, s)) == s
    decreases |s|
  {
    var i := cut(s);
    if i < |s| {
      PartsJoin(cut, s[i + 1..]);
      JoinThree(s[..i], SplitBy(cut, s[i + 1..]));
      CutParts(s, i);
    } else {
      assert s + "" == s;
    }
  }

  /** Nothing of the query is lost. */
  lemma SplitJoins(s: string)
    ensures Join(Split(s)) == s
  {
    FirstCutsAreSemicolons();
    PartsJoin(FirstCut, s);
  }

  lemma CutParts(s: string, i: nat)
    requires i < |s| && s[i] == ';'
    ensures s == s[..i] + ";" + s[i + 1..]
  {
  }

  lemma JoinThree(a: string, parts: seq<string>)
    ensures Join([a, ";"] + parts) == a + ";" + Join(parts)
  {
    var all := [a, ";"] + parts;
    assert all[1..] == [";"] + parts && all[1..][1..] == parts;
  }

  // ----- a second application changes nothing

  predicate Plain(s: string) {
    forall i | 0 <= i < |s| :: s[i] != '\'' && s[i] != ';'
  }

  ghost predicate NameOk(g: Grammar, name: string) {
    Plain(name) && forall i | 0 <= i < |name| :: name[i] != ',' && name[i] != ')' && !g.space(name[i])
  }

  ghost predicate DefaultsOk(g: Grammar, defaults: Defaults) {
    forall table, d | table in defaults && d in defaults[table] :: NameOk(g, d.column) && Plain(d.value)
  }

  /** No semicolon in front of p quotes separates statements. */
  predicate NoCut(t: string, p: nat) {
    |t| == 0 || ((t[0] == ';' ==> (Quotes(t[1..]) + p) % 2 == 1) && NoCut(t[1..], p))
  }

  lemma {:induction false} NoCutAppend(a: string, b: string, p: nat)
    ensures NoCut(a + b, p) <==> NoCut(a, Quotes(b) + p) && NoCut(b, p)
    decreases |a|
  {
    if |a| > 0 {
      assert (a + b)[1..] == a[1..] + b;
      QuotesAppend(a[1..], b);
      NoCutAppend(a[1..], b, p);
    } else {
      assert a + b == b;
    }
  }

  lemma {:induction false} PlainQuotes(s: string)
    requires Plain(s)
    ensures Quotes(s) == 0
    decreases |s|
  {
    if |s| > 0 {
      PlainQuotes(s[1..]);
    }
  }

  /** Plain text between two parts changes neither the quotes nor the cuts. */
  lemma PlainBetween(a: string, added: string, b: string, p: nat)
    requires Plain(added)
    ensures Quotes(a + added + b) == Quotes(a + b) == Quotes(a) + Quotes(b)
    ensures NoCut(a, Quotes(b) + p) && NoCut(b, p) ==> NoCut(a + added + b, p)
  {
    PlainQuotes(added);
    PlainCuts(added, Quotes(b) + p);
    QuotesAppend(a + added, b);
    QuotesAppend(a, added);
    QuotesAppend(a, b);
    NoCutAppend(a + added, b, p);
    NoCutAppend(a, added, Quotes(b) + p);
  }

  lemma {:induction false} PlainCuts(s: string, p: nat)
    requires Plain(s)
    ensures NoCut(s, p)
    decreases |s|
  {
    if |s| > 0 {
      PlainCuts(s[1..], p);
    }
  }

  lemma {:induction false} RowsQuiet(added: string, depth: int, quoted: bool, s: string, p: nat)
    requires Plain(added)
    ensures Quotes(Rows(added, depth, quoted, s)) == Quotes(s)
    ensures NoCut(s, p) ==> NoCut(Rows(added, depth, quoted, s), p)
    decreases |s|
  {
    if |s| > 0 {
      var q := if s[0] == '\'' then !quoted else quoted;
      var next := depth + Change(q, s[0]);
      var rest := Rows(added, next, q, s[1..]);
      RowsQuiet(added, next, q, s[1..], p);
      OneQuiet(s[0], s[1..], rest, if Change(q, s[0]) == -1 && depth == 1 then added else "", p);
    }
  }

  lemma OneQuiet(c: char, tail: string, rest: string, front: string, p: nat)
    requires Plain(front) && Quotes(rest) == Quotes(tail)
    ensures Quotes(front + [c] + rest) == Quotes([c] + tail)
    ensures NoCut([c] + tail, p) && NoCut(rest, p) ==> NoCut(front + [c] + rest, p)
  {
    assert front + [c] + rest == "" + front + ([c] + rest);
    assert ([c] + tail)[1..] == tail && ([c] + rest)[1..] == rest;
    PlainBetween("", front, [c] + rest, p);
    assert "" + ([c] + rest) == [c] + rest;
  }

  // ----- parsing what was put together

  predicate Fits(token: Token, piece: string) {
    match token
    case Literal(text) => piece == text
    case Many(kind) => forall i | 0 <= i < |piece| :: kind(piece[i])
    case Some(kind) => |piece| > 0 && forall i | 0 <= i < |piece| :: kind(piece[i])
  }

  predicate AllFit(tokens: seq<Token>, pieces: seq<string>) {
    |pieces| == |tokens| && forall i | 0 <= i < |tokens| :: Fits(tokens[i], pieces[i])
  }

  /** What follows starts with a character of another kind. */
  ghost predicate Stops(kind: char -> bool, tokens: seq<Token>) {
    |tokens| > 0 &&
    if tokens[0].Literal? then |tokens[0].text| > 0 && !kind(tokens[0].text[0])
    else (forall c :: !(kind(c) && tokens[0].kind(c))) && (tokens[0].Many? ==> Stops(kind, tokens[1..]))
  }

  ghost predicate Unambiguous(tokens: seq<Token>) {
    |tokens| == 0 ||
    ((!tokens[0].Literal? ==> Stops(tokens[0].kind, tokens[1..])) && Unambiguous(tokens[1..]))
  }

  lemma FitsBefore(tokens: seq<Token>, s: string, piece: string, pieces: seq<string>, rest: string)
    requires |tokens| > 0 && Fits(tokens[0], piece) && AllFit(tokens[1..], pieces)
    requires piece <= s && s[|piece|..] == Join(pieces) + rest
    ensures s == Join([piece] + pieces) + rest && AllFit(tokens, [piece] + pieces)
  {
    assert ([piece] + pieces)[1..] == pieces;
    assert s == piece + s[|piece|..] == piece + Join(pieces) + rest;
  }

  lemma {:induction false} ParsedFits(tokens: seq<Token>, s: string)
    ensures var p := Parse(tokens, s); p.Parsed? ==> s == Join(p.pieces) + p.rest && AllFit(tokens, p.pieces)
    decreases |tokens|
  {
    if |tokens| == 0 {
      assert "" + s == s;
    } else {
      var piece := if tokens[0].Literal? then tokens[0].text else TakeWhile(tokens[0].kind, s);
      if piece <= s {
        var p := Parse(tokens[1..], s[|piece|..]);
        ParsedFits(tokens[1..], s[|piece|..]);
        if Parse(tokens, s).Parsed? {
          FitsBefore(tokens, s, piece, p.pieces, p.rest);
        }
      }
    }
  }

  lemma {:induction false} StopsThere(kind: char -> bool, tokens: seq<Token>, pieces: seq<string>, rest: string)
    requires Stops(kind, tokens) && AllFit(tokens, pieces)
    ensures |Join(pieces)| > 0 && !kind(Join(pieces)[0])
    decreases |tokens|
  {
    assert Fits(tokens[0], pieces[0]);
    if |pieces[0]| == 0 {
      StopsThere(kind, tokens[1..], pieces[1..], rest);
      assert "" + Join(pieces[1..]) == Join(pieces[1..]);
    }
  }

  lemma OneParsed(tokens: seq<Token>, piece: string, tail: string, p: Parsed)
    requires |tokens| > 0 && Fits(tokens[0], piece) && Parse(tokens[1..], tail) == p
    requires tokens[0].Literal? || |tail| == 0 || !tokens[0].kind(tail[0])
    ensures Parse(tokens, piece + tail) == Before(piece, p)
  {
    assert (piece + tail)[|piece|..] == tail && (piece + tail)[..|piece|] == piece;
    if !tokens[0].Literal? {
      TakeWhileIs(tokens[0].kind, piece, tail);
    }
  }

  lemma JoinedFront(pieces: seq<string>, rest: string)
    requires |pieces| > 0
    ensures Join(pieces) + rest == pieces[0] + (Join(pieces[1..]) + rest)
  {
  }

  lemma NextIsOther(tokens: seq<Token>, pieces: seq<string>, rest: string)
    requires |tokens| > 0 && Unambiguous(tokens) && AllFit(tokens, pieces)
    ensures var tail := Join(pieces[1..]) + rest; tokens[0].Literal? || |tail| == 0 || !tokens[0].kind(tail[0])
  {
    if !tokens[0].Literal? {
      StopsThere(tokens[0].kind, tokens[1..], pieces[1..], rest);
    }
  }

  /** Pieces that fit are found again. */
  lemma {:induction false} ParseJoined(tokens: seq<Token>, pieces: seq<string>, rest: string)
    requires Unambiguous(tokens) && AllFit(tokens, pieces)
    ensures Parse(tokens, Join(pieces) + rest) == Parsed(pieces, rest)
    decreases |tokens|
  {
    if |tokens| == 0 {
      assert "" + rest == rest;
    } else {
      var tail := Join(pieces[1..]) + rest;
      ParseJoined(tokens[1..], pieces[1..], rest);
      NextIsOther(tokens, pieces, rest);
      OneParsed(tokens, pieces[0], tail, Parsed(pieces[1..], rest));
      JoinedFront(pieces, rest);
      assert [pieces[0]] + pieces[1..] == pieces;
    }
  }

  ghost predicate GrammarOk(g: Grammar) {
    && |g.insert| > 1 && !g.space(g.insert[0]) && |g.values| > 0 && !g.space(g.values[0])
    && !g.space('(') && !g.word('(') && forall c :: !(g.space(c) && g.word(c))
  }

  lemma OneMoreToken(token: Token, tokens: seq<Token>)
    requires Unambiguous(tokens) && (token.Literal? || Stops(token.kind, tokens))
    ensures Unambiguous([token] + tokens)
  {
    assert ([token] + tokens)[1..] == tokens;
  }

  /** From the opening parenthesis on. */
  function LastTokens(g: Grammar): seq<Token> {
    [Literal("("), Many(NotClose), Literal(")"), Many(g.space), Literal(g.values)]
  }

  lemma LastIsUnambiguous(g: Grammar)
    requires GrammarOk(g)
    ensures Unambiguous(LastTokens(g))
  {
    var t1 := [Literal(g.values)];
    var t2 := [Many(g.space)] + t1;
    var t3 := [Literal(")")] + t2;
    var t4 := [Many(NotClose)] + t3;
    OneMoreToken(Literal(g.values), []);
    assert [Literal(g.values)] + [] == t1;
    OneMoreToken(Many(g.space), t1);
    OneMoreToken(Literal(")"), t2);
    OneMoreToken(Many(NotClose), t3);
    OneMoreToken(Literal("("), t4);
    assert LastTokens(g) == [Literal("(")] + t4;
  }

  lemma InsertIsUnambiguous(g: Grammar)
    requires GrammarOk(g)
    ensures Unambiguous(InsertTokens(g))
  {
    var t5 := LastTokens(g);
    var t6 := [Many(g.space)] + t5;
    var t7 := [Some(g.word)] + t6;
    var t8 := [Literal(g.insert)] + t7;
    LastIsUnambiguous(g);
    OneMoreToken(Many(g.space), t5);
    assert t6[1..] == t5;
    OneMoreToken(Some(g.word), t6);
    OneMoreToken(Literal(g.insert), t7);
    OneMoreToken(Many(g.space), t8);
    assert InsertTokens(g) == [Many(g.space)] + t8;
  }

  // ----- a rewritten statement

  lemma {:induction false} JoinAppend(a: seq<string>, b: seq<string>)
    ensures Join(a + b) == Join(a) + Join(b)
    decreases |a|
  {
    if |a| > 0 {
      assert (a + b)[1..] == a[1..] + b;
      JoinAppend(a[1..], b);
    } else {
      assert a + b == b;
    }
  }

  /** The pieces up to the columns, and the others. */
  function Front(pieces: seq<string>): string
    requires |pieces| == 9
  {
    Join(pieces[..COLUMNS + 1])
  }

  function Back(pieces: seq<string>): string
    requires |pieces| == 9
  {
    Join(pieces[COLUMNS + 1..])
  }

  lemma LastJoined(parts: seq<string>, last: string, more: string)
    ensures Join(parts + [last + more]) == Join(parts + [last]) + more
  {
    JoinAppend(parts, [last + more]);
    JoinAppend(parts, [last]);
    assert Join([last + more]) == last + more + "" && Join([last]) == last + "";
  }

  lemma NamedJoined(pieces: seq<string>, missing: seq<Default>)
    requires |pieces| == 9
    ensures Join(pieces) == Front(pieces) + Back(pieces)
    ensures Join(Named(pieces, missing)) == Front(pieces) + Names(missing) + Back(pieces)
  {
    var named := Named(pieces, missing);
    var front := pieces[..COLUMNS];
    assert pieces == pieces[..COLUMNS + 1] + pieces[COLUMNS + 1..];
    JoinAppend(pieces[..COLUMNS + 1], pieces[COLUMNS + 1..]);
    assert named == (front + [pieces[COLUMNS] + Names(missing)]) + pieces[COLUMNS + 1..];
    JoinAppend(front + [pieces[COLUMNS] + Names(missing)], pieces[COLUMNS + 1..]);
    assert pieces[..COLUMNS + 1] == front + [pieces[COLUMNS]];
    LastJoined(front, pieces[COLUMNS], Names(missing));
  }

  lemma {:induction false} MissingAreDefaults(g: Grammar, ds: seq<Default>, columns: string)
    ensures forall d | d in Missing(g, ds, columns) :: d in ds
    ensures forall d | d in ds :: HasColumn(g, columns, d.column) || d in Missing(g, ds, columns)
    decreases |ds|
  {
    if |ds| > 0 {
      MissingAreDefaults(g, ds[1..], columns);
    }
  }

  predicate NoClose(s: string) {
    forall i | 0 <= i < |s| :: s[i] != ')'
  }

  lemma PlainAppend(a: string, b: string)
    ensures Plain(a) && Plain(b) ==> Plain("," + a + b)
    ensures NoClose(a) && NoClose(b) ==> NoClose("," + a + b)
  {
  }

  lemma {:induction false} AddedArePlain(g: Grammar, missing: seq<Default>)
    requires forall d | d in missing :: NameOk(g, d.column) && Plain(d.value)
    ensures Plain(Names(missing)) && Plain(ValuesOf(missing)) && NoClose(Names(missing))
    decreases |missing|
  {
    if |missing| > 0 {
      assert missing[0] in missing && forall d | d in missing[1..] :: d in missing;
      AddedArePlain(g, missing[1..]);
      PlainAppend(missing[0].column, Names(missing[1..]));
      PlainAppend(missing[0].value, ValuesOf(missing[1..]));
    }
  }

  lemma QuietParts(a: string, names: string, b: string, added: string, rows: string, p: nat)
    requires Plain(names) && Plain(added)
    ensures var before, after := a + b + rows, a + names + b + Rows(added, 0, false, rows);
      Quotes(after) == Quotes(before) && (NoCut(before, p) ==> NoCut(after, p))
  {
    var rest := Rows(added, 0, false, rows);
    RowsQuiet(added, 0, false, rows, p);
    QuotesAppend(a + b, rows);
    QuotesAppend(a + names + b, rest);
    NoCutAppend(a + b, rows, p);
    NoCutAppend(a + names + b, rest, p);
    NoCutAppend(a, b, Quotes(rows) + p);
    PlainBetween(a, names, b, Quotes(rest) + p);
  }

  /** Rewriting a statement neither adds quotes nor makes a semicolon separate statements. */
  lemma RewriteQuiet(g: Grammar, defaults: Defaults, s: string, p: nat)
    requires DefaultsOk(g, defaults)
    ensures Quotes(Rewrite(g, defaults, s)) == Quotes(s)
    ensures NoCut(s, p) ==> NoCut(Rewrite(g, defaults, s), p)
  {
    var m := Parse(InsertTokens(g), s);
    if m.Parsed? && |m.pieces| == 9 && m.pieces[TABLE] in defaults {
      var missing := Missing(g, defaults[m.pieces[TABLE]], m.pieces[COLUMNS]);
      ParsedFits(InsertTokens(g), s);
      NamedJoined(m.pieces, missing);
      MissingAreDefaults(g, defaults[m.pieces[TABLE]], m.pieces[COLUMNS]);
      AddedArePlain(g, missing);
      QuietParts(Front(m.pieces), Names(missing), Back(m.pieces), ValuesOf(missing), m.rest, p);
    }
  }

  function ColumnsOf(missing: seq<Default>): (columns: seq<string>)
    ensures |columns| == |missing| && forall i | 0 <= i < |columns| :: columns[i] == missing[i].column
  {
    seq(|missing|, i requires 0 <= i < |missing| => missing[i].column)
  }

  lemma Regroup(a: string, b: string, c: string, d: string)
    ensures a + (b + c + d) == a + b + c + d
  {
  }

  lemma OneColumn(columns: string, name: string)
    requires forall i | 0 <= i < |name| :: name[i] != ','
    ensures SplitCommas(columns + "," + name) == SplitCommas(columns) + [name]
  {
    SplitCommasAppend(columns, name);
    SplitOnce(name, "");
  }

  lemma MoreColumns(missing: seq<Default>, split: seq<string>)
    requires |missing| > 0
    ensures split + [missing[0].column] + ColumnsOf(missing[1..]) == split + ColumnsOf(missing)
  {
    assert ColumnsOf(missing) == [missing[0].column] + ColumnsOf(missing[1..]);
  }

  lemma {:induction false} NamedColumns(g: Grammar, columns: string, missing: seq<Default>)
    requires forall d | d in missing :: NameOk(g, d.column)
    ensures SplitCommas(columns + Names(missing)) == SplitCommas(columns) + ColumnsOf(missing)
    decreases |missing|
  {
    if |missing| == 0 {
      assert columns + "" == columns;
    } else {
      var name := missing[0].column;
      assert missing[0] in missing && forall d | d in missing[1..] :: d in missing;
      Regroup(columns, ",", name, Names(missing[1..]));
      OneColumn(columns, name);
      MoreColumns(missing, SplitCommas(columns));
      NamedColumns(g, columns + "," + name, missing[1..]);
    }
  }

  lemma ColumnStays(g: Grammar, columns: string, missing: seq<Default>, d: Default)
    requires (forall e | e in missing :: NameOk(g, e.column)) && (HasColumn(g, columns, d.column) || d in missing)
    ensures HasColumn(g, columns + Names(missing), d.column)
  {
    NamedColumns(g, columns, missing);
    var was, now := SplitCommas(columns), SplitCommas(columns + Names(missing));
    if HasColumn(g, columns, d.column) {
      var i :| 0 <= i < |was| && Strip(g.space, was[i]) == d.column;
      assert now[i] == was[i];
    } else {
      var i :| 0 <= i < |missing| && missing[i] == d;
      assert now[|was| + i] == ColumnsOf(missing)[i] == d.column;
      assert Strip(g.space, d.column) == d.column;
    }
  }

  lemma {:induction false} NoneMissing(g: Grammar, ds: seq<Default>, columns: string)
    requires forall d | d in ds :: HasColumn(g, columns, d.column)
    ensures Missing(g, ds, columns) == []
    decreases |ds|
  {
    if |ds| > 0 {
      assert ds[0] in ds && forall d | d in ds[1..] :: d in ds;
      NoneMissing(g, ds[1..], columns);
    }
  }

  lemma NothingMissing(g: Grammar, ds: seq<Default>, columns: string)
    requires forall d | d in ds :: NameOk(g, d.column)
    ensures Missing(g, ds, columns + Names(Missing(g, ds, columns))) == []
  {
    var missing := Missing(g, ds, columns);
    MissingAreDefaults(g, ds, columns);
    forall d | d in ds ensures HasColumn(g, columns + Names(missing), d.column) {
      ColumnStays(g, columns, missing, d);
    }
    NoneMissing(g, ds, columns + Names(missing));
  }

  lemma NamedFits(g: Grammar, pieces: seq<string>, missing: seq<Default>)
    requires AllFit(InsertTokens(g), pieces) && NoClose(Names(missing))
    ensures AllFit(InsertTokens(g), Named(pieces, missing))
  {
    assert Fits(InsertTokens(g)[COLUMNS], pieces[COLUMNS]);
    assert InsertTokens(g)[COLUMNS] == Many(NotClose);
  }

  /** A rewritten statement has every column. */
  lemma RewriteTwice(g: Grammar, defaults: Defaults, s: string)
    requires GrammarOk(g) && DefaultsOk(g, defaults)
    ensures Rewrite(g, defaults, Rewrite(g, defaults, s)) == Rewrite(g, defaults, s)
  {
    var tokens := InsertTokens(g);
    var p := Parse(tokens, s);
    if p.Parsed? && |p.pieces| == 9 && p.pieces[TABLE] in defaults {
      var ds := defaults[p.pieces[TABLE]];
      var missing := Missing(g, ds, p.pieces[COLUMNS]);
      if |missing| > 0 {
        ParsedFits(tokens, s);
        MissingAreDefaults(g, ds, p.pieces[COLUMNS]);
        AddedArePlain(g, missing);
        NamedFits(g, p.pieces, missing);
        InsertIsUnambiguous(g);
        ParseJoined(tokens, Named(p.pieces, missing), Rows(ValuesOf(missing), 0, false, p.rest));
        NothingMissing(g, ds, p.pieces[COLUMNS]);
      }
    }
  }

  // ----- a printed INSERT

  /** An INSERT with its row list, or a statement that stays as it is. */
  datatype Statement = Insert(pieces: seq<string>, items: seq<Item>) | Other(text: string)

  function Print(statement: Statement): string {
    match statement
    case Insert(pieces, items) => Join(pieces) + Render(items)
    case Other(text) => text
  }

  function MissingOf(g: Grammar, defaults: Defaults, pieces: seq<string>): seq<Default> {
    if |pieces| == 9 && pieces[TABLE] in defaults then Missing(g, defaults[pieces[TABLE]], pieces[COLUMNS]) else []
  }

  /** Names behind the columns, and values at the end of every row. */
  function Extended(g: Grammar, defaults: Defaults, statement: Statement): Statement {
    if statement.Other? || |MissingOf(g, defaults, statement.pieces)| == 0 then statement
    else
      var missing := MissingOf(g, defaults, statement.pieces);
      Insert(Named(statement.pieces, missing), ExtendItems(statement.items, ValuesOf(missing)))
  }

  /** The expression does not match, the table is unknown, or no column is missing. */
  predicate Untouched(g: Grammar, defaults: Defaults, text: string) {
    var p := Parse(InsertTokens(g), text);
    p.NoMatch? || |MissingOf(g, defaults, p.pieces)| == 0
  }

  ghost predicate Wellformed(g: Grammar, defaults: Defaults, statement: Statement) {
    match statement
    case Insert(pieces, items) => AllFit(InsertTokens(g), pieces) && ItemsOk(items)
    case Other(text) => Untouched(g, defaults, text)
  }

  lemma RewritePieces(g: Grammar, defaults: Defaults, pieces: seq<string>, rest: string)
    requires GrammarOk(g) && AllFit(InsertTokens(g), pieces)
    ensures var missing := MissingOf(g, defaults, pieces);
      Rewrite(g, defaults, Join(pieces) + rest) ==
      if |missing| == 0 then Join(pieces) + rest else Join(Named(pieces, missing)) + Rows(ValuesOf(missing), 0, false, rest)
  {
    InsertIsUnambiguous(g);
    ParseJoined(InsertTokens(g), pieces, rest);
  }

  /** A printed INSERT into a known table gets the missing names behind its columns and their values at the end of
      every row; everything else stays. */
  lemma StatementIsExtended(g: Grammar, defaults: Defaults, statement: Statement)
    requires GrammarOk(g) && Wellformed(g, defaults, statement)
    ensures Rewrite(g, defaults, Print(statement)) == Print(Extended(g, defaults, statement))
  {
    if statement.Insert? {
      RewritePieces(g, defaults, statement.pieces, Render(statement.items));
      RowsExtendsGroups(ValuesOf(MissingOf(g, defaults, statement.pieces)), statement.items);
    }
  }

  lemma ValuesThere(missing: seq<Default>)
    requires |missing| > 0
    ensures |ValuesOf(missing)| > 0
  {
  }

  lemma Tails(a: string, rows: string, tail: string, other: string)
    ensures a + (rows + tail) == a + rows + tail
    ensures a + other == a + rows + tail <==> other == rows + tail
  {
    assert a + (rows + tail) == a + rows + tail;
    assert (a + other)[|a|..] == other && (a + (rows + tail))[|a|..] == rows + tail;
  }

  /** An INSERT that misses columns and goes on behind its rows keeps what follows exactly when that holds no
      parenthesis outside strings. */
  lemma ClauseStaysIff(g: Grammar, defaults: Defaults, pieces: seq<string>, rows: seq<Item>, clause: string)
    requires GrammarOk(g) && AllFit(InsertTokens(g), pieces) && |MissingOf(g, defaults, pieces)| > 0
    requires ItemsOk(rows) && Balanced(clause, 0, false)
    ensures (Rewrite(g, defaults, Print(Insert(pieces, rows)) + clause) ==
             Print(Extended(g, defaults, Insert(pieces, rows))) + clause) <==> Flat(clause, false)
  {
    var missing := MissingOf(g, defaults, pieces);
    var added := ValuesOf(missing);
    var front := Join(Named(pieces, missing));
    ValuesThere(missing);
    RewritePieces(g, defaults, pieces, Render(rows) + clause);
    OnlyRowsIff(added, rows, clause);
    Tails(Join(pieces), Render(rows), clause, "");
    Tails(front, Render(ExtendItems(rows, added)), clause, Rows(added, 0, false, Render(rows) + clause));
  }

  // ----- a clause that is extended

  predicate AsciiSpace(c: char) { c in " \t\n\r" || c == '\U{0B}' || c == '\U{0C}' }

  predicate AsciiWord(c: char) { 'a' <= c <= 'z' || 'A' <= c <= 'Z' || '0' <= c <= '9' || c == '_' }

  function Ascii(): Grammar { Sql(AsciiSpace, AsciiWord) }

  lemma AsciiOk()
    ensures GrammarOk(Ascii())
  {
    var g := Ascii();
    assert g.insert[0] == 'I' && g.values[0] == 'V';
  }

  predicate Unmarked(s: string) {
    forall i | 0 <= i < |s| :: s[i] != '\'' && s[i] != '(' && s[i] != ')'
  }

  lemma {:induction false} UnmarkedIsFlat(s: string)
    requires Unmarked(s)
    ensures Flat(s, false) && Inside(s, 1, false)
    decreases |s|
  {
    if |s| > 0 {
      UnmarkedIsFlat(s[1..]);
    }
  }

  const CLAUSE := " ON DUPLICATE KEY UPDATE id=VALUES"

  function Spells(): Defaults { map["game_spell" := [Default("form_mask", "0")]] }

  function SpellPieces(columns: string): seq<string> {
    ["", "INSERT INTO ", "game_spell", " ", "(", columns, ")", " ", "VALUES"]
  }

  lemma SpellPiecesFit(columns: string)
    requires columns == "id"
    ensures AllFit(InsertTokens(Ascii()), SpellPieces(columns))
  {
    var tokens, pieces := InsertTokens(Ascii()), SpellPieces(columns);
    assert forall i | 0 <= i < |pieces[TABLE]| :: AsciiWord(pieces[TABLE][i]);
    assert Fits(tokens[TABLE], pieces[TABLE]) && Fits(tokens[COLUMNS], pieces[COLUMNS]);
    assert Fits(tokens[0], pieces[0]) && Fits(tokens[3], pieces[3]) && Fits(tokens[7], pieces[7]);
  }

  lemma OnlyId(columns: string, name: string)
    requires columns == "id" && name == "form_mask"
    ensures !HasColumn(Ascii(), columns, name)
  {
    SplitOnce(columns, "");
    assert Strip(AsciiSpace, columns) == columns && |name| == 9;
  }

  lemma OneLeft(g: Grammar, d: Default, columns: string)
    requires !HasColumn(g, columns, d.column)
    ensures Missing(g, [d], columns) == [d]
  {
    var all := [d];
    assert all[1..] == [] && Missing(g, all[1..], columns) == [];
  }

  lemma SpellMissing(columns: string)
    requires columns == "id"
    ensures MissingOf(Ascii(), Spells(), SpellPieces(columns)) == [Default("form_mask", "0")]
  {
    var d := Default("form_mask", "0");
    var pieces, defaults := SpellPieces(columns), Spells();
    OnlyId(columns, d.column);
    OneLeft(Ascii(), d, columns);
    assert pieces[TABLE] == "game_spell" && pieces[COLUMNS] == columns;
    assert pieces[TABLE] in defaults && defaults[pieces[TABLE]] == [d];
  }

  lemma {:induction false} JoinedFrom(parts: seq<string>, i: nat)
    requires i < |parts|
    ensures Join(parts[i..]) == parts[i] + Join(parts[i + 1..])
  {
    assert parts[i..][1..] == parts[i + 1..];
  }

  lemma SpellInsert(columns: string)
    ensures Join(SpellPieces(columns)) == "INSERT INTO game_spell (" + (columns + ") VALUES")
  {
    var parts := SpellPieces(columns);
    JoinedFrom(parts, 8);
    JoinedFrom(parts, 7);
    JoinedFrom(parts, 6);
    assert Join(parts[6..]) == ") VALUES";
    JoinedFrom(parts, 5);
    JoinedFrom(parts, 4);
    JoinedFrom(parts, 3);
    JoinedFrom(parts, 2);
    JoinedFrom(parts, 1);
    JoinedFrom(parts, 0);
    assert parts[0..] == parts;
    SpellFront(columns + ") VALUES");
  }

  lemma SpellFront(rest: string)
    ensures "" + ("INSERT INTO " + ("game_spell" + (" " + ("(" + rest)))) == "INSERT INTO game_spell (" + rest
  {
    var front := "INSERT INTO game_spell (";
    assert front[..12] == "INSERT INTO " && front[12..22] == "game_spell" && front[22..23] == " " && front[23..] == "(";
    assert front + rest == "" + (front[..12] + (front[12..22] + (front[22..23] + (front[23..] + rest))));
  }

  lemma RenderedFour(a: string, row: string, b: string, group: string)
    ensures Render([Gap(a), Row(row), Gap(b), Row(group)]) == a + "(" + row + ")" + b + "(" + group + ")"
  {
    var items := [Gap(a), Row(row), Gap(b), Row(group)];
    assert items[1..] == [Row(row), Gap(b), Row(group)];
    assert items[1..][1..] == [Gap(b), Row(group)];
    RenderedPair(b, group);
    assert Render(items) == a + ("(" + row + ")" + Render([Gap(b), Row(group)]));
  }

  lemma RenderedPair(gap: string, row: string)
    ensures Render([Gap(gap), Row(row)]) == gap + "(" + row + ")"
  {
    var items := [Gap(gap), Row(row)];
    assert items[1..] == [Row(row)] && Render([Row(row)]) == "(" + row + ")" + "";
    assert Render(items) == gap + Render([Row(row)]);
  }

  /** Not only rows: a group of whatever follows the rows of an INSERT, such as VALUES(name) in an ON DUPLICATE KEY
      clause, is extended like a row. */
  lemma LaterGroupsAreExtended(g: Grammar, defaults: Defaults, pieces: seq<string>, a: string, row: string, b: string, group: string)
    requires GrammarOk(g) && AllFit(InsertTokens(g), pieces) && |MissingOf(g, defaults, pieces)| > 0
    requires Flat(a, false) && Inside(row, 1, false) && Flat(b, false) && Inside(group, 1, false)
    ensures var missing := MissingOf(g, defaults, pieces);
      Rewrite(g, defaults, Join(pieces) + (a + "(" + row + ")" + b + "(" + group + ")")) == Join(Named(pieces, missing)) +
        (a + "(" + (row + ValuesOf(missing)) + ")" + b + "(" + (group + ValuesOf(missing)) + ")")
  {
    var items := [Gap(a), Row(row), Gap(b), Row(group)];
    var added := ValuesOf(MissingOf(g, defaults, pieces));
    StatementIsExtended(g, defaults, Insert(pieces, items));
    ExtendedItems(items, added);
    assert ExtendItems(items, added) == [Gap(a), Row(row + added), Gap(b), Row(group + added)];
    RenderedFour(a, row, b, group);
    RenderedFour(a, row + added, b, group + added);
  }

  lemma OneMissing(d: Default)
    ensures Names([d]) == "," + d.column && ValuesOf([d]) == "," + d.value
  {
    assert "," + d.column + "" == "," + d.column && "," + d.value + "" == "," + d.value;
  }

  lemma SpellIsExtended(columns: string, a: string, row: string, b: string)
    requires columns == "id" && Unmarked(a) && Unmarked(row) && Unmarked(b)
    ensures Rewrite(Ascii(), Spells(), Join(SpellPieces(columns)) + (a + "(" + row + ")" + b + "(" + columns + ")")) ==
            Join(SpellPieces(columns + ",form_mask")) + (a + "(" + (row + ",0") + ")" + b + "(" + (columns + ",0") + ")")
  {
    var pieces, d := SpellPieces(columns), Default("form_mask", "0");
    AsciiOk();
    SpellPiecesFit(columns);
    SpellMissing(columns);
    OneMissing(d);
    UnmarkedIsFlat(a);
    UnmarkedIsFlat(row);
    UnmarkedIsFlat(b);
    UnmarkedIsFlat(columns);
    LaterGroupsAreExtended(Ascii(), Spells(), pieces, a, row, b, columns);
    NamedSpell(columns, Names([d]));
    assert Named(pieces, [d]) == SpellPieces(columns + Names([d]));
    assert Names([d]) == ",form_mask" && ValuesOf([d]) == ",0";
  }

  lemma NamedSpell(columns: string, names: string)
    ensures SpellPieces(columns)[COLUMNS := SpellPieces(columns)[COLUMNS] + names] == SpellPieces(columns + names)
  {
  }

  lemma SpellText(more: string, values: string)
    ensures Join(SpellPieces("id" + more)) + (" " + "(" + ("1" + values) + ")" + CLAUSE + "(" + ("id" + values) + ")") ==
            ("INSERT INTO game_spell (id" + more + ") VALUES (1" + values + ")") + (CLAUSE + "(id" + values + ")")
  {
    SpellInsert("id" + more);
    assert "INSERT INTO game_spell (" + "id" == "INSERT INTO game_spell (id";
    assert ") VALUES" + " " + "(" + "1" == ") VALUES (1";
    assert "(" + "id" == "(id";
    Bracketed("INSERT INTO game_spell (", "id", more, ") VALUES", " ", "1", values, CLAUSE);
  }

  lemma Bracketed(a: string, b: string, c: string, d: string, e: string, f: string, v: string, clause: string)
    ensures a + (b + c + d) + (e + "(" + (f + v) + ")" + clause + "(" + (b + v) + ")") ==
            ((a + b) + c + (d + e + "(" + f) + v + ")") + (clause + ("(" + b) + v + ")")
  {
  }

  lemma InsertTexts()
    ensures "INSERT INTO game_spell (id" + "" + ") VALUES (1" + "" + ")" == "INSERT INTO game_spell (id) VALUES (1)"
    ensures "INSERT INTO game_spell (id" + ",form_mask" + ") VALUES (1" + ",0" + ")" ==
            "INSERT INTO game_spell (id,form_mask) VALUES (1,0)"
  {
  }

  lemma ClauseTexts()
    ensures CLAUSE + "(id" + "" + ")" == " ON DUPLICATE KEY UPDATE id=VALUES(id)"
    ensures CLAUSE + "(id" + ",0" + ")" == " ON DUPLICATE KEY UPDATE id=VALUES(id,0)"
  {
  }

  /** VALUES(id) in the clause behind the rows is extended like a row. */
  lemma ClauseIsExtended() returns (before: string, after: string)
    ensures before == "INSERT INTO game_spell (id) VALUES (1)" + " ON DUPLICATE KEY UPDATE id=VALUES(id)"
    ensures after == "INSERT INTO game_spell (id,form_mask) VALUES (1,0)" + " ON DUPLICATE KEY UPDATE id=VALUES(id,0)"
    ensures Rewrite(Ascii(), Spells(), before) == after
  {
    var columns, a, row, b := "id", " ", "1", CLAUSE;
    SpellIsExtended(columns, a, row, b);
    before := Join(SpellPieces(columns)) + (a + "(" + row + ")" + b + "(" + columns + ")");
    after := Join(SpellPieces(columns + ",form_mask")) + (a + "(" + (row + ",0") + ")" + b + "(" + (columns + ",0") + ")");
    SpellText("", "");
    SpellText(",form_mask", ",0");
    assert columns + "" == columns && row + "" == row;
    InsertTexts();
    ClauseTexts();
  }

  // ----- a rewritten query

  lemma {:induction false} FirstCutIs(a: string, b: string)
    requires NoCut(a, Quotes(b)) && FirstCut(b) == 0
    ensures FirstCut(a + b) == |a|
    decreases |a|
  {
    if |a| > 0 {
      assert (a + b)[1..] == a[1..] + b;
      QuotesAppend(a[1..], b);
      FirstCutIs(a[1..], b);
    } else {
      assert a + b == b;
    }
  }

  lemma {:induction false} BeforeFirstCut(s: string)
    ensures var i := FirstCut(s); NoCut(s[..i], Quotes(s[i..]))
    decreases |s|
  {
    var i := FirstCut(s);
    if i > 0 {
      BeforeFirstCut(s[1..]);
      FrontAndBack(s, i);
      NoCutFront(s[0], s[1..], s[1..][..i - 1], s[i..]);
    }
  }

  lemma NoCutFront(c: char, tail: string, front: string, back: string)
    requires NoCut(front, Quotes(back)) && tail == front + back && (c == ';' ==> Quotes(tail) % 2 == 1)
    ensures NoCut([c] + front, Quotes(back))
  {
    QuotesAppend(front, back);
    NoCutStep(c, front, back, tail);
  }

  lemma FrontAndBack(s: string, i: nat)
    requires 0 < i <= |s|
    ensures s[..i] == [s[0]] + s[1..][..i - 1] && s[1..][i - 1..] == s[i..] && s[1..][..i - 1] + s[i..] == s[1..]
  {
  }

  lemma NoCutStep(c: char, front: string, back: string, tail: string)
    requires NoCut(front, Quotes(back)) && Quotes(tail) == Quotes(front) + Quotes(back)
    requires c == ';' ==> Quotes(tail) % 2 == 1
    ensures NoCut([c] + front, Quotes(back))
  {
    assert ([c] + front)[1..] == front;
  }

  function Mapped(f: string -> string, cut: string -> nat, s: string): string {
    Join(Each(f, SplitBy(cut, s)))
  }

  lemma EachIs(f: string -> string, a: string, b: string, parts: seq<string>)
    ensures Each(f, [a, b] + parts) == [f(a), f(b)] + Each(f, parts)
    ensures Each(f, [a]) == [f(a)]
  {
  }

  lemma JoinMapped(f: string -> string, a: string, parts: seq<string>)
    requires f(";") == ";"
    ensures Join(Each(f, [a, ";"] + parts)) == f(a) + ";" + Join(Each(f, parts))
    ensures Join(Each(f, [a])) == f(a)
  {
    EachIs(f, a, ";", parts);
    JoinThree(f(a), Each(f, parts));
    assert f(a) + "" == f(a);
  }

  /** Behind a rewritten part the query is cut as it was behind the part. */
  ghost predicate CutKept(f: string -> string, cut: string -> nat, s: string, rest: string)
    requires cut(s) < |s|
  {
    cut(f(s[..cut(s)]) + ";" + rest) == |f(s[..cut(s)])|
  }

  /** Rewriting adds no quotes, and once is enough. */
  ghost predicate Tame(f: string -> string) {
    f(";") == ";" && forall s :: Quotes(f(s)) == Quotes(s) && f(f(s)) == f(s)
  }

  ghost predicate CutsAtSemicolons(cut: string -> nat) {
    forall s :: cut(s) <= |s| && (cut(s) < |s| ==> s[cut(s)] == ';')
  }

  ghost predicate KeepsWhole(f: string -> string, cut: string -> nat) {
    forall s | cut(s) == |s| :: cut(f(s)) == |f(s)|
  }

  ghost predicate KeepsCuts(f: string -> string, cut: string -> nat) {
    forall s, rest | cut(s) < |s| && Quotes(rest) == Quotes(s[cut(s) + 1..]) :: CutKept(f, cut, s, rest)
  }

  /** It rewrites statements so that they split and rewrite as before. */
  ghost predicate Harmless(f: string -> string, cut: string -> nat) {
    Tame(f) && CutsAtSemicolons(cut) && KeepsWhole(f, cut) && KeepsCuts(f, cut)
  }

  lemma SplitAt(cut: string -> nat, a: string, rest: string)
    requires cut(a + ";" + rest) == |a|
    ensures SplitBy(cut, a + ";" + rest) == [a, ";"] + SplitBy(cut, rest)
  {
    var s := a + ";" + rest;
    assert s[..|a|] == a && s[|a| + 1..] == rest;
  }

  lemma QuotesOfThree(a: string, b: string, c: string, d: string)
    requires Quotes(a) == Quotes(c) && Quotes(b) == Quotes(d)
    ensures Quotes(a + ";" + b) == Quotes(c + ";" + d)
  {
    QuotesAppend(a + ";", b);
    QuotesAppend(a, ";");
    QuotesAppend(c + ";", d);
    QuotesAppend(c, ";");
  }

  /** The rewritten query splits into the rewritten statements. */
  lemma {:induction false} SplitMapped(f: string -> string, cut: string -> nat, s: string)
    requires Harmless(f, cut)
    ensures SplitBy(cut, Mapped(f, cut, s)) == Each(f, SplitBy(cut, s)) && Quotes(Mapped(f, cut, s)) == Quotes(s)
    decreases |s|
  {
    var i := cut(s);
    if i == |s| {
      JoinMapped(f, s, []);
      EachIs(f, s, "", []);
    } else {
      var rest := s[i + 1..];
      var out := Mapped(f, cut, rest);
      SplitMapped(f, cut, rest);
      assert CutKept(f, cut, s, out);
      SplitAt(cut, f(s[..i]), out);
      JoinMapped(f, s[..i], SplitBy(cut, rest));
      EachIs(f, s[..i], ";", SplitBy(cut, rest));
      CutParts(s, i);
      QuotesOfThree(f(s[..i]), out, s[..i], rest);
    }
  }

  lemma MappedTwice(f: string -> string, cut: string -> nat, s: string)
    requires Harmless(f, cut)
    ensures Mapped(f, cut, Mapped(f, cut, s)) == Mapped(f, cut, s)
  {
    SplitMapped(f, cut, s);
    assert Each(f, Each(f, SplitBy(cut, s))) == Each(f, SplitBy(cut, s));
  }

  lemma TooShort(g: Grammar, s: string)
    requires |s| < |g.insert|
    ensures Parse(InsertTokens(g), s).NoMatch?
  {
    var tokens := InsertTokens(g);
    assert tokens[1..][0] == Literal(g.insert);
    assert Parse(tokens[1..], s[|TakeWhile(g.space, s)|..]).NoMatch?;
  }

  lemma NoCutAtEnd(g: Grammar, defaults: Defaults, s: string)
    requires DefaultsOk(g, defaults) && FirstCut(s) == |s|
    ensures FirstCut(Rewrite(g, defaults, s)) == |Rewrite(g, defaults, s)|
  {
    var r := Rewrite(g, defaults, s);
    BeforeFirstCut(s);
    assert s[..|s|] == s && s[|s|..] == "" && r + "" == r;
    RewriteQuiet(g, defaults, s, 0);
    FirstCutIs(r, "");
  }

  lemma SemicolonFirst(rest: string)
    requires Quotes(rest) % 2 == 0
    ensures FirstCut(";" + rest) == 0 && Quotes(";" + rest) == Quotes(rest)
  {
    var tail := ";" + rest;
    assert tail[1..] == rest && tail[0 + 1..] == rest;
  }

  lemma CutAgain(g: Grammar, defaults: Defaults, s: string, rest: string)
    requires DefaultsOk(g, defaults) && FirstCut(s) < |s| && Quotes(rest) == Quotes(s[FirstCut(s) + 1..])
    ensures var r := Rewrite(g, defaults, s[..FirstCut(s)]); FirstCut(r + ";" + rest) == |r|
  {
    var i := FirstCut(s);
    FirstCutCuts(s);
    BeforeFirstCut(s);
    assert s[i..] == ";" + s[i + 1..];
    SemicolonFirst(s[i + 1..]);
    SemicolonFirst(rest);
    RewriteQuiet(g, defaults, s[..i], Quotes(";" + rest));
    FirstCutBehind(Rewrite(g, defaults, s[..i]), rest);
  }

  lemma FirstCutBehind(r: string, rest: string)
    requires NoCut(r, Quotes(";" + rest)) && FirstCut(";" + rest) == 0
    ensures FirstCut(r + ";" + rest) == |r|
  {
    assert r + ";" + rest == r + (";" + rest);
    FirstCutIs(r, ";" + rest);
  }

  lemma RewriterIsTame(g: Grammar, defaults: Defaults)
    requires GrammarOk(g) && DefaultsOk(g, defaults)
    ensures Tame(Rewriter(g, defaults))
  {
    TooShort(g, ";");
    forall s
      ensures Quotes(Rewrite(g, defaults, s)) == Quotes(s)
              && Rewrite(g, defaults, Rewrite(g, defaults, s)) == Rewrite(g, defaults, s)
    {
      RewriteQuiet(g, defaults, s, 0);
      RewriteTwice(g, defaults, s);
    }
  }

  lemma RewriterKeepsWhole(g: Grammar, defaults: Defaults)
    requires DefaultsOk(g, defaults)
    ensures KeepsWhole(Rewriter(g, defaults), FirstCut)
  {
    forall s | FirstCut(s) == |s| ensures FirstCut(Rewrite(g, defaults, s)) == |Rewrite(g, defaults, s)| {
      NoCutAtEnd(g, defaults, s);
    }
  }

  lemma RewriterKeepsCuts(g: Grammar, defaults: Defaults)
    requires DefaultsOk(g, defaults)
    ensures KeepsCuts(Rewriter(g, defaults), FirstCut)
  {
    var f := Rewriter(g, defaults);
    forall s, rest | FirstCut(s) < |s| && Quotes(rest) == Quotes(s[FirstCut(s) + 1..]) ensures CutKept(f, FirstCut, s, rest) {
      CutAgain(g, defaults, s, rest);
    }
  }

  lemma FirstCutsAreSemicolons()
    ensures CutsAtSemicolons(FirstCut)
  {
    forall s ensures FirstCut(s) < |s| ==> s[FirstCut(s)] == ';' {
      FirstCutCuts(s);
    }
  }

  /** A second application changes nothing, whatever the query. */
  lemma Idempotent(g: Grammar, defaults: Defaults, s: string)
    requires GrammarOk(g) && DefaultsOk(g, defaults)
    ensures WithDefaults(g, defaults, WithDefaults(g, defaults, s)) == WithDefaults(g, defaults, s)
  {
    RewriterIsTame(g, defaults);
    FirstCutsAreSemicolons();
    RewriterKeepsWhole(g, defaults);
    RewriterKeepsCuts(g, defaults);
    MappedTwice(Rewriter(g, defaults), FirstCut, s);
  }

  // ----- a printed query

  /** Statements with semicolons between them. */
  function Between(statements: seq<string>): seq<string> {
    if |statements| < 2 then statements else [statements[0], ";"] + Between(statements[1..])
  }

  /** Read from the left: strings are closed, and no semicolon stands outside them. */
  predicate Alone(s: string, quoted: bool) {
    if |s| == 0 then !quoted else (s[0] == ';' ==> quoted) && Alone(s[1..], Toggled(quoted, s[0]))
  }

  lemma {:induction false} AloneIff(s: string, quoted: bool)
    ensures Alone(s, quoted) <==> (Quotes(s) % 2 == if quoted then 1 else 0) && NoCut(s, 0)
    decreases |s|
  {
    if |s| > 0 {
      AloneIff(s[1..], Toggled(quoted, s[0]));
    }
  }

  lemma {:induction false} NoCutParity(t: string, p: nat)
    requires p % 2 == 0
    ensures NoCut(t, p) <==> NoCut(t, 0)
    decreases |t|
  {
    if |t| > 0 {
      NoCutParity(t[1..], p);
    }
  }

  lemma AloneIsOnePart(s: string)
    requires Alone(s, false)
    ensures Split(s) == [s] && Quotes(s) % 2 == 0
  {
    AloneIff(s, false);
    FirstCutIs(s, "");
    assert s + "" == s;
  }

  lemma AloneIsFirstPart(s: string, rest: string)
    requires Alone(s, false) && Quotes(rest) % 2 == 0
    ensures Split(s + ";" + rest) == [s, ";"] + Split(rest) && Quotes(s + ";" + rest) % 2 == 0
  {
    AloneCuts(s, rest);
    SplitAt(FirstCut, s, rest);
  }

  lemma AloneCuts(s: string, rest: string)
    requires Alone(s, false) && Quotes(rest) % 2 == 0
    ensures FirstCut(s + ";" + rest) == |s| && Quotes(s + ";" + rest) % 2 == 0
  {
    AloneIff(s, false);
    SemicolonFirst(rest);
    NoCutParity(s, Quotes(";" + rest));
    FirstCutBehind(s, rest);
    EvenTogether(s, rest);
  }

  lemma EvenTogether(s: string, rest: string)
    requires Quotes(s) % 2 == 0 && Quotes(rest) % 2 == 0
    ensures Quotes(s + ";" + rest) % 2 == 0
  {
    QuotesAppend(s + ";", rest);
    QuotesAppend(s, ";");
  }

  /** A query is split at exactly the semicolons between its statements. */
  lemma {:induction false} SplitStatements(statements: seq<string>)
    requires |statements| > 0 && forall i | 0 <= i < |statements| :: Alone(statements[i], false)
    ensures Split(Join(Between(statements))) == Between(statements) && Quotes(Join(Between(statements))) % 2 == 0
    decreases |statements|
  {
    var first := statements[0];
    if |statements| == 1 {
      AloneIsOnePart(first);
      assert first + "" == first && statements == [first];
    } else {
      SplitStatements(statements[1..]);
      AloneIsFirstPart(first, Join(Between(statements[1..])));
      JoinThree(first, Between(statements[1..]));
    }
  }

  lemma EvenBehind(s: string, i: nat)
    requires i < |s| && Cuts(s, i)
    ensures s == s[..i] + ";" + s[i + 1..] && Quotes(s[i..]) % 2 == 0 && Quotes(s[i + 1..]) % 2 == 0
  {
    CutParts(s, i);
    assert s[i..] == ";" + s[i + 1..];
    SemicolonFirst(s[i + 1..]);
  }

  lemma FrontIsAlone(a: string, b: string)
    requires NoCut(a, Quotes(b)) && Quotes(b) % 2 == 0 && Quotes(a + b) % 2 == 0
    ensures Alone(a, false)
  {
    QuotesAppend(a, b);
    NoCutParity(a, Quotes(b));
    AloneIff(a, false);
  }

  lemma AloneUpTo(s: string, i: nat)
    requires Quotes(s) % 2 == 0 && i <= |s| && NoCut(s[..i], Quotes(s[i..])) && (i < |s| ==> Cuts(s, i))
    ensures Alone(s[..i], false) && (i < |s| ==> s == s[..i] + ";" + s[i + 1..] && Quotes(s[i + 1..]) % 2 == 0)
  {
    if i < |s| {
      EvenBehind(s, i);
    }
    assert s == s[..i] + s[i..];
    FrontIsAlone(s[..i], s[i..]);
  }

  /** Every query without an open string is made of such statements. */
  lemma {:induction false} QueryIsStatements(s: string) returns (statements: seq<string>)
    requires Quotes(s) % 2 == 0
    ensures |statements| > 0 && (forall i | 0 <= i < |statements| :: Alone(statements[i], false))
    ensures s == Join(Between(statements))
    decreases |s|
  {
    var i := FirstCut(s);
    BeforeFirstCut(s);
    FirstCutCuts(s);
    AloneUpTo(s, i);
    if i == |s| {
      statements := [s];
      assert s[..i] == s && s + "" == s;
    } else {
      var more := QueryIsStatements(s[i + 1..]);
      statements := [s[..i]] + more;
      assert statements[1..] == more;
      JoinThree(s[..i], Between(more));
    }
  }

  function Prints(statements: seq<Statement>): (r: seq<string>)
    ensures |r| == |statements| && forall i | 0 <= i < |r| :: r[i] == Print(statements[i])
  {
    seq(|statements|, i requires 0 <= i < |statements| => Print(statements[i]))
  }

  function ExtendAll(g: Grammar, defaults: Defaults, statements: seq<Statement>): (r: seq<Statement>)
    ensures |r| == |statements| && forall i | 0 <= i < |r| :: r[i] == Extended(g, defaults, statements[i])
  {
    seq(|statements|, i requires 0 <= i < |statements| => Extended(g, defaults, statements[i]))
  }

  function QueryOf(statements: seq<Statement>): string {
    Join(Between(Prints(statements)))
  }

  ghost predicate QueryOk(g: Grammar, defaults: Defaults, statements: seq<Statement>) {
    |statements| > 0 &&
    forall i | 0 <= i < |statements| :: Wellformed(g, defaults, statements[i]) && Alone(Print(statements[i]), false)
  }

  lemma {:induction false} EachBetween(f: string -> string, statements: seq<string>)
    requires f(";") == ";"
    ensures Each(f, Between(statements)) == Between(Each(f, statements))
    decreases |statements|
  {
    if |statements| >= 2 {
      EachBetween(f, statements[1..]);
      EachIs(f, statements[0], ";", Between(statements[1..]));
      assert Each(f, statements)[1..] == Each(f, statements[1..]);
    }
  }

  /** A query is rewritten statement by statement: every INSERT into a known table that misses columns gets their names
      and, in every row, their values; all other text stays. */
  lemma QueryIsExtended(g: Grammar, defaults: Defaults, statements: seq<Statement>)
    requires GrammarOk(g) && QueryOk(g, defaults, statements)
    ensures WithDefaults(g, defaults, QueryOf(statements)) == QueryOf(ExtendAll(g, defaults, statements))
  {
    var f, texts := Rewriter(g, defaults), Prints(statements);
    SplitStatements(texts);
    TooShort(g, ";");
    EachBetween(f, texts);
    forall i | 0 <= i < |texts| ensures f(texts[i]) == Prints(ExtendAll(g, defaults, statements))[i] {
      StatementIsExtended(g, defaults, statements[i]);
    }
    assert Each(f, texts) == Prints(ExtendAll(g, defaults, statements));
  }

  /** Whatever follows VALUES in an INSERT that misses columns has matching parentheses. */
  predicate RowsMatch(g: Grammar, defaults: Defaults, text: string) {
    Untouched(g, defaults, text) || Balanced(Parse(InsertTokens(g), text).rest, 0, false)
  }

  lemma TextIsStatement(g: Grammar, defaults: Defaults, text: string) returns (statement: Statement)
    requires RowsMatch(g, defaults, text)
    ensures Print(statement) == text && Wellformed(g, defaults, statement)
  {
    if Untouched(g, defaults, text) {
      statement := Other(text);
    } else {
      var p := Parse(InsertTokens(g), text);
      ParsedFits(InsertTokens(g), text);
      var items := BalancedIsItems(p.rest);
      statement := Insert(p.pieces, items);
    }
  }

  lemma {:induction false} TextsAreStatements(g: Grammar, defaults: Defaults, texts: seq<string>)
    returns (statements: seq<Statement>)
    requires forall i | 0 <= i < |texts| :: RowsMatch(g, defaults, texts[i])
    ensures Prints(statements) == texts && forall i | 0 <= i < |statements| :: Wellformed(g, defaults, statements[i])
    decreases |texts|
  {
    if |texts| == 0 {
      statements := [];
    } else {
      var first := TextIsStatement(g, defaults, texts[0]);
      var more := TextsAreStatements(g, defaults, texts[1..]);
      statements := [first] + more;
      assert Prints(statements) == [Print(first)] + Prints(more);
    }
  }

  lemma {:induction false} StatementsAreParts(statements: seq<string>, i: nat)
    requires i < |statements|
    ensures statements[i] in Between(statements)
    decreases |statements|
  {
    if i > 0 {
      StatementsAreParts(statements[1..], i - 1);
    }
  }

  /** Every query without an open string whose row lists have matching parentheses is such a query. */
  lemma EveryQueryIsExtended(g: Grammar, defaults: Defaults, query: string) returns (statements: seq<Statement>)
    requires GrammarOk(g) && Quotes(query) % 2 == 0 && forall part | part in Split(query) :: RowsMatch(g, defaults, part)
    ensures QueryOk(g, defaults, statements) && QueryOf(statements) == query
    ensures WithDefaults(g, defaults, query) == QueryOf(ExtendAll(g, defaults, statements))
  {
    var texts := QueryIsStatements(query);
    SplitStatements(texts);
    forall i | 0 <= i < |texts| ensures RowsMatch(g, defaults, texts[i]) {
      StatementsAreParts(texts, i);
    }
    statements := TextsAreStatements(g, defaults, texts);
    forall i | 0 <= i < |statements| ensures Alone(Print(statements[i]), false) {
      assert Print(statements[i]) == texts[i];
    }
    QueryIsExtended(g, defaults, statements);
  }

  /** Position i of the query is a part that separates two statements. */
  predicate Separates(parts: seq<string>, i: nat) {
    |parts| >= 2 && parts[1] == ";" && (i == |parts[0]| || (i > |parts[0]| && Separates(parts[2..], i - |parts[0]| - 1)))
  }

  lemma {:induction false} NoCutBefore(s: string, i: nat)
    requires i < FirstCut(s)
    ensures i < |s| && !Cuts(s, i)
    decreases |s|
  {
    if i > 0 {
      NoCutBefore(s[1..], i - 1);
      assert s[1..][i - 1 + 1..] == s[i + 1..];
    }
  }

  /** Nothing before a cut is one. */
  ghost predicate CutsFirst(cut: string -> nat) {
    forall s, i: nat | i < |s| :: (i < cut(s) ==> !Cuts(s, i)) && (i == cut(s) ==> Cuts(s, i))
  }

  lemma {:induction false} SeparatesIffCuts(cut: string -> nat, s: string, i: nat)
    requires CutsFirst(cut) && i < |s|
    ensures Separates(SplitBy(cut, s), i) <==> Cuts(s, i)
    decreases |s|
  {
    var at := cut(s);
    if at < |s| {
      SplitOff(cut, s, i);
    }
    if i > at {
      SeparatesIffCuts(cut, s[at + 1..], i - at - 1);
      CutsBehind(s, at, i);
    }
  }

  lemma FirstCutIsFirst()
    ensures CutsFirst(FirstCut)
  {
    forall s, i: nat | i < |s| ensures (i < FirstCut(s) ==> !Cuts(s, i)) && (i == FirstCut(s) ==> Cuts(s, i)) {
      FirstCutCuts(s);
      if i < FirstCut(s) {
        NoCutBefore(s, i);
      }
    }
  }

  lemma SplitOff(cut: string -> nat, s: string, i: nat)
    requires cut(s) < |s|
    ensures var at, parts := cut(s), SplitBy(cut, s[cut(s) + 1..]);
      Separates(SplitBy(cut, s), i) <==> i == at || (i > at && Separates(parts, i - at - 1))
  {
    var parts := SplitBy(cut, s[cut(s) + 1..]);
    assert ([s[..cut(s)], ";"] + parts)[2..] == parts;
  }

  lemma CutsBehind(s: string, at: nat, i: nat)
    requires at < i < |s|
    ensures Cuts(s[at + 1..], i - at - 1) <==> Cuts(s, i)
  {
    assert s[at + 1..][i - at - 1 + 1..] == s[i + 1..];
  }

  /** A query is split at exactly the semicolons that have as many quotes before them as the whole query has, up to an
      even number. */
  lemma SplitIff(s: string, i: nat)
    requires i < |s|
    ensures Separates(Split(s), i) <==> s[i] == ';' && Quotes(s[..i]) % 2 == Quotes(s) % 2
  {
    FirstCutIsFirst();
    SeparatesIffCuts(FirstCut, s, i);
    CutsIff(s, i);
  }
}
