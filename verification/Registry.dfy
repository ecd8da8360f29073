/** The build step's scan for registration markers, and the checks on what it collected. */
module Registry {
  import opened Options
  import opened Scanning
  import opened Sorting

  /** Whitespace, and the characters of identifiers. */
  datatype Classes = Classes(space: char -> bool, word: char -> bool)

  ghost predicate ClassesOk(c: Classes) {
    !c.space('(') && !c.space(',') && !c.space('f') && !c.word('(') && !c.word(',') && !c.word(' ')
    && forall x :: !(c.space(x) && c.word(x))
  }

  function TrimStart(c: Classes, s: string): string {
    s[|TakeWhile(c.space, s)|..]
  }

  // ----- what a marker says

  /** A marker's key, if it has one, and the functions it names. */
  datatype Parsed = Malformed | Hit(key: string, names: seq<string>)

  /** An identifier, and what follows it; None also for one that ends the text. */
  datatype Word = NoWord | Word(word: string, rest: string)

  function NextWord(c: Classes, s: string): Word {
    var text := TrimStart(c, s);
    var word := TakeWhile(c.word, text);
    if |word| == 0 || |word| == |text| then NoWord else Word(word, text[|word|..])
  }

  function MatchFnName(c: Classes, s: string): Option<string> {
    var text := TrimStart(c, s);
    if !StartsWith(text, "fn ") then None
    else
      var name := NextWord(c, text[3..]);
      if name.Word? && StartsWith(TrimStart(c, name.rest), "(") then Some(name.word) else None
  }

  const ARMS := ["delete", "restamp", "transfer", "not_transported"]

  function ArmFront(arm: string): string { "(" + arm + "," }

  /** Reads the function behind an arm. */
  type Matcher = string -> Option<string>

  function ParseArms(matcher: Matcher, head: string, arms: seq<string>): Parsed {
    if |arms| == 0 then Malformed
    else
      var front := ArmFront(arms[0]);
      var name := if StartsWith(head, front) then matcher(head[|front|..]) else None;
      if name.Some? then Hit(arms[0], [name.value]) else ParseArms(matcher, head, arms[1..])
  }

  function Matching(c: Classes): Matcher {
    (s: string) => MatchFnName(c, s)
  }

  function ParsePass(c: Classes, head: string): Parsed {
    if !StartsWith(head, "(") then Malformed
    else
      var name := MatchFnName(c, head[1..]);
      if name.None? then Malformed else Hit("", [name.value])
  }

  /** A key, a comma and a function: hooks by event, encounters by binding. */
  function ParseKeyed(c: Classes, head: string): Parsed {
    if !StartsWith(head, "(") then Malformed
    else
      var key := NextWord(c, head[1..]);
      if key.NoWord? || !StartsWith(TrimStart(c, key.rest), ",") then Malformed
      else
        var name := MatchFnName(c, TrimStart(c, key.rest)[1..]);
        if name.None? then Malformed else Hit(key.word, [name.value])
  }

  /** An identifier in front of a separator. */
  function WordBefore(c: Classes, s: string, separator: string): Word
    requires |separator| == 1
  {
    var word := NextWord(c, s);
    if word.NoWord? || !StartsWith(TrimStart(c, word.rest), separator) then NoWord
    else Word(word.word, TrimStart(c, word.rest)[1..])
  }

  function ParseCommand(c: Classes, head: string): Parsed {
    if !StartsWith(head, "(") then Malformed
    else
      var parse := WordBefore(c, head[1..], ",");
      if parse.NoWord? then Malformed
      else
        var apply := WordBefore(c, parse.rest, ",");
        if apply.NoWord? then Malformed
        else
          var reply := WordBefore(c, apply.rest, ")");
          if reply.NoWord? then Malformed else Hit("", [parse.word, apply.word, reply.word])
  }

  // ----- the markers

  datatype Kind = Owned | TickPass | Hook | ClientCommand | PackageCharacters | EncounterPackage

  function MarkerOf(kind: Kind): string {
    match kind
    case Owned => "character_owned!"
    case TickPass => "game_tick_pass!"
    case Hook => "game_hook!"
    case ClientCommand => "game_client_command!"
    case PackageCharacters => "game_package_characters!"
    case EncounterPackage => "encounter_package!"
  }

  function ParserOf(c: Classes, kind: Kind): string -> Parsed {
    match kind
    case Owned => (head: string) => ParseArms(Matching(c), head, ARMS)
    case TickPass => (head: string) => ParsePass(c, head)
    case Hook => (head: string) => ParseKeyed(c, head)
    case ClientCommand => (head: string) => ParseCommand(c, head)
    case PackageCharacters => (head: string) => ParsePass(c, head)
    case EncounterPackage => (head: string) => ParseKeyed(c, head)
  }

  function ParseHead(c: Classes, kind: Kind, head: string): Parsed {
    ParserOf(c, kind)(head)
  }

  /** A source file without comments and strings; the prefix is the module path of its registrations. */
  datatype File = File(content: string, inPackage: bool, prefix: string, enabled: bool)

  const PACKAGE_PREFIX := "crate::pkg_"

  function PackageOf(prefix: string): Option<string> {
    if StartsWith(prefix, PACKAGE_PREFIX) then Some(prefix[|PACKAGE_PREFIX|..]) else None
  }

  /** The classes, the catalogue of hook events, and whether a name is re-exported by its facade. */
  datatype Env = Env(classes: Classes, events: seq<string>, facade: (File, string) -> bool)

  /** The conditions under which a marker does not stop the build. */
  predicate Permitted(env: Env, file: File, kind: Kind, hit: Parsed) {
    hit.Hit? && (forall name | name in hit.names :: env.facade(file, name)) &&
    match kind
    case Hook => hit.key in env.events
    case ClientCommand => file.inPackage
    case EncounterPackage => file.inPackage
    case PackageCharacters => PackageOf(file.prefix).Some?
    case _ => true
  }

  // ----- scanning

  predicate OccursAt(content: string, marker: string, i: nat) {
    i <= |content| && StartsWith(content[i..], marker)
  }

  /** The next occurrence, or the end. */
  function Find(content: string, marker: string, start: nat): (i: nat)
    requires start <= |content|
    ensures start <= i <= |content|
    decreases |content| - start
  {
    if start == |content| || OccursAt(content, marker, start) then start else Find(content, marker, start + 1)
  }

  lemma {:induction false} FindIsFirst(content: string, marker: string, start: nat)
    requires start <= |content|
    ensures var i := Find(content, marker, start);
      (i < |content| ==> OccursAt(content, marker, i)) && forall k: nat | start <= k < i :: !OccursAt(content, marker, k)
    decreases |content| - start
  {
    if start < |content| && !OccursAt(content, marker, start) {
      FindIsFirst(content, marker, start + 1);
    }
  }

  /** Reads the marker at a place. */
  type Reader = nat -> Parsed

  /** The markers from a place on, or None where one of them stops the build. */
  function ScanFrom(read: Reader, content: string, marker: string, start: nat): Option<seq<Parsed>>
    requires |marker| > 0
    decreases |content| - start
  {
    if start > |content| || Find(content, marker, start) == |content| then Some([])
    else
      var i := Find(content, marker, start);
      var rest := ScanFrom(read, content, marker, i + |marker|);
      if read(i).Malformed? then None else Behind([read(i)], rest)
  }

  function ReadAt(env: Env, file: File, kind: Kind, i: nat): Parsed {
    if i + |MarkerOf(kind)| > |file.content| then Malformed
    else
      var hit := ParseHead(env.classes, kind, TrimStart(env.classes, file.content[i + |MarkerOf(kind)|..]));
      if Permitted(env, file, kind, hit) then hit else Malformed
  }

  function ReaderOf(env: Env, file: File, kind: Kind): Reader {
    (i: nat) => ReadAt(env, file, kind, i)
  }

  function HitsOf(env: Env, file: File, kind: Kind): Option<seq<Parsed>>
  {
    ScanFrom(ReaderOf(env, file, kind), file.content, MarkerOf(kind), 0)
  }

  function Behind(hits: seq<Parsed>, more: Option<seq<Parsed>>): Option<seq<Parsed>> {
    if more.None? then None else Some(hits + more.value)
  }

  lemma BehindTwice(a: seq<Parsed>, b: seq<Parsed>, more: Option<seq<Parsed>>)
    ensures Behind(a, Behind(b, more)) == Behind(a + b, more)
    ensures Behind([], more) == more
  {
    if more.Some? {
      assert a + (b + more.value) == (a + b) + more.value && [] + more.value == more.value;
    }
  }

  method ScanMarker(read: Reader, content: string, marker: string) returns (r: Option<seq<Parsed>>)
    requires |marker| > 0
    ensures r == ScanFrom(read, content, marker, 0)
  {
    var start, hits: seq<Parsed> := 0, [];
    ghost var whole := ScanFrom(read, content, marker, 0);
    BehindTwice([], [], whole);
    while start <= |content| && Find(content, marker, start) < |content|
      invariant whole == Behind(hits, ScanFrom(read, content, marker, start))
      decreases |content| - start
    {
      var i := Find(content, marker, start);
      if read(i).Malformed? {
        return None;
      }
      BehindTwice(hits, [read(i)], ScanFrom(read, content, marker, i + |marker|));
      hits := hits + [read(i)];
      start := i + |marker|;
    }
    assert hits + [] == hits;
    r := Some(hits);
  }

  /** The places where scanning finds a marker. */
  function Places(content: string, marker: string, start: nat): seq<nat>
    requires |marker| > 0
    decreases |content| - start
  {
    if start > |content| || Find(content, marker, start) == |content| then []
    else
      var i := Find(content, marker, start);
      [i] + Places(content, marker, i + |marker|)
  }

  /** The last character of a marker stands nowhere else in it, so two occurrences never overlap. */
  predicate Ends(marker: string) {
    |marker| > 0 && forall k | 0 <= k < |marker| - 1 :: marker[k] != marker[|marker| - 1]
  }

  lemma Letters(content: string, marker: string, i: nat)
    requires OccursAt(content, marker, i)
    ensures i + |marker| <= |content| && forall k: nat | k < |marker| :: content[i + k] == marker[k]
  {
    forall k: nat | k < |marker| ensures content[i + k] == marker[k] {
      assert content[i..][..|marker|][k] == content[i + k];
    }
  }

  lemma NoOverlap(content: string, marker: string, i: nat, j: nat)
    requires Ends(marker) && OccursAt(content, marker, i) && OccursAt(content, marker, j) && i < j
    ensures i + |marker| <= j
  {
    var last := i + |marker| - 1;
    Letters(content, marker, i);
    Letters(content, marker, j);
    assert content[last] == content[i + (|marker| - 1)] == marker[|marker| - 1];
    forall p | j <= p < j + |marker| - 1 ensures content[p] != marker[|marker| - 1] {
      assert content[p] == content[j + (p - j)] == marker[p - j];
    }
  }

  lemma {:induction false} PlacesOccur(content: string, marker: string, start: nat, i: nat)
    requires |marker| > 0 && i in Places(content, marker, start)
    ensures start <= i && OccursAt(content, marker, i)
    decreases |content| - start
  {
    if start <= |content| {
      FindIsFirst(content, marker, start);
      if i != Find(content, marker, start) {
        PlacesOccur(content, marker, Find(content, marker, start) + |marker|, i);
      }
    }
  }

  lemma {:induction false} OccurrenceIsPlace(content: string, marker: string, start: nat, i: nat)
    requires Ends(marker) && start <= i && OccursAt(content, marker, i)
    ensures i in Places(content, marker, start)
    decreases |content| - start
  {
    Letters(content, marker, i);
    var first := Find(content, marker, start);
    FindIsFirst(content, marker, start);
    if i != first {
      NoOverlap(content, marker, first, i);
      OccurrenceIsPlace(content, marker, first + |marker|, i);
    }
  }

  predicate Increasing(places: seq<nat>) {
    forall a, b | 0 <= a < b < |places| :: places[a] < places[b]
  }

  lemma {:induction false} PlacesIncrease(content: string, marker: string, start: nat)
    requires |marker| > 0
    ensures Increasing(Places(content, marker, start))
    decreases |content| - start
  {
    if start <= |content| && Find(content, marker, start) < |content| {
      var next := Find(content, marker, start) + |marker|;
      PlacesIncrease(content, marker, next);
      var rest := Places(content, marker, next);
      forall b | 0 <= b < |rest| ensures Find(content, marker, start) < rest[b] {
        PlacesOccur(content, marker, next, rest[b]);
      }
      assert Places(content, marker, start) == [Find(content, marker, start)] + rest;
    }
  }

  /** Scanning comes by every occurrence, once and in order. */
  lemma PlacesAreAll(content: string, marker: string)
    requires Ends(marker)
    ensures forall i: nat :: i in Places(content, marker, 0) <==> OccursAt(content, marker, i)
    ensures Increasing(Places(content, marker, 0))
  {
    forall i: nat ensures i in Places(content, marker, 0) <==> OccursAt(content, marker, i) {
      if i in Places(content, marker, 0) {
        PlacesOccur(content, marker, 0, i);
      }
      if OccursAt(content, marker, i) {
        OccurrenceIsPlace(content, marker, 0, i);
      }
    }
    PlacesIncrease(content, marker, 0);
  }

  /** When nothing stops the build, every occurrence of a marker has its one entry among the hits. */
  lemma {:induction false} OneHitEach(read: Reader, content: string, marker: string, start: nat)
    requires |marker| > 0 && ScanFrom(read, content, marker, start).Some?
    ensures var hits, places := ScanFrom(read, content, marker, start).value, Places(content, marker, start);
      |hits| == |places| && forall k | 0 <= k < |hits| :: hits[k].Hit? && hits[k] == read(places[k])
    decreases |content| - start
  {
    if start <= |content| && Find(content, marker, start) < |content| {
      var i := Find(content, marker, start);
      OneHitEach(read, content, marker, i + |marker|);
      var hits, places := ScanFrom(read, content, marker, i + |marker|).value, Places(content, marker, i + |marker|);
      assert ScanFrom(read, content, marker, start).value == [read(i)] + hits;
      assert Places(content, marker, start) == [i] + places;
    }
  }

  lemma MarkersEnd(kind: Kind)
    ensures Ends(MarkerOf(kind))
  {
  }

  /** For each marker of the build step, in whatever text it is looked for. */
  lemma MarkersAreFound(kind: Kind, content: string)
    ensures forall i: nat :: i in Places(content, MarkerOf(kind), 0) <==> OccursAt(content, MarkerOf(kind), i)
    ensures Increasing(Places(content, MarkerOf(kind), 0))
  {
    MarkersEnd(kind);
    PlacesAreAll(content, MarkerOf(kind));
  }

  // ----- what is read back

  /** A function as the markers name it. */
  ghost predicate Named(c: Classes, gap1: string, gap2: string, name: string, gap3: string) {
    && (forall i | 0 <= i < |gap1| :: c.space(gap1[i])) && (forall i | 0 <= i < |gap2| :: c.space(gap2[i]))
    && (forall i | 0 <= i < |gap3| :: c.space(gap3[i])) && |name| > 0 && forall i | 0 <= i < |name| :: c.word(name[i])
  }

  lemma TrimIs(c: Classes, gap: string, rest: string)
    requires (forall i | 0 <= i < |gap| :: c.space(gap[i])) && (|rest| > 0 ==> !c.space(rest[0]))
    ensures TrimStart(c, gap + rest) == rest
  {
    TakeWhileIs(c.space, gap, rest);
  }

  lemma NextWordIs(c: Classes, gap: string, word: string, rest: string)
    requires ClassesOk(c) && (forall i | 0 <= i < |gap| :: c.space(gap[i]))
    requires |word| > 0 && (forall i | 0 <= i < |word| :: c.word(word[i])) && |rest| > 0 && !c.word(rest[0])
    ensures NextWord(c, gap + (word + rest)) == Word(word, rest)
  {
    TrimIs(c, gap, word + rest);
    TakeWhileIs(c.word, word, rest);
    assert (word + rest)[|word|..] == rest;
  }

  lemma OpenParenthesis(c: Classes, gap: string, rest: string)
    requires ClassesOk(c) && forall i | 0 <= i < |gap| :: c.space(gap[i])
    ensures var tail := gap + ("(" + rest); StartsWith(TrimStart(c, tail), "(") && |tail| > 0 && !c.word(tail[0])
  {
    TrimIs(c, gap, "(" + rest);
  }

  /** A function head is read as its name. */
  lemma FnNameIs(c: Classes, gap1: string, gap2: string, name: string, gap3: string, rest: string)
    requires ClassesOk(c) && Named(c, gap1, gap2, name, gap3)
    ensures MatchFnName(c, gap1 + ("fn " + (gap2 + (name + (gap3 + ("(" + rest)))))) == Some(name)
  {
    var tail := gap3 + ("(" + rest);
    var named := gap2 + (name + tail);
    OpenParenthesis(c, gap3, rest);
    TrimIs(c, gap1, "fn " + named);
    assert ("fn " + named)[3..] == named && StartsWith("fn " + named, "fn ");
    NextWordIs(c, gap2, name, tail);
  }

  lemma {:induction false} ArmIs(matcher: Matcher, head: string, arms: seq<string>, k: nat, name: string)
    requires k < |arms| && StartsWith(head, ArmFront(arms[k])) && matcher(head[|ArmFront(arms[k])|..]) == Some(name)
    requires forall i | 0 <= i < k :: !StartsWith(head, ArmFront(arms[i]))
    ensures ParseArms(matcher, head, arms) == Hit(arms[k], [name])
    decreases |arms|
  {
    if k > 0 {
      assert !StartsWith(head, ArmFront(arms[0]));
      forall i | 0 <= i < k - 1 ensures !StartsWith(head, ArmFront(arms[1..][i])) {
        assert arms[1..][i] == arms[i + 1];
      }
      ArmIs(matcher, head, arms[1..], k - 1, name);
    }
  }

  lemma OtherArm(arm: string, other: string, rest: string)
    requires |arm| > 0 && |other| > 0 && arm[0] != other[0]
    ensures !StartsWith(ArmFront(arm) + rest, ArmFront(other))
  {
    var head := ArmFront(arm) + rest;
    assert head[1] == arm[0] && ArmFront(other)[1] == other[0];
    assert |ArmFront(other)| <= |head| ==> head[..|ArmFront(other)|][1] == arm[0];
  }

  /** The arms start with different letters. */
  predicate Distinct(arms: seq<string>) {
    (forall i | 0 <= i < |arms| :: |arms[i]| > 0) && forall i, j | 0 <= i < j < |arms| :: arms[i][0] != arms[j][0]
  }

  lemma ArmsDistinct()
    ensures Distinct(ARMS)
  {
  }

  lemma ArmIsRead(matcher: Matcher, arms: seq<string>, k: nat, head: string, name: string)
    requires k < |arms| && Distinct(arms) && matcher(head) == Some(name)
    ensures ParseArms(matcher, ArmFront(arms[k]) + head, arms) == Hit(arms[k], [name])
  {
    var front := ArmFront(arms[k]);
    assert (front + head)[|front|..] == head && StartsWith(front + head, front);
    forall i | 0 <= i < k ensures !StartsWith(front + head, ArmFront(arms[i])) {
      OtherArm(arms[k], arms[i], head);
    }
    ArmIs(matcher, front + head, arms, k, name);
  }

  /** Every arm of `character_owned!` is read as that arm and its function. */
  lemma OwnedIs(c: Classes, k: nat, gap1: string, gap2: string, name: string, gap3: string, rest: string)
    requires k < |ARMS| && ClassesOk(c) && Named(c, gap1, gap2, name, gap3)
    ensures ParseHead(c, Owned, ArmFront(ARMS[k]) + Function(gap1, gap2, name, gap3, rest)) == Hit(ARMS[k], [name])
  {
    ArmsDistinct();
    FunctionIs(c, gap1, gap2, name, gap3, rest);
    ArmIsRead(Matching(c), ARMS, k, Function(gap1, gap2, name, gap3, rest), name);
  }

  lemma CommaIs(c: Classes, gap: string, head: string)
    requires ClassesOk(c) && forall i | 0 <= i < |gap| :: c.space(gap[i])
    ensures var tail := gap + ("," + head);
      StartsWith(TrimStart(c, tail), ",") && TrimStart(c, tail)[1..] == head && |tail| > 0 && !c.word(tail[0])
  {
    TrimIs(c, gap, "," + head);
    assert ("," + head)[1..] == head && StartsWith("," + head, ",");
  }

  lemma Opened(inner: string)
    ensures StartsWith("(" + inner, "(") && ("(" + inner)[1..] == inner
  {
  }

  lemma KeyedParts(c: Classes, head: string, key: string, tail: string, name: Option<string>)
    requires StartsWith(head, "(") && NextWord(c, head[1..]) == Word(key, tail)
    requires StartsWith(TrimStart(c, tail), ",") && MatchFnName(c, TrimStart(c, tail)[1..]) == name && name.Some?
    ensures ParseKeyed(c, head) == Hit(key, [name.value])
  {
  }

  lemma KeyAndFunction(c: Classes, gap: string, key: string, gap0: string, head: string, name: string)
    requires ClassesOk(c) && Named(c, gap, gap0, key, gap0) && MatchFnName(c, head) == Some(name)
    ensures ParseKeyed(c, "(" + (gap + (key + (gap0 + ("," + head))))) == Hit(key, [name])
  {
    var tail := gap0 + ("," + head);
    CommaIs(c, gap0, head);
    NextWordIs(c, gap, key, tail);
    Opened(gap + (key + tail));
    KeyedParts(c, "(" + (gap + (key + tail)), key, tail, Some(name));
  }

  /** A function as it is written. */
  function Function(gap1: string, gap2: string, name: string, gap3: string, rest: string): string {
    gap1 + ("fn " + (gap2 + (name + (gap3 + ("(" + rest)))))
  }

  /** A key, a comma and a function are read as such: an event of a hook, a binding of an encounter. */
  lemma KeyedIs(c: Classes, gap: string, key: string, gap0: string, gap1: string, gap2: string, name: string, gap3: string, rest: string)
    requires ClassesOk(c) && Named(c, gap1, gap2, name, gap3) && Named(c, gap, gap0, key, gap0)
    ensures ParseKeyed(c, "(" + (gap + (key + (gap0 + ("," + Function(gap1, gap2, name, gap3, rest)))))) == Hit(key, [name])
  {
    FunctionIs(c, gap1, gap2, name, gap3, rest);
    KeyAndFunction(c, gap, key, gap0, Function(gap1, gap2, name, gap3, rest), name);
  }

  lemma FunctionIs(c: Classes, gap1: string, gap2: string, name: string, gap3: string, rest: string)
    requires ClassesOk(c) && Named(c, gap1, gap2, name, gap3)
    ensures MatchFnName(c, Function(gap1, gap2, name, gap3, rest)) == Some(name)
  {
    FnNameIs(c, gap1, gap2, name, gap3, rest);
  }

  /** A tick pass, or the function that names a Package's Characters. */
  lemma PassIs(c: Classes, gap1: string, gap2: string, name: string, gap3: string, rest: string)
    requires ClassesOk(c) && Named(c, gap1, gap2, name, gap3)
    ensures ParsePass(c, "(" + Function(gap1, gap2, name, gap3, rest)) == Hit("", [name])
  {
    Opened(Function(gap1, gap2, name, gap3, rest));
    FunctionIs(c, gap1, gap2, name, gap3, rest);
  }

  /** An identifier with gaps around it. */
  datatype Spaced = Spaced(gap: string, word: string, behind: string)

  ghost predicate SpacedOk(c: Classes, w: Spaced) {
    && (forall i | 0 <= i < |w.gap| :: c.space(w.gap[i])) && (forall i | 0 <= i < |w.behind| :: c.space(w.behind[i]))
    && |w.word| > 0 && forall i | 0 <= i < |w.word| :: c.word(w.word[i])
  }

  function Spell(w: Spaced, separator: char, rest: string): string {
    w.gap + (w.word + (w.behind + ([separator] + rest)))
  }

  lemma SeparatorIs(c: Classes, gap: string, separator: char, rest: string)
    requires ClassesOk(c) && !c.space(separator) && !c.word(separator) && forall i | 0 <= i < |gap| :: c.space(gap[i])
    ensures var tail := gap + ([separator] + rest);
      && StartsWith(TrimStart(c, tail), [separator]) && TrimStart(c, tail)[1..] == rest && |tail| > 0 && !c.word(tail[0])
  {
    TrimIs(c, gap, [separator] + rest);
    assert ([separator] + rest)[1..] == rest && StartsWith([separator] + rest, [separator]);
  }

  lemma WordBeforeIs(c: Classes, w: Spaced, separator: char, rest: string)
    requires ClassesOk(c) && SpacedOk(c, w) && !c.space(separator) && !c.word(separator)
    ensures WordBefore(c, Spell(w, separator, rest), [separator]) == Word(w.word, rest)
  {
    SeparatorIs(c, w.behind, separator, rest);
    NextWordIs(c, w.gap, w.word, w.behind + ([separator] + rest));
  }

  lemma CommandParts(c: Classes, head: string, parse: Word, apply: Word, reply: Word)
    requires StartsWith(head, "(") && parse.Word? && apply.Word? && reply.Word?
    requires WordBefore(c, head[1..], ",") == parse && WordBefore(c, parse.rest, ",") == apply
    requires WordBefore(c, apply.rest, ")") == reply
    ensures ParseCommand(c, head) == Hit("", [parse.word, apply.word, reply.word])
  {
  }

  /** The three functions of a client command. */
  lemma CommandIs(c: Classes, parse: Spaced, apply: Spaced, reply: Spaced, rest: string)
    requires ClassesOk(c) && !c.space(')') && !c.word(')') && SpacedOk(c, parse) && SpacedOk(c, apply) && SpacedOk(c, reply)
    ensures ParseCommand(c, "(" + Spell(parse, ',', Spell(apply, ',', Spell(reply, ')', rest)))) ==
            Hit("", [parse.word, apply.word, reply.word])
  {
    var last := Spell(reply, ')', rest);
    var middle := Spell(apply, ',', last);
    Opened(Spell(parse, ',', middle));
    WordBeforeIs(c, parse, ',', middle);
    WordBeforeIs(c, apply, ',', last);
    WordBeforeIs(c, reply, ')', rest);
    CommandParts(c, "(" + Spell(parse, ',', middle), Word(parse.word, middle), Word(apply.word, last), Word(reply.word, rest));
  }

  // ----- tables of a Package

  /** Text inside the parentheses of an attribute, cut at the commas outside nested brackets, up to the closing one. */
  function Items(s: string, item: string, depth: nat): seq<string>
    decreases |s|
  {
    if |s| == 0 then []
    else if s[0] == '(' || s[0] == '[' then Items(s[1..], item + [s[0]], depth + 1)
    else if s[0] == ')' || s[0] == ']' then if depth == 0 then [item] else Items(s[1..], item + [s[0]], depth - 1)
    else if s[0] == ',' && depth == 0 then [item] + Items(s[1..], "", 0)
    else Items(s[1..], item + [s[0]], depth)
  }

  /** A method of the same; the depth of the source never drops below zero. */
  method SplitItems(args: string) returns (items: seq<string>)
    ensures items == Items(args, "", 0)
  {
    var depth, itemStart := 0, 0;
    items := [];
    ghost var whole := Items(args, "", 0);
    assert args[0..] == args && [] + whole == whole;
    var i := 0;
    while i < |args|
      invariant 0 <= itemStart <= i <= |args| && depth >= 0
      invariant whole == items + Items(args[i..], args[itemStart..i], depth)
    {
      var c := args[i];
      assert args[i..][0] == c && args[i..][1..] == args[i + 1..];
      assert args[itemStart..i] + [c] == args[itemStart..i + 1];
      if c == '(' || c == '[' {
        depth := depth + 1;
      } else if c == ')' || c == ']' {
        if depth == 0 {
          return items + [args[itemStart..i]];
        }
        depth := depth - 1;
      } else if c == ',' && depth == 0 {
        ghost var rest := Items(args[i + 1..], "", 0);
        assert items + ([args[itemStart..i]] + rest) == (items + [args[itemStart..i]]) + rest;
        items := items + [args[itemStart..i]];
        itemStart := i + 1;
        assert args[i + 1..i + 1] == "";
      }
      i := i + 1;
    }
    assert items + [] == items;
  }

  /** Brackets match, and no comma stands outside them. */
  predicate Nested(s: string, depth: nat)
    decreases |s|
  {
    if |s| == 0 then depth == 0
    else if s[0] == '(' || s[0] == '[' then Nested(s[1..], depth + 1)
    else if s[0] == ')' || s[0] == ']' then depth > 0 && Nested(s[1..], depth - 1)
    else (s[0] == ',' ==> depth > 0) && Nested(s[1..], depth)
  }

  function Printed(items: seq<string>): string
    requires |items| > 0
  {
    if |items| == 1 then items[0] + ")" else items[0] + "," + Printed(items[1..])
  }

  lemma {:induction false} ItemIs(item: string, s: string, depth: nat, rest: string)
    requires Nested(s, depth)
    ensures Items(s + rest, item, depth) == Items(rest, item + s, 0)
    decreases |s|
  {
    if |s| == 0 {
      assert s + rest == rest && item + s == item;
    } else {
      assert (s + rest)[0] == s[0] && (s + rest)[1..] == s[1..] + rest;
      assert item + [s[0]] + s[1..] == item + s;
      var next := if s[0] == '(' || s[0] == '[' then depth + 1 else if s[0] == ')' || s[0] == ']' then depth - 1 else depth;
      ItemIs(item + [s[0]], s[1..], next, rest);
    }
  }

  /** A printed argument list is cut into exactly its items, whatever brackets and commas are nested in them. */
  lemma {:induction false} PrintedItems(items: seq<string>, rest: string)
    requires |items| > 0 && forall i | 0 <= i < |items| :: Nested(items[i], 0)
    ensures Items(Printed(items) + rest, "", 0) == items
    decreases |items|
  {
    var first := items[0];
    if |items| == 1 {
      assert Printed(items) + rest == first + (")" + rest);
      ItemIs("", first, 0, ")" + rest);
      assert "" + first == first && items == [first];
    } else {
      var tail := Printed(items[1..]) + rest;
      assert Printed(items) + rest == first + ("," + tail);
      ItemIs("", first, 0, "," + tail);
      assert ("," + tail)[1..] == tail && "" + first == first;
      PrintedItems(items[1..], rest);
      assert items == [first] + items[1..];
    }
  }

  /** An item of a table attribute: its accessor, something else, or a name, which stops the build. */
  datatype Accessor = NoAccessor | Stops | Accessor(name: string)

  function AccessorItem(c: Classes, item: string): Accessor {
    var text := Strip(c.space, item);
    if StartsWith(text, "name") && StartsWith(TrimStart(c, text[4..]), "=") then Stops
    else if !StartsWith(text, "accessor") || !StartsWith(TrimStart(c, text[8..]), "=") then NoAccessor
    else
      var value := Strip(c.space, TrimStart(c, text[8..])[1..]);
      if |value| > 0 && forall i | 0 <= i < |value| :: c.word(value[i]) then Accessor(value) else NoAccessor
  }

  /** None where an item stops the build. */
  function AccessorsOf(c: Classes, items: seq<string>): Option<seq<string>> {
    if |items| == 0 then Some([])
    else
      var first, rest := AccessorItem(c, items[0]), AccessorsOf(c, items[1..]);
      if first.Stops? || rest.None? then None
      else Some((if first.Accessor? then [first.name] else []) + rest.value)
  }

  /** What stands behind the opening bracket of an attribute. */
  function AttributeAccessors(c: Classes, s: string): Option<seq<string>> {
    var text := TrimStart(c, s);
    var rest := if StartsWith(text, "table") then text[5..]
                else if StartsWith(text, "spacetimedb::table") then text[18..] else "";
    if !StartsWith(TrimStart(c, rest), "(") then Some([])
    else AccessorsOf(c, Items(TrimStart(c, rest)[1..], "", 0))
  }

  /** An item of a table attribute as it is written: an accessor, a name, or anything that sets neither. */
  datatype Written =
    | AccessorSet(gap0: string, gap1: string, gap2: string, name: string, gap3: string)
    | NameSet(gap0: string, gap1: string, value: string, gap3: string)
    | Unset(text: string)

  function Write(item: Written): string {
    match item
    case AccessorSet(gap0, gap1, gap2, name, gap3) => gap0 + (("accessor" + (gap1 + ("=" + (gap2 + name)))) + gap3)
    case NameSet(gap0, gap1, value, gap3) => gap0 + (("name" + (gap1 + ("=" + value))) + gap3)
    case Unset(text) => text
  }

  function WriteAll(items: seq<Written>): (texts: seq<string>)
    ensures |texts| == |items| && forall i | 0 <= i < |texts| :: texts[i] == Write(items[i])
  {
    seq(|items|, i requires 0 <= i < |items| => Write(items[i]))
  }

  ghost predicate Gap(c: Classes, s: string) {
    forall i | 0 <= i < |s| :: c.space(s[i])
  }

  ghost predicate Identifier(c: Classes, s: string) {
    |s| > 0 && forall i | 0 <= i < |s| :: c.word(s[i])
  }

  predicate Sets(c: Classes, text: string, key: string) {
    StartsWith(text, key) && StartsWith(TrimStart(c, text[|key|..]), "=")
  }

  ghost predicate WrittenOk(c: Classes, item: Written) {
    Nested(Write(item), 0) &&
    match item
    case AccessorSet(gap0, gap1, gap2, name, gap3) =>
      Gap(c, gap0) && Gap(c, gap1) && Gap(c, gap2) && Gap(c, gap3) && Identifier(c, name)
    case NameSet(gap0, gap1, value, gap3) =>
      Gap(c, gap0) && Gap(c, gap1) && Gap(c, gap3) && (|value| > 0 ==> !c.space(value[|value| - 1]))
    case Unset(text) => !Sets(c, Strip(c.space, text), "name") && !Sets(c, Strip(c.space, text), "accessor")
  }

  ghost predicate AttributeClasses(c: Classes) {
    (forall x | x in "tsan(=" :: !c.space(x)) && forall x :: !(c.space(x) && c.word(x))
  }

  lemma {:induction false} StripEnd(space: char -> bool, core: string, gap: string)
    requires (|core| > 0 ==> !space(core[0]) && !space(core[|core| - 1])) && forall i | 0 <= i < |gap| :: space(gap[i])
    requires |core| > 0
    ensures Strip(space, core + gap) == core
    decreases |gap|
  {
    if |gap| == 0 {
      assert core + gap == core;
    } else {
      assert (core + gap)[..|core + gap| - 1] == core + gap[..|gap| - 1];
      StripEnd(space, core, gap[..|gap| - 1]);
    }
  }

  lemma {:induction false} StripIs(space: char -> bool, gap0: string, core: string, gap: string)
    requires |core| > 0 && !space(core[0]) && !space(core[|core| - 1])
    requires (forall i | 0 <= i < |gap0| :: space(gap0[i])) && forall i | 0 <= i < |gap| :: space(gap[i])
    ensures Strip(space, gap0 + (core + gap)) == core
    decreases |gap0|
  {
    if |gap0| == 0 {
      assert gap0 + (core + gap) == core + gap;
      StripEnd(space, core, gap);
    } else {
      assert (gap0 + (core + gap))[1..] == gap0[1..] + (core + gap);
      StripIs(space, gap0[1..], core, gap);
    }
  }

  lemma SetsIs(c: Classes, key: string, gap: string, value: string)
    requires Gap(c, gap) && !c.space('=')
    ensures var text := key + (gap + ("=" + value));
      Sets(c, text, key) && text[..|key|] == key && TrimStart(c, text[|key|..])[1..] == value
  {
    var text := key + (gap + ("=" + value));
    assert text[|key|..] == gap + ("=" + value) && text[..|key|] == key;
    TrimIs(c, gap, "=" + value);
    assert ("=" + value)[1..] == value && ("=" + value)[..1] == "=";
  }

  lemma AccessorRead(c: Classes, item: Written)
    requires AttributeClasses(c) && WrittenOk(c, item) && item.AccessorSet?
    ensures AccessorItem(c, Write(item)) == Accessor(item.name)
  {
    var name := item.name;
    var core := "accessor" + (item.gap1 + ("=" + (item.gap2 + name)));
    assert core[0] == 'a' && core[|core| - 1] == name[|name| - 1] && c.word(name[|name| - 1]) && c.word(name[0]);
    StripIs(c.space, item.gap0, core, item.gap3);
    assert !StartsWith(core, "name") by {
      assert core[..4][0] == 'a' && "name"[0] == 'n';
    }
    SetsIs(c, "accessor", item.gap1, item.gap2 + name);
    StripIs(c.space, item.gap2, name, "");
    assert name + "" == name;
  }

  lemma NameRead(c: Classes, item: Written)
    requires AttributeClasses(c) && WrittenOk(c, item) && item.NameSet?
    ensures AccessorItem(c, Write(item)) == Stops
  {
    var core := "name" + (item.gap1 + ("=" + item.value));
    assert core[0] == 'n';
    assert core[|core| - 1] == if |item.value| > 0 then item.value[|item.value| - 1] else '=';
    StripIs(c.space, item.gap0, core, item.gap3);
    SetsIs(c, "name", item.gap1, item.value);
  }

  /** The accessors, in order. */
  function NamesSet(items: seq<Written>): seq<string> {
    if |items| == 0 then [] else (if items[0].AccessorSet? then [items[0].name] else []) + NamesSet(items[1..])
  }

  predicate SetsName(items: seq<Written>) {
    exists i :: 0 <= i < |items| && items[i].NameSet?
  }

  lemma ItemRead(c: Classes, item: Written)
    requires AttributeClasses(c) && WrittenOk(c, item)
    ensures AccessorItem(c, Write(item)) ==
            if item.AccessorSet? then Accessor(item.name) else if item.NameSet? then Stops else NoAccessor
  {
    if item.AccessorSet? {
      AccessorRead(c, item);
    } else if item.NameSet? {
      NameRead(c, item);
    }
  }

  lemma {:induction false} ItemsRead(c: Classes, items: seq<Written>)
    requires AttributeClasses(c) && forall i | 0 <= i < |items| :: WrittenOk(c, items[i])
    ensures AccessorsOf(c, WriteAll(items)) == if SetsName(items) then None else Some(NamesSet(items))
    decreases |items|
  {
    if |items| > 0 {
      ItemRead(c, items[0]);
      ItemsRead(c, items[1..]);
      assert WriteAll(items)[1..] == WriteAll(items[1..]);
      SomeName(items);
    }
  }

  lemma SomeName(items: seq<Written>)
    requires |items| > 0
    ensures SetsName(items) <==> items[0].NameSet? || SetsName(items[1..])
  {
    if i :| 1 <= i < |items| && items[i].NameSet? {
      assert items[1..][i - 1].NameSet?;
    }
  }

  /** What stands behind either spelling. */
  lemma PathCut(path: string, tail: string)
    requires path == "table" || path == "spacetimedb::table"
    ensures var text := path + tail;
      && StartsWith(text, path) && text[|path|..] == tail && (StartsWith(text, "table") <==> path == "table")
      && (text[0] == 't' || text[0] == 's')
  {
    var text := path + tail;
    assert text[|path|..] == tail && text[..|path|] == path;
    if path != "table" {
      assert text[0] == 's' && text[..5][0] == 's' && "table"[0] == 't';
    }
  }

  lemma AttributeCut(c: Classes, gap0: string, path: string, gap1: string, texts: seq<string>, rest: string)
    requires AttributeClasses(c) && Gap(c, gap0) && Gap(c, gap1) && (path == "table" || path == "spacetimedb::table")
    requires |texts| > 0 && forall i | 0 <= i < |texts| :: Nested(texts[i], 0)
    ensures AttributeAccessors(c, gap0 + (path + (gap1 + ("(" + (Printed(texts) + rest))))) == AccessorsOf(c, texts)
  {
    var args := Printed(texts) + rest;
    PathCut(path, gap1 + ("(" + args));
    TrimIs(c, gap0, path + (gap1 + ("(" + args)));
    TrimIs(c, gap1, "(" + args);
    assert ("(" + args)[1..] == args && StartsWith("(" + args, "(");
    PrintedItems(texts, rest);
  }

  /** A written table attribute gives exactly the names of its accessors in order, whatever brackets its items nest, and
      stops the build when an item sets a name. */
  lemma PrintedAttribute(c: Classes, gap0: string, path: string, gap1: string, items: seq<Written>, rest: string)
    requires AttributeClasses(c) && Gap(c, gap0) && Gap(c, gap1) && (path == "table" || path == "spacetimedb::table")
    requires |items| > 0 && forall i | 0 <= i < |items| :: WrittenOk(c, items[i])
    ensures AttributeAccessors(c, gap0 + (path + (gap1 + ("(" + (Printed(WriteAll(items)) + rest))))) ==
            if SetsName(items) then None else Some(NamesSet(items))
  {
    AttributeCut(c, gap0, path, gap1, WriteAll(items), rest);
    ItemsRead(c, items);
  }

  const ATTRIBUTE := "#["

  function With(found: seq<string>, more: Option<seq<string>>): Option<seq<string>> {
    if more.None? then None else Some(found + more.value)
  }

  /** Reads the attribute at a place. */
  type AttributeReader = nat -> Option<seq<string>>

  function TablesFrom(read: AttributeReader, content: string, start: nat): Option<seq<string>>
    decreases |content| - start
  {
    if start > |content| || Find(content, ATTRIBUTE, start) == |content| then Some([])
    else
      var i := Find(content, ATTRIBUTE, start);
      var here := read(i);
      if here.None? then None else With(here.value, TablesFrom(read, content, i + 2))
  }

  /** Reads the attribute at the start of a text. */
  type TextReader = string -> Option<seq<string>>

  function AccessorReader(c: Classes): TextReader {
    (s: string) => AttributeAccessors(c, s)
  }

  function ReadingBehind(read: TextReader, content: string): AttributeReader {
    (i: nat) => if i + 2 <= |content| then read(content[i + 2..]) else Some([])
  }

  function AttributesOf(c: Classes, content: string): AttributeReader {
    ReadingBehind(AccessorReader(c), content)
  }

  /** The readings at the places, one after the other; None where one of them stops the build. */
  function Gathered(read: AttributeReader, places: seq<nat>): Option<seq<string>> {
    if |places| == 0 then Some([])
    else
      var here := read(places[0]);
      if here.None? then None else With(here.value, Gathered(read, places[1..]))
  }

  lemma {:induction false} TablesGathered(read: AttributeReader, content: string, start: nat)
    ensures TablesFrom(read, content, start) == Gathered(read, Places(content, ATTRIBUTE, start))
    decreases |content| - start
  {
    if start <= |content| && Find(content, ATTRIBUTE, start) < |content| {
      var i := Find(content, ATTRIBUTE, start);
      TablesGathered(read, content, i + |ATTRIBUTE|);
      assert Places(content, ATTRIBUTE, start)[1..] == Places(content, ATTRIBUTE, i + |ATTRIBUTE|);
    }
  }

  /** Every attribute of a file is read, once and in order. */
  lemma EveryAttributeIsRead(c: Classes, content: string)
    ensures TablesFrom(AttributesOf(c, content), content, 0) == Gathered(AttributesOf(c, content), Places(content, ATTRIBUTE, 0))
    ensures forall i: nat :: i in Places(content, ATTRIBUTE, 0) <==> OccursAt(content, ATTRIBUTE, i)
    ensures Increasing(Places(content, ATTRIBUTE, 0))
  {
    TablesGathered(AttributesOf(c, content), content, 0);
    PlacesAreAll(content, ATTRIBUTE);
  }

  // ----- a written file

  /** What stands behind an opening bracket, up to the next one: a table attribute, or any other text. */
  datatype Attribute =
    | TableAttribute(gap0: string, path: string, gap1: string, items: seq<Written>, rest: string)
    | OtherAttribute(text: string)

  function AttributeText(a: Attribute): string {
    match a
    case TableAttribute(gap0, path, gap1, items, rest) =>
      if |items| == 0 then "" else gap0 + (path + (gap1 + ("(" + (Printed(WriteAll(items)) + rest))))
    case OtherAttribute(text) => text
  }

  /** Text, and attributes behind it. */
  function FileText(head: string, attributes: seq<Attribute>): string
    decreases |attributes|
  {
    if |attributes| == 0 then head else head + (ATTRIBUTE + FileText(AttributeText(attributes[0]), attributes[1..]))
  }

  predicate NoTable(c: Classes, s: string) {
    var text := TrimStart(c, s);
    && (StartsWith(text, "table") ==> !StartsWith(TrimStart(c, text[5..]), "("))
    && (StartsWith(text, "spacetimedb::table") ==> !StartsWith(TrimStart(c, text[18..]), "("))
  }

  ghost predicate TableOk(c: Classes, a: Attribute) {
    && a.TableAttribute? && Gap(c, a.gap0) && Gap(c, a.gap1) && (a.path == "table" || a.path == "spacetimedb::table")
    && |a.items| > 0 && forall i | 0 <= i < |a.items| :: WrittenOk(c, a.items[i])
  }

  ghost predicate Free(s: string) {
    forall i: nat :: !OccursAt(s, ATTRIBUTE, i)
  }

  /** No part holds an opening bracket of its own. */
  ghost predicate Parted(head: string, attributes: seq<Attribute>)
    decreases |attributes|
  {
    Free(head) && (|attributes| > 0 ==> Parted(AttributeText(attributes[0]), attributes[1..]))
  }

  /** What is no table attribute does not look like one. */
  ghost predicate AttributesOk(c: Classes, attributes: seq<Attribute>)
    decreases |attributes|
  {
    |attributes| > 0 ==>
      && (TableOk(c, attributes[0]) ||
          (attributes[0].OtherAttribute? && NoTable(c, FileText(attributes[0].text, attributes[1..]))))
      && AttributesOk(c, attributes[1..])
  }

  predicate Naming(attributes: seq<Attribute>) {
    exists i :: 0 <= i < |attributes| && attributes[i].TableAttribute? && SetsName(attributes[i].items)
  }

  function NamesOfTables(attributes: seq<Attribute>): seq<string> {
    if |attributes| == 0 then []
    else (if attributes[0].TableAttribute? then NamesSet(attributes[0].items) else []) + NamesOfTables(attributes[1..])
  }

  function ReadThen(here: Option<seq<string>>, more: Option<seq<string>>): Option<seq<string>> {
    if here.None? then None else With(here.value, more)
  }

  /** The tables of a text, from its next attribute on. */
  function TablesOfText(read: TextReader, s: string): Option<seq<string>>
    decreases |s|
  {
    var i := Find(s, ATTRIBUTE, 0);
    if |s| < i + 2 then Some([]) else ReadThen(read(s[i + 2..]), TablesOfText(read, s[i + 2..]))
  }

  /** Reading at a place is reading the text behind the bracket there. */
  ghost predicate ReadsBehind(at: AttributeReader, read: TextReader, content: string) {
    forall i: nat | i + 2 <= |content| :: at(i) == read(content[i + 2..])
  }

  lemma {:induction false} FindShifted(content: string, marker: string, start: nat, from: nat)
    requires start + from <= |content|
    ensures Find(content, marker, start + from) == start + Find(content[start..], marker, from)
    decreases |content| - from
  {
    assert content[start..][from..] == content[start + from..];
    if start + from < |content| && !OccursAt(content, marker, start + from) {
      FindShifted(content, marker, start, from + 1);
    }
  }

  lemma FoundWhole(s: string)
    ensures var i := Find(s, ATTRIBUTE, 0); i == |s| || i + 2 <= |s|
  {
    FindIsFirst(s, ATTRIBUTE, 0);
  }

  lemma FromStep(at: AttributeReader, content: string, start: nat, i: nat)
    requires start <= |content| && i == Find(content, ATTRIBUTE, start) && i + 2 <= |content|
    ensures TablesFrom(at, content, start) == ReadThen(at(i), TablesFrom(at, content, i + 2))
  {
  }

  lemma TextStep(read: TextReader, s: string, rest: string)
    requires Find(s, ATTRIBUTE, 0) + 2 <= |s| && rest == s[Find(s, ATTRIBUTE, 0) + 2..]
    ensures TablesOfText(read, s) == ReadThen(read(rest), TablesOfText(read, rest))
  {
  }

  lemma {:induction false} TablesFromText(at: AttributeReader, read: TextReader, content: string, start: nat)
    requires start <= |content| && ReadsBehind(at, read, content)
    ensures TablesFrom(at, content, start) == TablesOfText(read, content[start..])
    decreases |content| - start
  {
    var s := content[start..];
    FindShifted(content, ATTRIBUTE, start, 0);
    FoundWhole(s);
    var i := Find(s, ATTRIBUTE, 0);
    if i < |s| {
      var next := start + i + 2;
      assert s[i + 2..] == content[next..];
      FromStep(at, content, start, start + i);
      TextStep(read, s, content[next..]);
      TablesFromText(at, read, content, next);
    }
  }

  lemma {:induction false} FindBehind(head: string, rest: string, from: nat)
    requires Free(head) && from <= |head|
    ensures Find(head + (ATTRIBUTE + rest), ATTRIBUTE, from) == |head|
    decreases |head| - from
  {
    var s := head + (ATTRIBUTE + rest);
    if from == |head| {
      assert s[from..] == ATTRIBUTE + rest && (ATTRIBUTE + rest)[..2] == ATTRIBUTE;
    } else {
      NotInHead(head, rest, from);
      FindBehind(head, rest, from + 1);
    }
  }

  lemma TwoCharacters(s: string, i: nat)
    ensures OccursAt(s, ATTRIBUTE, i) <==> i + 2 <= |s| && s[i] == '#' && s[i + 1] == '['
  {
    if i + 2 <= |s| {
      assert s[i..][..2] == [s[i], s[i + 1]];
    }
  }

  lemma NotInHead(head: string, rest: string, i: nat)
    requires Free(head) && i < |head|
    ensures !OccursAt(head + (ATTRIBUTE + rest), ATTRIBUTE, i)
  {
    TwoCharacters(head, i);
    TwoCharacters(head + (ATTRIBUTE + rest), i);
  }

  lemma NoneBehind(head: string)
    requires Free(head)
    ensures Find(head, ATTRIBUTE, 0) == |head|
  {
    FindIsFirst(head, ATTRIBUTE, 0);
  }

  lemma OneTable(read: TextReader, head: string, rest: string)
    requires Free(head)
    ensures TablesOfText(read, head) == Some([])
    ensures TablesOfText(read, head + (ATTRIBUTE + rest)) == ReadThen(read(rest), TablesOfText(read, rest))
  {
    NoneBehind(head);
    FindBehind(head, rest, 0);
    assert (head + (ATTRIBUTE + rest))[|head| + 2..] == rest;
    TextStep(read, head + (ATTRIBUTE + rest), rest);
  }

  /** Whatever follows a table attribute, it is read as its own. */
  lemma TableIs(c: Classes, a: Attribute, more: string, attributes: seq<Attribute>)
    requires AttributeClasses(c) && TableOk(c, a) && more == FileText(AttributeText(a), attributes)
    ensures AttributeAccessors(c, more) == if SetsName(a.items) then None else Some(NamesSet(a.items))
  {
    var tail := if |attributes| == 0 then "" else ATTRIBUTE + FileText(AttributeText(attributes[0]), attributes[1..]);
    var printed := Printed(WriteAll(a.items));
    assert more == AttributeText(a) + tail;
    Regrouped(a.gap0, a.path, a.gap1, printed, a.rest, tail);
    PrintedAttribute(c, a.gap0, a.path, a.gap1, a.items, a.rest + tail);
  }

  lemma Regrouped(a: string, b: string, c: string, printed: string, rest: string, tail: string)
    ensures a + (b + (c + ("(" + (printed + rest)))) + tail == a + (b + (c + ("(" + (printed + (rest + tail)))))
  {
  }

  lemma OtherIs(c: Classes, s: string)
    requires NoTable(c, s) && !c.space('t')
    ensures AttributeAccessors(c, s) == Some([])
  {
    assert TrimStart(c, "") == "";
  }

  lemma FirstNaming(attributes: seq<Attribute>)
    requires |attributes| > 0
    ensures Naming(attributes) <==>
      (attributes[0].TableAttribute? && SetsName(attributes[0].items)) || Naming(attributes[1..])
  {
    if i :| 1 <= i < |attributes| && attributes[i].TableAttribute? && SetsName(attributes[i].items) {
      assert attributes[1..][i - 1] == attributes[i];
    }
  }

  /** What a written attribute says. */
  function Answer(a: Attribute): Option<seq<string>> {
    if a.OtherAttribute? then Some([]) else if SetsName(a.items) then None else Some(NamesSet(a.items))
  }

  ghost predicate Answers(read: TextReader, attributes: seq<Attribute>)
    decreases |attributes|
  {
    |attributes| > 0 ==>
      && read(FileText(AttributeText(attributes[0]), attributes[1..])) == Answer(attributes[0])
      && Answers(read, attributes[1..])
  }

  lemma FirstAnswer(c: Classes, first: Attribute, attributes: seq<Attribute>)
    requires AttributeClasses(c)
    requires TableOk(c, first) || (first.OtherAttribute? && NoTable(c, FileText(first.text, attributes)))
    ensures AccessorReader(c)(FileText(AttributeText(first), attributes)) == Answer(first)
  {
    var rest := FileText(AttributeText(first), attributes);
    if first.TableAttribute? {
      TableIs(c, first, rest, attributes);
    } else {
      OtherIs(c, rest);
    }
  }

  lemma {:induction false} AllAnswer(c: Classes, attributes: seq<Attribute>)
    requires AttributeClasses(c) && AttributesOk(c, attributes)
    ensures Answers(AccessorReader(c), attributes)
    decreases |attributes|
  {
    if |attributes| > 0 {
      FirstAnswer(c, attributes[0], attributes[1..]);
      AllAnswer(c, attributes[1..]);
    }
  }

  lemma Together(attributes: seq<Attribute>)
    requires |attributes| > 0
    ensures var more := if Naming(attributes[1..]) then None else Some(NamesOfTables(attributes[1..]));
      ReadThen(Answer(attributes[0]), more) == if Naming(attributes) then None else Some(NamesOfTables(attributes))
  {
    FirstNaming(attributes);
  }

  lemma {:induction false} TextTables(read: TextReader, head: string, attributes: seq<Attribute>)
    requires Parted(head, attributes) && Answers(read, attributes)
    ensures TablesOfText(read, FileText(head, attributes)) == if Naming(attributes) then None else Some(NamesOfTables(attributes))
    decreases |attributes|
  {
    if |attributes| == 0 {
      OneTable(read, head, "");
    } else {
      TextTables(read, AttributeText(attributes[0]), attributes[1..]);
      OneTable(read, head, FileText(AttributeText(attributes[0]), attributes[1..]));
      Together(attributes);
    }
  }

  lemma TablesAre(read: TextReader, content: string)
    ensures TablesFrom(ReadingBehind(read, content), content, 0) == TablesOfText(read, content)
  {
    TablesFromText(ReadingBehind(read, content), read, content, 0);
    assert content[0..] == content;
  }

  /** A written file gives the accessors of all its table attributes in order, and stops the build when one of them sets
      a name. */
  lemma WrittenTables(c: Classes, head: string, attributes: seq<Attribute>)
    requires AttributeClasses(c) && Parted(head, attributes) && AttributesOk(c, attributes)
    ensures var content := FileText(head, attributes);
      TablesFrom(AttributesOf(c, content), content, 0) == if Naming(attributes) then None else Some(NamesOfTables(attributes))
  {
    AllAnswer(c, attributes);
    TextTables(AccessorReader(c), head, attributes);
    TablesAre(AccessorReader(c), FileText(head, attributes));
  }

  // ----- the registries

  /** A function by its module path. */
  datatype Path = Path(prefix: string, name: string)

  /** A table of a Package. */
  datatype Table = Table(package: string, table: string)

  /** A path under a hook event, an encounter binding or a Package. */
  datatype Keyed = Keyed(key: string, path: Path)

  datatype Lists = Lists(
    delete: seq<Path>, restamp: seq<Path>, transfer: seq<Path>, notTransported: seq<Path>, ticks: seq<Path>,
    hooks: seq<Keyed>, encounters: seq<Keyed>, commands: seq<seq<Path>>, tables: seq<Table>, characters: seq<Keyed>)

  const EMPTY := Lists([], [], [], [], [], [], [], [], [], [])

  /** The paths of the hits under some of the arms, in order. */
  function ArmPaths(prefix: string, hits: seq<Parsed>, arms: set<string>): seq<Path> {
    if |hits| == 0 then []
    else
      var last := hits[|hits| - 1];
      ArmPaths(prefix, hits[..|hits| - 1], arms) +
      if last.Hit? && last.key in arms && |last.names| == 1 then [Path(prefix, last.names[0])] else []
  }

  function NameOf(hit: Parsed): string {
    if hit.Hit? && |hit.names| > 0 then hit.names[0] else ""
  }

  function PathsOf(prefix: string, hits: seq<Parsed>): (paths: seq<Path>)
    ensures |paths| == |hits|
  {
    seq(|hits|, i requires 0 <= i < |hits| => Path(prefix, NameOf(hits[i])))
  }

  function KeyedEntry(prefix: string, hit: Parsed): Keyed {
    Keyed(if hit.Hit? then hit.key else "", Path(prefix, NameOf(hit)))
  }

  function KeyedOf(prefix: string, hits: seq<Parsed>): (paths: seq<Keyed>)
    ensures |paths| == |hits|
  {
    seq(|hits|, i requires 0 <= i < |hits| => KeyedEntry(prefix, hits[i]))
  }

  function CharactersEntry(prefix: string, hit: Parsed): Keyed {
    var package := PackageOf(prefix);
    Keyed(if package.Some? then package.value else "", Path(prefix, NameOf(hit)))
  }

  function PackageKeyed(prefix: string, hits: seq<Parsed>): (paths: seq<Keyed>)
    ensures |paths| == |hits|
  {
    seq(|hits|, i requires 0 <= i < |hits| => CharactersEntry(prefix, hits[i]))
  }

  function NamedPaths(prefix: string, names: seq<string>): (paths: seq<Path>)
    ensures |paths| == |names|
  {
    seq(|names|, i requires 0 <= i < |names| => Path(prefix, names[i]))
  }

  function CommandEntry(prefix: string, hit: Parsed): seq<Path> {
    NamedPaths(prefix, if hit.Hit? then hit.names else [])
  }

  function CommandsOf(prefix: string, hits: seq<Parsed>): (commands: seq<seq<Path>>)
    ensures |commands| == |hits|
  {
    seq(|hits|, i requires 0 <= i < |hits| => CommandEntry(prefix, hits[i]))
  }

  function TablesOf(prefix: string, names: seq<string>): (tables: seq<Table>)
    ensures |tables| == |names|
  {
    var package := PackageOf(prefix);
    seq(|names|, i requires 0 <= i < |names| => Table(if package.Some? then package.value else "", names[i]))
  }

  /** The hits of one file by kind, and the tables it declares for a Package. */
  datatype FileHits = FileHits(
    owned: seq<Parsed>, ticks: seq<Parsed>, hooks: seq<Parsed>, commands: seq<Parsed>, tables: seq<string>,
    characters: seq<Parsed>, encounters: seq<Parsed>)

  function AfterFile(lists: Lists, file: File, h: FileHits): Lists {
    Lists(
      lists.delete + ArmPaths(file.prefix, h.owned, {"delete"}),
      lists.restamp + ArmPaths(file.prefix, h.owned, {"restamp"}),
      lists.transfer + ArmPaths(file.prefix, h.owned, {"transfer", "not_transported"}),
      lists.notTransported + (if file.inPackage then [] else ArmPaths(file.prefix, h.owned, {"not_transported"})),
      lists.ticks + PathsOf(file.prefix, h.ticks),
      lists.hooks + KeyedOf(file.prefix, h.hooks),
      lists.encounters + KeyedOf(file.prefix, h.encounters),
      lists.commands + CommandsOf(file.prefix, h.commands),
      lists.tables + TablesOf(file.prefix, h.tables),
      lists.characters + PackageKeyed(file.prefix, h.characters))
  }

  function TablesIn(env: Env, file: File): Option<seq<string>> {
    if PackageOf(file.prefix).None? then Some([]) else TablesFrom(AttributesOf(env.classes, file.content), file.content, 0)
  }

  /** What a scan of the file finds; None where a marker or a table stops the build. */
  function FileHitsOf(env: Env, file: File): Option<FileHits> {
    var owned, ticks, hooks := HitsOf(env, file, Owned), HitsOf(env, file, TickPass), HitsOf(env, file, Hook);
    var commands, tables := HitsOf(env, file, ClientCommand), TablesIn(env, file);
    var characters, encounters := HitsOf(env, file, PackageCharacters), HitsOf(env, file, EncounterPackage);
    if owned.Some? && ticks.Some? && hooks.Some? && commands.Some? && tables.Some? && characters.Some? && encounters.Some?
    then Some(FileHits(owned.value, ticks.value, hooks.value, commands.value, tables.value, characters.value, encounters.value))
    else None
  }

  function Scanned(env: Env, lists: Lists, file: File): Option<Lists> {
    if !file.enabled then Some(lists)
    else
      var hits := FileHitsOf(env, file);
      if hits.None? then None else Some(AfterFile(lists, file, hits.value))
  }

  /** Scans one file into the lists. */
  type FileScan = (Lists, File) -> Option<Lists>

  function ScanBy(scan: FileScan, files: seq<File>): Option<Lists> {
    if |files| == 0 then Some(EMPTY)
    else
      var before := ScanBy(scan, files[..|files| - 1]);
      if before.None? then None else scan(before.value, files[|files| - 1])
  }

  function ScanOf(env: Env): FileScan {
    (lists: Lists, file: File) => Scanned(env, lists, file)
  }

  function ScannedAll(env: Env, files: seq<File>): Option<Lists> {
    ScanBy(ScanOf(env), files)
  }

  lemma {:induction false} ArmsAreKeys(matcher: Matcher, head: string, arms: seq<string>)
    ensures var hit := ParseArms(matcher, head, arms); hit.Hit? ==> hit.key in arms && |hit.names| == 1
    decreases |arms|
  {
    if |arms| > 0 {
      ArmsAreKeys(matcher, head, arms[1..]);
    }
  }

  /** Hits of `character_owned!`: one of the arms and one function. */
  predicate OwnedHits(hits: seq<Parsed>) {
    forall i | 0 <= i < |hits| :: hits[i].Hit? && hits[i].key in ARMS && |hits[i].names| == 1
  }

  lemma {:induction false} ScanIsOwned(read: Reader, content: string, marker: string, start: nat)
    requires |marker| > 0 && ScanFrom(read, content, marker, start).Some?
    requires forall i: nat :: read(i).Hit? ==> read(i).key in ARMS && |read(i).names| == 1
    ensures OwnedHits(ScanFrom(read, content, marker, start).value)
    decreases |content| - start
  {
    if start <= |content| && Find(content, marker, start) < |content| {
      ScanIsOwned(read, content, marker, Find(content, marker, start) + |marker|);
    }
  }

  lemma OwnedAt(env: Env, file: File, i: nat)
    ensures var hit := ReadAt(env, file, Owned, i); hit.Hit? ==> hit.key in ARMS && |hit.names| == 1
  {
    var at := i + |MarkerOf(Owned)|;
    if at <= |file.content| {
      ArmsAreKeys(Matching(env.classes), TrimStart(env.classes, file.content[at..]), ARMS);
    }
  }

  lemma ReadsOwned(env: Env, file: File)
    ensures forall i: nat :: ReaderOf(env, file, Owned)(i).Hit? ==>
      ReaderOf(env, file, Owned)(i).key in ARMS && |ReaderOf(env, file, Owned)(i).names| == 1
  {
    forall i: nat {
      OwnedAt(env, file, i);
    }
  }

  lemma HitsAreOwned(env: Env, file: File)
    requires HitsOf(env, file, Owned).Some?
    ensures OwnedHits(HitsOf(env, file, Owned).value)
  {
    ReadsOwned(env, file);
    ScanIsOwned(ReaderOf(env, file, Owned), file.content, MarkerOf(Owned), 0);
  }

  /** Positions of a file, and what is registered for one. */
  type Choice = nat -> bool

  /** The list grew by one entry for each occurrence that was chosen, in their order. */
  ghost predicate Registered<T(!new)>(was: seq<T>, now: seq<T>, file: File, kind: Kind, chosen: Choice, entry: nat -> T) {
    exists at: seq<nat> :: Grown(was, now, at, entry) && Listed(file, kind, chosen, at)
  }

  ghost predicate Grown<T>(was: seq<T>, now: seq<T>, at: seq<nat>, entry: nat -> T) {
    |now| == |was| + |at| && now[..|was|] == was && forall j | 0 <= j < |at| :: now[|was| + j] == entry(at[j])
  }

  ghost predicate Listed(file: File, kind: Kind, chosen: Choice, at: seq<nat>) {
    Increasing(at) && forall i: nat :: i in at <==> OccursAt(file.content, MarkerOf(kind), i) && chosen(i)
  }

  function HasArm(env: Env, file: File, arms: set<string>): Choice {
    (i: nat) => ReadAt(env, file, Owned, i).Hit? && ReadAt(env, file, Owned, i).key in arms
  }

  function Every(): Choice { (i: nat) => true }

  /** The entries of the lists: a function, a function under a key, three functions, a function under the Package. */
  function FunctionAt(env: Env, file: File, kind: Kind): nat -> Path {
    (i: nat) => Path(file.prefix, NameOf(ReadAt(env, file, kind, i)))
  }

  function KeyedAt(env: Env, file: File, kind: Kind): nat -> Keyed {
    (i: nat) => KeyedEntry(file.prefix, ReadAt(env, file, kind, i))
  }

  function CommandAt(env: Env, file: File): nat -> seq<Path> {
    (i: nat) => CommandEntry(file.prefix, ReadAt(env, file, ClientCommand, i))
  }

  function CharactersAt(env: Env, file: File): nat -> Keyed {
    (i: nat) => CharactersEntry(file.prefix, ReadAt(env, file, PackageCharacters, i))
  }

  /** The hits are the readings at increasing positions. */
  ghost predicate ReadFrom(hits: seq<Parsed>, places: seq<nat>, read: Reader) {
    |hits| == |places| && Increasing(places) && forall k | 0 <= k < |hits| :: hits[k].Hit? && hits[k] == read(places[k])
  }

  lemma FoundHits(env: Env, file: File, kind: Kind)
    requires HitsOf(env, file, kind).Some?
    ensures var places := Places(file.content, MarkerOf(kind), 0);
      ReadFrom(HitsOf(env, file, kind).value, places, ReaderOf(env, file, kind)) && Listed(file, kind, Every(), places)
  {
    OneHitEach(ReaderOf(env, file, kind), file.content, MarkerOf(kind), 0);
    MarkersAreFound(kind, file.content);
  }

  /** The positions whose readings have one of the arms, in order. */
  ghost predicate Chosen(at: seq<nat>, places: seq<nat>, read: Reader, arms: set<string>) {
    Increasing(at) && forall i: nat :: i in at <==> i in places && read(i).Hit? && read(i).key in arms
  }

  lemma OneMorePlace(at: seq<nat>, places: seq<nat>, last: nat, read: Reader, arms: set<string>)
    requires Chosen(at, places, read, arms) && Increasing(places + [last])
    ensures Chosen(if read(last).Hit? && read(last).key in arms then at + [last] else at, places + [last], read, arms)
  {
    var all := places + [last];
    assert forall i: nat :: i in all <==> i in places || i == last;
    forall i: nat | i in places ensures i < last {
      var k :| 0 <= k < |places| && places[k] == i;
      assert all[k] == i && all[|places|] == last;
    }
    assert forall k | 0 <= k < |at| :: at[k] in places;
  }

  /** The paths are those of the readings at the positions. */
  ghost predicate PathsAt(paths: seq<Path>, prefix: string, at: seq<nat>, read: Reader) {
    |at| == |paths| && forall j | 0 <= j < |at| :: paths[j] == Path(prefix, NameOf(read(at[j])))
  }

  lemma OneMorePath(paths: seq<Path>, prefix: string, at: seq<nat>, last: nat, read: Reader)
    requires PathsAt(paths, prefix, at, read)
    ensures PathsAt(paths + [Path(prefix, NameOf(read(last)))], prefix, at + [last], read)
  {
  }

  lemma FrontIsRead(hits: seq<Parsed>, places: seq<nat>, read: Reader)
    requires ReadFrom(hits, places, read) && OwnedHits(hits) && |hits| > 0
    ensures var n := |hits| - 1;
      && ReadFrom(hits[..n], places[..n], read) && OwnedHits(hits[..n]) && places == places[..n] + [places[n]]
      && hits[n] == read(places[n]) && hits[n].Hit? && |hits[n].names| == 1
  {
  }

  lemma ArmPathsStep(prefix: string, hits: seq<Parsed>, arms: set<string>)
    requires |hits| > 0 && hits[|hits| - 1].Hit? && |hits[|hits| - 1].names| == 1
    ensures var n := |hits| - 1; var before := ArmPaths(prefix, hits[..n], arms);
      ArmPaths(prefix, hits, arms) == if hits[n].key in arms then before + [Path(prefix, NameOf(hits[n]))] else before
  {
  }

  lemma {:induction false} ArmPlaces(prefix: string, hits: seq<Parsed>, places: seq<nat>, read: Reader, arms: set<string>)
    returns (at: seq<nat>)
    requires OwnedHits(hits) && ReadFrom(hits, places, read)
    ensures Chosen(at, places, read, arms) && PathsAt(ArmPaths(prefix, hits, arms), prefix, at, read)
    decreases |hits|
  {
    if |hits| == 0 {
      at := [];
    } else {
      var n := |hits| - 1;
      var last := places[n];
      FrontIsRead(hits, places, read);
      at := ArmPlaces(prefix, hits[..n], places[..n], read, arms);
      OneMorePlace(at, places[..n], last, read, arms);
      OneMorePath(ArmPaths(prefix, hits[..n], arms), prefix, at, last, read);
      ArmPathsStep(prefix, hits, arms);
      if hits[n].key in arms {
        at := at + [last];
      }
    }
  }

  lemma ArmsRegister(env: Env, file: File, was: seq<Path>, arms: set<string>)
    requires HitsOf(env, file, Owned).Some?
    ensures var now := was + ArmPaths(file.prefix, HitsOf(env, file, Owned).value, arms);
      Registered(was, now, file, Owned, HasArm(env, file, arms), FunctionAt(env, file, Owned))
  {
    var hits, places := HitsOf(env, file, Owned).value, Places(file.content, MarkerOf(Owned), 0);
    HitsAreOwned(env, file);
    FoundHits(env, file, Owned);
    var at := ArmPlaces(file.prefix, hits, places, ReaderOf(env, file, Owned), arms);
    var now := was + ArmPaths(file.prefix, hits, arms);
    assert Grown(was, now, at, FunctionAt(env, file, Owned));
    assert Listed(file, Owned, HasArm(env, file, arms), at);
  }

  lemma AllRegister<T(!new)>(env: Env, file: File, kind: Kind, was: seq<T>, added: seq<T>, entry: nat -> T)
    requires HitsOf(env, file, kind).Some? && |added| == |HitsOf(env, file, kind).value|
    requires forall k, i: nat | 0 <= k < |added| && HitsOf(env, file, kind).value[k] == ReadAt(env, file, kind, i) :: added[k] == entry(i)
    ensures Registered(was, was + added, file, kind, Every(), entry)
  {
    var places := Places(file.content, MarkerOf(kind), 0);
    FoundHits(env, file, kind);
    forall j | 0 <= j < |places| ensures (was + added)[|was| + j] == entry(places[j]) {
      assert HitsOf(env, file, kind).value[j] == ReadAt(env, file, kind, places[j]);
    }
    assert Grown(was, was + added, places, entry);
  }

  /** The lists of the other kinds. */
  lemma OthersRegister(env: Env, lists: Lists, file: File)
    requires Scanned(env, lists, file).Some? && file.enabled
    ensures var next := Scanned(env, lists, file).value;
      && Registered(lists.ticks, next.ticks, file, TickPass, Every(), FunctionAt(env, file, TickPass))
      && Registered(lists.hooks, next.hooks, file, Hook, Every(), KeyedAt(env, file, Hook))
      && Registered(lists.encounters, next.encounters, file, EncounterPackage, Every(), KeyedAt(env, file, EncounterPackage))
      && Registered(lists.commands, next.commands, file, ClientCommand, Every(), CommandAt(env, file))
      && Registered(lists.characters, next.characters, file, PackageCharacters, Every(), CharactersAt(env, file))
  {
    var h := FileHitsOf(env, file).value;
    AllRegister(env, file, TickPass, lists.ticks, PathsOf(file.prefix, h.ticks), FunctionAt(env, file, TickPass));
    AllRegister(env, file, Hook, lists.hooks, KeyedOf(file.prefix, h.hooks), KeyedAt(env, file, Hook));
    AllRegister(env, file, EncounterPackage, lists.encounters, KeyedOf(file.prefix, h.encounters), KeyedAt(env, file, EncounterPackage));
    AllRegister(env, file, ClientCommand, lists.commands, CommandsOf(file.prefix, h.commands), CommandAt(env, file));
    AllRegister(env, file, PackageCharacters, lists.characters, PackageKeyed(file.prefix, h.characters), CharactersAt(env, file));
  }

  /** The lists of `character_owned!`. */
  lemma OwnedRegister(env: Env, lists: Lists, file: File)
    requires Scanned(env, lists, file).Some? && file.enabled
    ensures var next := Scanned(env, lists, file).value; var path := FunctionAt(env, file, Owned);
      && Registered(lists.delete, next.delete, file, Owned, HasArm(env, file, {"delete"}), path)
      && Registered(lists.restamp, next.restamp, file, Owned, HasArm(env, file, {"restamp"}), path)
      && Registered(lists.transfer, next.transfer, file, Owned, HasArm(env, file, {"transfer", "not_transported"}), path)
      && if file.inPackage then next.notTransported == lists.notTransported
         else Registered(lists.notTransported, next.notTransported, file, Owned, HasArm(env, file, {"not_transported"}), path)
  {
    ArmsRegister(env, file, lists.delete, {"delete"});
    ArmsRegister(env, file, lists.restamp, {"restamp"});
    ArmsRegister(env, file, lists.transfer, {"transfer", "not_transported"});
    ArmsRegister(env, file, lists.notTransported, {"not_transported"});
    assert lists.notTransported + [] == lists.notTransported;
  }

  lemma OwnedHasArm(env: Env, file: File, i: nat)
    requires HitsOf(env, file, Owned).Some? && OccursAt(file.content, MarkerOf(Owned), i)
    ensures HasArm(env, file, {"delete", "restamp", "transfer", "not_transported"})(i)
  {
    var places := Places(file.content, MarkerOf(Owned), 0);
    FoundHits(env, file, Owned);
    HitsAreOwned(env, file);
    assert Every()(i);
    var k :| 0 <= k < |places| && places[k] == i;
    assert HitsOf(env, file, Owned).value[k].key in ARMS;
  }

  /** In a Package, the list grew by a table for each name that its attributes gave, in the order of their places. */
  ghost predicate TablesRegistered(env: Env, was: seq<Table>, now: seq<Table>, file: File) {
    var package, at := PackageOf(file.prefix), Places(file.content, ATTRIBUTE, 0);
    if package.None? then now == was
    else
      var names := Gathered(AttributesOf(env.classes, file.content), at);
      && names.Some? && |now| == |was| + |names.value| && now[..|was|] == was
      && (forall i | 0 <= i < |names.value| :: now[|was| + i] == Table(package.value, names.value[i]))
      && Increasing(at) && forall i: nat :: i in at <==> OccursAt(file.content, ATTRIBUTE, i)
  }

  lemma TablesRegister(env: Env, lists: Lists, file: File)
    requires Scanned(env, lists, file).Some? && file.enabled
    ensures TablesRegistered(env, lists.tables, Scanned(env, lists, file).value.tables, file)
  {
    EveryAttributeIsRead(env.classes, file.content);
    if PackageOf(file.prefix).Some? {
      TablesAdded(lists.tables, file.prefix, FileHitsOf(env, file).value.tables);
    } else {
      assert lists.tables + [] == lists.tables;
    }
  }

  lemma TablesAdded(was: seq<Table>, prefix: string, names: seq<string>)
    requires PackageOf(prefix).Some?
    ensures var now := was + TablesOf(prefix, names);
      && |now| == |was| + |names| && now[..|was|] == was
      && forall i | 0 <= i < |names| :: now[|was| + i] == Table(PackageOf(prefix).value, names[i])
  {
  }

  /** A file that does not stop the build registers every occurrence of a marker, in order: a `character_owned!` in the
      list of its arm, one that declines transport in the transfer list and, in core code, in the list of declined
      ones too. A Package also registers the tables its attributes name. A file that is not enabled registers nothing. */
  lemma EveryMarkerRegisters(env: Env, lists: Lists, file: File)
    requires Scanned(env, lists, file).Some?
    ensures var next := Scanned(env, lists, file).value; var path := FunctionAt(env, file, Owned);
      if !file.enabled then next == lists
      else
        && Registered(lists.delete, next.delete, file, Owned, HasArm(env, file, {"delete"}), path)
        && Registered(lists.restamp, next.restamp, file, Owned, HasArm(env, file, {"restamp"}), path)
        && Registered(lists.transfer, next.transfer, file, Owned, HasArm(env, file, {"transfer", "not_transported"}), path)
        && (if file.inPackage then next.notTransported == lists.notTransported
            else Registered(lists.notTransported, next.notTransported, file, Owned, HasArm(env, file, {"not_transported"}), path))
        && Registered(lists.ticks, next.ticks, file, TickPass, Every(), FunctionAt(env, file, TickPass))
        && Registered(lists.hooks, next.hooks, file, Hook, Every(), KeyedAt(env, file, Hook))
        && Registered(lists.encounters, next.encounters, file, EncounterPackage, Every(), KeyedAt(env, file, EncounterPackage))
        && Registered(lists.commands, next.commands, file, ClientCommand, Every(), CommandAt(env, file))
        && Registered(lists.characters, next.characters, file, PackageCharacters, Every(), CharactersAt(env, file))
        && TablesRegistered(env, lists.tables, next.tables, file)
    ensures file.enabled ==> forall i: nat | OccursAt(file.content, MarkerOf(Owned), i) ::
      HasArm(env, file, {"delete", "restamp", "transfer", "not_transported"})(i)
  {
    if file.enabled {
      OwnedRegister(env, lists, file);
      OthersRegister(env, lists, file);
      TablesRegister(env, lists, file);
      forall i: nat | OccursAt(file.content, MarkerOf(Owned), i)
        ensures HasArm(env, file, {"delete", "restamp", "transfer", "not_transported"})(i)
      {
        OwnedHasArm(env, file, i);
      }
    }
  }

  lemma {:induction false} DeclinedAreMovers(prefix: string, hits: seq<Parsed>)
    ensures forall p | p in ArmPaths(prefix, hits, {"not_transported"}) :: p in ArmPaths(prefix, hits, {"transfer", "not_transported"})
    decreases |hits|
  {
    if |hits| > 0 {
      DeclinedAreMovers(prefix, hits[..|hits| - 1]);
    }
  }

  /** What declines transport is listed for transfer. */
  predicate DeclinedListed(lists: Lists) {
    forall p | p in lists.notTransported :: p in lists.transfer
  }

  lemma ScanningLists(env: Env, lists: Lists, file: File)
    requires DeclinedListed(lists) && Scanned(env, lists, file).Some?
    ensures DeclinedListed(Scanned(env, lists, file).value)
  {
    if file.enabled {
      DeclinedAreMovers(file.prefix, FileHitsOf(env, file).value.owned);
    }
  }

  lemma {:induction false} AllScannedLists(env: Env, files: seq<File>)
    requires ScannedAll(env, files).Some?
    ensures DeclinedListed(ScannedAll(env, files).value)
    decreases |files|
  {
    if |files| > 0 {
      var n := |files| - 1;
      AllScannedLists(env, files[..n]);
      ScanningLists(env, ScannedAll(env, files[..n]).value, files[n]);
    }
  }

  // ----- the checks

  const TRANSFER_PREFIX := "sweep_transfer_"

  /** The table a mover is for; None is a name that stops the build. */
  function TableOf(p: Path): Option<string> {
    if StartsWith(p.name, TRANSFER_PREFIX) then Some(p.name[|TRANSFER_PREFIX|..]) else None
  }

  predicate DistinctTables(paths: seq<Path>) {
    (forall i | 0 <= i < |paths| :: TableOf(paths[i]).Some?)
    && forall i, j | 0 <= i < j < |paths| :: TableOf(paths[i]) != TableOf(paths[j])
  }

  predicate DistinctKeys(keyed: seq<Keyed>) {
    forall i, j | 0 <= i < j < |keyed| :: keyed[i].key != keyed[j].key
  }

  function TextOf(p: Path): string { p.prefix + "::" + p.name }

  predicate PathLe(a: Path, b: Path) { TextLe(TextOf(a), TextOf(b)) }

  predicate KeyedLe(a: Keyed, b: Keyed) {
    if a.key == b.key then PathLe(a.path, b.path) else TextLe(a.key, b.key)
  }

  lemma KeyedLeIsPreorder()
    ensures TotalPreorder(KeyedLe)
  {
    TextLeIsOrder();
  }

  /** Claiming the tables of the movers one by one, each only if no one has claimed it before. */
  predicate Claims(paths: seq<Path>, claimed: seq<string>) {
    |paths| == 0 ||
    var table := TableOf(paths[0]);
    table.Some? && table.value !in claimed && Claims(paths[1..], claimed + [table.value])
  }

  lemma {:induction false} ClaimsIff(paths: seq<Path>, claimed: seq<string>)
    ensures Claims(paths, claimed) <==>
      DistinctTables(paths) && forall i | 0 <= i < |paths| && TableOf(paths[i]).Some? :: TableOf(paths[i]).value !in claimed
    decreases |paths|
  {
    if |paths| > 0 && TableOf(paths[0]).Some? {
      ClaimsIff(paths[1..], claimed + [TableOf(paths[0]).value]);
      TablesBehind(paths);
    }
  }

  lemma TablesBehind(paths: seq<Path>)
    requires |paths| > 0
    ensures DistinctTables(paths) <==>
      TableOf(paths[0]).Some? && DistinctTables(paths[1..]) && forall i | 1 <= i < |paths| :: TableOf(paths[i]) != TableOf(paths[0])
  {
    if TableOf(paths[0]).Some? && DistinctTables(paths[1..]) {
      forall i | 1 <= i < |paths| ensures TableOf(paths[i]).Some? {
        assert paths[1..][i - 1] == paths[i];
      }
      forall i, j | 1 <= i < j < |paths| ensures TableOf(paths[i]) != TableOf(paths[j]) {
        assert paths[1..][i - 1] == paths[i] && paths[1..][j - 1] == paths[j];
      }
    }
  }

  /** The loop over the sorted movers, claiming their tables. */
  method ClaimTables(paths: seq<Path>) returns (ok: bool)
    ensures ok == Claims(paths, [])
  {
    var claimed: seq<string> := [];
    for i := 0 to |paths|
      invariant Claims(paths, []) == Claims(paths[i..], claimed)
    {
      var table := TableOf(paths[i]);
      if table.None? || table.value in claimed {
        return false;
      }
      assert paths[i..][1..] == paths[i + 1..];
      claimed := claimed + [table.value];
    }
    ok := true;
  }

  predicate NeighboursDiffer(keyed: seq<Keyed>) {
    forall i | 0 <= i < |keyed| - 1 :: keyed[i].key != keyed[i + 1].key
  }

  /** In sorted order it is enough to compare neighbours. */
  lemma {:induction false} SortedNeighbours(keyed: seq<Keyed>)
    requires Sorted(keyed, KeyedLe)
    ensures NeighboursDiffer(keyed) <==> DistinctKeys(keyed)
  {
    if NeighboursDiffer(keyed) {
      forall i, j | 0 <= i < j < |keyed| ensures keyed[i].key != keyed[j].key {
        TextLeTotal(keyed[i].key, keyed[i + 1].key);
        assert KeyedLe(keyed[i], keyed[i + 1]);
        assert i + 1 < j ==> KeyedLe(keyed[i + 1], keyed[j]);
      }
    }
  }

  method CompareNeighbours(keyed: seq<Keyed>) returns (ok: bool)
    ensures ok == NeighboursDiffer(keyed)
  {
    for i := 0 to |keyed|
      invariant forall j | 0 <= j < i && j < |keyed| - 1 :: keyed[j].key != keyed[j + 1].key
    {
      if i + 1 < |keyed| && keyed[i].key == keyed[i + 1].key {
        return false;
      }
    }
    ok := true;
  }

  lemma SortedKeysDistinct(keyed: seq<Keyed>)
    ensures NeighboursDiffer(Sort(keyed, KeyedLe)) <==> DistinctKeys(keyed)
  {
    var sorted := Sort(keyed, KeyedLe);
    KeyedLeIsPreorder();
    SortSorts(keyed, KeyedLe);
    SortPermutes(keyed, KeyedLe);
    SortedNeighbours(sorted);
    KeysMoved(keyed, sorted);
    KeysMoved(sorted, keyed);
  }

  lemma KeysMoved(keyed: seq<Keyed>, other: seq<Keyed>)
    requires multiset(keyed) == multiset(other)
    ensures DistinctKeys(keyed) ==> DistinctKeys(other)
  {
    if DistinctKeys(keyed) {
      var perm := MultisetsRearrange(keyed, other);
      forall i, j | 0 <= i < j < |other| ensures other[i].key != other[j].key {
        assert perm[i] != perm[j];
      }
    }
  }

  lemma TablesMoved(paths: seq<Path>, other: seq<Path>)
    requires multiset(paths) == multiset(other)
    ensures DistinctTables(paths) ==> DistinctTables(other)
  {
    if DistinctTables(paths) {
      var perm := MultisetsRearrange(paths, other);
      forall i, j | 0 <= i < j < |other| ensures TableOf(other[i]) != TableOf(other[j]) {
        assert perm[i] != perm[j];
      }
    }
  }

  lemma TablesSorted(paths: seq<Path>)
    ensures DistinctTables(Sort(paths, PathLe)) <==> DistinctTables(paths)
  {
    SortPermutes(paths, PathLe);
    TablesMoved(paths, Sort(paths, PathLe));
    TablesMoved(Sort(paths, PathLe), paths);
  }

  const DELETE_PREFIX := "sweep_delete_"

  predicate SweepsNamed(paths: seq<Path>) {
    forall i | 0 <= i < |paths| :: StartsWith(paths[i].name, DELETE_PREFIX)
  }

  method DeletesNamed(paths: seq<Path>) returns (ok: bool)
    ensures ok == SweepsNamed(paths)
  {
    for i := 0 to |paths|
      invariant forall j | 0 <= j < i :: StartsWith(paths[j].name, DELETE_PREFIX)
    {
      if !StartsWith(paths[i].name, DELETE_PREFIX) {
        return false;
      }
    }
    ok := true;
  }

  /** What the build step looks at before it goes on: names, the tables claimed in sorted order, and neighbours in
      sorted order. */
  predicate Passes(lists: Lists) {
    && SweepsNamed(lists.delete)
    && Claims(Sort(lists.transfer, PathLe), [])
    && |lists.commands| <= 1
    && NeighboursDiffer(Sort(lists.encounters, KeyedLe)) && NeighboursDiffer(Sort(lists.characters, KeyedLe))
  }

  /** Sweeps and movers are named after tables, and tables, commands, encounter bindings and Package Characters have one
      owner each. */
  predicate OneOwnerEach(lists: Lists) {
    && SweepsNamed(lists.delete) && DistinctTables(lists.transfer) && |lists.commands| <= 1
    && DistinctKeys(lists.encounters) && DistinctKeys(lists.characters)
  }

  lemma PassesIff(lists: Lists)
    ensures Passes(lists) <==> OneOwnerEach(lists)
  {
    ClaimsIff(Sort(lists.transfer, PathLe), []);
    TablesSorted(lists.transfer);
    SortedKeysDistinct(lists.encounters);
    SortedKeysDistinct(lists.characters);
  }

  /** After a build that went through, tables, encounter bindings and Package Characters have one owner each, and every
      declined table is the table of a mover in the transfer list. */
  lemma BuildIsConsistent(env: Env, files: seq<File>)
    requires ScannedAll(env, files).Some? && Passes(ScannedAll(env, files).value)
    ensures var lists := ScannedAll(env, files).value;
      && DistinctTables(lists.transfer) && DistinctKeys(lists.encounters) && DistinctKeys(lists.characters)
      && forall p | p in lists.notTransported ::
           TableOf(p).Some? && exists i :: 0 <= i < |lists.transfer| && TableOf(lists.transfer[i]) == TableOf(p)
  {
    AllScannedLists(env, files);
    PassesIff(ScannedAll(env, files).value);
  }

  // ----- the build step

  method FindTables(read: AttributeReader, content: string) returns (r: Option<seq<string>>)
    ensures r == TablesFrom(read, content, 0)
  {
    var start, found: seq<string> := 0, [];
    ghost var whole := TablesFrom(read, content, 0);
    AccessorsTwice([], [], whole);
    while start <= |content| && Find(content, ATTRIBUTE, start) < |content|
      invariant whole == With(found, TablesFrom(read, content, start))
      decreases |content| - start
    {
      var i := Find(content, ATTRIBUTE, start);
      var here := read(i);
      if here.None? {
        return None;
      }
      AccessorsTwice(found, here.value, TablesFrom(read, content, i + 2));
      found := found + here.value;
      start := i + 2;
    }
    assert found + [] == found;
    r := Some(found);
  }

  lemma AccessorsTwice(a: seq<string>, b: seq<string>, more: Option<seq<string>>)
    ensures With(a, With(b, more)) == With(a + b, more)
    ensures With([], more) == more
  {
    if more.Some? {
      assert a + (b + more.value) == (a + b) + more.value && [] + more.value == more.value;
    }
  }

  method ScanKind(env: Env, file: File, kind: Kind) returns (r: Option<seq<Parsed>>)
    ensures r == HitsOf(env, file, kind)
  {
    r := ScanMarker(ReaderOf(env, file, kind), file.content, MarkerOf(kind));
  }

  /** The markers of a file, kind after kind; the first one that stops the build ends the scan. */
  method FindHits(env: Env, file: File) returns (r: Option<FileHits>)
    ensures r == FileHitsOf(env, file)
  {
    var owned := ScanKind(env, file, Owned);
    var ticks := ScanKind(env, file, TickPass);
    var hooks := ScanKind(env, file, Hook);
    var commands := ScanKind(env, file, ClientCommand);
    var tables := Some([]);
    if PackageOf(file.prefix).Some? {
      tables := FindTables(AttributesOf(env.classes, file.content), file.content);
    }
    var characters := ScanKind(env, file, PackageCharacters);
    var encounters := ScanKind(env, file, EncounterPackage);
    if owned.None? || ticks.None? || hooks.None? || commands.None? || tables.None? || characters.None? || encounters.None? {
      return None;
    }
    r := Some(FileHits(owned.value, ticks.value, hooks.value, commands.value, tables.value, characters.value, encounters.value));
  }

  lemma {:induction false} StopsForGood(scan: FileScan, files: seq<File>, i: nat)
    requires i <= |files| && ScanBy(scan, files[..i]).None?
    ensures ScanBy(scan, files).None?
    decreases |files|
  {
    if i < |files| {
      var n := |files| - 1;
      assert files[..n][..i] == files[..i];
      StopsForGood(scan, files[..n], i);
    } else {
      assert files[..i] == files;
    }
  }

  lemma OneMoreArm(prefix: string, hits: seq<Parsed>, i: nat, arms: set<string>)
    requires i < |hits| && OwnedHits(hits)
    ensures ArmPaths(prefix, hits[..i + 1], arms) ==
            ArmPaths(prefix, hits[..i], arms) + if hits[i].key in arms then [Path(prefix, hits[i].names[0])] else []
  {
    assert hits[..i + 1][..i] == hits[..i];
  }

  class Registries {
    var delete: seq<Path>
    var restamp: seq<Path>
    var transfer: seq<Path>
    var notTransported: seq<Path>
    var ticks: seq<Path>
    var hooks: seq<Keyed>
    var encounters: seq<Keyed>
    var commands: seq<seq<Path>>
    var tables: seq<Table>
    var characters: seq<Keyed>

    function All(): Lists
      reads this
    {
      Lists(delete, restamp, transfer, notTransported, ticks, hooks, encounters, commands, tables, characters)
    }

    constructor ()
      ensures All() == EMPTY
    {
      delete, restamp, transfer, notTransported, ticks := [], [], [], [], [];
      hooks, encounters, commands, tables, characters := [], [], [], [], [];
    }

    /** One marker; one that declines transport is also listed as such unless a Package wrote it. */
    method PushOne(path: Path, arm: string, inPackage: bool)
      requires arm in ARMS
      modifies `delete, `restamp, `transfer, `notTransported
      ensures delete == old(delete) + if arm in {"delete"} then [path] else []
      ensures restamp == old(restamp) + if arm in {"restamp"} then [path] else []
      ensures transfer == old(transfer) + if arm in {"transfer", "not_transported"} then [path] else []
      ensures notTransported == old(notTransported) + if !inPackage && arm in {"not_transported"} then [path] else []
    {
      match arm {
        case "delete" => delete := delete + [path];
        case "restamp" => restamp := restamp + [path];
        case "transfer" => transfer := transfer + [path];
        case _ =>
          transfer := transfer + [path];
          if !inPackage {
            notTransported := notTransported + [path];
          }
      }
    }

    method PushOwned(file: File, hits: seq<Parsed>)
      requires OwnedHits(hits)
      modifies `delete, `restamp, `transfer, `notTransported
      ensures delete == old(delete) + ArmPaths(file.prefix, hits, {"delete"})
      ensures restamp == old(restamp) + ArmPaths(file.prefix, hits, {"restamp"})
      ensures transfer == old(transfer) + ArmPaths(file.prefix, hits, {"transfer", "not_transported"})
      ensures notTransported == old(notTransported) + if file.inPackage then [] else ArmPaths(file.prefix, hits, {"not_transported"})
    {
      ghost var deletes, restamps, transfers, declines := delete, restamp, transfer, notTransported;
      for i := 0 to |hits|
        invariant delete == deletes + ArmPaths(file.prefix, hits[..i], {"delete"})
        invariant restamp == restamps + ArmPaths(file.prefix, hits[..i], {"restamp"})
        invariant transfer == transfers + ArmPaths(file.prefix, hits[..i], {"transfer", "not_transported"})
        invariant notTransported == declines +
          if file.inPackage then [] else ArmPaths(file.prefix, hits[..i], {"not_transported"})
      {
        OneMoreArm(file.prefix, hits, i, {"delete"});
        OneMoreArm(file.prefix, hits, i, {"restamp"});
        OneMoreArm(file.prefix, hits, i, {"transfer", "not_transported"});
        OneMoreArm(file.prefix, hits, i, {"not_transported"});
        PushOne(Path(file.prefix, hits[i].names[0]), hits[i].key, file.inPackage);
      }
      assert hits[..|hits|] == hits;
    }

    method PushOthers(file: File, h: FileHits)
      modifies `ticks, `hooks, `commands, `tables, `characters, `encounters
      ensures ticks == old(ticks) + PathsOf(file.prefix, h.ticks) && hooks == old(hooks) + KeyedOf(file.prefix, h.hooks)
      ensures commands == old(commands) + CommandsOf(file.prefix, h.commands)
      ensures tables == old(tables) + TablesOf(file.prefix, h.tables)
      ensures characters == old(characters) + PackageKeyed(file.prefix, h.characters)
      ensures encounters == old(encounters) + KeyedOf(file.prefix, h.encounters)
    {
      ticks := ticks + PathsOf(file.prefix, h.ticks);
      hooks := hooks + KeyedOf(file.prefix, h.hooks);
      commands := commands + CommandsOf(file.prefix, h.commands);
      tables := tables + TablesOf(file.prefix, h.tables);
      characters := characters + PackageKeyed(file.prefix, h.characters);
      encounters := encounters + KeyedOf(file.prefix, h.encounters);
    }

    method Push(file: File, h: FileHits)
      requires OwnedHits(h.owned)
      modifies this
      ensures All() == AfterFile(old(All()), file, h)
    {
      PushOwned(file, h.owned);
      PushOthers(file, h);
    }

    /** One file; false where a marker or a table stops the build. */
    method ScanFile(env: Env, file: File) returns (ok: bool)
      modifies this
      ensures ok == Scanned(env, old(All()), file).Some?
      ensures ok ==> All() == Scanned(env, old(All()), file).value
    {
      if !file.enabled {
        return true;
      }
      var h := FindHits(env, file);
      if h.None? {
        return false;
      }
      HitsAreOwned(env, file);
      Push(file, h.value);
      ok := true;
    }

    /** All files, in order. */
    method ScanFiles(env: Env, files: seq<File>) returns (ok: bool)
      requires All() == EMPTY
      modifies this
      ensures ok == ScannedAll(env, files).Some?
      ensures ok ==> All() == ScannedAll(env, files).value
    {
      for i := 0 to |files|
        invariant ScannedAll(env, files[..i]) == Some(All())
      {
        assert files[..i + 1][..i] == files[..i];
        var scanned := ScanFile(env, files[i]);
        if !scanned {
          StopsForGood(ScanOf(env), files, i + 1);
          return false;
        }
      }
      assert files[..|files|] == files;
      ok := true;
    }

    method SortLists()
      modifies `transfer, `encounters, `characters
      ensures transfer == Sort(old(transfer), PathLe)
      ensures encounters == Sort(old(encounters), KeyedLe) && characters == Sort(old(characters), KeyedLe)
    {
      transfer := Sort(transfer, PathLe);
      encounters := Sort(encounters, KeyedLe);
      characters := Sort(characters, KeyedLe);
    }

    /** The build step after its scan: movers and keyed registrations are sorted, then checked. */
    method Check() returns (ok: bool)
      modifies `transfer, `encounters, `characters
      ensures ok == Passes(old(All())) == OneOwnerEach(old(All()))
      ensures transfer == Sort(old(transfer), PathLe)
      ensures encounters == Sort(old(encounters), KeyedLe) && characters == Sort(old(characters), KeyedLe)
    {
      PassesIff(All());
      SortLists();
      var named := DeletesNamed(delete);
      var claimed := ClaimTables(transfer);
      var bindings := CompareNeighbours(encounters);
      var packages := CompareNeighbours(characters);
      ok := named && claimed && |commands| <= 1 && bindings && packages;
    }
  }
}
