/** Renaming a private table in place, inside the data sections of a WebAssembly binary. */
module Reload {
  import opened Octets
  import opened Wasm

  const DATA_SECTION: Byte := 11

  /** A name and the one it is replaced by. */
  datatype Renaming = Renaming(before: Bytes, after: Bytes)

  /** Equally long different names whose first byte stands nowhere else in either. */
  predicate Fitting(n: Renaming) {
    && 0 < |n.before| == |n.after| && n.before != n.after && n.before[0] == n.after[0]
    && forall k | 0 < k < |n.before| :: n.before[k] != n.before[0] && n.after[k] != n.before[0]
  }

  type Names = n: Renaming | Fitting(n) witness Renaming([0, 1], [0, 2])

  // game_native_player and game_native_plaier
  const PRIVATE_TABLE := Renaming(
    [103, 97, 109, 101, 95, 110, 97, 116, 105, 118, 101, 95, 112, 108, 97, 121, 101, 114],
    [103, 97, 109, 101, 95, 110, 97, 116, 105, 118, 101, 95, 112, 108, 97, 105, 101, 114])

  lemma PrivateTableFits()
    ensures Fitting(PRIVATE_TABLE)
  {
    assert PRIVATE_TABLE.before[15] != PRIVATE_TABLE.after[15];
  }

  predicate StartsWith(b: Bytes, name: Bytes) {
    |name| <= |b| && b[..|name|] == name
  }

  /** bytes.replace: from the left, without overlap. */
  function Replace(n: Names, b: Bytes): Bytes
    decreases |b|
  {
    if |b| < |n.before| then b
    else if StartsWith(b, n.before) then n.after + Replace(n, b[|n.before|..])
    else [b[0]] + Replace(n, b[1..])
  }

  /** bytes.count: from the left, without overlap. */
  function Count(n: Names, b: Bytes): nat
    decreases |b|
  {
    if |b| < |n.before| then 0
    else if StartsWith(b, n.before) then 1 + Count(n, b[|n.before|..])
    else Count(n, b[1..])
  }

  ghost predicate OccursAt(n: Names, b: Bytes, k: nat) {
    k <= |b| && StartsWith(b[k..], n.before)
  }

  ghost predicate Occurs(n: Names, b: Bytes) {
    exists k: nat :: OccursAt(n, b, k)
  }

  lemma {:induction false} ReplaceLength(n: Names, b: Bytes)
    ensures |Replace(n, b)| == |b|
    decreases |b|
  {
    if |n.before| <= |b| {
      ReplaceLength(n, if StartsWith(b, n.before) then b[|n.before|..] else b[1..]);
    }
  }

  lemma ReplacedFront(n: Names, b: Bytes)
    ensures StartsWith(b, n.before) ==> |Replace(n, b)| > 0 && Replace(n, b)[0] == n.before[0]
  {
  }

  /** A front part without the first byte of the name was not touched. */
  lemma {:induction false} FrontWithoutFirst(n: Names, b: Bytes, m: nat)
    requires m <= |b| && |Replace(n, b)| == |b|
    requires forall i | 0 <= i < m :: Replace(n, b)[i] != n.before[0]
    ensures Replace(n, b)[..m] == b[..m]
    decreases |b|
  {
    ReplacedFront(n, b);
    if m > 0 && |b| >= |n.before| && !StartsWith(b, n.before) {
      var rest := Replace(n, b[1..]);
      ReplaceLength(n, b[1..]);
      assert forall i | 0 <= i < m - 1 :: rest[i] == Replace(n, b)[i + 1];
      FrontWithoutFirst(n, b[1..], m - 1);
      assert Replace(n, b)[..m] == [b[0]] + rest[..m - 1];
      assert b[..m] == [b[0]] + b[1..][..m - 1];
    }
  }

  lemma NewHoldsNoOld(n: Names, rest: Bytes, k: nat)
    requires k <= |n.after + rest|
    ensures k < |n.after| ==> !StartsWith((n.after + rest)[k..], n.before)
    ensures k >= |n.after| ==> (n.after + rest)[k..] == rest[k - |n.after|..]
  {
    var part := (n.after + rest)[k..];
    if k == 0 {
      assert part[..|n.before|] == n.after;
    } else if k < |n.after| {
      assert part[0] == n.after[k] && (|part| >= |n.before| ==> part[..|n.before|][0] == part[0]);
    }
  }

  /** An occurrence at the very front was there before. */
  lemma FrontStaysFree(n: Names, b: Bytes)
    requires |b| >= |n.before| && !StartsWith(b, n.before)
    ensures !StartsWith(Replace(n, b), n.before)
  {
    var size, rest := |n.before|, Replace(n, b[1..]);
    ReplaceLength(n, b[1..]);
    var front := Replace(n, b)[..size];
    if i :| 0 <= i < size - 1 && rest[i] == n.before[0] {
      assert front[i + 1] == rest[i];
    } else {
      FrontWithoutFirst(n, b[1..], size - 1);
      assert front == [b[0]] + rest[..size - 1] == [b[0]] + b[1..][..size - 1] == b[..size];
    }
  }

  /** Replacing leaves no occurrence behind. */
  lemma {:induction false} ReplaceLeavesNone(n: Names, b: Bytes, k: nat)
    ensures !OccursAt(n, Replace(n, b), k)
    decreases |b|
  {
    ReplaceLength(n, b);
    if k + |n.before| <= |b| {
      if StartsWith(b, n.before) {
        NewHoldsNoOld(n, Replace(n, b[|n.before|..]), k);
        if k >= |n.after| {
          ReplaceLeavesNone(n, b[|n.before|..], k - |n.after|);
        }
      } else if k > 0 {
        assert Replace(n, b)[k..] == Replace(n, b[1..])[k - 1..];
        ReplaceLeavesNone(n, b[1..], k - 1);
      } else {
        FrontStaysFree(n, b);
        assert Replace(n, b)[0..] == Replace(n, b);
      }
    }
  }

  lemma {:induction false} CountFindsAll(n: Names, b: Bytes)
    ensures Count(n, b) == 0 <==> !Occurs(n, b)
    decreases |b|
  {
    if |b| >= |n.before| {
      if StartsWith(b, n.before) {
        assert b[0..] == b;
        assert OccursAt(n, b, 0);
      } else {
        CountFindsAll(n, b[1..]);
        if k: nat :| OccursAt(n, b, k) {
          assert k > 0 by { assert b[0..] == b; }
          assert b[k..] == b[1..][k - 1..];
          assert OccursAt(n, b[1..], k - 1);
        }
        if k: nat :| OccursAt(n, b[1..], k) {
          assert b[1..][k..] == b[k + 1..];
          assert OccursAt(n, b, k + 1);
        }
      }
    }
  }

  // ----- the sections of a binary

  /** A section as written: its id and size bytes, the size they give, and the body, cut off at the end of the data. */
  datatype Chunk = Chunk(id: Byte, header: Bytes, size: nat, body: Bytes)

  function ChunkAt(data: Bytes, offset: nat, size: nat, start: nat): Chunk
    requires offset < start <= |data|
  {
    Chunk(data[offset], data[offset..start], size, Slice(data, start, size))
  }

  /** A section and the offset after it; NoCut is a size that runs off the end. */
  datatype Cut = NoCut | Cut(chunk: Chunk, next: nat)

  /** Cuts off the section at an offset. */
  type Cutter = (Bytes, nat) -> Cut

  function CutAt(data: Bytes, offset: nat): (c: Cut)
    ensures c.Cut? ==> offset < c.next
  {
    var size := Leb128(data, offset + 1);
    if size.Short? then NoCut else Cut(ChunkAt(data, offset, size.value, size.next), size.next + size.value)
  }

  datatype Sections = Unsplit | Sections(chunks: seq<Chunk>)

  function Before(c: Chunk, rest: Sections): Sections {
    if rest.Unsplit? then Unsplit else Sections([c] + rest.chunks)
  }

  function SplitBy(cut: Cutter, data: Bytes, offset: nat): Sections
    decreases |data| - offset
  {
    if offset >= |data| then Sections([])
    else
      var c := cut(data, offset);
      if c.NoCut? || c.next <= offset then Unsplit else Before(c.chunk, SplitBy(cut, data, c.next))
  }

  function Split(data: Bytes, offset: nat): Sections {
    SplitBy(CutAt, data, offset)
  }

  function Join(chunks: seq<Chunk>): Bytes {
    if |chunks| == 0 then [] else chunks[0].header + chunks[0].body + Join(chunks[1..])
  }

  function Renamed(n: Names, c: Chunk): (r: Chunk)
    ensures r.id == c.id && r.header == c.header && r.size == c.size
  {
    if c.id == DATA_SECTION then c.(body := Replace(n, c.body)) else c
  }

  function RenamedAll(n: Names, chunks: seq<Chunk>): seq<Chunk> {
    if |chunks| == 0 then [] else [Renamed(n, chunks[0])] + RenamedAll(n, chunks[1..])
  }

  /** The replacements made in one section. */
  function Made(n: Names, c: Chunk): nat {
    if c.id == DATA_SECTION then Count(n, c.body) else 0
  }

  function Replacements(n: Names, chunks: seq<Chunk>): nat {
    if |chunks| == 0 then 0 else Made(n, chunks[0]) + Replacements(n, chunks[1..])
  }

  // ----- the loop

  /** The candidate with the body of one section overwritten. */
  function Rewritten(n: Names, candidate: Bytes, offset: nat, size: nat, start: nat): (next: Bytes)
    requires offset < start <= |candidate|
    ensures |next| == |candidate|
  {
    var body, end := Slice(candidate, start, size), Min(start + size, |candidate|);
    ReplaceLength(n, body);
    if candidate[offset] == DATA_SECTION then candidate[..start] + Replace(n, body) + candidate[end..] else candidate
  }

  /** The candidate after one section, the offset of the next, and the replacements made. */
  datatype Step = NoStep | Step(candidate: Bytes, next: nat, made: nat)

  type Rewriter = (Bytes, nat) -> Step

  function RewriteAt(n: Names, candidate: Bytes, offset: nat): Step {
    var size := Leb128(candidate, offset + 1);
    if size.Short? then NoStep
    else
      var made := Made(n, ChunkAt(candidate, offset, size.value, size.next));
      Step(Rewritten(n, candidate, offset, size.value, size.next), size.next + size.value, made)
  }

  function Rewriting(n: Names): Rewriter {
    (candidate: Bytes, offset: nat) => RewriteAt(n, candidate, offset)
  }

  /** What the loop ends with: the candidate and the replacements, or an IndexError. */
  datatype Outcome = Stuck | Outcome(bytes: Bytes, replacements: nat)

  function Loop(rewrite: Rewriter, candidate: Bytes, offset: nat, replacements: nat): Outcome
    decreases |candidate| - offset
  {
    if offset >= |candidate| then Outcome(candidate, replacements)
    else
      var step := rewrite(candidate, offset);
      if step.NoStep? || step.next <= offset || |step.candidate| != |candidate| then Stuck
      else Loop(rewrite, step.candidate, step.next, replacements + step.made)
  }

  /** Refused where the source raises: a size off the end, or nothing to rename. */
  datatype Result = Refused | Candidate(bytes: Bytes)

  function RenamedBytes(n: Names, wasm: Bytes): Result {
    var end := Loop(Rewriting(n), wasm, 8, 0);
    if end.Stuck? || end.replacements == 0 then Refused else Candidate(end.bytes)
  }

  ghost predicate Does(n: Names, rewrite: Rewriter) {
    forall candidate: Bytes, offset: nat {:trigger RewriteAt(n, candidate, offset)} ::
      rewrite(candidate, offset) == RewriteAt(n, candidate, offset)
  }

  method RewriteSection(n: Names, ghost rewrite: Rewriter, candidate: Bytes, offset: nat) returns (step: Step)
    requires Does(n, rewrite)
    ensures step == rewrite(candidate, offset)
    ensures step.Step? ==> offset < step.next && |step.candidate| == |candidate|
  {
    assert rewrite(candidate, offset) == RewriteAt(n, candidate, offset);
    var size := ReadLeb128(candidate, offset + 1);
    if size.Short? {
      return NoStep;
    }
    var made := Made(n, ChunkAt(candidate, offset, size.value, size.next));
    step := Step(Rewritten(n, candidate, offset, size.value, size.next), size.next + size.value, made);
  }

  /** The candidate is rewritten section by section while its later part is still being read. */
  method RewriteSections(n: Names, ghost rewrite: Rewriter, wasm: Bytes) returns (r: Outcome)
    requires Does(n, rewrite)
    ensures r == Loop(rewrite, wasm, 8, 0)
  {
    var candidate := wasm;
    var offset: nat, replacements: nat := 8, 0;
    while offset < |candidate|
      invariant Loop(rewrite, wasm, 8, 0) == Loop(rewrite, candidate, offset, replacements)
      decreases |candidate| - offset
    {
      var step := RewriteSection(n, rewrite, candidate, offset);
      if step.NoStep? {
        return Stuck;
      }
      candidate, offset, replacements := step.candidate, step.next, replacements + step.made;
    }
    r := Outcome(candidate, replacements);
  }

  method RenamePrivateTable(n: Names, wasm: Bytes) returns (r: Result)
    ensures r == RenamedBytes(n, wasm)
  {
    var end := RewriteSections(n, Rewriting(n), wasm);
    r := if end.Stuck? || end.replacements == 0 then Refused else Candidate(end.bytes);
  }

  // ----- reading before and after

  ghost predicate AgreeBelow(a: Bytes, b: Bytes, end: nat) {
    |a| == |b| && forall k | 0 <= k < end && k < |a| :: a[k] == b[k]
  }

  ghost predicate AgreeFrom(a: Bytes, b: Bytes, offset: nat) {
    |a| == |b| && forall k | offset <= k < |a| :: a[k] == b[k]
  }

  lemma {:induction false} NumberBelow(a: Bytes, b: Bytes, offset: nat, value: nat, end: nat)
    requires Leb128(a, offset) == Number(value, end) && AgreeBelow(a, b, end)
    ensures Leb128(b, offset) == Number(value, end)
    decreases |a| - offset
  {
    if a[offset] >= 128 {
      NumberBelow(a, b, offset + 1, Leb128(a, offset + 1).value, end);
    }
  }

  lemma {:induction false} NumberFrom(a: Bytes, b: Bytes, offset: nat, at: nat)
    requires AgreeFrom(a, b, offset) && offset <= at
    ensures Leb128(a, at) == Leb128(b, at)
    decreases |a| - at
  {
    if at < |a| {
      NumberFrom(a, b, offset, at + 1);
    }
  }

  /** A section only depends on the bytes up to its end. */
  lemma CutBelow(a: Bytes, b: Bytes, offset: nat)
    requires CutAt(a, offset).Cut? && AgreeBelow(a, b, CutAt(a, offset).next)
    ensures CutAt(b, offset) == CutAt(a, offset)
  {
    var header := Leb128(a, offset + 1);
    var size, start := header.value, header.next;
    NumberBelow(a, b, offset + 1, size, start);
    assert a[offset..start] == b[offset..start] && Slice(a, start, size) == Slice(b, start, size);
  }

  /** A section only depends on the bytes from its start. */
  lemma CutFrom(a: Bytes, b: Bytes, offset: nat)
    requires AgreeFrom(a, b, offset)
    ensures CutAt(a, offset) == CutAt(b, offset)
  {
    NumberFrom(a, b, offset, offset + 1);
    var header := Leb128(a, offset + 1);
    if header.Number? {
      var size, start := header.value, header.next;
      assert a[offset..start] == b[offset..start] && Slice(a, start, size) == Slice(b, start, size);
    }
  }

  lemma RewrittenParts(n: Names, candidate: Bytes, offset: nat, size: nat, start: nat)
    requires offset < start <= |candidate|
    ensures var next := Rewritten(n, candidate, offset, size, start);
      && AgreeBelow(candidate, next, start)
      && AgreeFrom(candidate, next, start + size)
      && ChunkAt(next, offset, size, start) == Renamed(n, ChunkAt(candidate, offset, size, start))
  {
    var body, end := Slice(candidate, start, size), Min(start + size, |candidate|);
    ReplaceLength(n, body);
    var next := Rewritten(n, candidate, offset, size, start);
    if candidate[offset] == DATA_SECTION {
      assert next[offset..start] == candidate[offset..start];
      assert next[start..end] == Replace(n, body);
    }
  }

  /** A step turns the section at the offset into its renamed form and touches nothing else. */
  ghost predicate StepRenames(n: Names, candidate: Bytes, offset: nat, before: Cut, step: Step, after: Cut) {
    if before.NoCut? then step.NoStep?
    else
      && step.Step? && offset < step.next == before.next && |step.candidate| == |candidate|
      && step.made == Made(n, before.chunk)
      && AgreeBelow(candidate, step.candidate, offset) && AgreeFrom(candidate, step.candidate, step.next)
      && after == Cut(Renamed(n, before.chunk), step.next)
  }

  lemma StepIsRenaming(n: Names, candidate: Bytes, offset: nat)
    ensures var step := RewriteAt(n, candidate, offset);
      StepRenames(n, candidate, offset, CutAt(candidate, offset), step,
                  if step.NoStep? then NoCut else CutAt(step.candidate, offset))
  {
    var header := Leb128(candidate, offset + 1);
    if header.Number? {
      var size, start := header.value, header.next;
      RewrittenParts(n, candidate, offset, size, start);
      NumberBelow(candidate, Rewritten(n, candidate, offset, size, start), offset + 1, size, start);
    }
  }

  /** What the proof about the loop needs to know of a cutter and a rewriter. */
  ghost predicate CutsBelow(cut: Cutter) {
    forall a: Bytes, b: Bytes, offset: nat {:trigger cut(a, offset), cut(b, offset)} ::
      cut(a, offset).Cut? && AgreeBelow(a, b, cut(a, offset).next) ==> cut(b, offset) == cut(a, offset)
  }

  ghost predicate CutsFrom(cut: Cutter) {
    forall a: Bytes, b: Bytes, offset: nat {:trigger cut(a, offset), cut(b, offset)} ::
      AgreeFrom(a, b, offset) ==> cut(a, offset) == cut(b, offset)
  }

  ghost predicate RenamesCuts(n: Names, cut: Cutter, rewrite: Rewriter) {
    forall candidate: Bytes, offset: nat {:trigger rewrite(candidate, offset)} ::
      var step := rewrite(candidate, offset);
      StepRenames(n, candidate, offset, cut(candidate, offset), step,
                  if step.NoStep? then NoCut else cut(step.candidate, offset))
  }

  lemma CutAtCuts(n: Names)
    ensures CutsBelow(CutAt) && CutsFrom(CutAt) && RenamesCuts(n, CutAt, Rewriting(n))
  {
    forall a: Bytes, b: Bytes, offset: nat | CutAt(a, offset).Cut? && AgreeBelow(a, b, CutAt(a, offset).next)
      ensures CutAt(b, offset) == CutAt(a, offset)
    {
      CutBelow(a, b, offset);
    }
    forall a: Bytes, b: Bytes, offset: nat | AgreeFrom(a, b, offset) ensures CutAt(a, offset) == CutAt(b, offset) {
      CutFrom(a, b, offset);
    }
    forall candidate: Bytes, offset: nat {
      StepIsRenaming(n, candidate, offset);
    }
  }

  lemma {:induction false} SplitFrom(cut: Cutter, a: Bytes, b: Bytes, offset: nat)
    requires CutsFrom(cut) && AgreeFrom(a, b, offset)
    ensures SplitBy(cut, a, offset) == SplitBy(cut, b, offset)
    decreases |a| - offset
  {
    if offset < |a| {
      var c := cut(a, offset);
      assert c == cut(b, offset);
      if c.Cut? && offset < c.next {
        SplitFrom(cut, a, b, c.next);
      }
    }
  }

  lemma RenamedAllIs(n: Names, chunk: Chunk, rest: seq<Chunk>)
    ensures RenamedAll(n, [chunk] + rest) == [Renamed(n, chunk)] + RenamedAll(n, rest)
    ensures Replacements(n, [chunk] + rest) == Made(n, chunk) + Replacements(n, rest)
  {
    assert ([chunk] + rest)[1..] == rest;
  }

  /** The loop fails exactly when the sections cannot be told apart; otherwise it keeps what is in front of the
      offset, turns every section into its renamed form, and counts the replacements. */
  ghost predicate Renames(n: Names, cut: Cutter, candidate: Bytes, offset: nat, replacements: nat, sections: Sections, r: Outcome) {
    if sections.Unsplit? then r.Stuck?
    else
      && r.Outcome?
      && AgreeBelow(candidate, r.bytes, offset)
      && SplitBy(cut, r.bytes, offset) == Sections(RenamedAll(n, sections.chunks))
      && r.replacements == replacements + Replacements(n, sections.chunks)
  }

  lemma {:induction false} LoopRenames(n: Names, cut: Cutter, rewrite: Rewriter, candidate: Bytes, offset: nat, replacements: nat)
    requires CutsBelow(cut) && CutsFrom(cut) && RenamesCuts(n, cut, rewrite)
    ensures Renames(n, cut, candidate, offset, replacements, SplitBy(cut, candidate, offset),
                    Loop(rewrite, candidate, offset, replacements))
    decreases |candidate| - offset
  {
    if offset < |candidate| {
      var before, step := cut(candidate, offset), rewrite(candidate, offset);
      assert StepRenames(n, candidate, offset, before, step, if step.NoStep? then NoCut else cut(step.candidate, offset));
      if before.Cut? {
        LoopRenames(n, cut, rewrite, step.candidate, step.next, replacements + step.made);
        SplitFrom(cut, candidate, step.candidate, step.next);
        LoopStep(n, cut, candidate, offset, replacements, before, step, SplitBy(cut, candidate, step.next),
                 Loop(rewrite, step.candidate, step.next, replacements + step.made));
      }
    }
  }

  lemma LoopStep(n: Names, cut: Cutter, candidate: Bytes, offset: nat, replacements: nat,
                 before: Cut, step: Step, rest: Sections, r: Outcome)
    requires CutsBelow(cut) && offset < |candidate| && before.Cut? && before == cut(candidate, offset)
    requires step.Step? && StepRenames(n, candidate, offset, before, step, cut(step.candidate, offset))
    requires SplitBy(cut, candidate, step.next) == rest
    requires Renames(n, cut, step.candidate, step.next, replacements + step.made, rest, r)
    ensures Renames(n, cut, candidate, offset, replacements, SplitBy(cut, candidate, offset), r)
  {
    assert SplitBy(cut, candidate, offset) == Before(before.chunk, rest);
    if rest.Sections? {
      assert cut(r.bytes, offset) == cut(step.candidate, offset);
      RenamedAllIs(n, before.chunk, rest.chunks);
    }
  }

  // ----- what renaming changes

  lemma {:induction false} RenamedAreClean(n: Names, chunks: seq<Chunk>)
    ensures |RenamedAll(n, chunks)| == |chunks|
    ensures forall i | 0 <= i < |chunks| :: RenamedAll(n, chunks)[i] == Renamed(n, chunks[i])
    ensures forall c | c in RenamedAll(n, chunks) && c.id == DATA_SECTION :: !Occurs(n, c.body)
    decreases |chunks|
  {
    if |chunks| > 0 {
      RenamedAreClean(n, chunks[1..]);
      forall k: nat { ReplaceLeavesNone(n, chunks[0].body, k); }
    }
  }

  lemma {:induction false} NothingToReplace(n: Names, chunks: seq<Chunk>)
    ensures Replacements(n, chunks) == 0 <==> forall i | 0 <= i < |chunks| && chunks[i].id == DATA_SECTION :: !Occurs(n, chunks[i].body)
    decreases |chunks|
  {
    if |chunks| > 0 {
      NothingToReplace(n, chunks[1..]);
      CountFindsAll(n, chunks[0].body);
      assert forall i | 0 <= i < |chunks| - 1 :: chunks[1..][i] == chunks[i + 1];
    }
  }

  /** The renamed binary has the length, the first eight bytes and the section boundaries of the old one, and the
      same bytes outside the bodies of data sections, which hold the old name nowhere. */
  lemma RenamingKeepsLayout(n: Names, wasm: Bytes)
    requires RenamedBytes(n, wasm).Candidate?
    ensures var out := RenamedBytes(n, wasm).bytes;
      && AgreeBelow(wasm, out, 8)
      && Split(wasm, 8).Sections?
      && Split(out, 8) == Sections(RenamedAll(n, Split(wasm, 8).chunks))
      && forall c | c in Split(out, 8).chunks && c.id == DATA_SECTION :: !Occurs(n, c.body)
  {
    CutAtCuts(n);
    LoopRenames(n, CutAt, Rewriting(n), wasm, 8, 0);
    RenamedAreClean(n, Split(wasm, 8).chunks);
  }

  ghost predicate NamesNone(n: Names, sections: Sections) {
    sections.Sections? ==>
      forall i | 0 <= i < |sections.chunks| && sections.chunks[i].id == DATA_SECTION :: !Occurs(n, sections.chunks[i].body)
  }

  /** Renaming is refused exactly when a size runs off the end or no data section holds the name. */
  lemma RenamingRefused(n: Names, wasm: Bytes)
    ensures RenamedBytes(n, wasm).Refused? <==> NamesNone(n, Split(wasm, 8))
  {
    CutAtCuts(n);
    LoopRenames(n, CutAt, Rewriting(n), wasm, 8, 0);
    if Split(wasm, 8).Sections? {
      NothingToReplace(n, Split(wasm, 8).chunks);
    }
  }

  // ----- the sections are all there is

  lemma JoinOneMore(chunk: Chunk, rest: seq<Chunk>)
    ensures Join([chunk] + rest) == chunk.header + chunk.body + Join(rest)
  {
    assert ([chunk] + rest)[1..] == rest;
  }

  lemma CutIsAll(data: Bytes, offset: nat)
    requires CutAt(data, offset).Cut?
    ensures var c := CutAt(data, offset);
      data[offset..] == c.chunk.header + c.chunk.body + data[Min(c.next, |data|)..]
  {
  }

  lemma {:induction false} SplitJoins(data: Bytes, offset: nat)
    requires Split(data, offset).Sections?
    ensures Join(Split(data, offset).chunks) == data[Min(offset, |data|)..]
    decreases |data| - offset
  {
    if offset < |data| {
      var c := CutAt(data, offset);
      SplitJoins(data, c.next);
      JoinOneMore(c.chunk, Split(data, c.next).chunks);
      CutIsAll(data, offset);
    }
  }

  /** A binary is its first eight bytes and its sections. */
  lemma SplitIsFaithful(a: Bytes, b: Bytes)
    requires AgreeBelow(a, b, 8) && Split(a, 8).Sections? && Split(a, 8) == Split(b, 8)
    ensures a == b
  {
    SplitJoins(a, 8);
    SplitJoins(b, 8);
    var n := Min(8, |a|);
    assert a[..n] == b[..n] && a == a[..n] + a[n..] && b == b[..n] + b[n..];
  }

  // ----- encoded modules

  function RenamedSection(n: Names, section: Section): Section {
    if section.OtherSection? && section.id == DATA_SECTION then section.(body := Replace(n, section.body)) else section
  }

  function RenamedSections(n: Names, sections: seq<Section>): seq<Section> {
    if |sections| == 0 then [] else [RenamedSection(n, sections[0])] + RenamedSections(n, sections[1..])
  }

  function ChunkOf(section: Section): Chunk {
    Chunk(SectionId(section), [SectionId(section)] + EncodeLeb(section.size), |SectionBody(section)|, SectionBody(section))
  }

  function ChunksOf(sections: seq<Section>): seq<Chunk> {
    if |sections| == 0 then [] else [ChunkOf(sections[0])] + ChunksOf(sections[1..])
  }

  lemma FramedChunk(data: Bytes, offset: nat, id: Byte, size: Leb, body: Bytes)
    requires LebIs(size, |body|) && At(data, offset, Frame(id, size, body))
    ensures CutAt(data, offset) == Cut(Chunk(id, [id] + EncodeLeb(size), |body|, body), offset + |Frame(id, size, body)|)
  {
    var start := offset + 1 + |size|;
    FrameParts(data, offset, id, size, body);
    AtParts(data, offset, [id] + EncodeLeb(size), body);
    assert data[offset..start] == [id] + EncodeLeb(size);
    assert data[start..start + |body|] == body;
  }

  /** The cutter cuts off every encoded section. */
  ghost predicate CutsSections(decode: Decoder, cut: Cutter) {
    forall data: Bytes, offset: nat, section: Section {:trigger cut(data, offset), EncodeSection(section)} ::
      SectionOk(decode, section) && At(data, offset, EncodeSection(section)) ==>
      cut(data, offset) == Cut(ChunkOf(section), offset + |EncodeSection(section)|)
  }

  lemma CutAtCutsSections(decode: Decoder)
    ensures CutsSections(decode, CutAt)
  {
    forall data: Bytes, offset: nat, section: Section | SectionOk(decode, section) && At(data, offset, EncodeSection(section))
      ensures CutAt(data, offset) == Cut(ChunkOf(section), offset + |EncodeSection(section)|)
    {
      FramedChunk(data, offset, SectionId(section), section.size, SectionBody(section));
    }
  }

  /** The sections of an encoding are the encoded sections. */
  lemma {:induction false} SplitOfEncoding(decode: Decoder, cut: Cutter, data: Bytes, offset: nat, sections: seq<Section>)
    requires CutsSections(decode, cut) && SectionsOk(decode, sections)
    requires At(data, offset, EncodeSections(sections)) && offset + |EncodeSections(sections)| == |data|
    ensures SplitBy(cut, data, offset) == Sections(ChunksOf(sections))
    decreases |sections|
  {
    if |sections| > 0 {
      var next := offset + |EncodeSection(sections[0])|;
      AtParts(data, offset, EncodeSection(sections[0]), EncodeSections(sections[1..]));
      SplitOfEncoding(decode, cut, data, next, sections[1..]);
      assert cut(data, offset) == Cut(ChunkOf(sections[0]), next);
    }
  }

  lemma {:induction false} RenamedChunks(n: Names, decode: Decoder, sections: seq<Section>)
    requires SectionsOk(decode, sections)
    ensures SectionsOk(decode, RenamedSections(n, sections))
    ensures ChunksOf(RenamedSections(n, sections)) == RenamedAll(n, ChunksOf(sections))
    ensures PairsOf(decode, RenamedSections(n, sections)) == PairsOf(decode, sections)
    ensures |EncodeSections(RenamedSections(n, sections))| == |EncodeSections(sections)|
    decreases |sections|
  {
    if |sections| > 0 {
      RenamedChunks(n, decode, sections[1..]);
      if sections[0].OtherSection? {
        ReplaceLength(n, sections[0].body);
      }
      assert RenamedSections(n, sections)[1..] == RenamedSections(n, sections[1..]);
      RenamedAllIs(n, ChunkOf(sections[0]), ChunksOf(sections[1..]));
    }
  }

  lemma SameFront(m: Module, other: Module)
    requires |m.version| == 4 && m.version == other.version && |EncodeSections(m.sections)| == |EncodeSections(other.sections)|
    ensures AgreeBelow(Encode(m), Encode(other), 8)
  {
  }

  /** In a module that can be encoded, renaming rewrites the bodies of the data sections and nothing else, so the
      imports are listed as before. */
  lemma RenamingAnEncoding(n: Names, decode: Decoder, m: Module)
    requires ModuleOk(decode, m) && RenamedBytes(n, Encode(m)).Candidate?
    ensures var renamed := m.(sections := RenamedSections(n, m.sections));
      && ModuleOk(decode, renamed)
      && RenamedBytes(n, Encode(m)).bytes == Encode(renamed)
    ensures ImportsOf(decode, RenamedBytes(n, Encode(m)).bytes) == ImportsOf(decode, Encode(m))
  {
    var renamed := m.(sections := RenamedSections(n, m.sections));
    var out := RenamedBytes(n, Encode(m)).bytes;
    RenamedChunks(n, decode, m.sections);
    EncodedSections(m);
    EncodedSections(renamed);
    CutAtCutsSections(decode);
    SplitOfEncoding(decode, CutAt, Encode(m), 8, m.sections);
    SplitOfEncoding(decode, CutAt, Encode(renamed), 8, renamed.sections);
    RenamingKeepsLayout(n, Encode(m));
    SameFront(m, renamed);
    SplitIsFaithful(out, Encode(renamed));
    ImportsOfEncoding(decode, m);
    ImportsOfEncoding(decode, renamed);
  }

  // ----- any other binary

  ghost predicate AgreeOn(a: Bytes, b: Bytes, lo: nat, hi: nat) {
    |a| == |b| && forall k | lo <= k < hi && k < |a| :: a[k] == b[k]
  }

  function Larger(a: nat, b: nat): nat { if a < b then b else a }

  // Each of these is the offset behind the last byte that a reading looks at, whether it succeeds or not.

  function LebReach(data: Bytes, offset: nat): nat {
    var number := Leb128(data, offset);
    if number.Short? then Larger(offset, |data|) else number.next
  }

  function NameReach(data: Bytes, offset: nat): nat {
    var length := Leb128(data, offset);
    if length.Short? then Larger(offset, |data|) else length.next + length.value
  }

  function LimitsReach(data: Bytes, offset: nat): nat {
    var min := LebEnd(data, offset + 1);
    if offset < |data| && min.End? && data[offset] % 2 == 1 then LebReach(data, min.next) else LebReach(data, offset + 1)
  }

  function KindReach(data: Bytes, offset: nat, kind: int): nat {
    if kind == 0 then LebReach(data, offset)
    else if kind == 1 then LimitsReach(data, offset + 1)
    else if kind == 2 then LimitsReach(data, offset)
    else if kind == 4 then LebReach(data, offset + 1)
    else offset
  }

  function SkipReach(data: Bytes, offset: nat): nat {
    if offset < |data| then KindReach(data, offset + 1, data[offset]) else offset
  }

  function EntryReach(decode: Decoder, data: Bytes, offset: nat): nat {
    var mod := NameAt(decode, data, offset);
    if mod.NoText? then NameReach(data, offset)
    else
      var field := NameAt(decode, data, mod.next);
      if field.NoText? then NameReach(data, mod.next) else SkipReach(data, field.next)
  }

  lemma {:induction false} NumberOn(a: Bytes, b: Bytes, offset: nat, hi: nat)
    requires AgreeOn(a, b, offset, hi) && LebReach(a, offset) <= hi
    ensures Leb128(b, offset) == Leb128(a, offset) && LebReach(a, offset) >= offset
    decreases |a| - offset
  {
    if offset < |a| && a[offset] >= 128 {
      NumberOn(a, b, offset + 1, hi);
    }
  }

  lemma SliceOn(a: Bytes, b: Bytes, start: nat, length: nat)
    requires AgreeOn(a, b, start, start + length)
    ensures Slice(a, start, length) == Slice(b, start, length)
  {
  }

  lemma NameOn(decode: Decoder, a: Bytes, b: Bytes, offset: nat, hi: nat)
    requires AgreeOn(a, b, offset, hi) && NameReach(a, offset) <= hi
    ensures NameAt(decode, b, offset) == NameAt(decode, a, offset)
  {
    var length := Leb128(a, offset);
    NumberOn(a, b, offset, hi);
    if length.Number? {
      SliceOn(a, b, length.next, length.value);
    }
  }

  lemma NameEnds(decode: Decoder, data: Bytes, offset: nat)
    ensures NameReach(data, offset) >= offset
    ensures NameAt(decode, data, offset).Text? ==> NameAt(decode, data, offset).next == NameReach(data, offset) > offset
  {
  }

  lemma LimitsOn(a: Bytes, b: Bytes, offset: nat, hi: nat)
    requires AgreeOn(a, b, offset, hi) && LimitsReach(a, offset) <= hi
    ensures LimitsEnd(b, offset) == LimitsEnd(a, offset)
  {
    var min := LebEnd(a, offset + 1);
    if offset < |a| {
      if min.End? && a[offset] % 2 == 1 {
        LebReachEnds(a, min.next);
        NumberOn(a, b, offset + 1, hi);
        NumberOn(a, b, min.next, hi);
      } else {
        LebReachEnds(a, offset + 1);
        NumberOn(a, b, offset + 1, hi);
      }
    }
  }

  lemma LebReachEnds(data: Bytes, offset: nat)
    ensures LebReach(data, offset) >= offset
  {
  }

  lemma LimitsReachEnds(data: Bytes, offset: nat)
    ensures LimitsReach(data, offset) > offset && (LimitsEnd(data, offset).End? ==> LimitsEnd(data, offset).next > offset)
  {
    var min := LebEnd(data, offset + 1);
    LebReachEnds(data, offset + 1);
    if min.End? {
      LebReachEnds(data, min.next);
    }
  }

  lemma KindEnds(data: Bytes, offset: nat, kind: int)
    ensures KindReach(data, offset, kind) >= offset
    ensures SkipKind(data, offset, kind).End? ==> SkipKind(data, offset, kind).next > offset
  {
    LebReachEnds(data, offset);
    LebReachEnds(data, offset + 1);
    LimitsReachEnds(data, offset);
    LimitsReachEnds(data, offset + 1);
  }

  lemma KindOn(a: Bytes, b: Bytes, offset: nat, kind: int, hi: nat)
    requires AgreeOn(a, b, offset, hi) && KindReach(a, offset, kind) <= hi
    ensures SkipKind(b, offset, kind) == SkipKind(a, offset, kind)
  {
    if kind == 0 {
      NumberOn(a, b, offset, hi);
    } else if kind == 1 {
      LimitsOn(a, b, offset + 1, hi);
    } else if kind == 2 {
      LimitsOn(a, b, offset, hi);
    } else if kind == 4 {
      NumberOn(a, b, offset + 1, hi);
    }
  }

  lemma SkipOn(a: Bytes, b: Bytes, offset: nat, hi: nat)
    requires AgreeOn(a, b, offset, hi) && SkipReach(a, offset) <= hi
    ensures SkipImportKind(b, offset) == SkipImportKind(a, offset)
  {
    if offset < |a| {
      var kind: int := a[offset];
      KindEnds(a, offset + 1, kind);
      KindOn(a, b, offset + 1, kind, hi);
      SkipIs(a, offset, kind);
      SkipIs(b, offset, kind);
    }
  }

  lemma SkipIs(data: Bytes, offset: nat, kind: int)
    requires offset < |data| && data[offset] == kind
    ensures SkipImportKind(data, offset) == SkipKind(data, offset + 1, kind)
  {
  }

  lemma SkipEnds(data: Bytes, offset: nat)
    ensures SkipReach(data, offset) >= offset
    ensures SkipImportKind(data, offset).End? ==> SkipImportKind(data, offset).next > offset
  {
    if offset < |data| {
      KindEnds(data, offset + 1, data[offset]);
    }
  }

  lemma EntryEnds(decode: Decoder, data: Bytes, offset: nat)
    ensures ImportEntry(decode, data, offset).Entry? ==> ImportEntry(decode, data, offset).next > offset
  {
    var mod := NameAt(decode, data, offset);
    if mod.Text? && NameAt(decode, data, mod.next).Text? {
      SkipEnds(data, NameAt(decode, data, mod.next).next);
    }
  }

  lemma NamesOn(decode: Decoder, a: Bytes, b: Bytes, offset: nat, hi: nat)
    requires AgreeOn(a, b, offset, hi) && EntryReach(decode, a, offset) <= hi
    ensures NameAt(decode, b, offset) == NameAt(decode, a, offset)
    ensures var mod := NameAt(decode, a, offset);
      mod.Text? ==> NameAt(decode, b, mod.next) == NameAt(decode, a, mod.next) && mod.next > offset
  {
    var mod := NameAt(decode, a, offset);
    NameEnds(decode, a, offset);
    if mod.Text? {
      NameEnds(decode, a, mod.next);
      var field := NameAt(decode, a, mod.next);
      if field.Text? {
        SkipEnds(a, field.next);
      }
      NameOn(decode, a, b, mod.next, hi);
    }
    NameOn(decode, a, b, offset, hi);
  }

  /** What reading an import gives, be it an error, only depends on the bytes it looks at. */
  lemma EntryOn(decode: Decoder, a: Bytes, b: Bytes, offset: nat, hi: nat)
    requires AgreeOn(a, b, offset, hi) && EntryReach(decode, a, offset) <= hi
    ensures ImportEntry(decode, b, offset) == ImportEntry(decode, a, offset)
  {
    var mod := NameAt(decode, a, offset);
    NamesOn(decode, a, b, offset, hi);
    if mod.Text? && NameAt(decode, a, mod.next).Text? {
      NameEnds(decode, a, mod.next);
      SkipOn(a, b, NameAt(decode, a, mod.next).next, hi);
    }
  }

  /** Two readers that give the same for whatever looks at a range only. */
  ghost predicate ReadsAlike(read: ImportReader, other: ImportReader, reach: nat -> nat, lo: nat, hi: nat) {
    forall offset: nat {:trigger read(offset)} | lo <= offset ::
      && (read(offset).Entry? ==> read(offset).next > offset)
      && (reach(offset) <= hi ==> other(offset) == read(offset))
  }

  function Reach(decode: Decoder, data: Bytes): nat -> nat {
    (offset: nat) => EntryReach(decode, data, offset)
  }

  lemma ImportersReadAlike(decode: Decoder, a: Bytes, b: Bytes, lo: nat, hi: nat)
    requires AgreeOn(a, b, lo, hi)
    ensures ReadsAlike(Importer(decode, a), Importer(decode, b), Reach(decode, a), lo, hi)
  {
    forall offset: nat | lo <= offset
      ensures ImportEntry(decode, a, offset).Entry? ==> ImportEntry(decode, a, offset).next > offset
      ensures EntryReach(decode, a, offset) <= hi ==> ImportEntry(decode, b, offset) == ImportEntry(decode, a, offset)
    {
      EntryEnds(decode, a, offset);
      if EntryReach(decode, a, offset) <= hi {
        EntryOn(decode, a, b, offset, hi);
      }
    }
  }

  /** No entry of a list looks behind an offset. */
  predicate AllReach(read: ImportReader, reach: nat -> nat, offset: nat, count: nat, end: nat)
    decreases count
  {
    count == 0 || (reach(offset) <= end && (read(offset).Entry? ==> AllReach(read, reach, read(offset).next, count - 1, end)))
  }

  lemma {:induction false} RepeatOn(read: ImportReader, other: ImportReader, reach: nat -> nat, offset: nat, count: nat, lo: nat, hi: nat)
    requires ReadsAlike(read, other, reach, lo, hi) && lo <= offset && AllReach(read, reach, offset, count, hi)
    ensures Repeat(other, offset, count) == Repeat(read, offset, count)
    decreases count
  {
    if count > 0 {
      assert other(offset) == read(offset);
      if read(offset).Entry? {
        RepeatOn(read, other, reach, read(offset).next, count - 1, lo, hi);
      }
    }
  }

  /** Reading the entries of an import section with a body from start to end looks at nothing behind it, be it that an
      entry is malformed. */
  predicate EntriesInside(decode: Decoder, data: Bytes, start: nat, end: nat) {
    var count := Leb128(data, start);
    && LebReach(data, start) <= end
    && (count.Number? ==> AllReach(Importer(decode, data), Reach(decode, data), count.next, count.value, end))
  }

  lemma ImportsOn(decode: Decoder, a: Bytes, b: Bytes, start: nat, end: nat)
    requires EntriesInside(decode, a, start, end) && AgreeOn(a, b, start, end)
    ensures ImportSection(Importer(decode, b), b, start) == ImportSection(Importer(decode, a), a, start)
  {
    var count := Leb128(a, start);
    NumberOn(a, b, start, end);
    if count.Number? {
      ImportersReadAlike(decode, a, b, start, end);
      RepeatOn(Importer(decode, a), Importer(decode, b), Reach(decode, a), count.next, count.value, start, end);
    }
  }

  /** What is asked of the body of an import section. */
  type Condition = (nat, nat) -> bool

  /** It holds of every import section. */
  ghost predicate Everywhere(inside: Condition, data: Bytes, offset: nat)
    decreases |data| - offset
  {
    offset < |data| ==>
      var size := Leb128(data, offset + 1);
      size.Number? ==>
        && (data[offset] == IMPORT_SECTION ==> inside(size.next, size.next + size.value))
        && Everywhere(inside, data, size.next + size.value)
  }

  function Inside(decode: Decoder, data: Bytes): Condition {
    (start: nat, end: nat) => EntriesInside(decode, data, start, end)
  }

  ghost predicate ImportsInside(decode: Decoder, data: Bytes, offset: nat) {
    Everywhere(Inside(decode, data), data, offset)
  }

  lemma EverywhereHere(inside: Condition, data: Bytes, offset: nat)
    requires Everywhere(inside, data, offset) && offset < |data| && CutAt(data, offset).Cut?
    ensures var size := Leb128(data, offset + 1);
      data[offset] == IMPORT_SECTION ==> inside(size.next, size.next + size.value)
    ensures Everywhere(inside, data, CutAt(data, offset).next)
  {
  }

  /** A reader of import sections gives the same before and after, where the condition holds. */
  ghost predicate SectionsAlike(inside: Condition, a: Bytes, b: Bytes, read: ImportReader, other: ImportReader) {
    forall start: nat, end: nat {:trigger inside(start, end)} | inside(start, end) && AgreeOn(a, b, start, end) ::
      ImportSection(other, b, start) == ImportSection(read, a, start)
  }

  lemma InsideIsAlike(decode: Decoder, a: Bytes, b: Bytes)
    ensures SectionsAlike(Inside(decode, a), a, b, Importer(decode, a), Importer(decode, b))
  {
    forall start: nat, end: nat | EntriesInside(decode, a, start, end) && AgreeOn(a, b, start, end)
      ensures ImportSection(Importer(decode, b), b, start) == ImportSection(Importer(decode, a), a, start)
    {
      ImportsOn(decode, a, b, start, end);
    }
  }

  /** What is known of a section and its renamed form. */
  lemma SameHeader(n: Names, a: Bytes, b: Bytes, offset: nat)
    requires |a| == |b| && CutAt(a, offset).Cut? && CutAt(b, offset).Cut?
    requires CutAt(b, offset).chunk == Renamed(n, CutAt(a, offset).chunk)
    ensures Leb128(b, offset + 1) == Leb128(a, offset + 1) && b[offset] == a[offset]
  {
    var size, other := Leb128(a, offset + 1), Leb128(b, offset + 1);
    var c, d := CutAt(a, offset).chunk, CutAt(b, offset).chunk;
    assert |c.header| == size.next - offset && |d.header| == other.next - offset;
  }

  lemma SameBody(n: Names, a: Bytes, b: Bytes, offset: nat)
    requires |a| == |b| && CutAt(a, offset).Cut? && CutAt(b, offset).Cut?
    requires CutAt(b, offset).chunk == Renamed(n, CutAt(a, offset).chunk) && a[offset] == IMPORT_SECTION
    requires Leb128(b, offset + 1) == Leb128(a, offset + 1)
    ensures var size := Leb128(a, offset + 1); AgreeOn(a, b, size.next, size.next + size.value)
  {
    var size := Leb128(a, offset + 1);
    SlicesAgree(a, b, size.next, size.value);
  }

  lemma SlicesAgree(a: Bytes, b: Bytes, start: nat, length: nat)
    requires |a| == |b| && start <= |a| && Slice(a, start, length) == Slice(b, start, length)
    ensures AgreeOn(a, b, start, start + length)
  {
    forall k | start <= k < start + length && k < |a| ensures a[k] == b[k] {
      assert Slice(a, start, length)[k - start] == a[k] && Slice(b, start, length)[k - start] == b[k];
    }
  }

  lemma NextCut(a: Bytes, b: Bytes, offset: nat)
    requires CutAt(a, offset).Cut? && Leb128(b, offset + 1) == Leb128(a, offset + 1)
    ensures CutAt(b, offset).Cut? && CutAt(b, offset).next == CutAt(a, offset).next
  {
  }

  lemma SectionFrom(a: Bytes, b: Bytes, read: ImportReader, other: ImportReader, offset: nat)
    requires |a| == |b| && offset < |a| && b[offset] == a[offset] && Leb128(b, offset + 1) == Leb128(a, offset + 1)
    requires var size := Leb128(a, offset + 1); a[offset] == IMPORT_SECTION && size.Number? ==>
      ImportSection(other, b, size.next) == ImportSection(read, a, size.next)
    ensures SectionAt(other, b, offset) == SectionAt(read, a, offset)
  {
  }

  /** What renaming leaves of a section that is no data section. */
  ghost predicate SameShape(a: Bytes, b: Bytes, offset: nat)
    requires |a| == |b| && offset < |a|
  {
    var size := Leb128(a, offset + 1);
    && size.Number? && b[offset] == a[offset] && Leb128(b, offset + 1) == size
    && (a[offset] == IMPORT_SECTION ==> AgreeOn(a, b, size.next, size.next + size.value))
  }

  lemma ShapeKept(n: Names, a: Bytes, b: Bytes, offset: nat)
    requires |a| == |b| && offset < |a| && CutAt(a, offset).Cut? && CutAt(b, offset).Cut?
    requires CutAt(b, offset).chunk == Renamed(n, CutAt(a, offset).chunk)
    ensures SameShape(a, b, offset) && CutAt(b, offset).next == CutAt(a, offset).next
  {
    SameHeader(n, a, b, offset);
    if a[offset] == IMPORT_SECTION {
      SameBody(n, a, b, offset);
    }
    NextCut(a, b, offset);
  }

  lemma SameSection(inside: Condition, a: Bytes, b: Bytes, read: ImportReader, other: ImportReader, offset: nat)
    requires |a| == |b| && offset < |a| && SameShape(a, b, offset) && SectionsAlike(inside, a, b, read, other)
    requires var size := Leb128(a, offset + 1); a[offset] == IMPORT_SECTION ==> inside(size.next, size.next + size.value)
    ensures SectionAt(other, b, offset) == SectionAt(read, a, offset)
  {
    var size := Leb128(a, offset + 1);
    if a[offset] == IMPORT_SECTION {
      assert inside(size.next, size.next + size.value);
    }
    SectionFrom(a, b, read, other, offset);
  }

  lemma FirstChunks(n: Names, a: Bytes, b: Bytes, offset: nat)
    requires |a| == |b| && offset < |a| && Split(a, offset).Sections?
    requires Split(b, offset) == Sections(RenamedAll(n, Split(a, offset).chunks))
    ensures CutAt(a, offset).Cut? && CutAt(b, offset).Cut?
    ensures CutAt(b, offset).chunk == Renamed(n, CutAt(a, offset).chunk)
    ensures Split(a, CutAt(a, offset).next).Sections?
    ensures Split(b, CutAt(b, offset).next) == Sections(RenamedAll(n, Split(a, CutAt(a, offset).next).chunks))
  {
    var c, d := CutAt(a, offset), CutAt(b, offset);
    var rest, others := Split(a, c.next), Split(b, d.next);
    assert Split(a, offset) == Before(c.chunk, rest) && Split(b, offset) == Before(d.chunk, others);
    RenamedAllIs(n, c.chunk, rest.chunks);
    HeadAndTail(d.chunk, others.chunks, Renamed(n, c.chunk), RenamedAll(n, rest.chunks));
  }

  lemma HeadAndTail(a: Chunk, s: seq<Chunk>, b: Chunk, t: seq<Chunk>)
    requires [a] + s == [b] + t
    ensures a == b && s == t
  {
    assert ([a] + s)[0] == a && ([b] + t)[0] == b && ([a] + s)[1..] == s && ([b] + t)[1..] == t;
  }

  lemma SectionStep(sections: SectionReader, end: nat, offset: nat, section: Entries)
    requires offset < end && sections(offset) == section && (section.Entries? ==> section.next > offset)
    ensures ImportSections(sections, end, offset) ==
      if section.NoEntries? then Raises else Wasm.Then(section.pairs, ImportSections(sections, end, section.next))
  {
  }

  /** A reader of sections by a reader of imports. */
  ghost predicate ReadsSections(sections: SectionReader, read: ImportReader, data: Bytes) {
    forall offset: nat {:trigger sections(offset)} | offset < |data| :: sections(offset) == SectionAt(read, data, offset)
  }

  lemma SectionEnds(read: ImportReader, data: Bytes, offset: nat)
    requires offset < |data| && CutAt(data, offset).Cut?
    ensures var section := SectionAt(read, data, offset);
      section.Entries? ==> section.next == CutAt(data, offset).next > offset
  {
  }

  lemma {:induction false} SameImports(n: Names, inside: Condition, a: Bytes, b: Bytes, read: ImportReader, other: ImportReader,
                                       sections: SectionReader, others: SectionReader, offset: nat)
    requires |a| == |b| && Split(a, offset).Sections? && Everywhere(inside, a, offset)
    requires Split(b, offset) == Sections(RenamedAll(n, Split(a, offset).chunks))
    requires SectionsAlike(inside, a, b, read, other) && ReadsSections(sections, read, a) && ReadsSections(others, other, b)
    ensures ImportSections(others, |b|, offset) == ImportSections(sections, |a|, offset)
    decreases |a| - offset
  {
    if offset < |a| {
      FirstChunks(n, a, b, offset);
      ShapeKept(n, a, b, offset);
      EverywhereHere(inside, a, offset);
      SameSection(inside, a, b, read, other, offset);
      SectionEnds(read, a, offset);
      SectionStep(sections, |a|, offset, SectionAt(read, a, offset));
      SectionStep(others, |b|, offset, SectionAt(other, b, offset));
      SameImports(n, inside, a, b, read, other, sections, others, CutAt(a, offset).next);
    }
  }

  lemma SectionerReadsSections(decode: Decoder, data: Bytes)
    ensures ReadsSections(Sectioner(decode, data), Importer(decode, data), data)
  {
  }

  /** Renaming any binary whose import sections are read without looking behind them leaves its imports, or the error
      that listing them gives, as they were. */
  lemma RenamingKeepsImports(n: Names, decode: Decoder, wasm: Bytes)
    requires RenamedBytes(n, wasm).Candidate? && ImportsInside(decode, wasm, 8)
    ensures ImportsOf(decode, RenamedBytes(n, wasm).bytes) == ImportsOf(decode, wasm)
  {
    var out := RenamedBytes(n, wasm).bytes;
    RenamingKeepsLayout(n, wasm);
    InsideIsAlike(decode, wasm, out);
    SectionerReadsSections(decode, wasm);
    SectionerReadsSections(decode, out);
    SameImports(n, Inside(decode, wasm), wasm, out, Importer(decode, wasm), Importer(decode, out),
                Sectioner(decode, wasm), Sectioner(decode, out), 8);
    assert Slice(out, 0, 4) == Slice(wasm, 0, 4);
  }

  // ----- an import section that reads past its end

  /** A header, an import section that is only its count of one, and a data section whose bytes go on as the import. */
  function Overrun(name: Bytes): Bytes {
    [0, 97, 115, 109, 1, 0, 0, 0, 2, 1, 1, 11, 32, 0, 0, 0, 0, 0, 0, 0, 0, 0, 0, 18] + name + [3, 0, 0]
  }

  /** Its bytes that decide something. */
  ghost predicate Overruns(b: Bytes, mod: Bytes, name: Bytes) {
    && |b| == 45 && b[8] == IMPORT_SECTION && b[9] == 1 && b[10] == 1 && b[11] == DATA_SECTION && b[12] == 32 && b[23] == 18
    && b[42] == 3 && Slice(b, 0, 4) == MAGIC && Slice(b, 24, 18) == name && Slice(b, 12, 11) == mod
  }

  lemma OverrunBytes(name: Bytes)
    requires |name| == 18
    ensures Overruns(Overrun(name), [32, 0, 0, 0, 0, 0, 0, 0, 0, 0, 0], name)
  {
  }

  lemma OverrunEntry(decode: Decoder, b: Bytes, mod: Bytes, name: Bytes)
    requires Overruns(b, mod, name) && decode(mod).Decoded? && decode(name).Decoded?
    ensures ImportEntry(decode, b, 11) == Entry(Pair(decode(mod).text, decode(name).text), 45)
  {
    assert Leb128(b, 11) == Number(11, 12) && NameAt(decode, b, 11) == Text(decode(mod).text, 23);
    assert Leb128(b, 23) == Number(18, 24) && NameAt(decode, b, 23) == Text(decode(name).text, 42);
    assert SkipImportKind(b, 42) == End(45);
  }

  lemma OverrunSection(decode: Decoder, b: Bytes, mod: Bytes, name: Bytes)
    requires Overruns(b, mod, name) && decode(mod).Decoded? && decode(name).Decoded?
    ensures SectionAt(Importer(decode, b), b, 8) == Entries([Pair(decode(mod).text, decode(name).text)], 11)
    ensures SectionAt(Importer(decode, b), b, 11) == Entries([], 45)
  {
    var read, pair := Importer(decode, b), Pair(decode(mod).text, decode(name).text);
    OverrunEntry(decode, b, mod, name);
    assert Leb128(b, 9) == Number(1, 10) && Leb128(b, 10) == Number(1, 11) && Leb128(b, 12) == Number(32, 13);
    RepeatOnce(read, 11, 1, pair, 45, [], 45);
    assert [pair] + [] == [pair];
  }

  /** The imports it lists. */
  lemma OverrunImports(decode: Decoder, b: Bytes, mod: Bytes, name: Bytes)
    requires Overruns(b, mod, name) && decode(mod).Decoded? && decode(name).Decoded?
    ensures ImportsOf(decode, b) == Listing([Pair(decode(mod).text, decode(name).text)])
  {
    var read, pair := Sectioner(decode, b), Pair(decode(mod).text, decode(name).text);
    OverrunSection(decode, b, mod, name);
    assert read(8) == Entries([pair], 11) && read(11) == Entries([], 45);
    var none: seq<Pair> := [];
    assert none + none == none && [pair] + none == [pair];
    SectionOnce(read, 45, 11, none, 45, none);
    SectionOnce(read, 45, 8, [pair], 11, none);
  }

  lemma {:induction false} ReplacedBehind(n: Names, front: Bytes, rest: Bytes)
    requires (forall i | 0 <= i < |front| :: front[i] != n.before[0]) && |rest| >= |n.before|
    ensures Replace(n, front + rest) == front + Replace(n, rest) && Count(n, front + rest) == Count(n, rest)
    decreases |front|
  {
    if |front| == 0 {
      assert front + rest == rest && [] + Replace(n, rest) == Replace(n, rest);
    } else {
      var b := front + rest;
      assert b[..|n.before|][0] == front[0] && b[1..] == front[1..] + rest;
      ReplacedBehind(n, front[1..], rest);
      assert [front[0]] + (front[1..] + Replace(n, rest)) == front + Replace(n, rest);
    }
  }

  lemma ReplacedName(n: Names, tail: Bytes)
    requires |tail| < |n.before|
    ensures Replace(n, n.before + tail) == n.after + tail && Count(n, n.before + tail) == 1
  {
    assert (n.before + tail)[|n.before|..] == tail && (n.before + tail)[..|n.before|] == n.before;
  }

  lemma OverrunBody(n: Names)
    requires |n.before| == 18 && n.before[0] != 0 && n.before[0] != 18
    ensures var body := Slice(Overrun(n.before), 13, 32);
      |body| == 32 && Overrun(n.before)[..13] + Replace(n, body) == Overrun(n.after) && Count(n, body) == 1
  {
    var front: Bytes := [0, 0, 0, 0, 0, 0, 0, 0, 0, 0, 18];
    var b := Overrun(n.before);
    assert Slice(b, 13, 32) == front + (n.before + [3, 0, 0]);
    ReplacedBehind(n, front, n.before + [3, 0, 0]);
    ReplacedName(n, [3, 0, 0]);
    assert b[..13] + (front + (n.after + [3, 0, 0])) == Overrun(n.after);
  }

  lemma OverrunRenamed(n: Names)
    requires |n.before| == 18 && n.before[0] != 0 && n.before[0] != 18
    ensures RenamedBytes(n, Overrun(n.before)) == Candidate(Overrun(n.after))
  {
    var b, rewrite := Overrun(n.before), Rewriting(n);
    OverrunBytes(n.before);
    OverrunBytes(n.after);
    OverrunBody(n);
    assert Leb128(b, 9) == Number(1, 10) && Leb128(b, 12) == Number(32, 13);
    assert rewrite(b, 8) == Step(b, 11, 0);
    assert b[..13] + Replace(n, Slice(b, 13, 32)) + b[45..] == b[..13] + Replace(n, Slice(b, 13, 32));
    assert rewrite(b, 11) == Step(Overrun(n.after), 45, 1);
    assert Loop(rewrite, Overrun(n.after), 45, 1) == Outcome(Overrun(n.after), 1);
    assert Loop(rewrite, b, 11, 0) == Outcome(Overrun(n.after), 1);
  }

  /** Without that condition it fails: for a binary whose import section ends in front of its entry, renaming the private
      table changes an import, if decoding tells the two names apart. */
  lemma OverrunImportChanges(n: Names, decode: Decoder)
    requires n == PRIVATE_TABLE && decode([32, 0, 0, 0, 0, 0, 0, 0, 0, 0, 0]).Decoded?
    requires decode(n.before).Decoded? && decode(n.after).Decoded? && decode(n.before) != decode(n.after)
    ensures RenamedBytes(n, Overrun(n.before)) == Candidate(Overrun(n.after))
    ensures ImportsOf(decode, Overrun(n.after)) != ImportsOf(decode, Overrun(n.before))
  {
    var mod: Bytes := [32, 0, 0, 0, 0, 0, 0, 0, 0, 0, 0];
    OverrunBytes(n.before);
    OverrunBytes(n.after);
    OverrunRenamed(n);
    OverrunImports(decode, Overrun(n.before), mod, n.before);
    OverrunImports(decode, Overrun(n.after), mod, n.after);
    var a, b := Pair(decode(mod).text, decode(n.before).text), Pair(decode(mod).text, decode(n.after).text);
    assert [a][0] != [b][0];
  }
}
