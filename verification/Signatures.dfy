/** The signature of a difference, and the order the Rust and the Python tools sort signatures by. */
module Signatures {
  import opened Options
  import opened Sorting

  datatype Stream = Opening | Reply(id: string) | Broadcast(id: string) | Unexpected | Malformed

  datatype Signature = Signature(
    rule: string, character: Option<string>, checkpoint: string, stream: Option<Stream>, opcode: Option<nat>, fieldPath: seq<string>)

  // ----- comparing field by field

  datatype Ordering = Less | Equal | Greater {
    /** The first comparison decides, the next one only between equals. */
    function Then(next: Ordering): Ordering {
      if Equal? then next else this
    }

    function Flip(): Ordering {
      match this
      case Less => Greater
      case Equal => Equal
      case Greater => Less
    }
  }

  function Numbers(a: int, b: int): Ordering {
    if a < b then Less else if a == b then Equal else Greater
  }

  function Texts(a: string, b: string): Ordering {
    if a == b then Equal else if TextLe(a, b) then Less else Greater
  }

  function OptTexts(a: Option<string>, b: Option<string>): Ordering {
    if a.None? || b.None? then Numbers(if a.None? then 0 else 1, if b.None? then 0 else 1)
    else Texts(a.value, b.value)
  }

  function Rank(s: Stream): nat {
    match s
    case Opening => 0
    case Reply(_) => 1
    case Broadcast(_) => 2
    case Unexpected => 3
    case Malformed => 4
  }

  function IdOf(s: Stream): string {
    if s.Reply? || s.Broadcast? then s.id else ""
  }

  function Streams(a: Stream, b: Stream): Ordering {
    Numbers(Rank(a), Rank(b)).Then(if Rank(a) == Rank(b) then Texts(IdOf(a), IdOf(b)) else Equal)
  }

  function OptStreams(a: Option<Stream>, b: Option<Stream>): Ordering {
    if a.None? || b.None? then Numbers(if a.None? then 0 else 1, if b.None? then 0 else 1)
    else Streams(a.value, b.value)
  }

  function OptNumbers(a: Option<nat>, b: Option<nat>): Ordering {
    if a.None? || b.None? then Numbers(if a.None? then 0 else 1, if b.None? then 0 else 1)
    else Numbers(a.value, b.value)
  }

  function Paths(a: seq<string>, b: seq<string>): Ordering {
    if |a| == 0 || |b| == 0 then Numbers(|a|, |b|) else Texts(a[0], b[0]).Then(Paths(a[1..], b[1..]))
  }

  /** The derived order: field after field, an absent value before a present one. */
  function Compare(a: Signature, b: Signature): Ordering {
    Texts(a.rule, b.rule)
    .Then(OptTexts(a.character, b.character))
    .Then(Texts(a.checkpoint, b.checkpoint))
    .Then(OptStreams(a.stream, b.stream))
    .Then(OptNumbers(a.opcode, b.opcode))
    .Then(Paths(a.fieldPath, b.fieldPath))
  }

  predicate SignatureLe(a: Signature, b: Signature) {
    !Compare(a, b).Greater?
  }

  predicate Below(a: Signature, b: Signature) {
    Compare(a, b).Less?
  }

  // ----- it is a total order

  /** The comparisons of a with b, b with c and a with c fit together. */
  predicate Chained(ab: Ordering, bc: Ordering, ac: Ordering) {
    && (ab.Equal? ==> ac == bc)
    && (bc.Equal? ==> ac == ab)
    && (ab == bc ==> ac == ab)
  }

  lemma TextsOrder(a: string, b: string, c: string)
    ensures Texts(b, a) == Texts(a, b).Flip()
    ensures Chained(Texts(a, b), Texts(b, c), Texts(a, c))
  {
    TextLeTotal(a, b);
    TextLeTotal(b, c);
    TextLeTotal(a, c);
    if TextLe(a, b) && TextLe(b, c) {
      TextLeTransitive(a, b, c);
    }
    if TextLe(c, b) && TextLe(b, a) {
      TextLeTransitive(c, b, a);
    }
  }

  lemma {:induction false} PathsOrder(a: seq<string>, b: seq<string>, c: seq<string>)
    ensures Paths(a, a) == Equal
    ensures Paths(a, b) == Equal ==> a == b
    ensures Paths(b, a) == Paths(a, b).Flip()
    ensures Chained(Paths(a, b), Paths(b, c), Paths(a, c))
    decreases |a| + |b| + |c|
  {
    if |a| > 0 {
      PathsOrder(a[1..], if |b| > 0 then b[1..] else b, if |c| > 0 then c[1..] else c);
      assert a == [a[0]] + a[1..];
    }
    if |b| > 0 {
      assert b == [b[0]] + b[1..];
    }
    if |a| > 0 && |b| > 0 {
      TextsOrder(a[0], b[0], if |c| > 0 then c[0] else "");
    }
  }

  function ValueOf(o: Option<string>): string { if o.None? then "" else o.value }

  function NameOf(o: Option<Stream>): string { if o.None? then "" else IdOf(o.value) }

  lemma OptionsOrder(a: Signature, b: Signature, c: Signature)
    ensures OptTexts(b.character, a.character) == OptTexts(a.character, b.character).Flip()
    ensures OptStreams(b.stream, a.stream) == OptStreams(a.stream, b.stream).Flip()
    ensures OptStreams(a.stream, b.stream).Equal? ==> a.stream == b.stream
    ensures Chained(OptTexts(a.character, b.character), OptTexts(b.character, c.character), OptTexts(a.character, c.character))
    ensures Chained(OptStreams(a.stream, b.stream), OptStreams(b.stream, c.stream), OptStreams(a.stream, c.stream))
  {
    TextsOrder(ValueOf(a.character), ValueOf(b.character), ValueOf(c.character));
    TextsOrder(NameOf(a.stream), NameOf(b.stream), NameOf(c.stream));
  }

  lemma CompareOrders(a: Signature, b: Signature, c: Signature)
    ensures Compare(a, b).Equal? <==> a == b
    ensures Compare(b, a) == Compare(a, b).Flip()
    ensures Chained(Compare(a, b), Compare(b, c), Compare(a, c))
  {
    TextsOrder(a.rule, b.rule, c.rule);
    TextsOrder(a.checkpoint, b.checkpoint, c.checkpoint);
    OptionsOrder(a, b, c);
    PathsOrder(a.fieldPath, b.fieldPath, c.fieldPath);
  }

  lemma SignatureLeIsOrder()
    ensures TotalOrder(SignatureLe)
  {
    forall a, b ensures (SignatureLe(a, b) || SignatureLe(b, a)) && (SignatureLe(a, b) && SignatureLe(b, a) ==> a == b) {
      CompareOrders(a, b, a);
    }
    forall a, b, c | SignatureLe(a, b) && SignatureLe(b, c) ensures SignatureLe(a, c) {
      CompareOrders(a, b, c);
    }
  }

  /** Each below the next: the check over neighbours that both tools make. */
  predicate Ascending(s: seq<Signature>) {
    forall i | 0 <= i < |s| - 1 :: Below(s[i], s[i + 1])
  }

  lemma {:induction false} AscendingPairs(s: seq<Signature>, i: nat, j: nat)
    requires Ascending(s) && i < j < |s|
    ensures Below(s[i], s[j])
    decreases j - i
  {
    if i + 1 < j {
      AscendingPairs(s, i + 1, j);
      CompareOrders(s[i], s[i + 1], s[j]);
    }
  }

  /** A set of signatures has one ascending listing. */
  lemma AscendingUnique(a: seq<Signature>, b: seq<Signature>)
    requires Ascending(a) && Ascending(b) && (forall x :: x in a <==> x in b)
    ensures a == b
  {
    SignatureLeIsOrder();
    AscendingOnce(a);
    AscendingOnce(b);
    assert multiset(a) == multiset(b);
    SortedUnique(a, b, SignatureLe);
  }

  lemma {:induction false} AscendingOnce(s: seq<Signature>)
    requires Ascending(s)
    ensures Sorted(s, SignatureLe)
    ensures forall x :: multiset(s)[x] == if x in s then 1 else 0
  {
    forall i, j | 0 <= i < j < |s| ensures Below(s[i], s[j]) {
      AscendingPairs(s, i, j);
    }
    Distinct(s);
  }

  lemma {:induction false} Distinct(s: seq<Signature>)
    requires forall i, j | 0 <= i < j < |s| :: Below(s[i], s[j])
    ensures forall x :: multiset(s)[x] == if x in s then 1 else 0
  {
    if |s| > 0 {
      var n := |s| - 1;
      Distinct(s[..n]);
      assert s == s[..n] + [s[n]];
      forall x | x in s[..n] ensures x != s[n] {
        CompareOrders(x, s[n], x);
      }
    }
  }
}
