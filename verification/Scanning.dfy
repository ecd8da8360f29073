/** Taking text apart from the left. */
module Scanning {

  /** The longest prefix of characters of a kind. */
  function TakeWhile(kind: char -> bool, s: string): (t: string)
    ensures t <= s && (forall i | 0 <= i < |t| :: kind(t[i])) && (|t| < |s| ==> !kind(s[|t|]))
  {
    if |s| == 0 || !kind(s[0]) then [] else [s[0]] + TakeWhile(kind, s[1..])
  }

  lemma {:induction false} TakeWhileIs(kind: char -> bool, t: string, rest: string)
    requires forall i | 0 <= i < |t| :: kind(t[i])
    requires |rest| > 0 ==> !kind(rest[0])
    ensures TakeWhile(kind, t + rest) == t
    decreases |t|
  {
    if |t| > 0 {
      TakeWhileIs(kind, t[1..], rest);
      assert (t + rest)[1..] == t[1..] + rest;
    } else {
      assert t + rest == rest;
    }
  }

  /** Without the characters of a kind at both ends. */
  function Strip(space: char -> bool, s: string): string
    decreases |s|
  {
    if |s| == 0 then s
    else if space(s[0]) then Strip(space, s[1..])
    else if space(s[|s| - 1]) then Strip(space, s[..|s| - 1])
    else s
  }

  predicate StartsWith(s: string, prefix: string) {
    |prefix| <= |s| && s[..|prefix|] == prefix
  }
}
