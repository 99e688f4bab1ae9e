/** The proof-of-work target of src/blockchain.ts: the module-level regular
    expression `/^(0000)[^0](.*)/gi` and what its `test` method does.

    Because the expression carries the global flag, `test` is stateful: it
    starts its search at the expression's `lastIndex`, stores the end of a
    successful match there, and resets it to 0 after a failure. The pure
    functions below give the ECMAScript semantics of one `test` call; the
    class PowTarget holds the `lastIndex` that persists between calls. */
module Difficulty {
  import opened Wrappers

  /** The property a digest must have: four leading '0' characters, then a
      fifth character that is not '0'. */
  predicate Meets(s: string) {
    |s| >= 5 && s[..4] == "0000" && s[4] != '0'
  }

  /** The ECMAScript line terminators, the characters `.` does not match. */
  predicate IsLineTerminator(c: char) {
    c == '\n' || c == '\r' || c == '\U{2028}' || c == '\U{2029}'
  }

  /** Where the greedy `(.*)` that starts at position p stops: at the first
      line terminator at or after p, or at the end of the string. */
  function DotStarEnd(s: string, p: nat): (e: nat)
    requires p <= |s|
    decreases |s| - p
    ensures p <= e <= |s|
    ensures forall k :: p <= k < e ==> !IsLineTerminator(s[k])
    ensures e < |s| ==> IsLineTerminator(s[e])
  {
    if p == |s| || IsLineTerminator(s[p]) then p else DotStarEnd(s, p + 1)
  }

  /** One attempt to match `^(0000)[^0](.*)` starting at position p: the end
      index of the match, or None. Without the multiline flag `^` holds only
      at position 0. The ignore-case flag changes nothing, since no character
      case-folds to '0'. */
  function MatchAt(s: string, p: nat): Option<nat>
    requires p <= |s|
  {
    if p != 0 then None
    else if !(p + 4 <= |s| && s[p..p + 4] == "0000") then None
    else if !(p + 4 < |s| && s[p + 4] != '0') then None
    else Some(DotStarEnd(s, p + 5))
  }

  /** The search loop of RegExpBuiltinExec: try positions p, p + 1, ..., |s|
      in turn and stop at the first one where the pattern matches. */
  function ScanFrom(s: string, p: nat): Option<nat>
    requires p <= |s|
    decreases |s| - p
  {
    match MatchAt(s, p)
    case Some(e) => Some(e)
    case None => if p == |s| then None else ScanFrom(s, p + 1)
  }

  /** An attempt at position 0 succeeds exactly on the digests that meet the
      target, and a successful match ends past the fifth character. */
  lemma MatchAtStart(s: string)
    ensures MatchAt(s, 0).Some? <==> Meets(s)
    ensures MatchAt(s, 0).Some? ==> 5 <= MatchAt(s, 0).value <= |s|
  {
  }

  /** Since the pattern is anchored, a search that starts after position 0
      never finds a match, and one that starts at 0 finds what the attempt at
      0 finds. */
  lemma {:induction false} ScanFromAnchored(s: string, p: nat)
    requires p <= |s|
    ensures ScanFrom(s, p) == if p == 0 then MatchAt(s, 0) else None
    decreases |s| - p
  {
    if p < |s| && MatchAt(s, p).None? {
      ScanFromAnchored(s, p + 1);
    }
  }

  /** One call of `test` on s when the expression's `lastIndex` is
      lastIndex: whether it matched, and the new `lastIndex`. */
  function Exec(lastIndex: nat, s: string): (r: (bool, nat))
    ensures r.0 <==> lastIndex == 0 && Meets(s)
    ensures r.0 ==> 5 <= r.1 <= |s|
    ensures r.0 ==> r.1 == DotStarEnd(s, 5)
    ensures !r.0 ==> r.1 == 0
  {
    if lastIndex > |s| then
      (false, 0)
    else
      ScanFromAnchored(s, lastIndex);
      MatchAtStart(s);
      match ScanFrom(s, lastIndex)
      case None => (false, 0)
      case Some(e) => (true, e)
  }

  /** The nonce search restarts at 0 on every call, and its first `test`
      fails outright when a previous match left `lastIndex` non-zero; so the
      first nonce that can be accepted is 1 in that case and 0 otherwise. */
  function FirstTestableNonce(lastIndex: nat): (n: nat)
    ensures n <= 1
    ensures n == 1 ==> forall s :: Exec(lastIndex, s) == (false, 0)
    ensures n == 0 ==> forall s :: Exec(lastIndex, s).0 <==> Meets(s)
  {
    if lastIndex > 0 then 1 else 0
  }

  /** The regular-expression object `powTarget`, created once when the
      module is loaded and shared by every Blockchain instance. */
  class PowTarget {
    var lastIndex: nat

    /** Loading the module creates the expression with `lastIndex` 0. */
    constructor ()
      ensures lastIndex == 0
    {
      lastIndex := 0;
    }

    /** `powTarget.test(s)`. */
    method Test(s: string) returns (matched: bool)
      modifies this
      ensures matched <==> old(lastIndex) == 0 && Meets(s)
      ensures (matched, lastIndex) == Exec(old(lastIndex), s)
    {
      var r := Exec(lastIndex, s);
      matched, lastIndex := r.0, r.1;
    }
  }
}
