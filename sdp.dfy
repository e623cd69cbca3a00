/**
 * The bandwidth patch applied to every outgoing session description
 * (transformOutgoingSdp in connection.js): the SDP text is split on the
 * token "b=AS:30" as JavaScript's String.prototype.split does, and the
 * first two pieces are glued back with "b=AS:1638400" between them.
 */
module Sdp {
  import opened Wrappers

  const Token: string := "b=AS:30"
  const Replacement: string := "b=AS:1638400"
  /** What JavaScript's `+` appends for the missing second piece. */
  const Undefined: string := "undefined"

  /** `t` occurs in `s` starting at position p. */
  predicate OccursAt(s: string, t: string, p: nat) {
    p + |t| <= |s| && s[p..p + |t|] == t
  }

  /** Occurrences in `s` past position 0 are the occurrences in `s[1..]`, shifted by one. */
  lemma OccursShift(s: string, t: string)
    requires |s| > 0
    ensures forall q: nat :: q >= 1 ==> (OccursAt(s, t, q) <==> OccursAt(s[1..], t, q - 1))
  {
    forall q: nat | q >= 1
      ensures OccursAt(s, t, q) <==> OccursAt(s[1..], t, q - 1)
    {
      if q + |t| <= |s| {
        var a, b := s[q..q + |t|], s[1..][q - 1..q - 1 + |t|];
        assert |a| == |b|;
        forall k | 0 <= k < |t|
          ensures a[k] == b[k]
        {
          assert a[k] == s[q + k] && b[k] == s[q + k];
        }
        assert a == b;
      }
    }
  }

  /** The position of the first occurrence of `t` in `s`, if any. */
  function IndexOf(s: string, t: string): (r: Option<nat>)
    requires |t| > 0
    ensures r.Some? ==> OccursAt(s, t, r.value)
    ensures r.Some? ==> forall q: nat :: q < r.value ==> !OccursAt(s, t, q)
    ensures r.None? ==> forall q: nat :: !OccursAt(s, t, q)
    decreases |s|
  {
    if |s| < |t| then None
    else if s[..|t|] == t then Some(0)
    else
      var r := IndexOf(s[1..], t);
      OccursShift(s, t);
      assert !OccursAt(s, t, 0);
      match r
      case None => None
      case Some(p) => Some(p + 1)
  }

  /** String.prototype.split with a non-empty string separator. */
  function SplitOn(s: string, sep: string): (parts: seq<string>)
    requires |sep| > 0
    ensures |parts| >= 1
    decreases |s|
  {
    match IndexOf(s, sep)
    case None => [s]
    case Some(p) => [s[..p]] + SplitOn(s[p + |sep|..], sep)
  }

  /** The first piece of the split ends at the leftmost occurrence of the separator. */
  lemma SplitOnFirst(s: string, sep: string)
    requires |sep| > 0
    ensures IndexOf(s, sep) == None ==> SplitOn(s, sep) == [s]
    ensures forall p :: IndexOf(s, sep) == Some(p) ==> SplitOn(s, sep)[0] == s[..p]
  {
  }

  /** Array.prototype.join: the pieces with the separator between them. */
  function Join(parts: seq<string>, sep: string): string {
    if |parts| == 0 then ""
    else if |parts| == 1 then parts[0]
    else parts[0] + sep + Join(parts[1..], sep)
  }

  /** Splitting and joining again with the same separator gives the text back. */
  lemma {:induction false} SplitJoin(s: string, sep: string)
    requires |sep| > 0
    ensures Join(SplitOn(s, sep), sep) == s
    decreases |s|
  {
    match IndexOf(s, sep)
    case None =>
    case Some(p) =>
      var rest := s[p + |sep|..];
      var ps := SplitOn(rest, sep);
      SplitJoin(rest, sep);
      assert SplitOn(s, sep) == [s[..p]] + ps;
      assert ([s[..p]] + ps)[1..] == ps;
      assert Join([s[..p]] + ps, sep) == s[..p] + sep + Join(ps, sep);
      assert s == s[..p] + sep + rest by {
        assert s[p..p + |sep|] == sep;
        assert s == s[..p] + s[p..p + |sep|] + s[p + |sep|..];
      }
  }

  /** No piece of a split contains the separator. */
  lemma {:induction false} SplitPiecesFree(s: string, sep: string)
    requires |sep| > 0
    ensures forall i :: 0 <= i < |SplitOn(s, sep)| ==> IndexOf(SplitOn(s, sep)[i], sep).None?
    decreases |s|
  {
    match IndexOf(s, sep)
    case None =>
    case Some(p) =>
      var rest := s[p + |sep|..];
      SplitPiecesFree(rest, sep);
      var head := s[..p];
      if IndexOf(head, sep).Some? {
        var q := IndexOf(head, sep).value;
        assert head[q..q + |sep|] == s[q..q + |sep|];
        assert OccursAt(s, sep, q);
        assert false;
      }
      assert SplitOn(s, sep) == [head] + SplitOn(rest, sep);
  }

  /** transformOutgoingSdp: the first piece, the new bandwidth line, then the second piece. */
  function TransformOutgoingSdp(sdp: string): string {
    var pieces := SplitOn(sdp, Token);
    pieces[0] + Replacement + (if |pieces| > 1 then pieces[1] else Undefined)
  }

  /**
   * When the token occurs first at p, the result is the text before p, the
   * replacement, and the text after the token up to its next occurrence (or
   * to the end when there is none): the first occurrence is replaced, and
   * everything from a second occurrence onward is dropped.
   */
  lemma TransformWithToken(sdp: string, p: nat)
    requires IndexOf(sdp, Token) == Some(p)
    ensures var rest := sdp[p + |Token|..];
      TransformOutgoingSdp(sdp) ==
        sdp[..p] + Replacement + (match IndexOf(rest, Token) case None => rest case Some(q) => rest[..q])
  {
    var rest := sdp[p + |Token|..];
    assert SplitOn(sdp, Token) == [sdp[..p]] + SplitOn(rest, Token);
  }

  /** With exactly one occurrence, the patch replaces the token in place and keeps the rest. */
  lemma TransformSingleToken(sdp: string, p: nat)
    requires OccursAt(sdp, Token, p)
    requires forall q: nat :: q != p ==> !OccursAt(sdp, Token, q)
    ensures TransformOutgoingSdp(sdp) == sdp[..p] + Replacement + sdp[p + |Token|..]
  {
    var r := IndexOf(sdp, Token);
    assert r == Some(p);
    var rest := sdp[p + |Token|..];
    if IndexOf(rest, Token).Some? {
      var q := IndexOf(rest, Token).value;
      assert rest[q..q + |Token|] == sdp[p + |Token| + q .. p + |Token| + q + |Token|];
      assert OccursAt(sdp, Token, p + |Token| + q);
      assert false;
    }
    TransformWithToken(sdp, p);
  }

  /** Without the token the text is kept, followed by the replacement and the word "undefined". */
  lemma TransformWithoutToken(sdp: string)
    requires IndexOf(sdp, Token).None?
    ensures TransformOutgoingSdp(sdp) == sdp + Replacement + Undefined
  {
  }
}
