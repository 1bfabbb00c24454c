/**
 * `strtok(argstr, " ")` as the option parser uses it: the option string is
 * cut at single spaces, runs of spaces are skipped, and every token is a
 * maximal run of non-space characters.  The C library's strtok is not part
 * of this model; this is its documented behaviour for the delimiter set " ".
 */
module Tokenize {

  predicate IsToken(t: string)
  {
    t != [] && ' ' !in t
  }

  /** Length of the leading run of non-space characters. */
  function WordLength(s: string): (n: nat)
    ensures n <= |s|
    ensures forall i :: 0 <= i < n ==> s[i] != ' '
    ensures n < |s| ==> s[n] == ' '
  {
    if s == [] || s[0] == ' ' then 0 else 1 + WordLength(s[1..])
  }

  /** The successive results of strtok on `s`. */
  function Tokens(s: string): (ts: seq<string>)
    ensures forall i :: 0 <= i < |ts| ==> IsToken(ts[i])
    decreases |s|
  {
    if s == [] then []
    else if s[0] == ' ' then Tokens(s[1..])
    else
      var n := WordLength(s);
      assert forall j :: 0 <= j < n ==> s[..n][j] == s[j];
      [s[..n]] + Tokens(s[n..])
  }

  /** The tokens written back with one space between neighbours. */
  function Join(ts: seq<string>): string
  {
    if ts == [] then ""
    else if |ts| == 1 then ts[0]
    else ts[0] + " " + Join(ts[1..])
  }

  lemma {:induction false} WordLengthOfToken(w: string, rest: string)
    requires IsToken(w)
    requires rest == [] || rest[0] == ' '
    ensures WordLength(w + rest) == |w|
    decreases |w|
  {
    var s := w + rest;
    assert s[0] == w[0];
    if |w| > 1 {
      assert s[1..] == w[1..] + rest;
      assert w[0] in w;
      WordLengthOfToken(w[1..], rest);
    } else {
      assert s[1..] == rest;
    }
  }

  /** Splitting a string built from tokens gives the tokens back. */
  lemma {:induction false} TokensOfJoin(ts: seq<string>)
    requires forall i :: 0 <= i < |ts| ==> IsToken(ts[i])
    ensures Tokens(Join(ts)) == ts
  {
    if ts == [] {
    } else if |ts| == 1 {
      var w := ts[0];
      WordLengthOfToken(w, "");
      assert w + "" == w;
      assert w[..|w|] == w && w[|w|..] == [];
    } else {
      var w, rest := ts[0], Join(ts[1..]);
      var s := w + " " + rest;
      assert s == w + (" " + rest);
      WordLengthOfToken(w, " " + rest);
      assert s[..|w|] == w;
      assert s[|w|..] == " " + rest;
      assert (" " + rest)[1..] == rest;
      TokensOfJoin(ts[1..]);
    }
  }
}
