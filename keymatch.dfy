/**
 * Switch-name matching of the IJG command-line tools (`keymatch` in cdjpeg.c),
 * which the option parser of ajpegtran.c calls for every switch and every
 * keyword argument.  cdjpeg.c is not part of this model; its behaviour is the
 * IJG one: the argument is compared character by character with the keyword
 * after forcing each upper-case ASCII letter of the argument to lower case,
 * an argument longer than the keyword fails, and a match needs at least
 * `minchars` characters.
 */
module Keywords {

  /** `tolower` of the C library on the ASCII range (`isupper` is false elsewhere). */
  function Lower(c: char): (r: char)
    ensures 'A' <= c <= 'Z' ==> r as int == c as int + 32
    ensures !('A' <= c <= 'Z') ==> r == c
  {
    if 'A' <= c <= 'Z' then (c as int + 32) as char else c
  }

  /** The argument with every character lower-cased. */
  function LowerAll(s: string): (r: string)
    ensures |r| == |s|
    ensures forall i :: 0 <= i < |s| ==> r[i] == Lower(s[i])
  {
    seq(|s|, i requires 0 <= i < |s| => Lower(s[i]))
  }

  /** keyword[..n] when at least n characters are left, for the contract below. */
  predicate IsAbbreviation(arg: string, keyword: string, minchars: int)
  {
    minchars <= |arg| <= |keyword| && LowerAll(arg) == keyword[..|arg|]
  }

  /**
   * The matching loop: one character of the argument at a time, `minchars`
   * counting down the characters still needed.
   */
  function Keymatch(arg: string, keyword: string, minchars: int): bool
    decreases |arg|
  {
    if arg == [] then minchars <= 0
    else if keyword == [] then false
    else if Lower(arg[0]) != keyword[0] then false
    else Keymatch(arg[1..], keyword[1..], minchars - 1)
  }

  /** keymatch accepts exactly the abbreviations of the keyword at least `minchars` long, ignoring the case of the argument. */
  lemma {:induction false} KeymatchMeans(arg: string, keyword: string, minchars: int)
    ensures Keymatch(arg, keyword, minchars) <==> IsAbbreviation(arg, keyword, minchars)
    decreases |arg|
  {
    if arg != [] && keyword != [] && Lower(arg[0]) == keyword[0] {
      KeymatchMeans(arg[1..], keyword[1..], minchars - 1);
      assert LowerAll(arg) == [Lower(arg[0])] + LowerAll(arg[1..]);
      assert |arg| <= |keyword| ==> keyword[..|arg|] == [keyword[0]] + keyword[1..][..|arg| - 1];
    } else if arg != [] && keyword != [] {
      if |arg| <= |keyword| {
        assert LowerAll(arg)[0] != keyword[..|arg|][0];
      }
    }
  }

  /** Every lower-case keyword matches itself and each of its abbreviations of at least `minchars` characters. */
  lemma {:induction false} AbbreviationMatches(keyword: string, n: nat, minchars: int)
    requires minchars <= n <= |keyword|
    requires forall i :: 0 <= i < |keyword| ==> !('A' <= keyword[i] <= 'Z')
    ensures Keymatch(keyword[..n], keyword, minchars)
  {
    assert LowerAll(keyword[..n]) == keyword[..n];
    KeymatchMeans(keyword[..n], keyword, minchars);
  }

  /** In particular a lower-case keyword written out in full matches itself. */
  lemma MatchesItself(keyword: string, minchars: int)
    requires minchars <= |keyword|
    requires forall i :: 0 <= i < |keyword| ==> !('A' <= keyword[i] <= 'Z')
    ensures Keymatch(keyword, keyword, minchars)
  {
    AbbreviationMatches(keyword, |keyword|, minchars);
    assert keyword[..|keyword|] == keyword;
  }
}
