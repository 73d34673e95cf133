/**
 * The two pieces of java.lang string handling the accessor layer relies on:
 * StringTokenizer with a single delimiter, and String.trim.
 */
module Text {
  /** Length of the longest prefix of s without the delimiter d. */
  function RunLength(s: string, d: char): (k: nat)
    ensures k <= |s|
    ensures forall i :: 0 <= i < k ==> s[i] != d
    ensures k < |s| ==> s[k] == d
  {
    if s == [] || s[0] == d then 0 else 1 + RunLength(s[1..], d)
  }

  /**
   * The tokens a StringTokenizer over s with delimiter d returns: the
   * maximal non-empty runs of characters other than d, in order (empty
   * runs between adjacent delimiters are skipped).
   */
  function Tokens(s: string, d: char): (ts: seq<string>)
    ensures forall i :: 0 <= i < |ts| ==> ts[i] != [] && d !in ts[i]
    decreases |s|
  {
    if s == [] then []
    else if s[0] == d then Tokens(s[1..], d)
    else
      var k := RunLength(s, d);
      [s[..k]] + Tokens(s[k..], d)
  }

  /** The tokens joined back with single delimiters. */
  function Join(ts: seq<string>, d: char): string {
    if ts == [] then []
    else if |ts| == 1 then ts[0]
    else ts[0] + [d] + Join(ts[1..], d)
  }

  lemma {:induction false} RunLengthOfToken(t: string, rest: string, d: char)
    requires t != [] && d !in t
    requires rest == [] || rest[0] == d
    ensures RunLength(t + rest, d) == |t|
    decreases |t|
  {
    if |t| > 1 {
      assert (t + rest)[1..] == t[1..] + rest;
      RunLengthOfToken(t[1..], rest, d);
    } else {
      assert (t + rest)[1..] == rest;
    }
  }

  /** Tokenizing undoes joining, for tokens that are non-empty and free of the delimiter. */
  lemma {:induction false} TokensOfJoin(ts: seq<string>, d: char)
    requires forall i :: 0 <= i < |ts| ==> ts[i] != [] && d !in ts[i]
    ensures Tokens(Join(ts, d), d) == ts
    decreases |ts|
  {
    if |ts| == 1 {
      var s := ts[0];
      RunLengthOfToken(s, [], d);
      assert s + [] == s;
      assert s[|s|..] == [];
      assert s[..|s|] == s;
    } else if |ts| > 1 {
      var rest := [d] + Join(ts[1..], d);
      var s := ts[0] + rest;
      assert Join(ts, d) == s;
      RunLengthOfToken(ts[0], rest, d);
      assert s[..|ts[0]|] == ts[0];
      assert s[|ts[0]|..] == rest;
      assert rest[1..] == Join(ts[1..], d);
      TokensOfJoin(ts[1..], d);
      assert ts == [ts[0]] + ts[1..];
    }
  }

  /** String.trim's notion of white space: every character up to and including U+0020. */
  predicate IsSpace(c: char) { c <= ' ' }

  function TrimStart(s: string): (r: string)
    ensures |r| <= |s| && r == s[|s| - |r|..]
    ensures r != [] ==> !IsSpace(r[0])
  {
    if s != [] && IsSpace(s[0]) then TrimStart(s[1..]) else s
  }

  function TrimEnd(s: string): (r: string)
    ensures |r| <= |s| && r == s[..|r|]
    ensures r != [] ==> !IsSpace(r[|r| - 1])
    ensures r != [] ==> (s != [] && !IsSpace(s[0]) ==> !IsSpace(r[0]))
  {
    if s != [] && IsSpace(s[|s| - 1]) then TrimEnd(s[..|s| - 1]) else s
  }

  /** String.trim: s without its leading and trailing white space. */
  function Trim(s: string): (r: string)
    ensures r != [] ==> !IsSpace(r[0]) && !IsSpace(r[|r| - 1])
    ensures exists i, j :: 0 <= i <= j <= |s| && r == s[i..j]
  {
    var a := TrimStart(s);
    var r := TrimEnd(a);
    assert r == s[|s| - |a|..][..|r|] == s[|s| - |a|..|s| - |a| + |r|];
    r
  }

  /** Trimming is idempotent, and leaves a string without surrounding white space as it is. */
  lemma TrimUnchanged(s: string)
    requires s != [] ==> !IsSpace(s[0]) && !IsSpace(s[|s| - 1])
    ensures Trim(s) == s
  {
  }

  lemma TrimIdempotent(s: string)
    ensures Trim(Trim(s)) == Trim(s)
  {
    TrimUnchanged(Trim(s));
  }
}
