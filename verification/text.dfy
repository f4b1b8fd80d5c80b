/**
 * The handful of Python `str` operations the script relies on: `strip()`,
 * `lower()` and `split()` with no separator. Whitespace and case are modelled
 * on ASCII only.
 */
module Text {

  /** `c.isspace()` for ASCII characters: blank, \t, \n, \v, \f, \r and the
      four separators \x1c to \x1f. */
  predicate IsSpace(c: char) {
    c == ' ' || c == '\t' || c == '\n' || c == '\r'
    || c == '\U{B}' || c == '\U{C}' || ('\U{1C}' <= c <= '\U{1F}')
  }

  predicate NoSpace(s: string) {
    forall i :: 0 <= i < |s| ==> !IsSpace(s[i])
  }

  predicate AllSpace(s: string) {
    forall i :: 0 <= i < |s| ==> IsSpace(s[i])
  }

  /** Neither end is whitespace: what `strip()` leaves behind. */
  predicate IsStripped(s: string) {
    s == [] || (!IsSpace(s[0]) && !IsSpace(s[|s| - 1]))
  }

  // The trimming functions carry their properties in the lemmas after them
  // rather than in ensures clauses, so that comparing stripped strings
  // elsewhere stays cheap for the verifier.

  /** `lstrip()`: drop leading whitespace. */
  function TrimLeft(s: string): string {
    if s != [] && IsSpace(s[0]) then TrimLeft(s[1..]) else s
  }

  /** `lstrip()` leaves a suffix that starts with a non-blank, and removes
      only whitespace. */
  lemma {:induction false} TrimLeftSpec(s: string)
    ensures |TrimLeft(s)| <= |s| && TrimLeft(s) == s[|s| - |TrimLeft(s)|..]
    ensures AllSpace(s[..|s| - |TrimLeft(s)|])
    ensures TrimLeft(s) == [] || !IsSpace(TrimLeft(s)[0])
    decreases |s|
  {
    if s != [] && IsSpace(s[0]) {
      TrimLeftSpec(s[1..]);
      var k := |s| - |TrimLeft(s)|;
      assert forall i :: 1 <= i < k ==> s[..k][i] == s[1..][..k - 1][i - 1];
    }
  }

  /** `rstrip()`: drop trailing whitespace. */
  function TrimRight(s: string): string {
    if s != [] && IsSpace(s[|s| - 1]) then TrimRight(s[..|s| - 1]) else s
  }

  /** `rstrip()` leaves a prefix that ends with a non-blank, and removes only
      whitespace. */
  lemma {:induction false} TrimRightSpec(s: string)
    ensures |TrimRight(s)| <= |s| && TrimRight(s) == s[..|TrimRight(s)|]
    ensures AllSpace(s[|TrimRight(s)|..])
    ensures TrimRight(s) == [] || !IsSpace(TrimRight(s)[|TrimRight(s)| - 1])
    decreases |s|
  {
    if s != [] && IsSpace(s[|s| - 1]) {
      var p := s[..|s| - 1];
      TrimRightSpec(p);
      var k := |TrimRight(s)|;
      assert forall j :: 0 <= j < |s| - 1 - k ==> s[k..][j] == p[k..][j];
    }
  }

  /** `strip()`. */
  function Strip(s: string): string {
    TrimRight(TrimLeft(s))
  }

  /** `strip()` leaves no whitespace at either end, and comes back empty
      exactly when `s` is all whitespace. */
  lemma StripSpec(s: string)
    ensures |Strip(s)| <= |s| && IsStripped(Strip(s))
    ensures Strip(s) == [] <==> AllSpace(s)
  {
    var t := TrimLeft(s);
    var r := TrimRight(t);
    TrimLeftSpec(s);
    TrimRightSpec(t);
    assert r == [] ==> t == [] by {
      assert r == [] ==> t[|r|..] == t;
    }
    assert t == [] ==> s[..|s| - |t|] == s;
    assert t != [] ==> t[0] == s[|s| - |t|];
  }

  /** `strip()` removes whitespace at the two ends and nothing else: the
      result sits at offset `i` in `s`, with only whitespace around it. */
  lemma StripRemovesOnlyOuterSpace(s: string) returns (i: nat)
    ensures i + |Strip(s)| <= |s|
    ensures Strip(s) == s[i..i + |Strip(s)|]
    ensures AllSpace(s[..i]) && AllSpace(s[i + |Strip(s)|..])
  {
    var t := TrimLeft(s);
    var r := TrimRight(t);
    TrimLeftSpec(s);
    TrimRightSpec(t);
    i := |s| - |t|;
    assert s[i..i + |r|] == t[..|r|];
    assert s[i + |r|..] == t[|r|..];
  }

  /** A string with no whitespace at either end is its own `strip()`. */
  lemma StripKeepsStripped(s: string)
    requires IsStripped(s)
    ensures Strip(s) == s
  {
    if s != [] {
      assert TrimLeft(s) == s;
      assert TrimRight(s) == s;
    }
  }

  function LowerChar(c: char): char {
    if 'A' <= c <= 'Z' then (c as int + 32) as char else c
  }

  /** `lower()` on ASCII letters; every other character is kept. */
  function Lower(s: string): (r: string)
    ensures |r| == |s|
  {
    seq(|s|, i requires 0 <= i < |s| => LowerChar(s[i]))
  }

  /** The longest prefix of `s` that holds no whitespace. */
  function Token(s: string): (w: string)
    ensures |w| <= |s| && w == s[..|w|] && NoSpace(w)
    ensures |w| == |s| || IsSpace(s[|w|])
  {
    if s == [] || IsSpace(s[0]) then [] else [s[0]] + Token(s[1..])
  }

  /** `split()` with no separator: the maximal runs of non-whitespace, in
      order. */
  function Words(s: string): (ws: seq<string>)
    ensures forall k :: 0 <= k < |ws| ==> ws[k] != [] && NoSpace(ws[k])
    ensures ws == [] <==> AllSpace(s)
    ensures ws != [] ==> ws[0] == Token(TrimLeft(s))
    decreases |s|
  {
    TrimLeftSpec(s);
    var t := TrimLeft(s);
    if t == [] then
      assert s[..|s| - |t|] == s;
      []
    else
      var w := Token(t);
      assert t[0] == s[|s| - |t|];
      assert w != [];
      var rest := Words(t[|w|..]);
      var ws := [w] + rest;
      assert forall k :: 0 <= k < |ws| ==> ws[k] != [] && NoSpace(ws[k]) by {
        forall k | 0 <= k < |ws| ensures ws[k] != [] && NoSpace(ws[k]) {
          if k > 0 {
            assert ws[k] == rest[k - 1];
          }
        }
      }
      ws
  }

  /** On a string that starts with a non-blank, `split()[0]` is the longest
      blank-free prefix. */
  lemma FirstWord(s: string)
    requires s != [] && !IsSpace(s[0])
    ensures Words(s) != [] && Words(s)[0] == Token(s)
  {
    assert TrimLeft(s) == s;
  }

  /** A non-empty string without whitespace splits into itself alone. */
  lemma {:induction false} SingleWord(s: string)
    requires s != [] && NoSpace(s)
    ensures Words(s) == [s]
  {
    assert TrimLeft(s) == s;
    var w := Token(s);
    assert |w| == |s|;
    assert w == s;
    assert s[|w|..] == [];
  }
}
