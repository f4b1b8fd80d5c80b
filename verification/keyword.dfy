/**
 * Keyword derivation after the completion service has answered: the
 * "keyword" field of the parsed reply is stripped, an empty keyword becomes
 * `None`, and anything longer than one word is cut to its first word.
 */
module Keyword {
  import opened Wrappers
  import opened Text

  /** The search keyword for `field`, the reply's "keyword" entry (`None`
      when the reply has no such entry, which reads as ""). */
  function NormaliseKeyword(field: Option<string>): (r: Option<string>)
    // empty after stripping: no keyword, and the run stops
    ensures r.None? <==> AllSpace(field.GetOr(""))
    // otherwise one word: non-empty, blank-free, the longest blank-free
    // prefix of the stripped keyword
    ensures r.Some? ==>
      var k := Strip(field.GetOr(""));
      r.value != [] && NoSpace(r.value) && |r.value| <= |k| && r.value == k[..|r.value|]
      && (|r.value| == |k| || IsSpace(k[|r.value|]))
    // a keyword that is already one word, blanks around it aside, is kept whole
    ensures Strip(field.GetOr("")) != [] && NoSpace(Strip(field.GetOr(""))) ==>
      r == Some(Strip(field.GetOr("")))
  {
    var keyword := Strip(field.GetOr(""));
    StripSpec(field.GetOr(""));
    if keyword == [] then None
    else
      FirstWord(keyword);
      assert NoSpace(keyword) ==> Words(keyword) == [keyword] by {
        if NoSpace(keyword) {
          SingleWord(keyword);
        }
      }
      Some(Words(keyword)[0])
  }

  /** Feeding the keyword back in changes nothing: a derived keyword is
      already in normal form. */
  lemma NormaliseKeywordIdempotent(field: Option<string>)
    requires NormaliseKeyword(field).Some?
    ensures NormaliseKeyword(Some(NormaliseKeyword(field).value)) == NormaliseKeyword(field)
  {
    var w := NormaliseKeyword(field).value;
    StripKeepsStripped(w);
    StripSpec(w);
  }
}
