/** `parseAcceptLanguage` (app/composables/useLocale.ts): the first language
    tag of an HTTP `Accept-Language` header, used as the locale when the page
    is rendered on the server. */
module Locale {
  import opened Wrappers
  import opened JsText

  /** `s.split(',')[0]`: the text before the first comma, or all of `s` when
      it has none. */
  function FirstField(s: string): (r: string)
    ensures |r| <= |s| && r == s[..|r|]
    ensures ',' !in r
    ensures |r| < |s| ==> s[|r|] == ','
  {
    if s == [] || s[0] == ',' then [] else [s[0]] + FirstField(s[1..])
  }

  /** The first field of `tag + rest` is `tag` when `tag` has no comma and
      `rest` is empty or starts with one. */
  lemma {:induction false} FirstFieldOf(tag: string, rest: string)
    requires ',' !in tag
    requires rest == [] || rest[0] == ','
    ensures FirstField(tag + rest) == tag
  {
    if tag == [] {
      assert tag + rest == rest;
    } else {
      assert (tag + rest)[0] == tag[0] && (tag + rest)[1..] == tag[1..] + rest;
      assert tag[0] in tag;
      FirstFieldOf(tag[1..], rest);
    }
  }

  /** `parseAcceptLanguage`: `undefined` for a missing or empty header,
      otherwise the trimmed first field, or `undefined` when that is empty. */
  function ParseAcceptLanguage(header: Option<string>): (r: Option<string>)
    ensures header.None? || header.value == [] ==> r.None?
    ensures r.Some? ==> r.value != [] && NoEdgeWhitespace(r.value) && ',' !in r.value
  {
    if header.None? || header.value == [] then None
    else
      var field := FirstField(header.value);
      var first := Trim(field);
      TrimHasNoComma(field);
      if first == [] then None else Some(first)
  }

  /** Trimming cannot bring in a comma. */
  lemma TrimHasNoComma(s: string)
    requires ',' !in s
    ensures ',' !in Trim(s)
  {
    var i, j :| 0 <= i <= j <= |s| && Trim(s) == s[i..j] && AllWhitespace(s[..i]) && AllWhitespace(s[j..]);
    forall k | 0 <= k < j - i ensures Trim(s)[k] != ',' {
      assert Trim(s)[k] == s[i + k];
    }
  }

  /** The result is the trimmed text before the first comma, whatever
      follows it. */
  lemma FirstTagWins(tag: string, rest: string)
    requires ',' !in tag
    ensures ParseAcceptLanguage(Some(tag + [','] + rest)) ==
      if Trim(tag) == [] then None else Some(Trim(tag))
  {
    assert tag + [','] + rest == tag + ([','] + rest);
    FirstFieldOf(tag, [','] + rest);
  }

  /** A header with a single tag gives that tag, trimmed. */
  lemma SingleTag(header: string)
    requires ',' !in header
    ensures ParseAcceptLanguage(Some(header)) ==
      if Trim(header) == [] then None else Some(Trim(header))
  {
    FirstFieldOf(header, []);
    assert header + [] == header;
  }

  /** A header as a browser sends it. */
  lemma BrowserHeaderExample()
    ensures ParseAcceptLanguage(Some("en-GB,en;q=0.9")) == Some("en-GB")
  {
    ExampleHeaderPieces();
    ExampleTagTrimmed();
    FirstTagWins("en-GB", "en;q=0.9");
  }

  /** The example header splits at its comma into a tag without one. */
  lemma ExampleHeaderPieces()
    ensures "en-GB,en;q=0.9" == "en-GB" + [','] + "en;q=0.9"
    ensures ',' !in "en-GB"
  {
    var tag := "en-GB";
    assert tag[0] != ',' && tag[1] != ',' && tag[2] != ',' && tag[3] != ',' && tag[4] != ',';
    assert forall k :: 0 <= k < |tag| ==> tag[k] != ',';
  }

  /** `"en-GB"` has no white space to trim. */
  lemma ExampleTagTrimmed()
    ensures Trim("en-GB") == "en-GB"
  {
    var tag := "en-GB";
    assert NoEdgeWhitespace(tag) by {
      assert tag[0] == 'e' && tag[|tag| - 1] == 'B';
    }
    TrimOfEdgeless(tag);
  }
}
