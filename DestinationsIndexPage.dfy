/**
 * The pagination bar of the destination search page. The paginator's link
 * labels arrive as HTML ("&laquo; Previous", "2", "Next &raquo;"); the page
 * rewrites them to plain text and sends a link without a URL to "#".
 */
module DestinationsIndexPage {
  import opened Common

  /** `toLowerCase()` on the ASCII letters. */
  function Lower(s: string): (r: string)
    ensures |r| == |s|
    ensures forall k :: 0 <= k < |s| ==> r[k] == (if 'A' <= s[k] <= 'Z' then (s[k] - 'A' + 'a') as char else s[k])
  {
    seq(|s|, k requires 0 <= k < |s| => if 'A' <= s[k] <= 'Z' then (s[k] - 'A' + 'a') as char else s[k])
  }

  /** The characters a regular-expression `.` does not match. */
  predicate LineTerminator(c: char)
  {
    c == '\n' || c == '\r' || c == '\U{2028}' || c == '\U{2029}'
  }

  /** From just after a `<`: the index of the first `>` reached before any line terminator. */
  function TagEnd(t: string): (r: Option<nat>)
    ensures r.Some? ==> r.value < |t| && t[r.value] == '>'
    ensures r.Some? ==> forall k :: 0 <= k < r.value ==> t[k] != '>' && !LineTerminator(t[k])
    ensures r.None? ==> forall j :: 0 <= j < |t| && t[j] == '>' ==> exists k :: 0 <= k < j && LineTerminator(t[k])
  {
    if t == [] then None
    else if t[0] == '>' then Some(0)
    else if LineTerminator(t[0]) then None
    else
      match TagEnd(t[1..])
      case None =>
        assert forall j :: 1 <= j < |t| ==> t[j] == t[1..][j - 1];
        None
      case Some(j) => Some(j + 1)
  }

  /** Some `<` reaches a `>` on its line: `/<.*?>/.test(s)`. */
  predicate HasTag(s: string)
  {
    exists i :: 0 <= i < |s| && s[i] == '<' && TagEnd(s[i + 1..]).Some?
  }

  /** `s.replace(/<.*?>/g, '')`: left to right, each `<` with the nearest `>` on its line is cut out with everything between. */
  function StripTags(s: string): (r: string)
    ensures |r| <= |s|
  {
    if s == [] then []
    else if s[0] == '<' && TagEnd(s[1..]).Some? then StripTags(s[TagEnd(s[1..]).value + 2..])
    else [s[0]] + StripTags(s[1..])
  }

  /** A link label as the pagination bar shows it. */
  function Label(text: string): (r: string)
    ensures ContainsSub(Lower(text), "previous") ==> r == "Previous"
    ensures !ContainsSub(Lower(text), "previous") && ContainsSub(Lower(text), "next") ==> r == "Next"
    ensures !ContainsSub(Lower(text), "previous") && !ContainsSub(Lower(text), "next") && HasTag(text) ==>
      r == StripTags(text) && !HasTag(r)
    ensures !ContainsSub(Lower(text), "previous") && !ContainsSub(Lower(text), "next") && !HasTag(text) ==> r == text
  {
    if ContainsSub(Lower(text), "previous") then "Previous"
    else if ContainsSub(Lower(text), "next") then "Next"
    else
      if HasTag(text) then
        StripLeavesNoTag(text);
        StripTags(text)
      else
        text
  }

  /** `link.url || '#'`: a missing or empty URL becomes "#". */
  function Href(url: Option<string>): (r: string)
    ensures r != []
    ensures url.Some? && url.value != [] ==> r == url.value
  {
    if url.None? || url.value == [] then "#" else url.value
  }

  // ---------------------------------------------------------------------------
  // What stripping promises.

  /** A `<` that cannot reach a `>` in `s` cannot reach one in what stripping leaves of `s` either. */
  lemma {:induction false} StripKeepsUnclosed(s: string)
    requires TagEnd(s).None?
    ensures TagEnd(StripTags(s)).None?
  {
    if s != [] && !LineTerminator(s[0]) {
      assert s[0] != '>';
      assert TagEnd(s[1..]).None?;
      StripKeepsUnclosed(s[1..]);
      if s[0] == '<' {
        assert StripTags(s) == [s[0]] + StripTags(s[1..]);
      }
      assert StripTags(s)[1..] == StripTags(s[1..]);
    }
  }

  /** Nothing tag-shaped survives stripping. */
  lemma {:induction false} StripLeavesNoTag(s: string)
    ensures !HasTag(StripTags(s))
  {
    if s != [] {
      if s[0] == '<' && TagEnd(s[1..]).Some? {
        StripLeavesNoTag(s[TagEnd(s[1..]).value + 2..]);
      } else {
        StripLeavesNoTag(s[1..]);
        var r := StripTags(s);
        assert r[1..] == StripTags(s[1..]);
        forall i | 0 <= i < |r| && r[i] == '<'
          ensures TagEnd(r[i + 1..]).None?
        {
          if i == 0 {
            StripKeepsUnclosed(s[1..]);
          } else {
            assert r[1..][i - 1] == '<';
            assert r[1..][i..] == r[i + 1..];
          }
        }
      }
    }
  }

  /** A text with nothing tag-shaped in it passes through unchanged. */
  lemma {:induction false} StripWithoutTag(s: string)
    requires !HasTag(s)
    ensures StripTags(s) == s
  {
    if s != [] {
      assert s[0] == '<' ==> TagEnd(s[1..]).None?;
      assert !HasTag(s[1..]) by {
        forall i | 0 <= i < |s[1..]| && s[1..][i] == '<'
          ensures TagEnd(s[1..][i + 1..]).None?
        {
          assert s[1..][i + 1..] == s[i + 2..];
          assert s[i + 1] == '<';
        }
      }
      StripWithoutTag(s[1..]);
      assert s == [s[0]] + s[1..];
    }
  }

  /** The `>` closing a tag whose inside has no `>` and no line break is the one right after that inside. */
  lemma {:induction false} TagEndAfter(t: string, b: string)
    requires forall k :: 0 <= k < |t| ==> t[k] != '>' && !LineTerminator(t[k])
    ensures TagEnd(t + ">" + b) == Some(|t|)
  {
    if t == [] {
      assert (t + ">" + b)[0] == '>';
    } else {
      assert (t + ">" + b)[1..] == t[1..] + ">" + b;
      TagEndAfter(t[1..], b);
    }
  }

  /** A leading tag is cut out whole, and stripping carries on after it. */
  lemma StripTagPrefix(t: string, b: string)
    requires forall k :: 0 <= k < |t| ==> t[k] != '>' && !LineTerminator(t[k])
    ensures StripTags("<" + t + ">" + b) == StripTags(b)
  {
    var s := "<" + t + ">" + b;
    assert s[1..] == t + ">" + b;
    TagEndAfter(t, b);
    assert s[|t| + 2..] == b;
  }

  /** A character that does not open a tag is kept, in place. */
  lemma StripKeepsText(c: char, b: string)
    requires c != '<'
    ensures StripTags([c] + b) == [c] + StripTags(b)
  {
    assert ([c] + b)[1..] == b;
  }

  /** A page number wrapped in markup is shown as the bare number. */
  lemma LabelStripsMarkup()
    ensures Label("<b>2</b>") == "2"
  {
    var text := "<b>2</b>";
    NoNavWords(text);
    MarkupIsTag();
    BoldTwoStripped();
  }

  lemma NoNavWords(text: string)
    requires text == "<b>2</b>"
    ensures !ContainsSub(Lower(text), "previous") && !ContainsSub(Lower(text), "next")
  {
    assert Lower(text) == text;
    assert 'p' !in text;
    assert 'n' !in text;
    if ContainsSub(text, "previous") {
      FirstCharInHay(text, "previous");
    }
    if ContainsSub(text, "next") {
      FirstCharInHay(text, "next");
    }
  }

  lemma MarkupIsTag()
    ensures HasTag("<b>2</b>")
  {
    var text := "<b>2</b>";
    TagEndAfter("b", "2</b>");
    assert text[1..] == "b" + ">" + "2</b>";
    assert text[0] == '<';
  }

  lemma BoldTwoStripped()
    ensures StripTags("<b>2</b>") == "2"
  {
    var t, rest := "b", "2</b>";
    assert "<b>2</b>" == "<" + t + ">" + rest;
    StripTagPrefix(t, rest);
    TwoThenCloseStripped();
  }

  lemma TwoThenCloseStripped()
    ensures StripTags("2</b>") == "2"
  {
    var close := "</b>";
    assert "2</b>" == ['2'] + close;
    StripKeepsText('2', close);
    CloseTagStripped();
  }

  lemma CloseTagStripped()
    ensures StripTags("</b>") == ""
  {
    var t, rest := "/b", "";
    assert "</b>" == "<" + t + ">" + rest;
    StripTagPrefix(t, rest);
  }

  /** Stripping twice is stripping once. */
  lemma StripIdempotent(s: string)
    ensures StripTags(StripTags(s)) == StripTags(s)
  {
    StripLeavesNoTag(s);
    StripWithoutTag(StripTags(s));
  }

  /** The paginator's default labels, and "previous" winning over "next". */
  lemma DefaultLabels()
    ensures Label("&laquo; Previous") == "Previous"
    ensures Label("Next &raquo;") == "Next"
    ensures Label("previous or next") == "Previous"
  {
    assert Lower("&laquo; Previous")[8..] == "previous";
    assert ContainsSub(Lower("&laquo; Previous")[8..], "previous");
    assert Lower("Next &raquo;")[..4] == "next";
    assert "next" <= Lower("Next &raquo;");
    assert Lower("previous or next")[..8] == "previous";
    assert "previous" <= Lower("previous or next");
    assert !ContainsSub(Lower("Next &raquo;"), "previous") by {
      assert Lower("Next &raquo;") == "next &raquo;";
      assert 'p' !in "next &raquo;";
      if ContainsSub(Lower("Next &raquo;"), "previous") {
        FirstCharInHay(Lower("Next &raquo;"), "previous");
      }
    }
    ContainsSubSuffix(Lower("&laquo; Previous"), "previous", 8);
  }

  lemma {:induction false} ContainsSubSuffix(hay: string, needle: string, k: nat)
    requires k <= |hay| && ContainsSub(hay[k..], needle)
    ensures ContainsSub(hay, needle)
  {
    if k > 0 {
      assert hay[1..][k - 1..] == hay[k..];
      ContainsSubSuffix(hay[1..], needle, k - 1);
    }
  }

  /** A non-empty needle found in the haystack brings its first character with it. */
  lemma {:induction false} FirstCharInHay(hay: string, needle: string)
    requires needle != [] && ContainsSub(hay, needle)
    ensures needle[0] in hay
  {
    if !(needle <= hay) {
      FirstCharInHay(hay[1..], needle);
    }
  }
}
